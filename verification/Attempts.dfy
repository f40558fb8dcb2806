/**
 What one call of `Process` (inbox/sqlstore.go) does to a row that nobody holds:
 from every state it can go through, and then the row, the domain writes and the
 result are those of one attempt.
 */
module Attempts {
  import opened Common
  import opened Inbox
  import Utf8

  // ---- A call among others -------------------------------------------------

  /** The state with one transaction added to it, which holds its row if it has one. */
  function Beside(s: State, t: TxId, tx: Tx): State {
    s.(txs := s.txs[t := tx], locks := if Holding(tx) then s.locks[tx.key := t] else s.locks)
  }

  /** The statements can be executed one after the other. */
  predicate Executable(committed: Option<Row>, tx: Tx, statements: seq<Statement>)
    decreases |statements|
  {
    statements == []
    || (CanExecute(committed, false, tx, statements[0])
        && Executable(committed, Executed(committed, tx, statements[0]), statements[1..]))
  }

  function After(committed: Option<Row>, tx: Tx, statements: seq<Statement>): Tx
    requires Executable(committed, tx, statements)
    decreases |statements|
  {
    if statements == [] then tx else After(committed, Executed(committed, tx, statements[0]), statements[1..])
  }

  function Executes(t: TxId, statements: seq<Statement>): seq<Action> {
    seq(|statements|, i requires 0 <= i < |statements| => Execute(t, statements[i]))
  }

  lemma StepBeside(s: State, t: TxId, tx: Tx, statement: Statement)
    requires t !in s.txs && tx.key !in s.locks && CanExecute(RowAt(s, tx.key), false, tx, statement)
    ensures Step(Beside(s, t, tx), Execute(t, statement)) ==
            Beside(s, t, Executed(RowAt(s, tx.key), tx, statement))
  {
    var next := Executed(RowAt(s, tx.key), tx, statement);
    assert s.txs[t := tx][t := next] == s.txs[t := next];
    assert s.locks[tx.key := t][tx.key := t] == s.locks[tx.key := t];
    assert s.locks[tx.key := t] - {tx.key} == s.locks;
  }

  lemma {:induction false} RunBeside(s: State, t: TxId, tx: Tx, statements: seq<Statement>)
    requires t !in s.txs && tx.key !in s.locks && Executable(RowAt(s, tx.key), tx, statements)
    ensures Run(Beside(s, t, tx), Executes(t, statements)) == Beside(s, t, After(RowAt(s, tx.key), tx, statements))
    decreases |statements|
  {
    if statements != [] {
      StepBeside(s, t, tx, statements[0]);
      RunBeside(s, t, Executed(RowAt(s, tx.key), tx, statements[0]), statements[1..]);
      assert Executes(t, statements)[1..] == Executes(t, statements[1..]);
    }
  }

  lemma {:induction false} AfterAppend(committed: Option<Row>, tx: Tx, xs: seq<Statement>, ys: seq<Statement>)
    requires Executable(committed, tx, xs) && Executable(committed, After(committed, tx, xs), ys)
    ensures Executable(committed, tx, xs + ys)
    ensures After(committed, tx, xs + ys) == After(committed, After(committed, tx, xs), ys)
    decreases |xs|
  {
    if xs == [] {
      assert xs + ys == ys;
    } else {
      AfterAppend(committed, Executed(committed, tx, xs[0]), xs[1..], ys);
      assert (xs + ys)[1..] == xs[1..] + ys;
    }
  }

  lemma AfterOne(committed: Option<Row>, tx: Tx, x: Statement)
    requires CanExecute(committed, false, tx, x)
    ensures Executable(committed, tx, [x]) && After(committed, tx, [x]) == Executed(committed, tx, x)
  {
    assert [x][1..] == [];
  }

  lemma AfterTwo(committed: Option<Row>, tx: Tx, x: Statement, y: Statement)
    requires CanExecute(committed, false, tx, x) && CanExecute(committed, false, Executed(committed, tx, x), y)
    ensures Executable(committed, tx, [x, y])
    ensures After(committed, tx, [x, y]) == Executed(committed, Executed(committed, tx, x), y)
  {
    AfterOne(committed, tx, x);
    AfterOne(committed, Executed(committed, tx, x), y);
    AfterAppend(committed, tx, [x], [y]);
    assert [x] + [y] == [x, y];
  }

  // ---- The parts of a call -------------------------------------------------

  function NewTx(k: Key): Tx {
    Tx(k, Begun, None, 0, [], 0, [])
  }

  /** The row as a call finds it: a new one is pending. */
  function Found(committed: Option<Row>): Row {
    if committed.Some? then committed.value else Row(Pending, 0, [], 1, None)
  }

  lemma GotRow(committed: Option<Row>, k: Key)
    ensures Executable(committed, NewTx(k), [InsertPending, LockRow])
    ensures After(committed, NewTx(k), [InsertPending, LockRow]) ==
            Tx(k, Locked, Some(Found(committed)), Found(committed).attempts, [], 0, [])
  {
    AfterTwo(committed, NewTx(k), InsertPending, LockRow);
  }

  /** The handler runs while the row says that it is processing, with one more attempt. */
  lemma InsideHandler(committed: Option<Row>, k: Key, row: Row)
    requires row.status != Completed
    ensures
      var tx := Tx(k, Locked, Some(row), row.attempts, [], 0, []);
      var marked := Row(Processing, row.attempts + 1, [], row.version + 1, row.completedAt);
      && Executable(committed, tx, [MarkProcessing, SetSavepoint])
      && After(committed, tx, [MarkProcessing, SetSavepoint]) ==
         Tx(k, Handling, Some(marked), row.attempts + 1, [], 0, [])
  {
    AfterTwo(committed, Tx(k, Locked, Some(row), row.attempts, [], 0, []), MarkProcessing, SetSavepoint);
  }

  function Writes(ws: seq<Write>): seq<Statement> {
    seq(|ws|, i requires 0 <= i < |ws| => DomainWrite(ws[i]))
  }

  lemma {:induction false} Wrote(committed: Option<Row>, tx: Tx, ws: seq<Write>)
    requires tx.phase.Handling?
    ensures Executable(committed, tx, Writes(ws))
    ensures After(committed, tx, Writes(ws)) == tx.(writes := tx.writes + ws, did := tx.did + ws)
    decreases |ws|
  {
    if ws == [] {
      assert tx.writes + ws == tx.writes && tx.did + ws == tx.did;
    } else {
      Wrote(committed, Executed(committed, tx, DomainWrite(ws[0])), ws[1..]);
      assert Writes(ws)[1..] == Writes(ws[1..]);
      assert tx.writes + [ws[0]] + ws[1..] == tx.writes + ws && tx.did + [ws[0]] + ws[1..] == tx.did + ws;
    }
  }

  // ---- Whole calls ---------------------------------------------------------

  const GET_ROW: seq<Statement> := [InsertPending, LockRow]
  const ENTER: seq<Statement> := [MarkProcessing, SetSavepoint]

  function Opening(ws: seq<Write>): seq<Statement> {
    GET_ROW + ENTER + Writes(ws)
  }

  /** The statements of a call whose handler makes these writes and returns this. */
  function Script(ws: seq<Write>, error: Option<seq<byte>>, now: int): seq<Statement> {
    Opening(ws) +
    (if error.None? then [HandlerReturns(None), ReleaseSavepoint] + [MarkCompleted(now)]
     else [HandlerReturns(error), RollbackToSavepoint] + [MarkFailed])
  }

  function Call(t: TxId, k: Key, statements: seq<Statement>): seq<Action> {
    [Begin(t, k)] + Executes(t, statements) + [CommitTx(t, true, true)]
  }

  lemma Opened(committed: Option<Row>, k: Key, ws: seq<Write>)
    requires Found(committed).status != Completed
    ensures Executable(committed, NewTx(k), Opening(ws))
    ensures
      var row := Found(committed);
      After(committed, NewTx(k), Opening(ws)) ==
      Tx(k, Handling, Some(Row(Processing, row.attempts + 1, [], row.version + 1, row.completedAt)),
         row.attempts + 1, ws, 0, ws)
  {
    var row := Found(committed);
    GotRow(committed, k);
    InsideHandler(committed, k, row);
    AfterAppend(committed, NewTx(k), GET_ROW, ENTER);
    var tx := After(committed, NewTx(k), GET_ROW + ENTER);
    Wrote(committed, tx, ws);
    AfterAppend(committed, NewTx(k), GET_ROW + ENTER, Writes(ws));
    assert [] + ws == ws;
  }

  lemma AfterThree(committed: Option<Row>, tx: Tx, x: Statement, y: Statement, z: Statement)
    requires CanExecute(committed, false, tx, x) && CanExecute(committed, false, Executed(committed, tx, x), y)
    requires CanExecute(committed, false, Executed(committed, Executed(committed, tx, x), y), z)
    ensures Executable(committed, tx, [x, y] + [z])
    ensures After(committed, tx, [x, y] + [z]) ==
            Executed(committed, Executed(committed, Executed(committed, tx, x), y), z)
  {
    AfterTwo(committed, tx, x, y);
    var tx2 := After(committed, tx, [x, y]);
    AfterOne(committed, tx2, z);
    AfterAppend(committed, tx, [x, y], [z]);
  }

  /** The row that an attempt leaves. */
  function Attempted(row: Row, error: Option<seq<byte>>, now: int): Row {
    if error.None? then Row(Completed, row.attempts + 1, [], row.version + 2, Some(now))
    else Row(Failed, row.attempts + 1, Utf8.Truncated(error.value, 4096), row.version + 2, row.completedAt)
  }

  lemma Scripted(committed: Option<Row>, k: Key, ws: seq<Write>, error: Option<seq<byte>>, now: int)
    requires Found(committed).status != Completed
    ensures Executable(committed, NewTx(k), Script(ws, error, now))
    ensures
      var row := Found(committed);
      After(committed, NewTx(k), Script(ws, error, now)) ==
      Tx(k, if error.None? then SuccessReady else FailureReady(error.value), Some(Attempted(row, error, now)),
         row.attempts + 1, if error.None? then ws else [], 0, ws)
  {
    Opened(committed, k, ws);
    var tx := After(committed, NewTx(k), Opening(ws));
    if error.None? {
      AfterThree(committed, tx, HandlerReturns(None), ReleaseSavepoint, MarkCompleted(now));
      AfterAppend(committed, NewTx(k), Opening(ws), [HandlerReturns(None), ReleaseSavepoint] + [MarkCompleted(now)]);
    } else {
      AfterThree(committed, tx, HandlerReturns(error), RollbackToSavepoint, MarkFailed);
      AfterAppend(committed, NewTx(k), Opening(ws), [HandlerReturns(error), RollbackToSavepoint] + [MarkFailed]);
    }
  }

  /** What a finished call leaves: the row, one commit in the log, the result, and
      everything else as it was. */
  predicate Leaves(s: State, s': State, c: Commit, outcome: Outcome) {
    && s'.rows == s.rows[c.key := c.row] && s'.locks == s.locks && s'.purged == s.purged
    && s'.log == s.log + [c]
    && c.tx in s'.txs && s'.txs[c.tx].phase == Ended(outcome)
    && (forall u :: u in s.txs ==> u in s'.txs && s'.txs[u] == s.txs[u])
  }

  /** The commit of a call that nobody disturbed. */
  lemma Committed(s: State, t: TxId, tx: Tx)
    requires t !in s.txs && tx.key !in s.locks && ReadyToCommit(tx)
    ensures Leaves(s, Step(Beside(s, t, tx), CommitTx(t, true, true)),
                   Commit(t, tx.key, KindOf(tx), tx.view.value, tx.writes), Reply(tx, true))
  {
    assert s.locks[tx.key := t] - {tx.key} == s.locks;
  }

  lemma CallRuns(s: State, t: TxId, k: Key, statements: seq<Statement>)
    requires t !in s.txs && k !in s.locks && Executable(RowAt(s, k), NewTx(k), statements)
    requires After(RowAt(s, k), NewTx(k), statements).key == k
    ensures Run(s, Call(t, k, statements)) ==
            Step(Beside(s, t, After(RowAt(s, k), NewTx(k), statements)), CommitTx(t, true, true))
  {
    var begin, commit := [Begin(t, k)], [CommitTx(t, true, true)];
    assert begin[1..] == [] && commit[1..] == [];
    assert Run(s, begin) == Beside(s, t, NewTx(k));
    RunBeside(s, t, NewTx(k), statements);
    RunAppend(s, begin, Executes(t, statements));
    RunAppend(s, begin + Executes(t, statements), commit);
  }

  lemma CallLeaves(s: State, t: TxId, k: Key, statements: seq<Statement>, tx: Tx)
    requires t !in s.txs && k !in s.locks && Executable(RowAt(s, k), NewTx(k), statements)
    requires tx == After(RowAt(s, k), NewTx(k), statements) && tx.key == k && ReadyToCommit(tx)
    ensures Leaves(s, Run(s, Call(t, k, statements)), Commit(t, k, KindOf(tx), tx.view.value, tx.writes),
                   Reply(tx, true))
  {
    CallRuns(s, t, k, statements);
    Committed(s, t, tx);
  }

  /** Wherever the row is free and not completed, a new call whose handler returns no
      error can go through: the row is then completed with one more attempt, the writes
      are durable, and the caller is told. */
  lemma SuccessGoesThrough(s: State, t: TxId, k: Key, ws: seq<Write>, now: int)
    requires t !in s.txs && k !in s.locks && (k in s.rows ==> s.rows[k].status != Completed)
    ensures
      var row := if k in s.rows then s.rows[k] else Row(Pending, 0, [], 1, None);
      var after := Row(Completed, row.attempts + 1, [], row.version + 2, Some(now));
      Leaves(s, Run(s, Call(t, k, Script(ws, None, now))), Commit(t, k, Succeeded, after, ws),
             Outcome(false, row.attempts + 1, false))
  {
    Scripted(RowAt(s, k), k, ws, None, now);
    CallLeaves(s, t, k, Script(ws, None, now), After(RowAt(s, k), NewTx(k), Script(ws, None, now)));
  }

  /** If its handler returns an error the row is failed with one more attempt, holds the
      start of the error, and no write is left; the caller is told. */
  lemma FailureGoesThrough(s: State, t: TxId, k: Key, ws: seq<Write>, error: seq<byte>, now: int)
    requires t !in s.txs && k !in s.locks && (k in s.rows ==> s.rows[k].status != Completed)
    ensures
      var row := if k in s.rows then s.rows[k] else Row(Pending, 0, [], 1, None);
      var text := Utf8.Truncated(error, 4096);
      var after := Row(Failed, row.attempts + 1, text, row.version + 2, row.completedAt);
      Leaves(s, Run(s, Call(t, k, Script(ws, Some(error), now))), Commit(t, k, AttemptFailed, after, []),
             Outcome(false, row.attempts + 1, true))
  {
    Scripted(RowAt(s, k), k, ws, Some(error), now);
    CallLeaves(s, t, k, Script(ws, Some(error), now), After(RowAt(s, k), NewTx(k), Script(ws, Some(error), now)));
  }

  /** Once the row is completed and free, a call commits without running the handler,
      changes nothing, and tells its caller of a duplicate. */
  lemma DuplicateGoesThrough(s: State, t: TxId, k: Key)
    requires t !in s.txs && k !in s.locks && k in s.rows && s.rows[k].status == Completed
    ensures Leaves(s, Run(s, Call(t, k, GET_ROW)), Commit(t, k, DuplicateSeen, s.rows[k], []),
                   Outcome(true, s.rows[k].attempts, false))
    ensures Run(s, Call(t, k, GET_ROW)).rows == s.rows
  {
    GotRow(RowAt(s, k), k);
    CallLeaves(s, t, k, GET_ROW, After(RowAt(s, k), NewTx(k), GET_ROW));
  }

  /** An insert waits only for the uncommitted insert of another transaction; every
      other statement on the row waits for its holder. */
  lemma WaitsForHolder(s: State, t: TxId)
    requires t in s.txs && LockedByOther(s, t, s.txs[t].key)
    ensures s.txs[t].phase.Begun? ==> (Enabled(s, Execute(t, InsertPending)) <==> s.txs[t].key in s.rows)
    ensures !Enabled(s, Execute(t, LockRow))
  {
  }
}
