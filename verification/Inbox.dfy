/**
 The transactional inbox (inbox/sqlstore.go) as a state machine: the committed
 database, the row locks and every open transaction of `Process`. One action is
 one SQL statement, one handler step, one commit (which may land without being
 reported, or not land at all) or one loss of a transaction. Every interleaving
 of any number of calls is a sequence of actions, and `Run` takes an arbitrary
 one: an action the database would not allow yet is skipped.
 */
module Inbox {
  import opened Common
  import Utf8

  type TxId = nat
  type Write = string

  datatype Key = Key(consumer: string, eventId: string)

  datatype Status = Pending | Processing | Completed | Failed

  datatype Row = Row(status: Status, attempts: nat, lastError: seq<byte>, version: nat, completedAt: Option<int>)

  /** What `Process` returns: the `Result` fields and whether an error comes with them. */
  datatype Outcome = Outcome(duplicate: bool, attempts: nat, failed: bool)

  /** How far a call of `Process` has got. */
  datatype Phase =
    | Begun
    | Inserted
    | Locked
    | Marked
    | Handling
    | HandlerOk
    | HandlerFailed(cause: seq<byte>)
    | Undone(cause: seq<byte>)
    | FailureReady(cause: seq<byte>)
    | Released
    | SuccessReady
    | Ended(outcome: Outcome)

  /** A transaction: its version of the inbox row, its uncommitted domain writes,
      the savepoint as a length of `writes`, the local `attempts`, and in `did`
      everything the handler wrote, whether or not it was undone. */
  datatype Tx = Tx(key: Key, phase: Phase, view: Option<Row>, attempts: nat,
                   writes: seq<Write>, savepoint: nat, did: seq<Write>)

  /** The steps of `Process` between begin and commit. */
  datatype Statement =
    | InsertPending
    | LockRow
    | MarkProcessing
    | SetSavepoint
    | DomainWrite(write: Write)
    | HandlerReturns(error: Option<seq<byte>>)
    | RollbackToSavepoint
    | MarkFailed
    | ReleaseSavepoint
    | MarkCompleted(now: int)

  datatype Kind = DuplicateSeen | AttemptFailed | Succeeded

  /** One landed commit: the row version and the domain writes it made durable. */
  datatype Commit = Commit(tx: TxId, key: Key, kind: Kind, row: Row, writes: seq<Write>)

  datatype State = State(rows: map<Key, Row>, locks: map<Key, TxId>, txs: map<TxId, Tx>,
                         log: seq<Commit>, purged: multiset<Key>)

  datatype Action =
    | Begin(t: TxId, key: Key)
    | Execute(t: TxId, statement: Statement)
    | CommitTx(t: TxId, landed: bool, reported: bool)
    | Abort(t: TxId)
    | DeleteCompleted(key: Key, before: int)

  const PENDING_ROW := Row(Pending, 0, [], 1, None)
  const LOST := Outcome(false, 0, true)

  function Init(): State {
    State(map[], map[], map[], [], multiset{})
  }

  function RowAt(s: State, k: Key): Option<Row> {
    if k in s.rows then Some(s.rows[k]) else None
  }

  /** A transaction holds the row lock from the moment it inserts the row or
      selects it for update. */
  predicate Holding(tx: Tx) {
    tx.view.Some? && !tx.phase.Ended?
  }

  /** The row version `SELECT ... FOR UPDATE` returns, if there is one. */
  function Visible(committed: Option<Row>, tx: Tx): Option<Row> {
    if tx.view.Some? then tx.view else committed
  }

  /** When a statement can succeed, given the committed row and whether another
      transaction holds the row lock. An insert waits for another transaction's
      uncommitted insert of the same key, but not for a lock on a committed row. */
  predicate CanExecute(committed: Option<Row>, lockedByOther: bool, tx: Tx, statement: Statement) {
    match statement
    case InsertPending => tx.phase.Begun? && (committed.Some? || !lockedByOther)
    case LockRow => tx.phase.Inserted? && !lockedByOther && Visible(committed, tx).Some?
    case MarkProcessing => tx.phase.Locked? && tx.view.Some? && tx.view.value.status != Completed
    case SetSavepoint => tx.phase.Marked?
    case DomainWrite(_) => tx.phase.Handling?
    case HandlerReturns(_) => tx.phase.Handling?
    case RollbackToSavepoint => tx.phase.HandlerFailed? && tx.savepoint <= |tx.writes|
    case MarkFailed => tx.phase.Undone? && tx.view.Some?
    case ReleaseSavepoint => tx.phase.HandlerOk?
    case MarkCompleted(_) => tx.phase.Released? && tx.view.Some?
  }

  function Processed(row: Row): Row {
    row.(status := Processing, attempts := row.attempts + 1, lastError := [], version := row.version + 1)
  }

  function FailedRow(row: Row, cause: seq<byte>): Row {
    row.(status := Failed, lastError := Utf8.Truncated(cause, Utf8.TEXT_LIMIT), version := row.version + 1)
  }

  function CompletedRow(row: Row, now: int): Row {
    row.(status := Completed, lastError := [], completedAt := Some(now), version := row.version + 1)
  }

  function Executed(committed: Option<Row>, tx: Tx, statement: Statement): Tx
    requires CanExecute(committed, false, tx, statement)
  {
    match statement
    case InsertPending => tx.(phase := Inserted, view := if committed.Some? then None else Some(PENDING_ROW))
    case LockRow =>
      tx.(phase := Locked, view := Visible(committed, tx), attempts := Visible(committed, tx).value.attempts)
    case MarkProcessing =>
      tx.(phase := Marked, view := Some(Processed(tx.view.value)), attempts := tx.attempts + 1)
    case SetSavepoint => tx.(phase := Handling, savepoint := |tx.writes|)
    case DomainWrite(w) => tx.(writes := tx.writes + [w], did := tx.did + [w])
    case HandlerReturns(error) => tx.(phase := if error.None? then HandlerOk else HandlerFailed(error.value))
    case RollbackToSavepoint => tx.(phase := Undone(tx.phase.cause), writes := tx.writes[..tx.savepoint])
    case MarkFailed =>
      tx.(phase := FailureReady(tx.phase.cause), view := Some(FailedRow(tx.view.value, tx.phase.cause)))
    case ReleaseSavepoint => tx.(phase := Released)
    case MarkCompleted(now) => tx.(phase := SuccessReady, view := Some(CompletedRow(tx.view.value, now)))
  }

  predicate ReadyToCommit(tx: Tx) {
    && tx.view.Some?
    && (tx.phase.FailureReady? || tx.phase.SuccessReady? || (tx.phase.Locked? && tx.view.value.status == Completed))
  }

  function KindOf(tx: Tx): Kind {
    if tx.phase.FailureReady? then AttemptFailed else if tx.phase.SuccessReady? then Succeeded else DuplicateSeen
  }

  function Reply(tx: Tx, reported: bool): Outcome {
    if !reported then LOST
    else Outcome(KindOf(tx) == DuplicateSeen, tx.attempts, KindOf(tx) == AttemptFailed)
  }

  predicate LockedByOther(s: State, t: TxId, k: Key) {
    k in s.locks && s.locks[k] != t
  }

  predicate Enabled(s: State, a: Action) {
    match a
    case Begin(t, _) => t !in s.txs
    case Execute(t, statement) =>
      t in s.txs && CanExecute(RowAt(s, s.txs[t].key), LockedByOther(s, t, s.txs[t].key), s.txs[t], statement)
    case CommitTx(t, landed, reported) => t in s.txs && ReadyToCommit(s.txs[t]) && (reported ==> landed)
    case Abort(t) => t in s.txs && !s.txs[t].phase.Ended?
    case DeleteCompleted(k, before) =>
      && k in s.rows && k !in s.locks
      && s.rows[k].status == Completed
      && s.rows[k].completedAt.Some? && s.rows[k].completedAt.value < before
  }

  /** Record a transaction's new state; it takes the lock if it now holds the row
      and gives it back if it has ended. */
  function With(s: State, t: TxId, tx: Tx): State {
    s.(txs := s.txs[t := tx],
       locks := if Holding(tx) then s.locks[tx.key := t]
                else if tx.key in s.locks && s.locks[tx.key] == t then s.locks - {tx.key}
                else s.locks)
  }

  function Dropped(s: State, t: TxId, outcome: Outcome): State
    requires t in s.txs
  {
    With(s, t, s.txs[t].(phase := Ended(outcome)))
  }

  /** Make the row version and the domain writes of a transaction durable. */
  function Landed(s: State, t: TxId, outcome: Outcome): State
    requires t in s.txs && ReadyToCommit(s.txs[t])
  {
    var tx := s.txs[t];
    Dropped(s, t, outcome).(
      rows := s.rows[tx.key := tx.view.value],
      log := s.log + [Commit(t, tx.key, KindOf(tx), tx.view.value, tx.writes)])
  }

  function Apply(s: State, a: Action): State
    requires Enabled(s, a)
  {
    match a
    case Begin(t, k) => With(s, t, Tx(k, Begun, None, 0, [], 0, []))
    case Execute(t, statement) => With(s, t, Executed(RowAt(s, s.txs[t].key), s.txs[t], statement))
    case CommitTx(t, landed, reported) =>
      var outcome := Reply(s.txs[t], reported);
      if landed then Landed(s, t, outcome) else Dropped(s, t, outcome)
    case Abort(t) => Dropped(s, t, LOST)
    case DeleteCompleted(k, _) => s.(rows := s.rows - {k}, purged := s.purged + multiset{k})
  }

  function Step(s: State, a: Action): State {
    if Enabled(s, a) then Apply(s, a) else s
  }

  function Run(s: State, actions: seq<Action>): State
    decreases |actions|
  {
    if actions == [] then s else Run(Step(s, actions[0]), actions[1..])
  }

  // ---- What is counted -----------------------------------------------------

  /** How many handler successes have been committed for each key. */
  ghost function Wins(log: seq<Commit>): multiset<Key> {
    if log == [] then multiset{}
    else
      var last := log[|log| - 1];
      Wins(log[..|log| - 1]) + (if last.kind == Succeeded then multiset{last.key} else multiset{})
  }

  /** Every domain write made durable on behalf of a key, in commit order. */
  ghost function DomainWrites(log: seq<Commit>, k: Key): seq<Write> {
    if log == [] then []
    else
      var last := log[|log| - 1];
      DomainWrites(log[..|log| - 1], k) + (if last.key == k then last.writes else [])
  }

  // ---- The inductive invariant ---------------------------------------------

  ghost predicate RowOk(row: Row) {
    && (row.status == Failed || row.status == Completed)
    && row.attempts >= 1
    && row.version == 2 * row.attempts + 1
    && (row.completedAt.Some? <==> row.status == Completed)
    && (row.status == Completed ==> row.lastError == [])
  }

  ghost predicate CommittedOk(committed: Option<Row>) {
    committed.Some? ==> RowOk(committed.value)
  }

  ghost predicate IsCompleted(committed: Option<Row>) {
    committed.Some? && committed.value.status == Completed
  }

  ghost function Base(committed: Option<Row>): Row {
    if committed.Some? then committed.value else PENDING_ROW
  }

  /** The row version an attempt works on while it holds the lock. */
  ghost predicate InAttempt(committed: Option<Row>, tx: Tx) {
    && !IsCompleted(committed)
    && tx.view == Some(Processed(Base(committed)))
    && tx.attempts == Base(committed).attempts + 1
  }

  ghost predicate Finished(committed: Option<Row>, tx: Tx, status: Status) {
    && !IsCompleted(committed)
    && tx.view.Some? && RowOk(tx.view.value)
    && tx.view.value.status == status && tx.view.value.attempts == tx.attempts
  }

  /** What is true of an open transaction, phase by phase. */
  ghost predicate PhaseOk(committed: Option<Row>, tx: Tx) {
    match tx.phase
    case Begun => tx.view.None? && tx.writes == tx.did == []
    case Inserted =>
      tx.writes == tx.did == [] && (tx.view.Some? ==> committed.None? && tx.view.value == PENDING_ROW)
    case Locked =>
      tx.writes == tx.did == [] && tx.view == Some(Base(committed)) && tx.attempts == Base(committed).attempts
    case Marked => tx.writes == tx.did == [] && InAttempt(committed, tx)
    case Handling => tx.savepoint == 0 && tx.writes == tx.did && InAttempt(committed, tx)
    case HandlerOk => tx.savepoint == 0 && tx.writes == tx.did && InAttempt(committed, tx)
    case HandlerFailed(_) => tx.savepoint == 0 && tx.writes == tx.did && InAttempt(committed, tx)
    case Undone(_) => tx.writes == [] && InAttempt(committed, tx)
    case FailureReady(_) => tx.writes == [] && Finished(committed, tx, Failed)
    case Released => tx.writes == tx.did && InAttempt(committed, tx)
    case SuccessReady => tx.writes == tx.did && Finished(committed, tx, Completed)
    case Ended(_) => true
  }

  /** What is true of the result a call returned. */
  ghost predicate OutcomeOk(log: seq<Commit>, t: TxId, k: Key, o: Outcome) {
    && (!o.failed ==> k in Wins(log))
    && (o.attempts != 0 ==>
          exists i :: 0 <= i < |log| && log[i].tx == t && log[i].key == k && log[i].row.attempts == o.attempts)
  }

  ghost predicate TxOk(s: State, t: TxId)
    requires t in s.txs
  {
    var tx := s.txs[t];
    && (Holding(tx) ==> tx.key in s.locks && s.locks[tx.key] == t)
    && PhaseOk(RowAt(s, tx.key), tx)
    && (tx.phase.Ended? ==> OutcomeOk(s.log, t, tx.key, tx.phase.outcome))
  }

  ghost predicate CommitOk(txs: map<TxId, Tx>, c: Commit) {
    && RowOk(c.row) && c.tx in txs && txs[c.tx].key == c.key
    && (c.kind == AttemptFailed <==> c.row.status == Failed)
    && (c.kind != Succeeded ==> c.writes == [])
    && (c.kind == Succeeded ==> txs[c.tx].phase.Ended? && c.writes == txs[c.tx].did)
  }

  ghost predicate Balanced(s: State) {
    forall k: Key :: Wins(s.log)[k] == s.purged[k] + (if IsCompleted(RowAt(s, k)) then 1 else 0)
  }

  ghost predicate LocksOk(s: State) {
    forall k :: k in s.locks ==> s.locks[k] in s.txs && s.txs[s.locks[k]].key == k && Holding(s.txs[s.locks[k]])
  }

  ghost predicate Inv(s: State) {
    && (forall k :: k in s.rows ==> RowOk(s.rows[k]))
    && LocksOk(s)
    && (forall t {:trigger TxOk(s, t)} :: t in s.txs ==> TxOk(s, t))
    && (forall i :: 0 <= i < |s.log| ==> CommitOk(s.txs, s.log[i]))
    && Balanced(s)
  }

  // ---- Preservation --------------------------------------------------------

  lemma ExecutedPhaseOk(committed: Option<Row>, tx: Tx, statement: Statement)
    requires CommittedOk(committed) && PhaseOk(committed, tx)
    requires CanExecute(committed, false, tx, statement)
    ensures PhaseOk(committed, Executed(committed, tx, statement))
  {
  }

  /** A transaction stays well placed under any step of others that leaves its
      lock and its row alone and only adds to the log. */
  lemma OtherTxOk(s: State, s': State, u: TxId)
    requires u in s.txs && u in s'.txs && s'.txs[u] == s.txs[u] && TxOk(s, u)
    requires Holding(s.txs[u]) ==>
               var k := s.txs[u].key;
               k in s'.locks && s'.locks[k] == u && RowAt(s', k) == RowAt(s, k)
    requires s.log <= s'.log && Wins(s.log) <= Wins(s'.log)
    ensures TxOk(s', u)
  {
    var tx := s.txs[u];
    if tx.phase.Ended? && tx.phase.outcome.attempts != 0 {
      var i :| 0 <= i < |s.log| && s.log[i].tx == u && s.log[i].key == tx.key
          && s.log[i].row.attempts == tx.phase.outcome.attempts;
      assert s'.log[i] == s.log[i];
    }
  }

  /** Replacing one transaction's record keeps the lock table consistent. */
  lemma WithKeepsLocks(s: State, t: TxId, tx: Tx)
    requires LocksOk(s)
    requires t in s.txs ==> s.txs[t].key == tx.key
    requires Holding(tx) ==> !LockedByOther(s, t, tx.key)
    ensures LocksOk(With(s, t, tx))
    ensures forall k :: k in s.locks && s.locks[k] != t ==>
        k in With(s, t, tx).locks && With(s, t, tx).locks[k] == s.locks[k]
  {
  }

  /** A step that changes one open transaction and neither rows nor log. */
  lemma WithKeepsInv(s: State, t: TxId, tx: Tx)
    requires Inv(s)
    requires t in s.txs ==> s.txs[t].key == tx.key && !s.txs[t].phase.Ended?
    requires Holding(tx) ==> !LockedByOther(s, t, tx.key)
    requires PhaseOk(RowAt(s, tx.key), tx)
    requires tx.phase.Ended? ==> tx.phase.outcome == LOST
    ensures Inv(With(s, t, tx))
  {
    var s' := With(s, t, tx);
    WithKeepsLocks(s, t, tx);
    forall u | u in s'.txs ensures TxOk(s', u) {
      if u != t {
        OtherTxOk(s, s', u);
      }
    }
    CommitsKept(s, t, tx);
    assert forall k :: RowAt(s', k) == RowAt(s, k);
  }

  lemma CommitsKept(s: State, t: TxId, tx: Tx)
    requires forall i :: 0 <= i < |s.log| ==> CommitOk(s.txs, s.log[i])
    requires t in s.txs ==> s.txs[t].key == tx.key && !s.txs[t].phase.Ended?
    ensures forall i :: 0 <= i < |s.log| ==> CommitOk(s.txs[t := tx], s.log[i])
  {
    forall i | 0 <= i < |s.log| ensures CommitOk(s.txs[t := tx], s.log[i]) {
      assert CommitOk(s.txs, s.log[i]);
    }
  }

  lemma ExecuteKeepsInv(s: State, t: TxId, statement: Statement)
    requires Inv(s) && Enabled(s, Execute(t, statement))
    ensures Inv(Apply(s, Execute(t, statement)))
  {
    var tx := s.txs[t];
    assert TxOk(s, t);
    ExecutedPhaseOk(RowAt(s, tx.key), tx, statement);
    WithKeepsInv(s, t, Executed(RowAt(s, tx.key), tx, statement));
  }

  lemma DeleteKeepsInv(s: State, k: Key, before: int)
    requires Inv(s) && Enabled(s, DeleteCompleted(k, before))
    ensures Inv(Apply(s, DeleteCompleted(k, before)))
  {
    var s' := Apply(s, DeleteCompleted(k, before));
    DeleteBalance(s, k, before);
    forall u | u in s'.txs ensures TxOk(s', u) {
      OtherTxOk(s, s', u);
    }
  }

  lemma DeleteBalance(s: State, k: Key, before: int)
    requires Enabled(s, DeleteCompleted(k, before)) && Balanced(s)
    ensures Balanced(Apply(s, DeleteCompleted(k, before)))
  {
    var s' := Apply(s, DeleteCompleted(k, before));
    forall j: Key ensures Wins(s'.log)[j] == s'.purged[j] + (if IsCompleted(RowAt(s', j)) then 1 else 0) {
      assert j != k ==> RowAt(s', j) == RowAt(s, j);
    }
  }

  lemma WinsAppend(log: seq<Commit>, c: Commit)
    ensures Wins(log + [c]) == Wins(log) + (if c.kind == Succeeded then multiset{c.key} else multiset{})
  {
    assert (log + [c])[..|log|] == log;
  }

  /** What a landed commit does to the count of its key. */
  lemma LandedBalance(s: State, t: TxId, outcome: Outcome)
    requires t in s.txs && ReadyToCommit(s.txs[t]) && PhaseOk(RowAt(s, s.txs[t].key), s.txs[t]) && Balanced(s)
    ensures
      var s' := Landed(s, t, outcome);
      && Balanced(s')
      && Wins(s.log) <= Wins(s'.log)
      && (forall k :: k != s.txs[t].key ==> RowAt(s', k) == RowAt(s, k))
      && (KindOf(s.txs[t]) != AttemptFailed ==> s.txs[t].key in Wins(s'.log))
  {
    var s', tx := Landed(s, t, outcome), s.txs[t];
    WinsAppend(s.log, s'.log[|s.log|]);
    assert RowAt(s', tx.key) == tx.view;
    forall k: Key ensures Wins(s'.log)[k] == s'.purged[k] + (if IsCompleted(RowAt(s', k)) then 1 else 0) {
      assert k != tx.key ==> RowAt(s', k) == RowAt(s, k);
    }
  }

  lemma LandedCommitOk(s: State, t: TxId, outcome: Outcome)
    requires t in s.txs && ReadyToCommit(s.txs[t]) && PhaseOk(RowAt(s, s.txs[t].key), s.txs[t])
    requires CommittedOk(RowAt(s, s.txs[t].key))
    ensures RowOk(s.txs[t].view.value) && s.txs[t].view.value.attempts == s.txs[t].attempts
    ensures CommitOk(Landed(s, t, outcome).txs, Landed(s, t, outcome).log[|s.log|])
  {
  }

  lemma OthersAfterCommit(s: State, s': State, t: TxId)
    requires forall u :: u in s.txs ==> TxOk(s, u)
    requires t in s.txs && t in s'.txs
    requires s'.txs == s.txs[t := s'.txs[t]]
    requires forall k :: k in s.locks && s.locks[k] != t ==> k in s'.locks && s'.locks[k] == s.locks[k]
    requires s.txs[t].key in s.locks && s.locks[s.txs[t].key] == t
    requires forall k :: k != s.txs[t].key ==> RowAt(s', k) == RowAt(s, k)
    requires s.log <= s'.log && Wins(s.log) <= Wins(s'.log)
    ensures forall u :: u in s'.txs && u != t ==> TxOk(s', u)
  {
    forall u | u in s'.txs && u != t ensures TxOk(s', u) {
      OtherTxOk(s, s', u);
    }
  }

  lemma LandedOutcomeOk(s: State, t: TxId, reported: bool)
    requires t in s.txs && ReadyToCommit(s.txs[t]) && s.txs[t].view.value.attempts == s.txs[t].attempts
    requires KindOf(s.txs[t]) != AttemptFailed ==> s.txs[t].key in Wins(Landed(s, t, Reply(s.txs[t], reported)).log)
    ensures TxOk(Landed(s, t, Reply(s.txs[t], reported)), t)
  {
    var s' := Landed(s, t, Reply(s.txs[t], reported));
    var c := s'.log[|s.log|];
    assert c.tx == t && c.key == s.txs[t].key && c.row.attempts == s.txs[t].attempts;
  }

  lemma LandedKeepsInv(s: State, t: TxId, reported: bool)
    requires Inv(s) && t in s.txs && ReadyToCommit(s.txs[t])
    ensures Inv(Landed(s, t, Reply(s.txs[t], reported)))
  {
    var outcome := Reply(s.txs[t], reported);
    var s' := Landed(s, t, outcome);
    assert TxOk(s, t);
    LandedBalance(s, t, outcome);
    LandedCommitOk(s, t, outcome);
    LandedOutcomeOk(s, t, reported);
    WithKeepsLocks(s, t, s.txs[t].(phase := Ended(outcome)));
    OthersAfterCommit(s, s', t);
    CommitsStayOk(s, s', t);
  }

  lemma CommitsStayOk(s: State, s': State, t: TxId)
    requires forall i :: 0 <= i < |s.log| ==> CommitOk(s.txs, s.log[i])
    requires t in s.txs && !s.txs[t].phase.Ended? && t in s'.txs && s'.txs == s.txs[t := s'.txs[t]]
        && s'.txs[t].key == s.txs[t].key
    requires |s'.log| == |s.log| + 1 && s.log == s'.log[..|s.log|] && CommitOk(s'.txs, s'.log[|s.log|])
    ensures forall i :: 0 <= i < |s'.log| ==> CommitOk(s'.txs, s'.log[i])
  {
    forall i | 0 <= i < |s.log| ensures CommitOk(s'.txs, s'.log[i]) {
      assert CommitOk(s.txs, s.log[i]);
    }
  }

  predicate Lands(a: Action) {
    a.CommitTx? && a.landed
  }

  lemma StepKeepsInv(s: State, a: Action)
    requires Inv(s)
    ensures Inv(Step(s, a))
  {
    if Enabled(s, a) {
      match a
      case Begin(t, k) => WithKeepsInv(s, t, Tx(k, Begun, None, 0, [], 0, []));
      case Execute(t, statement) => ExecuteKeepsInv(s, t, statement);
      case CommitTx(t, landed, reported) =>
        if landed {
          LandedKeepsInv(s, t, reported);
        } else {
          WithKeepsInv(s, t, s.txs[t].(phase := Ended(LOST)));
        }
      case Abort(t) => WithKeepsInv(s, t, s.txs[t].(phase := Ended(LOST)));
      case DeleteCompleted(k, before) => DeleteKeepsInv(s, k, before);
    }
  }

  lemma {:induction false} RunKeepsInv(s: State, actions: seq<Action>)
    requires Inv(s)
    ensures Inv(Run(s, actions))
    decreases |actions|
  {
    if actions != [] {
      StepKeepsInv(s, actions[0]);
      RunKeepsInv(Step(s, actions[0]), actions[1..]);
    }
  }

  lemma {:induction false} RunAppend(s: State, xs: seq<Action>, ys: seq<Action>)
    ensures Run(s, xs + ys) == Run(Run(s, xs), ys)
    decreases |xs|
  {
    if xs == [] {
      assert xs + ys == ys;
    } else {
      assert (xs + ys)[1..] == xs[1..] + ys;
      RunAppend(Step(s, xs[0]), xs[1..], ys);
    }
  }

  // ---- Main results --------------------------------------------------------

  /** In every interleaving, the committed handler successes of an event are one
      if its row is completed and none otherwise, plus one for each time
      retention deleted its completed row. */
  lemma EffectivelyOnce(actions: seq<Action>, k: Key)
    ensures
      var s := Run(Init(), actions);
      Wins(s.log)[k] == s.purged[k] + (if k in s.rows && s.rows[k].status == Completed then 1 else 0)
  {
    RunKeepsInv(Init(), actions);
  }

  lemma {:induction false} WritesOfWinner(txs: map<TxId, Tx>, log: seq<Commit>, k: Key)
    requires forall i :: 0 <= i < |log| ==> CommitOk(txs, log[i])
    ensures Wins(log)[k] == 0 ==> DomainWrites(log, k) == []
    ensures Wins(log)[k] == 1 ==>
              exists i :: && 0 <= i < |log| && log[i].key == k && log[i].kind == Succeeded
                          && DomainWrites(log, k) == log[i].writes
    decreases |log|
  {
    if log != [] {
      var front, last := log[..|log| - 1], log[|log| - 1];
      assert CommitOk(txs, last);
      WritesOfWinner(txs, front, k);
      if Wins(front)[k] == 1 && Wins(log)[k] == 1 {
        var i :| 0 <= i < |front| && front[i].key == k && front[i].kind == Succeeded
            && DomainWrites(front, k) == front[i].writes;
        assert log[i] == front[i];
      }
    }
  }

  /** The domain writes that became durable for an event are nothing while its
      row is not completed, and afterwards exactly what one handler call wrote in
      the transaction of this event that committed its success; never a partial
      or a second run. */
  lemma DomainEffectIsOneRun(actions: seq<Action>, k: Key)
    requires Run(Init(), actions).purged[k] == 0
    ensures
      var s := Run(Init(), actions);
      if k in s.rows && s.rows[k].status == Completed then
        exists i :: && 0 <= i < |s.log| && s.log[i].key == k && s.log[i].kind == Succeeded
                    && s.log[i].tx in s.txs && s.txs[s.log[i].tx].key == k && s.txs[s.log[i].tx].phase.Ended?
                    && DomainWrites(s.log, k) == s.txs[s.log[i].tx].did
      else DomainWrites(s.log, k) == []
  {
    var s := Run(Init(), actions);
    RunKeepsInv(Init(), actions);
    WritesOfWinner(s.txs, s.log, k);
    EffectivelyOnce(actions, k);
    if k in s.rows && s.rows[k].status == Completed {
      var i :| 0 <= i < |s.log| && s.log[i].key == k && s.log[i].kind == Succeeded
          && DomainWrites(s.log, k) == s.log[i].writes;
      assert CommitOk(s.txs, s.log[i]);
    }
  }

  /** No committed row is pending or processing; each has been attempted, its
      version counts two updates per attempt after the insert, and only a
      completed row carries a completion time. */
  lemma CommittedRowShape(actions: seq<Action>, k: Key)
    requires k in Run(Init(), actions).rows
    ensures RowOk(Run(Init(), actions).rows[k])
  {
    RunKeepsInv(Init(), actions);
  }

  /** A non-zero `Attempts` is the attempt count of the row version that the
      call itself committed, and a call that reports no error returns only once
      the effect of its event is durable. */
  lemma ReportedResult(actions: seq<Action>, t: TxId)
    requires t in Run(Init(), actions).txs && Run(Init(), actions).txs[t].phase.Ended?
    ensures
      var s := Run(Init(), actions);
      OutcomeOk(s.log, t, s.txs[t].key, s.txs[t].phase.outcome)
  {
    RunKeepsInv(Init(), actions);
    assert TxOk(Run(Init(), actions), t);
  }

  predicate InHandler(phase: Phase) {
    phase.Handling? || phase.HandlerOk? || phase.HandlerFailed?
  }

  /** Some deletion among the actions reaches a row of k completed at the given time. */
  predicate Retires(actions: seq<Action>, k: Key, completed: int) {
    exists a :: a in actions && RetiresRow(a, k, completed)
  }

  predicate RetiresRow(a: Action, k: Key, completed: int) {
    a.DeleteCompleted? && a.key == k && completed < a.before
  }

  lemma StepKeepsCompleted(s: State, a: Action, k: Key)
    requires Inv(s) && IsCompleted(RowAt(s, k))
    requires !RetiresRow(a, k, s.rows[k].completedAt.value)
    ensures RowAt(Step(s, a), k) == RowAt(s, k) && Step(s, a).purged[k] == s.purged[k]
  {
    if Enabled(s, a) && Lands(a) {
      assert TxOk(s, a.t);
    }
  }

  /** Once an event is completed its row is frozen and no transaction is inside
      its handler any more, in that state or any later one, until retention deletes
      rows completed before some moment later than its completion. */
  lemma {:induction false} CompletedIsFinal(s: State, actions: seq<Action>, k: Key)
    requires Inv(s) && IsCompleted(RowAt(s, k))
    requires !Retires(actions, k, s.rows[k].completedAt.value)
    ensures
      var s' := Run(s, actions);
      && RowAt(s', k) == RowAt(s, k) && s'.purged[k] == s.purged[k]
      && forall t :: t in s'.txs && s'.txs[t].key == k ==> !InHandler(s'.txs[t].phase)
    decreases |actions|
  {
    if actions == [] {
      forall t | t in s.txs && s.txs[t].key == k ensures !InHandler(s.txs[t].phase) {
        assert TxOk(s, t);
      }
    } else {
      assert actions[0] in actions;
      StepKeepsInv(s, actions[0]);
      StepKeepsCompleted(s, actions[0], k);
      assert forall a :: a in actions[1..] ==> a in actions;
      CompletedIsFinal(Step(s, actions[0]), actions[1..], k);
    }
  }

  /** Retention deletes a row exactly if it is completed before the given moment and
      nobody holds it; a row that is not completed is never deleted. */
  lemma RetentionDeletesOld(s: State, k: Key, before: int)
    requires Inv(s) && k in s.rows
    ensures k !in Step(s, DeleteCompleted(k, before)).rows <==>
            k !in s.locks && s.rows[k].status == Completed && s.rows[k].completedAt.value < before
    ensures forall j :: j != k ==> RowAt(Step(s, DeleteCompleted(k, before)), j) == RowAt(s, j)
  {
  }
}
