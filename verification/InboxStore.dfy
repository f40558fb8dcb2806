/**
 `SQLStore.Process` (inbox/sqlstore.go) as the program it is: the statements in
 source order with an early return after each failure, running against the
 shared database while other transactions act in between. `trace` records every
 action taken by anybody, so each state the program passes through is a state
 of the machine in `Inbox`, and its theorems hold of it.
 */
module InboxStore {
  import opened Common
  import opened Inbox
  import Utf8

  /** What surrounds one statement of a call: the actions of other transactions
      and of retention that come first, and whether the statement then fails; for
      a failing commit, whether it landed all the same. */
  datatype Gap = Gap(others: seq<Action>, fails: bool, landed: bool)

  /** One call of the domain handler: the writes it sends and the error it returns. */
  datatype Handler = Handler(writes: seq<Write>, error: Option<seq<byte>>)

  predicate Foreign(a: Action, t: TxId) {
    a.DeleteCompleted? || a.t != t
  }

  ghost predicate AllForeign(actions: seq<Action>, t: TxId) {
    forall a :: a in actions ==> Foreign(a, t)
  }

  /** What surrounds the steps of one call, in source order: `work[i]` comes before
      the i-th step of the handler, `settle` is the statement on the savepoint and
      `record` the one on the row after the handler returned. */
  datatype Around = Around(begin: Gap, insert: Gap, lock: Gap, mark: Gap, savepoint: Gap, work: seq<seq<Action>>,
                           settle: Gap, record: Gap, commit: Gap)

  ghost predicate AroundForeign(g: Around, t: TxId) {
    && AllForeign(g.begin.others, t) && AllForeign(g.insert.others, t) && AllForeign(g.lock.others, t)
    && AllForeign(g.mark.others, t) && AllForeign(g.savepoint.others, t)
    && AllForeign(g.settle.others, t) && AllForeign(g.record.others, t) && AllForeign(g.commit.others, t)
    && forall i :: 0 <= i < |g.work| ==> AllForeign(g.work[i], t)
  }

  function Work(work: seq<seq<Action>>, i: nat): seq<Action> {
    if i < |work| then work[i] else []
  }

  predicate ValidInput(key: Key, actor: string, handler: Option<Handler>) {
    && key.consumer != "" && key.eventId != "" && actor != "" && handler.Some?
    && |key.consumer| <= 255 && |key.eventId| <= 255 && |actor| <= 255
  }

  /** Nothing shorter or longer is refused. */
  lemma ValidInputIff(key: Key, actor: string, handler: Option<Handler>)
    ensures ValidInput(key, actor, handler) <==>
            && handler.Some? && 1 <= |key.consumer| < 256 && 1 <= |key.eventId| < 256 && 1 <= |actor| < 256
  {
  }

  /** Statements that no other transaction can keep from succeeding. */
  predicate OnOwnRow(statement: Statement) {
    !statement.InsertPending? && !statement.LockRow?
  }

  /** None of the statements of an attempt fails. */
  predicate AttemptWorks(g: Around) {
    !g.mark.fails && !g.savepoint.fails && !g.settle.fails && !g.record.fails && !g.commit.fails
  }

  /** The database when a call has begun its transaction. */
  function AtBegin(s: State, t: TxId, key: Key, g: Around): State {
    Step(Run(s, g.begin.others), Begin(t, key))
  }

  /** The database, from then on, when it locks the row. */
  function AtLock(begun: State, t: TxId, g: Around): State {
    Run(Step(Run(begun, g.insert.others), Execute(t, InsertPending)), g.lock.others)
  }

  /** The call gets to lock its row: neither the insert nor the lock fails, and the
      database allows each when it comes. */
  predicate GetsRow(begun: State, t: TxId, g: Around) {
    && !g.insert.fails && !g.lock.fails
    && Enabled(Run(begun, g.insert.others), Execute(t, InsertPending))
    && Enabled(AtLock(begun, t, g), Execute(t, LockRow))
  }

  /** The event is completed when the call locks its row. */
  predicate FoundCompleted(begun: State, t: TxId, key: Key, g: Around) {
    var found := AtLock(begun, t, g);
    key in found.rows && found.rows[key].status == Completed
  }

  /** What decides that a call returns no error, once its transaction has begun. */
  predicate Succeeds(begun: State, t: TxId, key: Key, handler: Handler, g: Around) {
    && GetsRow(begun, t, g)
    && if FoundCompleted(begun, t, key, g) then !g.commit.fails else handler.error.None? && AttemptWorks(g)
  }

  /** The newest commit is one of this kind by the transaction. */
  predicate LastCommit(log: seq<Inbox.Commit>, t: TxId, kind: Kind) {
    |log| > 0 && log[|log| - 1].tx == t && log[|log| - 1].kind == kind
  }

  function LastRow(log: seq<Inbox.Commit>): Option<Row> {
    if log == [] then None else Some(log[|log| - 1].row)
  }

  /** The row says when the event was completed. */
  predicate RecordsSuccess(row: Option<Row>, now: int) {
    row.Some? && row.value.status == Completed && row.value.completedAt == Some(now) && row.value.lastError == []
  }

  /** The row says why the attempt failed, in at most 4096 bytes. */
  predicate RecordsFailure(row: Option<Row>, cause: seq<byte>) {
    row.Some? && row.value.status == Failed && row.value.lastError == Utf8.Truncated(cause, 4096)
  }

  /** The newest commit is this attempt, as its handler left it. */
  predicate RecordedAs(log: seq<Inbox.Commit>, t: TxId, handler: Handler, now: int) {
    if handler.error.None? then LastCommit(log, t, Succeeded) && RecordsSuccess(LastRow(log), now)
    else LastCommit(log, t, AttemptFailed) && RecordsFailure(LastRow(log), handler.error.value)
  }

  lemma ForeignStep(s: State, a: Action, t: TxId)
    requires Foreign(a, t)
    ensures t in Step(s, a).txs <==> t in s.txs
    ensures t in s.txs ==> Step(s, a).txs[t] == s.txs[t]
  {
  }

  class SqlStore {
    var s: State
    ghost var trace: seq<Action>

    ghost predicate Valid()
      reads this
    {
      s == Run(Init(), trace)
    }

    constructor ()
      ensures Valid() && s == Init()
    {
      s, trace := Init(), [];
    }

    /** One atomic action on the database. */
    method Do(a: Action)
      requires Valid()
      modifies this
      ensures Valid() && s == Step(old(s), a) && trace == old(trace) + [a]
    {
      RunAppend(Init(), trace, [a]);
      s, trace := Step(s, a), trace + [a];
    }

    /** Other transactions run for a while; the record of `t` does not move. */
    method LetOthersRun(actions: seq<Action>, t: TxId)
      requires Valid() && AllForeign(actions, t)
      modifies this
      ensures Valid() && old(trace) <= trace && s == Run(old(s), actions)
      ensures t in s.txs <==> t in old(s.txs)
      ensures t in s.txs ==> s.txs[t] == old(s).txs[t]
    {
      for i := 0 to |actions|
        invariant Valid() && old(trace) <= trace && Run(s, actions[i..]) == Run(old(s), actions)
        invariant t in s.txs <==> t in old(s.txs)
        invariant t in s.txs ==> s.txs[t] == old(s).txs[t]
      {
        ForeignStep(s, actions[i], t);
        Do(actions[i]);
      }
    }

    /** Send one statement. It takes effect on the database as others have left it,
        exactly if it does not fail and the database allows it then; if not, or if
        the row lock does not come free, the call returns and its deferred rollback
        ends the transaction. */
    method Send(t: TxId, statement: Statement, gap: Gap) returns (ok: bool)
      requires Valid() && AllForeign(gap.others, t)
      requires t in s.txs && !s.txs[t].phase.Ended?
      modifies this
      ensures Valid() && old(trace) <= trace && t in s.txs
      ensures ok <==> !gap.fails && Enabled(Run(old(s), gap.others), Execute(t, statement))
      ensures s == Step(Run(old(s), gap.others), if ok then Execute(t, statement) else Abort(t))
      ensures !ok ==> s.txs[t] == old(s).txs[t].(phase := Ended(LOST))
      ensures ok ==>
                var committed := RowAt(Run(old(s), gap.others), old(s).txs[t].key);
                && CanExecute(committed, false, old(s).txs[t], statement)
                && s.txs[t] == Executed(committed, old(s).txs[t], statement)
    {
      LetOthersRun(gap.others, t);
      ok := !gap.fails && Enabled(s, Execute(t, statement));
      if ok {
        Do(Execute(t, statement));
      } else {
        Do(Abort(t));
      }
    }

    /** A statement on the row the transaction holds: only its own failure stops it. */
    method SendOwn(t: TxId, statement: Statement, gap: Gap) returns (ok: bool)
      requires Valid() && AllForeign(gap.others, t)
      requires t in s.txs && !s.txs[t].phase.Ended?
      requires OnOwnRow(statement) && CanExecute(None, false, s.txs[t], statement)
      modifies this
      ensures Valid() && old(trace) <= trace && t in s.txs
      ensures ok <==> !gap.fails
      ensures s.txs[t] == if ok then Executed(None, old(s).txs[t], statement) else old(s).txs[t].(phase := Ended(LOST))
    {
      LetOthersRun(gap.others, t);
      ok := !gap.fails;
      if ok {
        Do(Execute(t, statement));
      } else {
        Do(Abort(t));
      }
    }

    /** Commit. A failing commit may have landed. */
    method Commit(t: TxId, gap: Gap) returns (o: Outcome)
      requires Valid() && AllForeign(gap.others, t)
      requires t in s.txs && ReadyToCommit(s.txs[t])
      modifies this
      ensures Valid() && old(trace) <= trace && t in s.txs
      ensures o == Reply(old(s).txs[t], !gap.fails)
      ensures s.txs[t] == old(s).txs[t].(phase := Ended(o))
      ensures !gap.fails ==> LastCommit(s.log, t, KindOf(old(s).txs[t])) && LastRow(s.log) == old(s).txs[t].view
    {
      LetOthersRun(gap.others, t);
      o := Reply(s.txs[t], !gap.fails);
      Do(CommitTx(t, !gap.fails || gap.landed, !gap.fails));
    }

    /** The handler sends its writes one by one on the transaction, then returns. */
    method Handle(t: TxId, handler: Handler, work: seq<seq<Action>>)
      requires Valid() && forall i :: 0 <= i < |work| ==> AllForeign(work[i], t)
      requires t in s.txs && s.txs[t].phase.Handling? && s.txs[t].did == []
      modifies this
      ensures Valid() && old(trace) <= trace && t in s.txs
      ensures s.txs[t] == old(s).txs[t].(
                            did := handler.writes, writes := old(s).txs[t].writes + handler.writes,
                            phase := if handler.error.None? then HandlerOk else HandlerFailed(handler.error.value))
    {
      for i := 0 to |handler.writes|
        invariant Valid() && old(trace) <= trace && t in s.txs
        invariant s.txs[t] == old(s).txs[t].(
                                did := handler.writes[..i], writes := old(s).txs[t].writes + handler.writes[..i])
      {
        LetOthersRun(Work(work, i), t);
        Do(Execute(t, DomainWrite(handler.writes[i])));
        assert handler.writes[..i + 1] == handler.writes[..i] + [handler.writes[i]];
      }
      assert handler.writes[..|handler.writes|] == handler.writes;
      LetOthersRun(Work(work, |handler.writes|), t);
      Do(Execute(t, HandlerReturns(handler.error)));
    }

    /** After the handler failed: undo its writes, record the failure, commit. The
        call ends with an error; unless a statement fails, the failed attempt is
        committed and counted. */
    method RecordFailure(t: TxId, g: Around) returns (o: Outcome)
      requires Valid() && AroundForeign(g, t)
      requires t in s.txs && s.txs[t].phase.HandlerFailed?
      requires s.txs[t].view.Some? && s.txs[t].savepoint <= |s.txs[t].writes|
      modifies this
      ensures Valid() && old(trace) <= trace && t in s.txs
      ensures s.txs[t].phase == Ended(o) && o.failed && !o.duplicate
      ensures s.txs[t].key == old(s).txs[t].key && s.txs[t].did == old(s).txs[t].did
      ensures !g.settle.fails && !g.record.fails && !g.commit.fails ==>
                && o.attempts == old(s).txs[t].attempts && LastCommit(s.log, t, AttemptFailed)
                && RecordsFailure(LastRow(s.log), old(s).txs[t].phase.cause)
    {
      var ok := SendOwn(t, RollbackToSavepoint, g.settle);
      if !ok { return LOST; }
      ok := SendOwn(t, MarkFailed, g.record);
      if !ok { return LOST; }
      o := Commit(t, g.commit);
    }

    /** After the handler succeeded: release, record the success, commit. No error
        exactly if none of the three fails. */
    method RecordSuccess(t: TxId, now: int, g: Around) returns (o: Outcome)
      requires Valid() && AroundForeign(g, t)
      requires t in s.txs && s.txs[t].phase.HandlerOk? && s.txs[t].view.Some?
      modifies this
      ensures Valid() && old(trace) <= trace && t in s.txs
      ensures s.txs[t].phase == Ended(o) && !o.duplicate
      ensures s.txs[t].key == old(s).txs[t].key && s.txs[t].did == old(s).txs[t].did
      ensures !o.failed <==> !g.settle.fails && !g.record.fails && !g.commit.fails
      ensures !o.failed ==> && o.attempts == old(s).txs[t].attempts && LastCommit(s.log, t, Succeeded)
                            && RecordsSuccess(LastRow(s.log), now)
    {
      var ok := SendOwn(t, ReleaseSavepoint, g.settle);
      if !ok { return LOST; }
      ok := SendOwn(t, MarkCompleted(now), g.record);
      if !ok { return LOST; }
      o := Commit(t, g.commit);
    }

    /** From the locked row to the result, for a row that is not completed. No error
        exactly if the handler returns none and no statement fails. */
    method Attempt(t: TxId, handler: Handler, now: int, g: Around) returns (o: Outcome)
      requires Valid() && AroundForeign(g, t)
      requires t in s.txs && s.txs[t].phase.Locked? && s.txs[t].did == []
      requires s.txs[t].view.Some? && s.txs[t].view.value.status != Completed
      modifies this
      ensures Valid() && old(trace) <= trace && t in s.txs
      ensures s.txs[t].phase == Ended(o) && !o.duplicate && s.txs[t].key == old(s).txs[t].key
      ensures s.txs[t].did == if g.mark.fails || g.savepoint.fails then [] else handler.writes
      ensures !o.failed <==> handler.error.None? && AttemptWorks(g)
      ensures AttemptWorks(g) ==>
                && o.attempts == old(s).txs[t].attempts + 1
                && RecordedAs(s.log, t, handler, now)
    {
      var ok := SendOwn(t, MarkProcessing, g.mark);
      if !ok { return LOST; }
      ok := SendOwn(t, SetSavepoint, g.savepoint);
      if !ok { return LOST; }
      Handle(t, handler, g.work);
      if handler.error.Some? {
        o := RecordFailure(t, g);
      } else {
        o := RecordSuccess(t, now, g);
      }
    }

    /** Insert the row unless it is there, and lock it. */
    method GetRow(t: TxId, g: Around) returns (ok: bool)
      requires Valid() && AroundForeign(g, t)
      requires t in s.txs && s.txs[t].phase.Begun? && s.txs[t].did == []
      modifies this
      ensures Valid() && old(trace) <= trace && t in s.txs
      ensures s.txs[t].key == old(s).txs[t].key && s.txs[t].did == []
      ensures ok <==> GetsRow(old(s), t, g)
      ensures !ok ==> s.txs[t].phase == Ended(LOST)
      ensures ok ==> s.txs[t].phase.Locked? && s.txs[t].view.Some?
      ensures ok ==> (s.txs[t].view.value.status == Completed <==> FoundCompleted(old(s), t, s.txs[t].key, g))
    {
      ok := Send(t, InsertPending, g.insert);
      if !ok { return; }
      ok := Send(t, LockRow, g.lock);
      if ok {
        RunKeepsInv(Init(), trace);
        assert TxOk(s, t);
        assert s.rows == AtLock(old(s), t, g).rows;
      }
    }

    /** `Process` after its transaction has begun. */
    method InTransaction(t: TxId, handler: Handler, now: int, g: Around) returns (o: Outcome)
      requires Valid() && AroundForeign(g, t)
      requires t in s.txs && s.txs[t].phase.Begun? && s.txs[t].did == []
      modifies this
      ensures Valid() && old(trace) <= trace && t in s.txs
      ensures s.txs[t].phase == Ended(o) && s.txs[t].key == old(s).txs[t].key
      ensures !o.failed <==> Succeeds(old(s), t, s.txs[t].key, handler, g)
      ensures o.duplicate <==> !o.failed && FoundCompleted(old(s), t, s.txs[t].key, g)
      ensures o.duplicate ==> s.txs[t].did == []
      ensures GetsRow(old(s), t, g) && !FoundCompleted(old(s), t, s.txs[t].key, g) && AttemptWorks(g) ==>
                s.txs[t].did == handler.writes && RecordedAs(s.log, t, handler, now)
    {
      var ok := GetRow(t, g);
      if !ok { return LOST; }
      if s.txs[t].view.value.status == Completed {
        o := Commit(t, g.commit);
      } else {
        o := Attempt(t, handler, now, g);
      }
    }

    /** `Process`. Whatever others do and wherever it fails: a call that returns
        no error leaves the effect of its event durable, either its own handler's
        writes, whole, or (`duplicate`) those of an earlier call, its own handler
        not having run; a non-zero attempt count is that of the row this call
        committed; rejected input touches nothing. And it returns no error exactly
        if the input is valid, the call gets its row, and then either the event is
        completed and the commit works, or the handler returns no error and every
        statement works. */
    method Process(t: TxId, key: Key, actor: string, handler: Option<Handler>, now: int, g: Around) returns (o: Outcome)
      requires Valid() && t !in s.txs
      requires AroundForeign(g, t)
      modifies this
      ensures Valid() && old(trace) <= trace
      ensures !ValidInput(key, actor, handler) ==> o == LOST && s == old(s)
      ensures !o.failed ==> && 0 < |key.consumer| <= 255 && 0 < |key.eventId| <= 255 && 0 < |actor| <= 255
                            && handler.Some?
      ensures OutcomeOk(s.log, t, key, o)
      ensures t in s.txs ==> s.txs[t].key == key && s.txs[t].phase == Ended(o)
      ensures !o.failed <==> && ValidInput(key, actor, handler) && !g.begin.fails
                             && Succeeds(AtBegin(old(s), t, key, g), t, key, handler.value, g)
      ensures o.duplicate <==> !o.failed && FoundCompleted(AtBegin(old(s), t, key, g), t, key, g)
      ensures !o.failed ==> key in Wins(s.log)
      ensures o.duplicate ==> t in s.txs && s.txs[t].did == []
      ensures var begun := AtBegin(old(s), t, key, g);
              ValidInput(key, actor, handler) && !g.begin.fails && GetsRow(begun, t, g)
              && !FoundCompleted(begun, t, key, g) && AttemptWorks(g) ==>
                RecordedAs(s.log, t, handler.value, now)
      ensures !o.failed && !o.duplicate ==>
                exists i :: && 0 <= i < |s.log| && s.log[i].tx == t && s.log[i].key == key
                            && s.log[i].kind == Succeeded && s.log[i].writes == handler.value.writes
                            && s.log[i].row.completedAt == Some(now)
    {
      if !ValidInput(key, actor, handler) {
        return LOST;
      }
      LetOthersRun(g.begin.others, t);
      if g.begin.fails {
        return LOST;
      }
      Do(Begin(t, key));
      o := InTransaction(t, handler.value, now, g);
      RunKeepsInv(Init(), trace);
      assert TxOk(s, t);
      if !o.failed && !o.duplicate {
        var c := s.log[|s.log| - 1];
        assert CommitOk(s.txs, c);
        assert c.writes == handler.value.writes;
      }
    }
  }
}
