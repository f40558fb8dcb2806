/**
 `runLease` (distlock/redis.go): the caller's callback and the renewer goroutine
 as two threads that share a cancellable context, a one-place error channel and
 a `done` channel. One action is one step of one thread or a cancellation from
 outside; every interleaving is a sequence of actions. Callbacks that return are
 covered, panics are not.
 */
module LockLease {
  import opened Common

  type Err = string

  /** The renewer: waiting in its select, inside `Extend`, holding the error that
      `Extend` returned, having seen the context live after that error, having
      sent the error, gone. */
  datatype Renewer =
    | Selecting
    | Extending
    | Failed(err: Err)
    | SawLive(err: Err)
    | SentError(err: Err)
    | Gone

  /** The caller: in the callback, about to cancel, waiting for the renewer,
      about to look into the error channel, about to unlock, returned. */
  datatype Caller =
    | InCallback
    | Returned(callback: Option<Err>)
    | Waiting(callback: Option<Err>)
    | Joined(callback: Option<Err>)
    | Drained(callback: Option<Err>, extend: Option<Err>)
    | Finished(callback: Option<Err>, extend: Option<Err>, unlock: Option<Err>)

  datatype Event = ExtendCalled | CallbackReturned | RenewerGone | Unlocked

  /** `checked` is the renewal error, if any, that was found while the lease was
      still live at the renewer's own check. */
  datatype State = State(renewer: Renewer, caller: Caller, cancelled: bool, channel: Option<Err>,
                         checked: Option<Err>, log: seq<Event>)

  datatype Action =
    | TickChosen
    | DoneChosen
    | ExtendReturns(result: Option<Err>)
    | CheckContext
    | SendError
    | CancelWithError
    | OutsideCancel
    | CallbackReturns(result: Option<Err>)
    | CallerCancels
    | Join
    | Drain
    | Unlock(result: Option<Err>)

  function Init(): State {
    State(Selecting, InCallback, false, None, None, [])
  }

  predicate Enabled(s: State, a: Action) {
    match a
    // With both a tick and the cancellation ready, select picks either.
    case TickChosen => s.renewer.Selecting?
    case DoneChosen => s.renewer.Selecting? && s.cancelled
    case ExtendReturns(_) => s.renewer.Extending?
    case CheckContext => s.renewer.Failed?
    case SendError => s.renewer.SawLive? && s.channel.None?
    case CancelWithError => s.renewer.SentError?
    case OutsideCancel => true
    case CallbackReturns(_) => s.caller.InCallback?
    case CallerCancels => s.caller.Returned?
    case Join => s.caller.Waiting? && s.renewer.Gone?
    case Drain => s.caller.Joined?
    case Unlock(_) => s.caller.Drained?
  }

  function Log(s: State, e: Event): State {
    s.(log := s.log + [e])
  }

  function Apply(s: State, a: Action): State
    requires Enabled(s, a)
  {
    match a
    case TickChosen => Log(s.(renewer := Extending), ExtendCalled)
    case DoneChosen => Log(s.(renewer := Gone), RenewerGone)
    case ExtendReturns(result) => s.(renewer := if result.Some? then Failed(result.value) else Selecting)
    case CheckContext =>
      if s.cancelled then Log(s.(renewer := Gone), RenewerGone)
      else s.(renewer := SawLive(s.renewer.err), checked := Some(s.renewer.err))
    case SendError => s.(renewer := SentError(s.renewer.err), channel := Some(s.renewer.err))
    case CancelWithError => Log(s.(renewer := Gone, cancelled := true), RenewerGone)
    case OutsideCancel => s.(cancelled := true)
    case CallbackReturns(result) => Log(s.(caller := Returned(result)), CallbackReturned)
    case CallerCancels => s.(caller := Waiting(s.caller.callback), cancelled := true)
    case Join => s.(caller := Joined(s.caller.callback))
    case Drain => s.(caller := Drained(s.caller.callback, s.channel), channel := None)
    case Unlock(result) => Log(s.(caller := Finished(s.caller.callback, s.caller.extend, result)), Unlocked)
  }

  function Step(s: State, a: Action): State {
    if Enabled(s, a) then Apply(s, a) else s
  }

  function Run(s: State, actions: seq<Action>): State
    decreases |actions|
  {
    if actions == [] then s else Run(Step(s, actions[0]), actions[1..])
  }

  // ---- The inductive invariant ---------------------------------------------

  predicate PastCallback(c: Caller) {
    !c.InCallback?
  }

  predicate PastJoin(c: Caller) {
    c.Joined? || c.Drained? || c.Finished?
  }

  ghost function Count(log: seq<Event>, e: Event): nat {
    if log == [] then 0 else Count(log[..|log| - 1], e) + (if log[|log| - 1] == e then 1 else 0)
  }

  lemma CountAppend(log: seq<Event>, e: Event, f: Event)
    ensures Count(log + [e], f) == Count(log, f) + (if e == f then 1 else 0)
  {
    assert (log + [e])[..|log|] == log;
  }

  /** The renewer holds or has sent an error that it found while the lease was live. */
  ghost predicate ErrorsOk(s: State) {
    && (s.renewer.SawLive? ==> s.checked == Some(s.renewer.err) && s.channel.None?)
    && (s.renewer.SentError? ==> s.checked == Some(s.renewer.err) && s.channel == s.checked)
    && (s.renewer.Selecting? || s.renewer.Extending? || s.renewer.Failed? ==> s.checked.None? && s.channel.None?)
    && (s.renewer.Gone? && !s.caller.Drained? && !s.caller.Finished? ==> s.channel == s.checked)
    && (s.caller.Drained? ==> s.caller.extend == s.checked)
    && (s.caller.Finished? ==> s.caller.extend == s.checked)
  }

  ghost predicate CountsOk(s: State) {
    && Count(s.log, CallbackReturned) == (if PastCallback(s.caller) then 1 else 0)
    && Count(s.log, RenewerGone) == (if s.renewer.Gone? then 1 else 0)
    && Count(s.log, Unlocked) == (if s.caller.Finished? then 1 else 0)
  }

  /** Once the renewer is gone nothing is renewed; nothing is unlocked before both
      threads are through. */
  ghost predicate OrderOk(log: seq<Event>) {
    forall i, j :: 0 <= i < j < |log| ==>
      && (log[i] == RenewerGone ==> log[j] != ExtendCalled)
      && (log[i] == Unlocked ==> log[j] != ExtendCalled && log[j] != CallbackReturned && log[j] != RenewerGone)
  }

  ghost predicate Inv(s: State) {
    && ErrorsOk(s) && CountsOk(s) && OrderOk(s.log)
    && (PastJoin(s.caller) ==> s.renewer.Gone?)
    && (s.caller.Waiting? || PastJoin(s.caller) ==> s.cancelled)
  }

  lemma {:induction false} CountZero(log: seq<Event>, e: Event)
    ensures Count(log, e) == 0 <==> e !in log
  {
    if log != [] {
      var front := log[..|log| - 1];
      CountZero(front, e);
      assert log == front + [log[|log| - 1]];
    }
  }

  lemma LogKeepsInv(s: State, s': State, e: Event)
    requires Inv(s) && ErrorsOk(s') && s'.log == s.log + [e]
    requires (PastJoin(s'.caller) ==> s'.renewer.Gone?) && (s'.caller.Waiting? || PastJoin(s'.caller) ==> s'.cancelled)
    requires e == ExtendCalled ==> !s.renewer.Gone?
    requires e == ExtendCalled || e == CallbackReturned || e == RenewerGone ==> !s.caller.Finished?
    requires (if PastCallback(s'.caller) then 1 else 0) ==
        (if PastCallback(s.caller) then 1 else 0) + (if e == CallbackReturned then 1 else 0)
    requires (if s'.renewer.Gone? then 1 else 0) ==
        (if s.renewer.Gone? then 1 else 0) + (if e == RenewerGone then 1 else 0)
    requires (if s'.caller.Finished? then 1 else 0) ==
        (if s.caller.Finished? then 1 else 0) + (if e == Unlocked then 1 else 0)
    ensures Inv(s')
  {
    CountAppend(s.log, e, CallbackReturned);
    CountAppend(s.log, e, RenewerGone);
    CountAppend(s.log, e, Unlocked);
    CountZero(s.log, RenewerGone);
    CountZero(s.log, Unlocked);
    forall i, j | 0 <= i < j < |s'.log|
      ensures s'.log[i] == RenewerGone ==> s'.log[j] != ExtendCalled
      ensures s'.log[i] == Unlocked ==>
          s'.log[j] != ExtendCalled && s'.log[j] != CallbackReturned && s'.log[j] != RenewerGone
    {
      assert s'.log[i] == s.log[i] && s.log[i] in s.log;
    }
  }

  lemma StepKeepsInv(s: State, a: Action)
    requires Inv(s)
    ensures Inv(Step(s, a))
  {
    if Enabled(s, a) {
      var s' := Apply(s, a);
      if s'.log != s.log {
        LogKeepsInv(s, s', s'.log[|s.log|]);
      }
    }
  }

  lemma {:induction false} RunKeepsInv(s: State, actions: seq<Action>)
    requires Inv(s)
    ensures Inv(Run(s, actions))
    decreases |actions|
  {
    if actions != [] {
      StepKeepsInv(s, actions[0]);
      RunKeepsInv(Step(s, actions[0]), actions[1..]);
    }
  }

  // ---- Main results --------------------------------------------------------

  /** In every interleaving the lock is released exactly once in a finished call
      and never before; by then the callback has returned and the renewer is gone,
      and no renewal, callback return or renewer exit comes after the release. */
  lemma UnlockOnceAndLast(actions: seq<Action>)
    ensures
      var s := Run(Init(), actions);
      && Count(s.log, Unlocked) == (if s.caller.Finished? then 1 else 0)
      && (s.caller.Finished? ==> CallbackReturned in s.log && RenewerGone in s.log)
      && OrderOk(s.log)
  {
    var s := Run(Init(), actions);
    RunKeepsInv(Init(), actions);
    CountZero(s.log, CallbackReturned);
    CountZero(s.log, RenewerGone);
  }

  /** The renewal error in the result of a finished call is the one the renewer
      found with the lease still live, and there is none if there was no such. */
  lemma ResultHasCheckedError(actions: seq<Action>)
    requires Run(Init(), actions).caller.Finished?
    ensures Run(Init(), actions).caller.extend == Run(Init(), actions).checked
  {
    RunKeepsInv(Init(), actions);
  }

  lemma {:induction false} FailedStays(s: State, actions: seq<Action>)
    requires s.renewer.Failed? && CheckContext !in actions
    ensures Run(s, actions).renewer == s.renewer
    decreases |actions|
  {
    if actions != [] {
      assert actions[0] in actions;
      FailedStays(Step(s, actions[0]), actions[1..]);
    }
  }

  /** When a renewal returns an error, that error reaches the result exactly if the
      lease is still live when the renewer checks it, whatever happens before the
      check and afterwards; otherwise no renewal error does. */
  lemma FailedRenewalReported(before: seq<Action>, e: Err, between: seq<Action>, after: seq<Action>)
    requires Run(Init(), before).renewer.Extending? && CheckContext !in between
    requires
      var s := Run(Step(Run(Init(), before), ExtendReturns(Some(e))), between);
      Run(Step(s, CheckContext), after).caller.Finished?
    ensures
      var s := Run(Step(Run(Init(), before), ExtendReturns(Some(e))), between);
      Run(Step(s, CheckContext), after).caller.extend == if s.cancelled then None else Some(e)
  {
    var s0 := Run(Init(), before);
    var s := Run(Step(s0, ExtendReturns(Some(e))), between);
    RunKeepsInv(Init(), before);
    StepKeepsInv(s0, ExtendReturns(Some(e)));
    RunKeepsInv(Step(s0, ExtendReturns(Some(e))), between);
    FailedStays(Step(s0, ExtendReturns(Some(e))), between);
    var s1 := Step(s, CheckContext);
    StepKeepsInv(s, CheckContext);
    CheckedStays(s1, after);
    RunKeepsInv(s1, after);
  }

  lemma {:induction false} CallbackStays(s: State, actions: seq<Action>)
    requires PastCallback(s.caller)
    ensures PastCallback(Run(s, actions).caller) && Run(s, actions).caller.callback == s.caller.callback
    ensures s.caller.Finished? ==> Run(s, actions).caller == s.caller
    decreases |actions|
  {
    if actions != [] {
      CallbackStays(Step(s, actions[0]), actions[1..]);
    }
  }

  /** What the callback returns is in the result. */
  lemma CallbackReported(before: seq<Action>, result: Option<Err>, after: seq<Action>)
    requires Run(Init(), before).caller.InCallback?
    requires Run(Step(Run(Init(), before), CallbackReturns(result)), after).caller.Finished?
    ensures Run(Step(Run(Init(), before), CallbackReturns(result)), after).caller.callback == result
  {
    CallbackStays(Step(Run(Init(), before), CallbackReturns(result)), after);
  }

  /** And so is what the unlock returns, next to the errors found before. */
  lemma UnlockReported(before: seq<Action>, result: Option<Err>, after: seq<Action>)
    requires Run(Init(), before).caller.Drained?
    ensures
      var c := Run(Init(), before).caller;
      Run(Step(Run(Init(), before), Unlock(result)), after).caller == Finished(c.callback, c.extend, result)
  {
    CallbackStays(Step(Run(Init(), before), Unlock(result)), after);
  }

  predicate PastCheck(r: Renewer) {
    r.SawLive? || r.SentError? || r.Gone?
  }

  lemma {:induction false} CheckedStays(s: State, actions: seq<Action>)
    requires PastCheck(s.renewer)
    ensures Run(s, actions).checked == s.checked
    decreases |actions|
  {
    if actions != [] {
      CheckedStays(Step(s, actions[0]), actions[1..]);
    }
  }

  /** The caller cancels before the renewer, whose renewal failed, has looked. */
  lemma CancelsFirst(s: State, e: Err)
    requires s.renewer == Failed(e) && s.caller.InCallback?
    ensures
      var s' := Run(s, [CallbackReturns(None), CallerCancels]);
      s'.renewer == Failed(e) && s'.caller == Waiting(None) && s'.cancelled && s'.channel == s.channel
  {
    RunTwo(s, CallbackReturns(None), CallerCancels);
  }

  /** From there the error is dropped. */
  lemma DroppedAfterwards(s: State)
    requires s.renewer.Failed? && s.caller == Waiting(None) && s.cancelled && s.channel.None?
    ensures Run(s, [CheckContext, Join] + [Drain, Unlock(None)]).caller == Finished(None, None, None)
  {
    RunTwo(s, CheckContext, Join);
    RunTwo(Step(Step(s, CheckContext), Join), Drain, Unlock(None));
    RunAppend(s, [CheckContext, Join], [Drain, Unlock(None)]);
  }

  /** A renewal can fail while the lease is live and still go unreported: the
      callback returns and cancels between the failure and the check. */
  lemma FailureCanBeDropped(e: Err)
    ensures
      var failed := Run(Init(), [TickChosen, ExtendReturns(Some(e))]);
      var cancelled := Run(failed, [CallbackReturns(None), CallerCancels]);
      && failed.renewer == Failed(e) && !failed.cancelled
      && Run(cancelled, [CheckContext, Join] + [Drain, Unlock(None)]).caller == Finished(None, None, None)
  {
    RunTwo(Init(), TickChosen, ExtendReturns(Some(e)));
    var failed := Run(Init(), [TickChosen, ExtendReturns(Some(e))]);
    CancelsFirst(failed, e);
    DroppedAfterwards(Run(failed, [CallbackReturns(None), CallerCancels]));
  }

  lemma RunTwo(s: State, a: Action, b: Action)
    ensures Run(s, [a, b]) == Step(Step(s, a), b)
  {
    assert [a, b][1..] == [b];
    RunOne(Step(s, a), b);
  }

  lemma {:induction false} RunAppend(s: State, xs: seq<Action>, ys: seq<Action>)
    ensures Run(s, xs + ys) == Run(Run(s, xs), ys)
    decreases |xs|
  {
    if xs == [] {
      assert xs + ys == ys;
    } else {
      assert (xs + ys)[1..] == xs[1..] + ys;
      RunAppend(Step(s, xs[0]), xs[1..], ys);
    }
  }

  // ---- It never gets stuck -------------------------------------------------

  /** What brings the renewer out: the steps it has left once cancelled. */
  function RenewerExit(s: State): seq<Action> {
    match s.renewer
    case Selecting => [DoneChosen]
    case Extending => [ExtendReturns(None), DoneChosen]
    case Failed(_) => [CheckContext]
    case SawLive(_) => [SendError, CancelWithError]
    case SentError(_) => [CancelWithError]
    case Gone => []
  }

  /** What brings the caller home from there. */
  function CallerExit(s: State): seq<Action> {
    match s.caller
    case InCallback => []
    case Returned(_) => []
    case Waiting(_) => [Join, Drain, Unlock(None)]
    case Joined(_) => [Drain, Unlock(None)]
    case Drained(_, _) => [Unlock(None)]
    case Finished(_, _, _) => []
  }

  /** From every reachable state with the callback returned the call can finish,
      once it has cancelled: no thread waits for ever, in particular the send never
      blocks. */
  lemma CanFinish(actions: seq<Action>)
    requires PastCallback(Run(Init(), actions).caller)
    ensures
      var s := Step(Run(Init(), actions), CallerCancels);
      Run(Run(s, RenewerExit(s)), CallerExit(s)).caller.Finished?
  {
    var s := Step(Run(Init(), actions), CallerCancels);
    RunKeepsInv(Init(), actions);
    StepKeepsInv(Run(Init(), actions), CallerCancels);
    RenewerLeaves(s);
    CallerLeaves(Run(s, RenewerExit(s)));
  }

  lemma RunOne(s: State, a: Action)
    ensures Run(s, [a]) == Step(s, a)
  {
    assert [a][1..] == [];
  }

  lemma RenewerLeaves(s: State)
    requires Inv(s) && s.cancelled
    ensures Run(s, RenewerExit(s)).renewer.Gone? && Run(s, RenewerExit(s)).caller == s.caller
  {
    match s.renewer
    case Selecting => RunOne(s, DoneChosen);
    case Extending => RunTwo(s, ExtendReturns(None), DoneChosen);
    case Failed(_) => RunOne(s, CheckContext);
    case SawLive(_) => RunTwo(s, SendError, CancelWithError);
    case SentError(_) => RunOne(s, CancelWithError);
    case Gone =>
  }

  lemma CallerLeaves(s: State)
    requires s.renewer.Gone? && (s.caller.Waiting? || PastJoin(s.caller))
    ensures Run(s, CallerExit(s)).caller.Finished?
  {
    match s.caller
    case Waiting(_) =>
      assert [Join, Drain, Unlock(None)] == [Join] + [Drain, Unlock(None)];
      RunAppend(s, [Join], [Drain, Unlock(None)]);
      RunOne(s, Join);
      RunTwo(Step(s, Join), Drain, Unlock(None));
    case Joined(_) => RunTwo(s, Drain, Unlock(None));
    case Drained(_, _) => RunOne(s, Unlock(None));
    case Finished(_, _, _) =>
  }

  // ---- The context and the channel -----------------------------------------

  /** The renewer leaves with an error it reported only after cancelling, and what it
      reported is taken out of the channel before the lock is released. */
  ghost predicate CancelOk(s: State) {
    && (s.checked.Some? && s.renewer.Gone? ==> s.cancelled)
    && (s.caller.Drained? || s.caller.Finished? ==> s.channel.None?)
  }

  lemma StepKeepsCancelOk(s: State, a: Action)
    requires Inv(s) && CancelOk(s)
    ensures CancelOk(Step(s, a))
  {
  }

  lemma {:induction false} RunKeepsCancelOk(s: State, actions: seq<Action>)
    requires Inv(s) && CancelOk(s)
    ensures CancelOk(Run(s, actions))
    decreases |actions|
  {
    if actions != [] {
      StepKeepsInv(s, actions[0]);
      StepKeepsCancelOk(s, actions[0]);
      RunKeepsCancelOk(Step(s, actions[0]), actions[1..]);
    }
  }

  /** A renewal error that is to be reported also cancels the context of the callback,
      at the latest when the renewer is gone; the channel is empty at the end. */
  lemma FailureCancels(actions: seq<Action>)
    ensures
      var s := Run(Init(), actions);
      && (s.checked.Some? && s.renewer.Gone? ==> s.cancelled)
      && (s.caller.Finished? ==> s.channel.None?)
  {
    RunKeepsCancelOk(Init(), actions);
  }

  lemma {:induction false} CancelStays(s: State, actions: seq<Action>)
    requires s.cancelled || OutsideCancel in actions
    ensures Run(s, actions).cancelled
    decreases |actions|
  {
    if actions != [] {
      CancelStays(Step(s, actions[0]), actions[1..]);
    }
  }

  /** A renewal that fails is not reported if the context is cancelled from outside
      before the renewer looks. */
  lemma OutsideCancelHides(before: seq<Action>, e: Err, between: seq<Action>, after: seq<Action>)
    requires Run(Init(), before).renewer.Extending? && CheckContext !in between && OutsideCancel in between
    requires
      var s := Run(Step(Run(Init(), before), ExtendReturns(Some(e))), between);
      Run(Step(s, CheckContext), after).caller.Finished?
    ensures
      var s := Run(Step(Run(Init(), before), ExtendReturns(Some(e))), between);
      Run(Step(s, CheckContext), after).caller.extend.None?
  {
    CancelStays(Step(Run(Init(), before), ExtendReturns(Some(e))), between);
    FailedRenewalReported(before, e, between, after);
  }
}
