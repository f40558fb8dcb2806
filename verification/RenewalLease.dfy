/**
 `Manager.StartLease` (idempotency/manager.go): the renewal goroutine and the
 returned `stop` function, which any number of goroutines may call. One action is
 one step of one of them, or a cancellation from outside.
 */
module RenewalLease {
  import opened Common

  type Err = string

  /** The renewer: in its select, inside `Renew`, holding its error, about to send
      its result on the one-place channel, gone. */
  datatype Renewer =
    | Selecting
    | Renewing
    | Failing(err: Err)
    | Sending(result: Option<Err>)
    | Gone

  /** How far the body that `stop` runs once has got. */
  datatype Stopper =
    | NotCalled
    | Closed
    | Received(err: Option<Err>)
    | Stopped(err: Option<Err>)

  datatype Event = RenewCalled | StopReturned(caller: nat, err: Option<Err>)

  /** `failure` is the error with which a renewal failed, if one did. */
  datatype State = State(renewer: Renewer, stopper: Stopper, cancelled: bool, channel: Option<Option<Err>>,
                         failure: Option<Err>, log: seq<Event>)

  datatype Action =
    | TickChosen
    | StopChosen
    | DoneChosen
    | RenewReturns(result: Option<Err>)
    | CancelWithError
    | SendResult
    | OutsideCancel
    | CloseStop
    | Receive
    | CancelAfter
    | StopReturns(caller: nat)

  function Init(): State {
    State(Selecting, NotCalled, false, None, None, [])
  }

  predicate Enabled(s: State, a: Action) {
    match a
    case TickChosen => s.renewer.Selecting?
    case StopChosen => s.renewer.Selecting? && !s.stopper.NotCalled?
    case DoneChosen => s.renewer.Selecting? && s.cancelled
    case RenewReturns(_) => s.renewer.Renewing?
    case CancelWithError => s.renewer.Failing?
    case SendResult => s.renewer.Sending? && s.channel.None?
    case OutsideCancel => true
    case CloseStop => s.stopper.NotCalled?
    case Receive => s.stopper.Closed? && s.channel.Some?
    case CancelAfter => s.stopper.Received?
    // Every caller waits until the body has run once.
    case StopReturns(_) => s.stopper.Stopped?
  }

  function Apply(s: State, a: Action): State
    requires Enabled(s, a)
  {
    match a
    case TickChosen => s.(renewer := Renewing, log := s.log + [RenewCalled])
    case StopChosen => s.(renewer := Sending(None))
    case DoneChosen => s.(renewer := Sending(None))
    case RenewReturns(result) =>
      if result.Some? then s.(renewer := Failing(result.value), failure := result) else s.(renewer := Selecting)
    case CancelWithError => s.(renewer := Sending(Some(s.renewer.err)), cancelled := true)
    case SendResult => s.(renewer := Gone, channel := Some(s.renewer.result))
    case OutsideCancel => s.(cancelled := true)
    case CloseStop => s.(stopper := Closed)
    case Receive => s.(stopper := Received(s.channel.value), channel := None)
    case CancelAfter => s.(stopper := Stopped(s.stopper.err), cancelled := true)
    case StopReturns(c) => s.(log := s.log + [StopReturned(c, s.stopper.err)])
  }

  function Step(s: State, a: Action): State {
    if Enabled(s, a) then Apply(s, a) else s
  }

  function Run(s: State, actions: seq<Action>): State
    decreases |actions|
  {
    if actions == [] then s else Run(Step(s, actions[0]), actions[1..])
  }

  predicate PastReceive(p: Stopper) {
    p.Received? || p.Stopped?
  }

  /** The one result the renewer sends is its failure, and it is in exactly one
      place: still with the renewer, in the channel, or received. */
  ghost predicate ResultOk(s: State) {
    && (s.renewer.Selecting? || s.renewer.Renewing? ==> s.failure.None?)
    && (s.renewer.Failing? ==> s.failure == Some(s.renewer.err))
    && (s.renewer.Sending? ==> s.renewer.result == s.failure)
    && (!s.renewer.Gone? ==> s.channel.None? && !PastReceive(s.stopper))
    && (s.renewer.Gone? ==> (s.channel.Some? <==> !PastReceive(s.stopper)))
    && (s.channel.Some? ==> s.channel.value == s.failure)
    && (PastReceive(s.stopper) ==> s.stopper.err == s.failure)
  }

  /** No renewal after a stop has returned, and every stop returns the failure. */
  ghost predicate LogOk(s: State) {
    && (forall i :: 0 <= i < |s.log| && s.log[i].StopReturned? ==> s.stopper.Stopped? && s.log[i].err == s.failure)
    && (forall i, j :: 0 <= i < j < |s.log| && s.log[i].StopReturned? ==> s.log[j] != RenewCalled)
  }

  lemma StepKeepsInv(s: State, a: Action)
    requires ResultOk(s) && LogOk(s)
    ensures ResultOk(Step(s, a)) && LogOk(Step(s, a))
  {
  }

  lemma {:induction false} RunKeepsInv(s: State, actions: seq<Action>)
    requires ResultOk(s) && LogOk(s)
    ensures ResultOk(Run(s, actions)) && LogOk(Run(s, actions))
    decreases |actions|
  {
    if actions != [] {
      StepKeepsInv(s, actions[0]);
      RunKeepsInv(Step(s, actions[0]), actions[1..]);
    }
  }

  /** In every interleaving, each return of `stop` reports exactly the failure of
      the renewer (none if no renewal failed), happens after the renewer is gone,
      and is followed by no renewal. */
  lemma StopReportsFailure(actions: seq<Action>, i: nat)
    requires i < |Run(Init(), actions).log| && Run(Init(), actions).log[i].StopReturned?
    ensures
      var s := Run(Init(), actions);
      && s.log[i].err == s.failure
      && s.renewer.Gone?
      && forall j :: i < j < |s.log| ==> s.log[j] != RenewCalled
  {
    RunKeepsInv(Init(), actions);
  }

  lemma {:induction false} FailureStays(s: State, actions: seq<Action>)
    requires ResultOk(s) && LogOk(s) && s.failure.Some?
    ensures Run(s, actions).failure == s.failure
    decreases |actions|
  {
    if actions != [] {
      StepKeepsInv(s, actions[0]);
      FailureStays(Step(s, actions[0]), actions[1..]);
    }
  }

  /** A renewal that fails is what every later return of `stop` reports. */
  lemma FailedRenewalReported(before: seq<Action>, e: Err, after: seq<Action>, i: nat)
    requires Run(Init(), before).renewer.Renewing?
    requires i < |Run(Step(Run(Init(), before), RenewReturns(Some(e))), after).log|
    requires Run(Step(Run(Init(), before), RenewReturns(Some(e))), after).log[i].StopReturned?
    ensures Run(Step(Run(Init(), before), RenewReturns(Some(e))), after).log[i].err == Some(e)
  {
    var s := Run(Init(), before);
    RunKeepsInv(Init(), before);
    StepKeepsInv(s, RenewReturns(Some(e)));
    RunKeepsInv(Step(s, RenewReturns(Some(e))), after);
    FailureStays(Step(s, RenewReturns(Some(e))), after);
  }

  lemma {:induction false} NoFailure(s: State, actions: seq<Action>)
    requires s.failure.None? && forall a :: a in actions && a.RenewReturns? ==> a.result.None?
    ensures Run(s, actions).failure.None?
    decreases |actions|
  {
    if actions != [] {
      assert actions[0] in actions;
      assert forall a :: a in actions[1..] ==> a in actions;
      NoFailure(Step(s, actions[0]), actions[1..]);
    }
  }

  /** And if every renewal succeeds, `stop` reports no error. */
  lemma NoFailureNoError(actions: seq<Action>, i: nat)
    requires forall a :: a in actions && a.RenewReturns? ==> a.result.None?
    requires i < |Run(Init(), actions).log| && Run(Init(), actions).log[i].StopReturned?
    ensures Run(Init(), actions).log[i].err.None?
  {
    NoFailure(Init(), actions);
    StopReportsFailure(actions, i);
  }

  /** The renewer's send finds the channel empty in every reachable state, so it
      never blocks. */
  lemma SendNeverBlocks(actions: seq<Action>)
    requires Run(Init(), actions).renewer.Sending?
    ensures Enabled(Run(Init(), actions), SendResult)
  {
    RunKeepsInv(Init(), actions);
  }

  /** The steps the renewer has left once `stop` was called. */
  function RenewerExit(s: State): seq<Action> {
    match s.renewer
    case Selecting => [StopChosen, SendResult]
    case Renewing => [RenewReturns(None), StopChosen, SendResult]
    case Failing(_) => [CancelWithError, SendResult]
    case Sending(_) => [SendResult]
    case Gone => []
  }

  function StopExit(s: State): seq<Action> {
    match s.stopper
    case NotCalled => []
    case Closed => [Receive, CancelAfter]
    case Received(_) => [CancelAfter]
    case Stopped(_) => []
  }

  /** Once called, `stop` can always get to its return. */
  lemma StopCanReturn(actions: seq<Action>)
    requires !Run(Init(), actions).stopper.NotCalled?
    ensures
      var s := Run(Init(), actions);
      Run(Run(s, RenewerExit(s)), StopExit(s)).stopper.Stopped?
  {
    var s := Run(Init(), actions);
    RunKeepsInv(Init(), actions);
    RenewerLeaves(s);
    StopLeaves(Run(s, RenewerExit(s)));
  }

  lemma RunOne(s: State, a: Action)
    ensures Run(s, [a]) == Step(s, a)
  {
    assert [a][1..] == [];
  }

  lemma RunTwo(s: State, a: Action, b: Action)
    ensures Run(s, [a, b]) == Step(Step(s, a), b)
  {
    assert [a, b][1..] == [b];
    RunOne(Step(s, a), b);
  }

  lemma RenewerLeaves(s: State)
    requires ResultOk(s) && !s.stopper.NotCalled?
    ensures
      var s' := Run(s, RenewerExit(s));
      s'.renewer.Gone? && s'.stopper == s.stopper && (s'.channel.Some? || PastReceive(s.stopper))
  {
    match s.renewer
    case Selecting => RunTwo(s, StopChosen, SendResult);
    case Renewing =>
      assert [RenewReturns(None), StopChosen, SendResult][1..] == [StopChosen, SendResult];
      RunTwo(Step(s, RenewReturns(None)), StopChosen, SendResult);
    case Failing(_) => RunTwo(s, CancelWithError, SendResult);
    case Sending(_) => RunOne(s, SendResult);
    case Gone =>
  }

  lemma StopLeaves(s: State)
    requires !s.stopper.NotCalled? && (s.channel.Some? || PastReceive(s.stopper))
    ensures Run(s, StopExit(s)).stopper.Stopped?
  {
    match s.stopper
    case Closed => RunTwo(s, Receive, CancelAfter);
    case Received(_) => RunOne(s, CancelAfter);
    case Stopped(_) =>
  }

  // ---- The context, and runs to the end ------------------------------------

  /** Once a failure is to be reported, or `stop` is done, the context is cancelled. */
  ghost predicate CancelOk(s: State) {
    && (s.failure.Some? && (s.renewer.Sending? || s.renewer.Gone?) ==> s.cancelled)
    && (s.stopper.Stopped? ==> s.cancelled)
    && (forall i :: 0 <= i < |s.log| && s.log[i].StopReturned? ==> s.stopper.Stopped?)
  }

  lemma StepKeepsCancelOk(s: State, a: Action)
    requires ResultOk(s) && LogOk(s) && CancelOk(s)
    ensures CancelOk(Step(s, a))
  {
  }

  lemma {:induction false} RunKeepsCancelOk(s: State, actions: seq<Action>)
    requires ResultOk(s) && LogOk(s) && CancelOk(s)
    ensures CancelOk(Run(s, actions))
    decreases |actions|
  {
    if actions != [] {
      StepKeepsInv(s, actions[0]);
      StepKeepsCancelOk(s, actions[0]);
      RunKeepsCancelOk(Step(s, actions[0]), actions[1..]);
    }
  }

  /** The context handed to the handler is cancelled once a renewal has failed and the
      renewer is done, and in any case once `stop` has returned. */
  lemma LeaseEndCancels(actions: seq<Action>)
    ensures
      var s := Run(Init(), actions);
      && (s.failure.Some? && s.renewer.Gone? ==> s.cancelled)
      && (forall i :: 0 <= i < |s.log| && s.log[i].StopReturned? ==> s.cancelled)
  {
    RunKeepsCancelOk(Init(), actions);
  }

  lemma {:induction false} RunAppend(s: State, xs: seq<Action>, ys: seq<Action>)
    ensures Run(s, xs + ys) == Run(Run(s, xs), ys)
    decreases |xs|
  {
    if xs == [] {
      assert xs + ys == ys;
    } else {
      assert (xs + ys)[1..] == xs[1..] + ys;
      RunAppend(Step(s, xs[0]), xs[1..], ys);
    }
  }

  /** From the renewer's result to the return of `stop`. */
  lemma Handover(s: State, caller: nat)
    requires s.renewer.Sending? && s.channel.None? && s.stopper.Closed?
    ensures
      var s' := Run(s, [SendResult, Receive] + [CancelAfter, StopReturns(caller)]);
      s'.cancelled && s'.log == s.log + [StopReturned(caller, s.renewer.result)]
  {
    RunTwo(s, SendResult, Receive);
    var s2 := Step(Step(s, SendResult), Receive);
    RunTwo(s2, CancelAfter, StopReturns(caller));
    RunAppend(s, [SendResult, Receive], [CancelAfter, StopReturns(caller)]);
  }

  /** A lease of one renewal that fails, one that succeeds, and one cancelled from
      outside, each stopped by the given caller. */
  lemma OneRenewalEach(e: Err, caller: nat)
    ensures
      var failed := Run(Run(Init(), [TickChosen, RenewReturns(Some(e))]), [CancelWithError, CloseStop]);
      Run(failed, [SendResult, Receive] + [CancelAfter, StopReturns(caller)]).log ==
      [RenewCalled] + [StopReturned(caller, Some(e))]
    ensures
      var fine := Run(Run(Init(), [TickChosen, RenewReturns(None)]), [CloseStop, StopChosen]);
      Run(fine, [SendResult, Receive] + [CancelAfter, StopReturns(caller)]).log ==
      [RenewCalled] + [StopReturned(caller, None)]
    ensures
      var gone := Run(Run(Init(), [OutsideCancel, DoneChosen]), [CloseStop]);
      Run(gone, [SendResult, Receive] + [CancelAfter, StopReturns(caller)]).log == [] + [StopReturned(caller, None)]
  {
    FailedOne(e, caller);
    FineOne(caller);
    GoneOne(caller);
  }

  lemma FailedOne(e: Err, caller: nat)
    ensures
      var failed := Run(Run(Init(), [TickChosen, RenewReturns(Some(e))]), [CancelWithError, CloseStop]);
      Run(failed, [SendResult, Receive] + [CancelAfter, StopReturns(caller)]).log ==
      [RenewCalled] + [StopReturned(caller, Some(e))]
  {
    RunTwo(Init(), TickChosen, RenewReturns(Some(e)));
    var s := Run(Init(), [TickChosen, RenewReturns(Some(e))]);
    RunTwo(s, CancelWithError, CloseStop);
    Handover(Run(s, [CancelWithError, CloseStop]), caller);
  }

  lemma FineOne(caller: nat)
    ensures
      var fine := Run(Run(Init(), [TickChosen, RenewReturns(None)]), [CloseStop, StopChosen]);
      Run(fine, [SendResult, Receive] + [CancelAfter, StopReturns(caller)]).log ==
      [RenewCalled] + [StopReturned(caller, None)]
  {
    RunTwo(Init(), TickChosen, RenewReturns(None));
    var s := Run(Init(), [TickChosen, RenewReturns(None)]);
    RunTwo(s, CloseStop, StopChosen);
    Handover(Run(s, [CloseStop, StopChosen]), caller);
  }

  lemma GoneOne(caller: nat)
    ensures
      var gone := Run(Run(Init(), [OutsideCancel, DoneChosen]), [CloseStop]);
      Run(gone, [SendResult, Receive] + [CancelAfter, StopReturns(caller)]).log == [] + [StopReturned(caller, None)]
  {
    RunTwo(Init(), OutsideCancel, DoneChosen);
    var s := Run(Init(), [OutsideCancel, DoneChosen]);
    RunOne(s, CloseStop);
    Handover(Run(s, [CloseStop]), caller);
  }
}
