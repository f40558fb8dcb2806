/**
 The client side of the idempotency state machine: the `Manager` methods
 (idempotency/manager.go) and the unary server interceptor on top of them
 (idempotency/grpc.go). Other clients, and the lease renewals of this very call,
 act between its scripts; any script call may be lost before or after it took
 effect. `trace` records everything that reached the store, so the theorems of
 `Idempotency` hold of every state the interceptor passes through.
 */
module Interceptor {
  import opened Common
  import opened Idempotency

  const MAX_RESPONSE_DEFAULT: nat := 0x10_0000

  datatype Config = Config(enabled: bool, processingTTL: int, resultTTL: int, failureTTL: int, maxResponseBytes: int)

  predicate ConfigOk(c: Config) {
    c.processingTTL > 0 && c.resultTTL > 0 && c.failureTTL > 0
  }

  /** The network around one script call: what others do first, whether the
      script runs, and whether its answer arrives. */
  datatype Net = Net(others: seq<Action>, executed: bool, replied: bool)

  predicate Answers(n: Net) {
    n.executed && n.replied
  }

  /** The status codes the interceptor uses (google.golang.org/grpc/codes). */
  const CANCELED: nat := 1
  const UNKNOWN: nat := 2
  const INVALID_ARGUMENT: nat := 3
  const DEADLINE_EXCEEDED: nat := 4
  const ALREADY_EXISTS: nat := 6
  const RESOURCE_EXHAUSTED: nat := 8
  const ABORTED: nat := 10
  const INTERNAL: nat := 13
  const UNAVAILABLE: nat := 14
  const DATA_LOSS: nat := 15

  predicate Retryable(code: nat) {
    || code == CANCELED || code == UNKNOWN || code == DEADLINE_EXCEEDED || code == RESOURCE_EXHAUSTED
    || code == ABORTED || code == INTERNAL || code == UNAVAILABLE || code == DATA_LOSS
  }

  /** What a caller gets: a response, or a status with its details. */
  datatype Result = Reply(body: string) | Status(code: nat, message: string, details: string)

  /** The status code of an error: any but OK. */
  type ErrorCode = code: nat | code != 0 witness 1

  /** What the guarded handler does: an encodable response, one that is not a
      protobuf message, or an error. */
  datatype Handled = Encodable(body: string) | NotEncodable | Error(code: ErrorCode, message: string, details: string)

  datatype Request = Request(key: Option<Key>, guarded: bool, fingerprint: Option<string>)

  /** What happened to the renewal goroutine when it was stopped. */
  datatype LeaseEnd = Kept | OwnershipLost | RenewalFailed

  function Plain(code: nat, message: string): Result {
    Status(code, message, "")
  }

  /** A status is stored by its code and message alone. */
  function WithoutDetails(r: Result): Result {
    if r.Status? then Plain(r.code, r.message) else r
  }

  /** How a finished record is answered without running anything. */
  function Replayed(r: Idempotency.Reply): Result
    requires !r.Won?
  {
    match r
    case Conflict => Plain(ALREADY_EXISTS, "idempotency key belongs to a different request")
    case Seen(Completed, response, _) => Reply(if response.Some? then response.value else "")
    case Seen(Failed, _, failure) =>
      if failure.Some? then Plain(failure.value.grpcCode, failure.value.message) else Plain(0, "")
    case Seen(Processing, _, _) => Plain(ABORTED, "request is already processing")
  }

  /** What the caller gets when the handler ran and its lease held. */
  function Direct(h: Handled): Result {
    match h
    case Encodable(body) => Reply(body)
    case NotEncodable => Plain(INTERNAL, "idempotent response is not protobuf")
    case Error(code, message, details) => Status(code, message, details)
  }

  /** What the caller gets when the handler ran. */
  function Concluded(h: Handled, lease: LeaseEnd): Result {
    match lease
    case Kept => Direct(h)
    case OwnershipLost => Plain(ABORTED, "idempotency ownership expired")
    case RenewalFailed => Plain(UNAVAILABLE, "idempotency lease is unavailable")
  }

  /** The outcome that is remembered for a handler result, if any is. */
  function Remembered(c: Config, h: Handled): Option<Outcome> {
    match h
    case Encodable(body) => if |body| > c.maxResponseBytes then None else Some(Response(body))
    case NotEncodable => None
    case Error(code, message, _) => if Retryable(code) then None else Some(Refusal(Failure(message, code)))
  }

  /** The replay of a remembered outcome is what the first caller got but for the
      details of a status, so it is the same exactly if there were none. */
  lemma ReplayIsOriginal(c: Config, h: Handled, s: Store, k: Key, o: Owner, ttl: int)
    requires Inv(s) && Owns(s, k, o) && ttl > 0 && Remembered(c, h).Some?
    ensures
      var s' := Step(s, FinishCall(k, o, Remembered(c, h).value, ttl));
      var reply := BeginReply(s', k, s.records[k].fields.fingerprint);
      && !reply.Won? && Replayed(reply) == WithoutDetails(Direct(h))
      && (Replayed(reply) == Direct(h) <==> (h.Error? ==> h.details == ""))
  {
    FinishOpensWindow(s, k, o, Remembered(c, h).value, ttl);
  }

  /** A refusal with details is remembered and replayed without them. */
  lemma DetailsAreDropped(c: Config)
    ensures var h := Error(INVALID_ARGUMENT, "bad request", "field amount");
            && Remembered(c, h) == Some(Refusal(Failure("bad request", INVALID_ARGUMENT)))
            && Replayed(Seen(Failed, None, Some(Failure("bad request", INVALID_ARGUMENT)))) != Direct(h)
  {
  }

  // ---- The calls of one request on the store -------------------------------

  /** The store after a script call, or what is left of it when it does not run. */
  function Called(s: Store, net: Net, a: Action): Store {
    var at := Run(s, net.others);
    if net.executed then Step(at, a) else at
  }

  /** What is called to keep a handler result: a finish for one to remember, an
      abort for one to be tried again or too large, nothing for no message. */
  function KeepCall(c: Config, k: Key, o: Owner, h: Handled): Option<Action> {
    match h
    case Encodable(body) =>
      if |body| > c.maxResponseBytes then Some(AbortCall(k, o)) else Some(FinishCall(k, o, Response(body), c.resultTTL))
    case NotEncodable => None
    case Error(code, message, _) =>
      if Retryable(code) then Some(AbortCall(k, o))
      else Some(FinishCall(k, o, Refusal(Failure(message, code)), c.failureTTL))
  }

  /** Keeping the result is not an error in itself. */
  predicate Keepable(c: Config, h: Handled) {
    Remembered(c, h).Some? || (h.Error? && Retryable(h.code))
  }

  /** How long the outcome of a handler is kept. */
  function KeepTime(c: Config, h: Handled): int {
    if h.Error? then c.failureTTL else c.resultTTL
  }

  /** The record of k holds an outcome, to be answered to this fingerprint for ttl. */
  ghost predicate Holds(s: Store, k: Key, fingerprint: string, outcome: Outcome, ttl: int) {
    && k in s.records && s.records[k].fields.status != Processing && s.records[k].expireAt == s.now + ttl
    && BeginReply(s, k, fingerprint) ==
         match outcome
         case Response(body) => Seen(Completed, Some(body), None)
         case Refusal(failure) => Seen(Failed, None, Some(failure))
  }

  /** A finish by the token that a begin brought leaves the outcome under that
      begin's fingerprint. */
  lemma FinishHolds(s: Store, i: nat, outcome: Outcome, ttl: int)
    requires Inv(s) && ttl > 0 && i < |s.log| && s.log[i].Acquired? && Owns(s, s.log[i].key, s.log[i].owner)
    ensures var e := s.log[i];
            Holds(Step(s, FinishCall(e.key, e.owner, outcome, ttl)), e.key, e.fingerprint, outcome, ttl)
  {
    OwnersFingerprint(s.log, i);
    FinishOpensWindow(s, s.log[i].key, s.log[i].owner, outcome, ttl);
  }

  class Manager {
    const config: Config
    var s: Store
    ghost var trace: seq<Action>

    ghost predicate Valid()
      reads this
    {
      ConfigOk(config) && s == Run(Init(), trace)
    }

    constructor (config: Config)
      requires ConfigOk(config)
      ensures Valid() && s == Init()
      ensures this.config == config.(maxResponseBytes := if config.maxResponseBytes <= 0 then 1_048_576
                                                         else config.maxResponseBytes)
    {
      var limit := if config.maxResponseBytes <= 0 then MAX_RESPONSE_DEFAULT else config.maxResponseBytes;
      this.config := config.(maxResponseBytes := limit);
      s, trace := Init(), [];
    }

    /** One atomic script, or the passage of time. */
    method Do(a: Action)
      requires Valid()
      modifies this
      ensures Valid() && s == Step(old(s), a) && trace == old(trace) + [a]
    {
      RunAppend(Init(), trace, [a]);
      s, trace := Step(s, a), trace + [a];
    }

    method LetOthersRun(actions: seq<Action>)
      requires Valid()
      modifies this
      ensures Valid() && old(trace) <= trace && old(s).log <= s.log
      ensures s == Run(old(s), actions)
    {
      for i := 0 to |actions|
        invariant Valid() && old(trace) <= trace && old(s).log <= s.log
        invariant Run(s, actions[i..]) == Run(old(s), actions)
      {
        Do(actions[i]);
      }
    }

    /** One script call, with the store it meets; `owned` says whether the token owns
        the key then. */
    method Call(a: Action, k: Key, owner: Owner, net: Net) returns (owned: bool, ghost at: Store)
      requires Valid()
      modifies this
      ensures Valid() && old(trace) <= trace && old(s).log <= at.log <= s.log
      ensures at == Run(old(s), net.others) && Inv(at) && s == Called(old(s), net, a)
      ensures owned <==> Owns(at, k, owner)
    {
      LetOthersRun(net.others);
      at := s;
      RunKeepsInv(Init(), trace);
      owned := Owns(s, k, owner);
      if net.executed {
        Do(a);
      }
    }

    /** `Begin`, for an enabled manager. `at` is the store on which the script ran. */
    method Begin(k: Key, fingerprint: string, owner: Owner, net: Net)
      returns (r: Option<Idempotency.Reply>, ghost at: Store)
      requires Valid()
      modifies this
      ensures Valid() && old(trace) <= trace && old(s).log <= at.log <= s.log
      ensures Inv(at) && at == Run(old(s), net.others)
      ensures s == Called(old(s), net, BeginCall(k, fingerprint, owner, config.processingTTL))
      ensures r == if Answers(net) then Some(BeginReply(at, k, fingerprint)) else None
      ensures r == Some(Won) && owner !in at.issued ==>
          s.log == at.log + [Acquired(k, owner, fingerprint)] && Owns(s, k, owner)
    {
      LetOthersRun(net.others);
      at := s;
      RunKeepsInv(Init(), trace);
      var reply := BeginReply(s, k, fingerprint);
      if net.executed {
        Do(BeginCall(k, fingerprint, owner, config.processingTTL));
      }
      r := if Answers(net) then Some(reply) else None;
    }

    /** `Abort`: no error exactly if the answer arrives and the token owned the key.
        When it runs and the token owns the key, the key is free; else nothing
        changes: it never removes a finished record or another owner's. */
    method Abort(k: Key, owner: Owner, net: Net) returns (ok: bool, ghost at: Store)
      requires Valid()
      modifies this
      ensures Valid() && old(trace) <= trace && old(s).log <= at.log <= s.log
      ensures at == Run(old(s), net.others) && Inv(at) && s == Called(old(s), net, AbortCall(k, owner))
      ensures ok <==> Answers(net) && Owns(at, k, owner)
      ensures if net.executed && Owns(at, k, owner) then k !in s.records && s.log == at.log + [Aborted(k, owner)]
              else s == at
    {
      ok, at := Call(AbortCall(k, owner), k, owner, net);
      ok := Answers(net) && ok;
    }

    method Finish(k: Key, owner: Owner, outcome: Outcome, ttl: int, net: Net) returns (ok: bool, ghost at: Store)
      requires Valid() && ttl > 0
      modifies this
      ensures Valid() && old(trace) <= trace && old(s).log <= at.log <= s.log
      ensures at == Run(old(s), net.others) && Inv(at) && s == Called(old(s), net, FinishCall(k, owner, outcome, ttl))
      ensures ok <==> Answers(net) && Owns(at, k, owner)
      ensures if net.executed && Owns(at, k, owner) then s.log == at.log + [Finished(k, owner, outcome)] else s == at
    {
      ok, at := Call(FinishCall(k, owner, outcome, ttl), k, owner, net);
      ok := Answers(net) && ok;
    }

    /** `Complete`: a response that is too large releases the key instead, and is
        an error either way. */
    method Complete(k: Key, owner: Owner, encoded: string, net: Net) returns (ok: bool, ghost at: Store)
      requires Valid()
      modifies this
      ensures Valid() && old(trace) <= trace && old(s).log <= at.log <= s.log && at == Run(old(s), net.others)
          && Inv(at)
      ensures ok <==> Answers(net) && Owns(at, k, owner) && |encoded| <= config.maxResponseBytes
      ensures s == Called(old(s), net, KeepCall(config, k, owner, Encodable(encoded)).value)
      ensures |encoded| > config.maxResponseBytes && net.executed && Owns(at, k, owner) ==> k !in s.records
    {
      if |encoded| > config.maxResponseBytes {
        ok, at := Abort(k, owner, net);
        ok := false;
      } else {
        ok, at := Finish(k, owner, Response(encoded), config.resultTTL, net);
      }
    }

    method Fail(k: Key, owner: Owner, failure: Failure, net: Net) returns (ok: bool, ghost at: Store)
      requires Valid()
      modifies this
      ensures Valid() && old(trace) <= trace && old(s).log <= at.log <= s.log && at == Run(old(s), net.others)
          && Inv(at)
      ensures ok <==> Answers(net) && Owns(at, k, owner)
      ensures s == Called(old(s), net, FinishCall(k, owner, Refusal(failure), config.failureTTL))
    {
      ok, at := Finish(k, owner, Refusal(failure), config.failureTTL, net);
    }

    /** Keep what is to be remembered of a handler result, or release the key; the
        error, if any, is only logged. */
    method Persist(k: Key, owner: Owner, h: Handled, net: Net) returns (ok: bool, ghost at: Store)
      requires Valid()
      modifies this
      ensures Valid() && old(trace) <= trace && old(s).log <= at.log <= s.log && Inv(at)
      ensures KeepCall(config, k, owner, h).Some? ==>
                at == Run(old(s), net.others) && s == Called(old(s), net, KeepCall(config, k, owner, h).value)
      ensures KeepCall(config, k, owner, h).None? ==> s == at == old(s)
      ensures ok <==> Answers(net) && Keepable(config, h) && Owns(at, k, owner)
    {
      match h
      case Error(code, message, _) =>
        if Retryable(code) {
          ok, at := Abort(k, owner, net);
        } else {
          ok, at := Fail(k, owner, Failure(message, code), net);
        }
      case Encodable(body) => ok, at := Complete(k, owner, body, net);
      case NotEncodable =>
        RunKeepsInv(Init(), trace);
        ok, at := false, s;
    }

    /** The interceptor for a guarded request. `ran` says whether the handler was
        called, `persisted` whether its result was reported kept, `at` is the
        store on which the begin script ran. The handler runs only if the begin
        found no record, and then the key was acquired for this call; otherwise
        the answer is the replay of what the begin found. When the lease was lost
        while the handler ran, nothing is stored and the caller gets an error.
        When the result is reported kept and is to be remembered, the record holds
        it for this fingerprint when the call returns. */
    method Guarded(
      k: Key, fingerprint: string, owner: Owner, h: Handled, lease: LeaseEnd,
      begin: Net, work: seq<Action>, persist: Net)
      returns (r: Result, ran: bool, persisted: bool, ghost at: Store)
      requires Valid() && owner !in s.issued
      requires forall a :: a in begin.others && a.BeginCall? ==> a.owner != owner
      modifies this
      ensures Valid() && old(trace) <= trace && Inv(at) && at == Run(old(s), begin.others)
      ensures ran <==> Answers(begin) && BeginReply(at, k, fingerprint).Won?
      ensures !ran && Answers(begin) ==> r == Replayed(BeginReply(at, k, fingerprint))
      ensures !ran && !Answers(begin) ==> r == Plain(UNAVAILABLE, "idempotency is unavailable")
      ensures ran ==> Acquired(k, owner, fingerprint) in s.log && r == Concluded(h, lease)
      ensures ran && !lease.Kept? ==> s == Worked(config, old(s), k, fingerprint, owner, begin, work)
      ensures var late := Worked(config, old(s), k, fingerprint, owner, begin, work);
              persisted <==> && ran && lease.Kept? && Answers(persist) && Keepable(config, h)
                             && Owns(Run(late, persist.others), k, owner)
      ensures persisted && Remembered(config, h).Some? ==>
                Holds(s, k, fingerprint, Remembered(config, h).value, KeepTime(config, h))
      ensures persisted && Remembered(config, h).None? ==> k !in s.records
    {
      ran, persisted := false, false;
      FreshStays(s, begin.others, owner);
      var reply;
      reply, at := Begin(k, fingerprint, owner, begin);
      if reply.None? {
        r := Plain(UNAVAILABLE, "idempotency is unavailable");
        return;
      }
      if !reply.value.Won? {
        r := Replayed(reply.value);
        return;
      }
      ran := true;
      r := Concluded(h, lease);
      ghost var i := |at.log|;
      assert s.log[i] == Acquired(k, owner, fingerprint);
      LetOthersRun(work);
      if !lease.Kept? {
        return;
      }
      ghost var met;
      persisted, met := Persist(k, owner, h, persist);
      assert met.log[i] == Acquired(k, owner, fingerprint);
      if persisted && Remembered(config, h).Some? {
        FinishHolds(met, i, Remembered(config, h).value, KeepTime(config, h));
      }
    }

    predicate Guards(q: Request) {
      q.key.Some? && config.enabled && q.guarded
    }

    /** The interceptor: unguarded requests go straight to the handler, a request
        that cannot be fingerprinted is refused, the rest is `Guarded`. In
        particular, from the moment an outcome is stored until it expires, no
        guarded call runs its handler, and each gets the stored outcome or a
        conflict, whatever other clients do before its begin. */
    method Intercept(q: Request, owner: Owner, h: Handled, lease: LeaseEnd, begin: Net, work: seq<Action>, persist: Net)
      returns (r: Result, ran: bool, persisted: bool)
      requires Valid() && owner !in s.issued
      requires forall a :: a in begin.others && a.BeginCall? ==> a.owner != owner
      modifies this
      ensures Valid() && old(trace) <= trace
      ensures !Guards(q) ==> ran && !persisted && r == Direct(h) && s == old(s)
      ensures Guards(q) && q.fingerprint.None? ==> !ran && !persisted && r.Status? && s == old(s)
      ensures Guards(q) && q.fingerprint.Some? ==>
                var found := BeginReply(Run(old(s), begin.others), q.key.value, q.fingerprint.value);
                var late := Worked(config, old(s), q.key.value, q.fingerprint.value, owner, begin, work);
                && (ran <==> Answers(begin) && found.Won?)
                && (ran ==> Acquired(q.key.value, owner, q.fingerprint.value) in s.log && r == Concluded(h, lease))
                && (Answers(begin) && !found.Won? ==> r == Replayed(found))
                && (persisted <==> ran && lease.Kept? && Answers(persist) && Keepable(config, h)
                                   && Owns(Run(late, persist.others), q.key.value, owner))
      ensures persisted ==> ran && lease.Kept? && Guards(q) && q.fingerprint.Some? && r == Direct(h)
      ensures persisted && Remembered(config, h).Some? ==>
                Holds(s, q.key.value, q.fingerprint.value, Remembered(config, h).value, KeepTime(config, h))
      ensures Guards(q) && q.fingerprint.Some? && InWindow(old(s), q.key.value, Run(old(s), begin.others).now) ==>
                var stored := BeginReply(old(s), q.key.value, q.fingerprint.value);
                !ran && !stored.Won? && (Answers(begin) ==> r == Replayed(stored))
    {
      if q.key.None? || !config.enabled || !q.guarded {
        return Direct(h), true, false;
      }
      if q.fingerprint.None? {
        return Plain(INVALID_ARGUMENT, "invalid idempotent request"), false, false;
      }
      if InWindow(s, q.key.value, Run(s, begin.others).now) {
        OutcomeReplayed(s, begin.others, q.key.value, q.fingerprint.value);
      }
      ghost var at;
      r, ran, persisted, at := Guarded(q.key.value, q.fingerprint.value, owner, h, lease, begin, work, persist);
    }
  }

  /** The store when the handler of a call that began returns. */
  function Worked(c: Config, s: Store, k: Key, fingerprint: string, o: Owner, begin: Net, work: seq<Action>): Store {
    Run(Called(s, begin, BeginCall(k, fingerprint, o, c.processingTTL)), work)
  }

  /** A finished record whose time has not run out at the given moment. */
  predicate InWindow(s: Store, k: Key, moment: int) {
    k in s.records && s.records[k].fields.status != Processing && moment < s.records[k].expireAt
  }

  /** A token nobody else begins with stays new. */
  lemma {:induction false} FreshStays(s: Store, actions: seq<Action>, o: Owner)
    requires o !in s.issued && forall a :: a in actions && a.BeginCall? ==> a.owner != o
    ensures o !in Run(s, actions).issued
    decreases |actions|
  {
    if actions != [] {
      assert actions[0] in actions;
      assert forall a :: a in actions[1..] ==> a in actions;
      FreshStays(Step(s, actions[0]), actions[1..], o);
    }
  }

  /** A request and its retry. Once a call reported its outcome kept, let others do
      anything: as long as a begin of the retry meets the store before the outcome
      expires, the store is in the window that `Intercept` speaks of, so the retry
      runs no handler and gets the first answer, but for the details of a status. */
  lemma RetryIsAnswered(
    c: Config, h: Handled, stored: Store, between: seq<Action>, k: Key, fingerprint: string, begin: Net)
    requires Remembered(c, h).Some? && Holds(stored, k, fingerprint, Remembered(c, h).value, KeepTime(c, h))
    requires Run(Run(stored, between), begin.others).now < stored.now + KeepTime(c, h)
    ensures
      var s := Run(stored, between);
      && InWindow(s, k, Run(s, begin.others).now) && !BeginReply(s, k, fingerprint).Won?
      && Replayed(BeginReply(s, k, fingerprint)) == WithoutDetails(Direct(h))
  {
    ClockMonotone(Run(stored, between), begin.others);
    OutcomeReplayed(stored, between, k, fingerprint);
  }
}
