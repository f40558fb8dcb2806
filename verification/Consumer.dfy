/**
 `consumerProcessor.process` (eventbus/consumer.go) with `inbox.SQLStore.Process`
 as its handler, as README.md:5 tells services to combine them. The processor
 keeps every delivery it was handed and every effect it had on the broker; its
 invariant speaks about all deliveries so far, over every interleaving of the
 database with other transactions.
 */
module Consumer {
  import opened Common
  import Backoff
  import Inbox
  import InboxStore
  import Utf8

  const DEAD_LETTER_EVENT_TYPE := "platform.system.event.dead-lettered.v1"

  datatype Envelope = Envelope(eventId: string, eventType: string, aggregateId: string)

  /** A delivery: the metadata if it can be read, the raw data and what it decodes to. */
  datatype Message = Message(numDelivered: Option<Backoff.uint64>, data: seq<byte>, decoded: Option<Envelope>)

  /** The inbox call made for a delivery. */
  datatype Call = Call(t: Inbox.TxId, actor: string, handler: InboxStore.Handler, now: int, around: InboxStore.Around)

  /** How the surroundings behave during one delivery: the error text, whether
      the consumer is being shut down when the handler fails, and whether the
      broker calls report success. */
  datatype Surroundings = Surroundings(cause: seq<byte>, cancelled: bool, publishes: bool, settles: bool)

  datatype DeadLetter = DeadLetter(eventId: string, original: Option<Envelope>, data: seq<byte>, truncated: bool,
                                   deliveries: Backoff.uint64, reason: seq<byte>)

  /** What the processor did, in order. */
  datatype Effect =
    | Reported
    | Published(letter: DeadLetter)
    | Acked
    | Naked(delay: Backoff.Duration)
    | Terminated(reason: Reason)

  datatype Reason = InvalidEnvelope | Text(text: seq<byte>)

  predicate Settles(e: Effect) {
    e.Acked? || e.Naked? || e.Terminated?
  }

  /** One delivery: what came, what the inbox call returned if it was made, and
      everything the processor then did, in order. */
  datatype Delivery = Delivery(message: Message, outcome: Option<Inbox.Outcome>, effects: seq<Effect>)

  /** `publishDeadLetter` up to the publish: `NewEnvelope` refuses a dead letter
      without an aggregate id, which it takes from the original event; for data
      that does not decode it is a digest and never empty. */
  predicate Buildable(original: Option<Envelope>) {
    original.Some? ==> original.value.aggregateId != ""
  }

  predicate IsDeadLetter(m: Message) {
    m.decoded.Some? && m.decoded.value.eventType == DEAD_LETTER_EVENT_TYPE
  }

  predicate AtLimit(c: Backoff.Config, m: Message) {
    m.numDelivered.Some? && m.numDelivered.value as int >= c.maxDeliver
  }

  /** The delivery count that a retry is computed from. */
  function DeliveryCount(m: Message): Backoff.uint64 {
    if m.numDelivered.Some? then m.numDelivered.value else 1
  }

  ghost function Settlements(effects: seq<Effect>): nat {
    if effects == [] then 0
    else Settlements(effects[..|effects| - 1]) + (if Settles(effects[|effects| - 1]) then 1 else 0)
  }

  ghost predicate Acknowledged(effects: seq<Effect>) {
    exists i :: 0 <= i < |effects| && effects[i].Acked?
  }

  ghost predicate WasTerminated(effects: seq<Effect>) {
    exists i :: 0 <= i < |effects| && effects[i].Terminated?
  }

  ghost predicate WasPublished(effects: seq<Effect>) {
    exists i :: 0 <= i < |effects| && effects[i].Published?
  }

  /** The letter carries the original event, or what fits of the data that did not decode. */
  ghost predicate LetterOk(m: Message, letter: DeadLetter) {
    && letter.original == m.decoded && Buildable(m.decoded)
    && m.numDelivered == Some(letter.deliveries)
    && (m.decoded.None? ==> letter.data <= m.data && (letter.truncated <==> letter.data != m.data))
  }

  /** The justification each effect needs from what came before it. */
  ghost predicate Justified(c: Backoff.Config, m: Message, effects: seq<Effect>, i: nat)
    requires i < |effects|
  {
    match effects[i]
    case Terminated(_) => WasPublished(effects[..i]) || (IsDeadLetter(m) && AtLimit(c, m))
    case Naked(delay) => delay as int == Backoff.Delay(c, DeliveryCount(m) as int)
    case Published(letter) => LetterOk(m, letter) && !IsDeadLetter(m) && (m.decoded.Some? ==> AtLimit(c, m))
    case _ => true
  }

  /** What is promised of every delivery, against the committed inbox. */
  ghost predicate Sound(c: Backoff.Config, durable: string, committed: seq<Inbox.Commit>, d: Delivery) {
    && (Acknowledged(d.effects) ==>
          d.message.decoded.Some? && Inbox.Key(durable, d.message.decoded.value.eventId) in Inbox.Wins(committed))
    && (forall i :: 0 <= i < |d.effects| ==> Justified(c, d.message, d.effects, i))
    && Settlements(d.effects) <= 1
  }

  /** Sound effects of a delivery that may still go on. */
  ghost predicate Pending(c: Backoff.Config, m: Message, effects: seq<Effect>) {
    && (forall i :: 0 <= i < |effects| ==> Justified(c, m, effects, i))
    && Settlements(effects) == 0 && !Acknowledged(effects) && !WasTerminated(effects)
  }

  lemma ExtendSeen(effects: seq<Effect>, e: Effect)
    ensures Settlements(effects + [e]) == Settlements(effects) + (if Settles(e) then 1 else 0)
    ensures Acknowledged(effects + [e]) <==> Acknowledged(effects) || e.Acked?
    ensures WasTerminated(effects + [e]) <==> WasTerminated(effects) || e.Terminated?
    ensures WasPublished(effects + [e]) <==> WasPublished(effects) || e.Published?
  {
    var longer := effects + [e];
    assert longer[..|effects|] == effects;
    assert longer[|effects|] == e;
    assert forall i :: 0 <= i < |effects| ==> longer[i] == effects[i];
  }

  /** Adding an effect that is justified keeps the earlier ones justified. */
  lemma Extend(c: Backoff.Config, m: Message, effects: seq<Effect>, e: Effect)
    requires forall i :: 0 <= i < |effects| ==> Justified(c, m, effects, i)
    requires Justified(c, m, effects + [e], |effects|)
    ensures forall i :: 0 <= i < |effects| + 1 ==> Justified(c, m, effects + [e], i)
    ensures Settlements(effects + [e]) == Settlements(effects) + (if Settles(e) then 1 else 0)
    ensures Acknowledged(effects + [e]) <==> Acknowledged(effects) || e.Acked?
    ensures WasTerminated(effects + [e]) <==> WasTerminated(effects) || e.Terminated?
    ensures WasPublished(effects + [e]) <==> WasPublished(effects) || e.Published?
  {
    var longer := effects + [e];
    forall i | 0 <= i < |effects| ensures Justified(c, m, longer, i) {
      assert Justified(c, m, effects, i);
      assert longer[i] == effects[i] && longer[..i] == effects[..i];
    }
    ExtendSeen(effects, e);
  }

  /** `report`, with nothing to report when the call before it succeeded. */
  method Report(c: Backoff.Config, m: Message, effects: seq<Effect>, failed: bool) returns (r: seq<Effect>)
    requires forall i :: 0 <= i < |effects| ==> Justified(c, m, effects, i)
    ensures forall i :: 0 <= i < |r| ==> Justified(c, m, r, i)
    ensures Settlements(r) == Settlements(effects)
    ensures Acknowledged(r) <==> Acknowledged(effects)
    ensures WasTerminated(r) <==> WasTerminated(effects)
    ensures WasPublished(r) <==> WasPublished(effects)
  {
    r := effects;
    if failed {
      Extend(c, m, effects, Reported);
      r := effects + [Reported];
    }
  }

  /** `retry`: ask for redelivery after the computed delay. */
  method Retry(c: Backoff.Config, m: Message, effects: seq<Effect>, settles: bool) returns (r: seq<Effect>)
    requires Backoff.Accepted(c) && Pending(c, m, effects)
    ensures forall i :: 0 <= i < |r| ==> Justified(c, m, r, i)
    ensures Settlements(r) == 1 && !Acknowledged(r) && !WasTerminated(r)
    ensures WasPublished(r) <==> WasPublished(effects)
  {
    var delay := Backoff.RetryDelay(c, DeliveryCount(m));
    Extend(c, m, effects, Naked(delay));
    r := Report(c, m, effects + [Naked(delay)], !settles);
  }

  method Terminate(c: Backoff.Config, m: Message, effects: seq<Effect>, reason: Reason, settles: bool)
    returns (r: seq<Effect>)
    requires Pending(c, m, effects)
    requires WasPublished(effects) || (IsDeadLetter(m) && AtLimit(c, m))
    ensures forall i :: 0 <= i < |r| ==> Justified(c, m, r, i)
    ensures Settlements(r) == 1 && !Acknowledged(r) && WasTerminated(r)
    ensures WasPublished(r) <==> WasPublished(effects)
  {
    assert (effects + [Terminated(reason)])[..|effects|] == effects;
    Extend(c, m, effects, Terminated(reason));
    r := Report(c, m, effects + [Terminated(reason)], !settles);
  }

  /** The text of a failure; `Utf8.LimitedReason` says which it is. */
  method ReasonText(cause: seq<byte>) returns (reason: seq<byte>)
    ensures reason == Utf8.Reason(cause)
  {
    reason := Utf8.LimitedReason(Some(cause));
  }

  /** The dead letter of a delivery. */
  method WriteLetter(c: Backoff.Config, durable: string, m: Message, reason: seq<byte>) returns (letter: DeadLetter)
    requires m.numDelivered.Some? && c.deadLetterMaxDataBytes >= 0
    ensures Buildable(m.decoded) ==> LetterOk(m, letter)
    ensures letter.reason == reason && |letter.data| <= c.deadLetterMaxDataBytes
    ensures letter.truncated <==> m.decoded.None? && |m.data| > c.deadLetterMaxDataBytes
    ensures m.decoded.Some? ==> letter.eventId == "dead-letter:" + durable + ":" + m.decoded.value.eventId
  {
    var id, data, truncated := "dead-letter:" + durable + ":", [], false;
    if m.decoded.Some? {
      id := id + m.decoded.value.eventId;
    } else {
      data := m.data;
      if |data| > c.deadLetterMaxDataBytes {
        data, truncated := data[..c.deadLetterMaxDataBytes], true;
      }
    }
    letter := DeadLetter(id, m.decoded, data, truncated, m.numDelivered.value, reason);
  }

  /** The letter with the text of the failure in it. */
  method LetterFor(c: Backoff.Config, durable: string, m: Message, w: Surroundings) returns (letter: DeadLetter)
    requires m.numDelivered.Some? && c.deadLetterMaxDataBytes >= 0
    ensures Buildable(m.decoded) ==> LetterOk(m, letter)
    ensures letter.reason == Utf8.Reason(w.cause)
  {
    var reason := ReasonText(w.cause);
    letter := WriteLetter(c, durable, m, reason);
  }

  /** `publishDeadLetter`. */
  method PublishDeadLetter(c: Backoff.Config, durable: string, m: Message, effects: seq<Effect>, w: Surroundings)
    returns (r: seq<Effect>, ok: bool)
    requires Pending(c, m, effects) && m.numDelivered.Some? && !WasPublished(effects)
    requires !IsDeadLetter(m) && (m.decoded.Some? ==> AtLimit(c, m)) && c.deadLetterMaxDataBytes >= 0
    ensures Pending(c, m, r)
    ensures ok <==> Buildable(m.decoded) && w.publishes
    ensures WasPublished(r) <==> ok
  {
    var letter := LetterFor(c, durable, m, w);
    ok := Buildable(m.decoded) && w.publishes;
    r := effects;
    if ok {
      Extend(c, m, effects, Published(letter));
      r := effects + [Published(letter)];
    }
  }

  /** A delivery that can go no further: terminate it once its dead letter is
      out, otherwise put it back. */
  method GiveUp(c: Backoff.Config, durable: string, m: Message, reason: Reason, w: Surroundings)
    returns (r: seq<Effect>)
    requires Backoff.Accepted(c) && m.numDelivered.Some?
    requires !IsDeadLetter(m) && (m.decoded.Some? ==> AtLimit(c, m))
    ensures forall i :: 0 <= i < |r| ==> Justified(c, m, r, i)
    ensures Settlements(r) == 1 && !Acknowledged(r)
    ensures WasPublished(r) <==> Buildable(m.decoded) && w.publishes
    ensures WasTerminated(r) <==> WasPublished(r)
  {
    var ok;
    r, ok := PublishDeadLetter(c, durable, m, [], w);
    if ok {
      r := Terminate(c, m, r, reason, w.settles);
    } else {
      r := Report(c, m, r, true);
      r := Retry(c, m, r, w.settles);
    }
  }

  /** The handler failed while the consumer is running. */
  method HandleFailure(c: Backoff.Config, durable: string, m: Message, w: Surroundings) returns (r: seq<Effect>)
    requires Backoff.Accepted(c) && m.numDelivered.Some? && m.decoded.Some?
    ensures forall i :: 0 <= i < |r| ==> Justified(c, m, r, i)
    ensures Settlements(r) == 1 && !Acknowledged(r)
    ensures WasPublished(r) <==> AtLimit(c, m) && !IsDeadLetter(m) && Buildable(m.decoded) && w.publishes
    ensures WasTerminated(r) <==> AtLimit(c, m) && (IsDeadLetter(m) || (Buildable(m.decoded) && w.publishes))
  {
    if m.numDelivered.value as int >= c.maxDeliver {
      var reason := ReasonText(w.cause);
      if m.decoded.value.eventType != DEAD_LETTER_EVENT_TYPE {
        r := GiveUp(c, durable, m, Text(reason), w);
      } else {
        r := Terminate(c, m, [], Text(reason), w.settles);
      }
    } else {
      r := Report(c, m, [], true);
      r := Retry(c, m, r, w.settles);
    }
  }

  lemma {:induction false} WinsOfLongerLog(a: seq<Inbox.Commit>, b: seq<Inbox.Commit>)
    requires a <= b
    ensures Inbox.Wins(a) <= Inbox.Wins(b)
    decreases |b|
  {
    if a != b {
      WinsOfLongerLog(a, b[..|b| - 1]);
    }
  }

  lemma {:induction false} LogOnlyGrows(s: Inbox.State, actions: seq<Inbox.Action>)
    ensures s.log <= Inbox.Run(s, actions).log
    decreases |actions|
  {
    if actions != [] {
      LogOnlyGrows(Inbox.Step(s, actions[0]), actions[1..]);
    }
  }

  /** When a delivery is acknowledged, terminated, dead-lettered or settled at
      all. It is acknowledged exactly when the inbox call reports no error. A dead
      letter goes out exactly when the delivery can go no further, its event is
      not itself a dead letter, and the letter can be built and is accepted by the
      broker; a termination goes with each letter and besides only to a dead
      letter at its own limit. Only a failure during shutdown settles nothing. */
  ghost predicate VerdictOk(c: Backoff.Config, w: Surroundings, d: Delivery) {
    var m := d.message;
    var failed := d.outcome.Some? && d.outcome.value.failed;
    var exhausted := failed && !w.cancelled && AtLimit(c, m);
    && (d.outcome.Some? <==> m.numDelivered.Some? && m.decoded.Some?)
    && (Acknowledged(d.effects) <==> d.outcome.Some? && !failed)
    && (WasPublished(d.effects) <==>
          && ((m.numDelivered.Some? && m.decoded.None?) || (exhausted && !IsDeadLetter(m)))
          && Buildable(m.decoded) && w.publishes)
    && (WasTerminated(d.effects) <==> WasPublished(d.effects) || (exhausted && IsDeadLetter(m)))
    && (Settlements(d.effects) == if failed && w.cancelled then 0 else 1)
  }

  /** After the handler: acknowledge its success; deal with its failure, unless the
      consumer is shutting down. */
  method Conclude(c: Backoff.Config, durable: string, m: Message, o: Inbox.Outcome, w: Surroundings)
    returns (r: seq<Effect>)
    requires Backoff.Accepted(c) && m.numDelivered.Some? && m.decoded.Some?
    ensures forall i :: 0 <= i < |r| ==> Justified(c, m, r, i)
    ensures VerdictOk(c, w, Delivery(m, Some(o), r))
  {
    if o.failed {
      if w.cancelled {
        return [];
      }
      r := HandleFailure(c, durable, m, w);
    } else {
      r := Acknowledge(c, m, w);
    }
  }

  method Acknowledge(c: Backoff.Config, m: Message, w: Surroundings) returns (r: seq<Effect>)
    requires m.decoded.Some?
    ensures forall i :: 0 <= i < |r| ==> Justified(c, m, r, i)
    ensures Settlements(r) == 1 && Acknowledged(r) && !WasTerminated(r) && !WasPublished(r)
  {
    Extend(c, m, [], Acked);
    r := Report(c, m, [] + [Acked], !w.settles);
  }

  function InboxKey(durable: string, e: Envelope): Inbox.Key {
    Inbox.Key(durable, e.eventId)
  }

  /** The inbox call for an event, made in database s, gets as far as its row. */
  predicate HandlerStarts(s: Inbox.State, durable: string, e: Envelope, call: Call) {
    var begun := InboxStore.AtBegin(s, call.t, InboxKey(durable, e), call.around);
    && InboxStore.ValidInput(InboxKey(durable, e), call.actor, Some(call.handler)) && !call.around.begin.fails
    && InboxStore.GetsRow(begun, call.t, call.around)
  }

  /** It finds the event completed. */
  predicate HandlerDone(s: Inbox.State, durable: string, e: Envelope, call: Call) {
    var begun := InboxStore.AtBegin(s, call.t, InboxKey(durable, e), call.around);
    InboxStore.FoundCompleted(begun, call.t, InboxKey(durable, e), call.around)
  }

  /** It returns no error. */
  predicate HandlerWorks(s: Inbox.State, durable: string, e: Envelope, call: Call) {
    && HandlerStarts(s, durable, e, call)
    && if HandlerDone(s, durable, e, call) then !call.around.commit.fails
       else call.handler.error.None? && InboxStore.AttemptWorks(call.around)
  }

  /** It commits an attempt, as a success or a failure. */
  predicate HandlerAttempts(s: Inbox.State, durable: string, e: Envelope, call: Call) {
    HandlerStarts(s, durable, e, call) && !HandlerDone(s, durable, e, call) && InboxStore.AttemptWorks(call.around)
  }

  predicate AttemptLogged(log: seq<Inbox.Commit>, call: Call) {
    InboxStore.RecordedAs(log, call.t, call.handler, call.now)
  }

  /** What was sound stays so as the committed log grows. */
  lemma StaySound(
    c: Backoff.Config, durable: string, log: seq<Inbox.Commit>, longer: seq<Inbox.Commit>, deliveries: seq<Delivery>)
    requires log <= longer
    requires forall n :: 0 <= n < |deliveries| ==> Sound(c, durable, log, deliveries[n])
    ensures forall n :: 0 <= n < |deliveries| ==> Sound(c, durable, longer, deliveries[n])
  {
    WinsOfLongerLog(log, longer);
    forall n | 0 <= n < |deliveries| ensures Sound(c, durable, longer, deliveries[n]) {
      assert Sound(c, durable, log, deliveries[n]);
    }
  }

  class Processor {
    const config: Backoff.Config
    const durable: string
    const store: InboxStore.SqlStore
    var deliveries: seq<Delivery>

    ghost predicate Valid()
      reads this, store
    {
      && Backoff.Accepted(config)
      && store.Valid()
      && forall n :: 0 <= n < |deliveries| ==> Sound(config, durable, store.s.log, deliveries[n])
    }

    constructor (config: Backoff.Config, durable: string, store: InboxStore.SqlStore)
      requires Backoff.Accepted(config) && store.Valid()
      ensures Valid() && deliveries == [] && this.store == store
    {
      this.config, this.durable, this.store := config, durable, store;
      deliveries := [];
    }

    /** The handler: `inbox.SQLStore.Process` keyed by durable name and event id.
        Acknowledgements given earlier stay justified. */
    method CallHandler(e: Envelope, call: Call) returns (o: Inbox.Outcome)
      requires Valid() && call.t !in store.s.txs
      requires InboxStore.AroundForeign(call.around, call.t)
      modifies store
      ensures Valid()
      ensures !o.failed <==> HandlerWorks(old(store.s), durable, e, call)
      ensures HandlerAttempts(old(store.s), durable, e, call) ==> AttemptLogged(store.s.log, call)
      ensures !o.failed ==> InboxKey(durable, e) in Inbox.Wins(store.s.log)
    {
      ghost var before, trace := store.s, store.trace;
      o := store.Process(call.t, InboxKey(durable, e), call.actor, Some(call.handler), call.now, call.around);
      assert store.trace == trace + store.trace[|trace|..];
      Inbox.RunAppend(Inbox.Init(), trace, store.trace[|trace|..]);
      LogOnlyGrows(before, store.trace[|trace|..]);
      StaySound(config, durable, before.log, store.s.log, deliveries);
    }

    /** `process`. The invariant `Valid` it keeps is the promise over all
        deliveries: an acknowledged event has its domain effect committed; a
        terminated delivery published a dead letter itself or carried a dead
        letter at its limit; no delivery is settled twice. And a decoded event is
        acknowledged exactly if the inbox call it makes returns no error. */
    method Process(m: Message, call: Call, w: Surroundings)
      requires Valid() && call.t !in store.s.txs
      requires InboxStore.AroundForeign(call.around, call.t)
      modifies this`deliveries, store
      ensures Valid()
      ensures |deliveries| == |old(deliveries)| + 1 && deliveries[..|old(deliveries)|] == old(deliveries)
      ensures deliveries[|old(deliveries)|].message == m
      ensures VerdictOk(config, w, deliveries[|old(deliveries)|])
      ensures if m.numDelivered.None? || m.decoded.None? then store.s == old(store.s)
              else
                && (Acknowledged(deliveries[|old(deliveries)|].effects)
                    <==> HandlerWorks(old(store.s), durable, m.decoded.value, call))
                && (HandlerAttempts(old(store.s), durable, m.decoded.value, call) ==> AttemptLogged(store.s.log, call))
    {
      var outcome, effects := None, [];
      if m.numDelivered.None? {
        effects := Report(config, m, [], true);
        effects := Retry(config, m, effects, w.settles);
      } else if m.decoded.None? {
        effects := GiveUp(config, durable, m, InvalidEnvelope, w);
      } else {
        var out := CallHandler(m.decoded.value, call);
        outcome := Some(out);
        effects := Conclude(config, durable, m, out, w);
      }
      deliveries := deliveries + [Delivery(m, outcome, effects)];
    }
  }

  /** An event without an aggregate id can never be dead-lettered: at the limit
      its delivery is put back instead, whatever the broker would accept. */
  lemma NoLetterWithoutAggregate(c: Backoff.Config, w: Surroundings, d: Delivery)
    requires VerdictOk(c, w, d) && d.message.decoded.Some? && d.message.decoded.value.aggregateId == ""
    requires !IsDeadLetter(d.message) && d.outcome.Some? && d.outcome.value.failed && !w.cancelled
    ensures Settlements(d.effects) == 1 && !Acknowledged(d.effects) && !WasTerminated(d.effects)
        && !WasPublished(d.effects)
  {
  }

  lemma {:induction false} SettlesOnce(effects: seq<Effect>)
    requires Settlements(effects) > 0
    ensures exists i :: 0 <= i < |effects| && Settles(effects[i])
    decreases |effects|
  {
    var front := effects[..|effects| - 1];
    if !Settles(effects[|effects| - 1]) {
      SettlesOnce(front);
      var i :| 0 <= i < |front| && Settles(front[i]);
      assert effects[i] == front[i];
    }
  }

  /** The delivery was put back, to come again after the delay for its n-th delivery. */
  ghost predicate PutBack(c: Backoff.Config, effects: seq<Effect>, n: int) {
    exists i :: 0 <= i < |effects| && effects[i].Naked? && effects[i].delay as int == Backoff.Delay(c, n)
  }

  /** A delivery that is settled but neither acknowledged nor terminated is put back. */
  lemma OtherwisePutBack(c: Backoff.Config, d: Delivery)
    requires forall i :: 0 <= i < |d.effects| ==> Justified(c, d.message, d.effects, i)
    requires Settlements(d.effects) == 1 && !Acknowledged(d.effects) && !WasTerminated(d.effects)
    ensures PutBack(c, d.effects, if d.message.numDelivered.Some? then d.message.numDelivered.value as int else 1)
  {
    SettlesOnce(d.effects);
    var i :| 0 <= i < |d.effects| && Settles(d.effects[i]);
    assert Justified(c, d.message, d.effects, i);
    assert d.effects[i].Naked?;
  }

  /** The n-th delivery of an event whose handler fails, with a broker that takes dead
      letters and no shutdown: it is dead-lettered and terminated exactly if n has
      reached the configured number of deliveries; before that it is put back with the
      delay for n. */
  lemma LimitDecides(c: Backoff.Config, w: Surroundings, durable: string, log: seq<Inbox.Commit>, d: Delivery)
    requires VerdictOk(c, w, d) && Sound(c, durable, log, d)
    requires d.message.numDelivered.Some? && d.message.decoded.Some?
    requires d.outcome.Some? && d.outcome.value.failed && !w.cancelled && w.publishes
    requires d.message.decoded.value.aggregateId != ""
    requires d.message.decoded.value.eventType != "platform.system.event.dead-lettered.v1"
    ensures
      var n := d.message.numDelivered.value as int;
      && (WasPublished(d.effects) && WasTerminated(d.effects) <==> n >= c.maxDeliver)
      && (n < c.maxDeliver ==> !WasPublished(d.effects) && !WasTerminated(d.effects) && PutBack(c, d.effects, n))
  {
    if d.message.numDelivered.value as int < c.maxDeliver {
      OtherwisePutBack(c, d);
    }
  }

  /** A dead letter whose handler fails is never lettered again; it is terminated
      exactly from the configured number of deliveries on. */
  lemma DeadLetterEnds(c: Backoff.Config, w: Surroundings, durable: string, log: seq<Inbox.Commit>, d: Delivery)
    requires VerdictOk(c, w, d) && Sound(c, durable, log, d)
    requires d.message.numDelivered.Some? && d.message.decoded.Some?
    requires d.outcome.Some? && d.outcome.value.failed && !w.cancelled
    requires d.message.decoded.value.eventType == "platform.system.event.dead-lettered.v1"
    ensures
      var n := d.message.numDelivered.value as int;
      && !WasPublished(d.effects) && (WasTerminated(d.effects) <==> n >= c.maxDeliver)
      && (n < c.maxDeliver ==> PutBack(c, d.effects, n))
  {
    if d.message.numDelivered.value as int < c.maxDeliver {
      OtherwisePutBack(c, d);
    }
  }

  /** A delivery whose metadata cannot be read is put back like a first one; one that
      cannot be decoded is terminated exactly if the broker took its letter, and put
      back else. */
  lemma UnreadableIsKept(c: Backoff.Config, w: Surroundings, durable: string, log: seq<Inbox.Commit>, d: Delivery)
    requires VerdictOk(c, w, d) && Sound(c, durable, log, d)
    requires d.message.numDelivered.None? || d.message.decoded.None?
    ensures d.message.numDelivered.None? ==> PutBack(c, d.effects, 1) && !WasTerminated(d.effects)
    ensures d.message.numDelivered.Some? ==>
              && (WasTerminated(d.effects) <==> w.publishes)
              && (!w.publishes ==> PutBack(c, d.effects, d.message.numDelivered.value as int))
  {
    if d.message.numDelivered.None? || !w.publishes {
      OtherwisePutBack(c, d);
    }
  }
}
