/**
 The Redis state machine of idempotency/manager.go: the scripts begin, renew,
 finish and abort, each atomic, and the expiry of keys as time passes. The store
 keeps a log of what the scripts did; `Run` takes an arbitrary sequence of calls
 by any number of clients. Owner tokens are never issued twice and every TTL is
 a positive number of milliseconds.
 */
module Idempotency {
  import opened Common

  type Key = string
  type Owner = nat

  datatype Failure = Failure(message: string, grpcCode: nat)

  /** How a request ended: with an encoded response or with a failure. */
  datatype Outcome = Response(body: string) | Refusal(failure: Failure)

  datatype Status = Processing | Completed | Failed

  /** The fields of the hash under a key. */
  datatype Fields = Fields(status: Status, fingerprint: string, owner: Option<Owner>,
                           response: Option<string>, failure: Option<Failure>)

  datatype Record = Record(fields: Fields, expireAt: int)

  datatype Event =
    | Acquired(key: Key, owner: Owner, fingerprint: string)
    | Renewed(key: Key, owner: Owner)
    | Finished(key: Key, owner: Owner, outcome: Outcome)
    | Aborted(key: Key, owner: Owner)
    | Expired(keys: set<Key>)

  datatype Store = Store(records: map<Key, Record>, now: int, issued: set<Owner>, log: seq<Event>)

  datatype Action =
    | BeginCall(key: Key, fingerprint: string, owner: Owner, ttl: int)
    | RenewCall(key: Key, owner: Owner, ttl: int)
    | FinishCall(key: Key, owner: Owner, outcome: Outcome, ttl: int)
    | AbortCall(key: Key, owner: Owner)
    | Tick(ms: nat)

  /** What the begin script answers. */
  datatype Reply =
    | Won
    | Conflict
    | Seen(status: Status, response: Option<string>, failure: Option<Failure>)

  function Init(): Store {
    Store(map[], 0, {}, [])
  }

  predicate Owns(s: Store, k: Key, o: Owner) {
    k in s.records && s.records[k].fields.status == Processing && s.records[k].fields.owner == Some(o)
  }

  function BeginReply(s: Store, k: Key, fingerprint: string): Reply {
    if k !in s.records then Won
    else if s.records[k].fields.fingerprint != fingerprint then Conflict
    else
      var f := s.records[k].fields;
      Seen(f.status, f.response, f.failure)
  }

  function Fresh(fingerprint: string, o: Owner): Fields {
    Fields(Processing, fingerprint, Some(o), None, None)
  }

  /** The finish script: state and one result field set, owner deleted. */
  function Ended(f: Fields, outcome: Outcome): Fields {
    match outcome
    case Response(body) => f.(status := Completed, response := Some(body), owner := None)
    case Refusal(failure) => f.(status := Failed, failure := Some(failure), owner := None)
  }

  function Put(s: Store, k: Key, fields: Fields, ttl: int, e: Event): Store {
    s.(records := s.records[k := Record(fields, s.now + ttl)], log := s.log + [e])
  }

  function Begin(s: Store, k: Key, fingerprint: string, o: Owner, ttl: int): Store {
    var s1 := s.(issued := s.issued + {o});
    if k in s.records then s1 else Put(s1, k, Fresh(fingerprint, o), ttl, Acquired(k, o, fingerprint))
  }

  function Renew(s: Store, k: Key, o: Owner, ttl: int): Store {
    if !Owns(s, k, o) then s else Put(s, k, s.records[k].fields, ttl, Renewed(k, o))
  }

  function Finish(s: Store, k: Key, o: Owner, outcome: Outcome, ttl: int): Store {
    if !Owns(s, k, o) then s else Put(s, k, Ended(s.records[k].fields, outcome), ttl, Finished(k, o, outcome))
  }

  function Abort(s: Store, k: Key, o: Owner): Store {
    if !Owns(s, k, o) then s else s.(records := s.records - {k}, log := s.log + [Aborted(k, o)])
  }

  function Advance(s: Store, ms: nat): Store {
    var dead := set k | k in s.records && s.records[k].expireAt <= s.now + ms;
    s.(now := s.now + ms, records := s.records - dead, log := s.log + [Expired(dead)])
  }

  function Step(s: Store, a: Action): Store {
    match a
    case BeginCall(k, fingerprint, o, ttl) => if o in s.issued || ttl <= 0 then s else Begin(s, k, fingerprint, o, ttl)
    case RenewCall(k, o, ttl) => if ttl <= 0 then s else Renew(s, k, o, ttl)
    case FinishCall(k, o, outcome, ttl) => if ttl <= 0 then s else Finish(s, k, o, outcome, ttl)
    case AbortCall(k, o) => Abort(s, k, o)
    case Tick(ms) => Advance(s, ms)
  }

  function Run(s: Store, actions: seq<Action>): Store
    decreases |actions|
  {
    if actions == [] then s else Run(Step(s, actions[0]), actions[1..])
  }

  // ---- The log as an independent account of the records ---------------------

  /** What an event does to what is stored under a key. */
  ghost function After(before: Option<Fields>, e: Event, k: Key): Option<Fields> {
    if e.Acquired? && e.key == k then Some(Fresh(e.fingerprint, e.owner))
    else if e.Finished? && e.key == k && before.Some? then Some(Ended(before.value, e.outcome))
    else if Removes(e, k) then None
    else before
  }

  predicate Removes(e: Event, k: Key) {
    (e.Aborted? && e.key == k) || (e.Expired? && k in e.keys)
  }

  /** What the log says is stored under a key. */
  ghost function Told(log: seq<Event>, k: Key): Option<Fields> {
    if log == [] then None else After(Told(log[..|log| - 1], k), log[|log| - 1], k)
  }

  ghost predicate Issued(log: seq<Event>, o: Owner) {
    exists i :: 0 <= i < |log| && log[i].Acquired? && log[i].owner == o
  }

  ghost predicate ToldOwns(log: seq<Event>, k: Key, o: Owner) {
    Told(log, k).Some? && Told(log, k).value.status == Processing && Told(log, k).value.owner == Some(o)
  }

  /** Each event was allowed by what came before it: a key is acquired only while
      nothing is stored under it and with a new token, and only the owner of a
      processing record renews, finishes or aborts it. */
  ghost predicate Allowed(log: seq<Event>, e: Event) {
    match e
    case Acquired(k, o, _) => Told(log, k).None? && !Issued(log, o)
    case Renewed(k, o) => ToldOwns(log, k, o)
    case Finished(k, o, _) => ToldOwns(log, k, o)
    case Aborted(k, o) => ToldOwns(log, k, o)
    case Expired(_) => true
  }

  ghost predicate Legal(log: seq<Event>) {
    forall i {:trigger Allowed(log[..i], log[i])} :: 0 <= i < |log| ==> Allowed(log[..i], log[i])
  }

  lemma LegalPrefix(log: seq<Event>, n: nat)
    requires Legal(log) && n <= |log|
    ensures Legal(log[..n])
  {
    forall i | 0 <= i < n ensures Allowed(log[..n][..i], log[..n][i]) {
      assert log[..n][..i] == log[..i];
      assert Allowed(log[..i], log[i]);
    }
  }

  lemma LegalAppend(log: seq<Event>, e: Event)
    requires Legal(log) && Allowed(log, e)
    ensures Legal(log + [e])
  {
    var longer := log + [e];
    forall i | 0 <= i < |longer| ensures Allowed(longer[..i], longer[i]) {
      if i < |log| {
        assert longer[..i] == log[..i];
        assert Allowed(log[..i], log[i]);
      } else {
        assert longer[..i] == log;
      }
    }
  }

  // ---- Every run keeps the records as the log tells them --------------------

  ghost predicate Inv(s: Store) {
    && Legal(s.log)
    && (forall k :: k in s.records <==> Told(s.log, k).Some?)
    && (forall k :: k in s.records ==> s.records[k].fields == Told(s.log, k).value && s.records[k].expireAt > s.now)
    && (forall o :: Issued(s.log, o) ==> o in s.issued)
  }

  lemma IssuedAppend(log: seq<Event>, e: Event, o: Owner)
    ensures Issued(log + [e], o) <==> Issued(log, o) || (e.Acquired? && e.owner == o)
  {
    var longer := log + [e];
    assert longer[|log|] == e;
    assert forall i :: 0 <= i < |log| ==> longer[i] == log[i];
  }

  lemma ToldAppend(log: seq<Event>, e: Event, k: Key)
    ensures Told(log + [e], k) == After(Told(log, k), e, k)
  {
    assert (log + [e])[..|log|] == log;
  }

  /** A step that logs an allowed event and stores what the event says. */
  lemma EventKeepsInv(s: Store, s': Store, e: Event)
    requires Inv(s) && Allowed(s.log, e) && s'.log == s.log + [e]
    requires s'.issued >= s.issued && (e.Acquired? ==> e.owner in s'.issued)
    requires forall k :: k in s'.records <==> Told(s'.log, k).Some?
    requires forall k :: k in s'.records ==>
        s'.records[k].fields == Told(s'.log, k).value && s'.records[k].expireAt > s'.now
    ensures Inv(s')
  {
    LegalAppend(s.log, e);
    forall o | Issued(s'.log, o) ensures o in s'.issued {
      IssuedAppend(s.log, e, o);
    }
  }

  lemma PutKeepsInv(s: Store, k: Key, fields: Fields, ttl: int, e: Event)
    requires Inv(s) && ttl > 0 && Allowed(s.log, e) && (e.Acquired? ==> e.owner in s.issued)
    requires Told(s.log + [e], k) == Some(fields)
    requires forall j :: j != k ==> Told(s.log + [e], j) == Told(s.log, j)
    ensures Inv(Put(s, k, fields, ttl, e))
  {
    EventKeepsInv(s, Put(s, k, fields, ttl, e), e);
  }

  lemma StepKeepsInv(s: Store, a: Action)
    requires Inv(s)
    ensures Inv(Step(s, a))
  {
    match a
    case BeginCall(k, fingerprint, o, ttl) =>
      if o !in s.issued && ttl > 0 && k !in s.records {
        var s1, e := s.(issued := s.issued + {o}), Acquired(k, o, fingerprint);
        forall j ensures j != k ==> Told(s.log + [e], j) == Told(s.log, j) {
          ToldAppend(s.log, e, j);
        }
        ToldAppend(s.log, e, k);
        PutKeepsInv(s1, k, Fresh(fingerprint, o), ttl, e);
      }
    case RenewCall(k, o, ttl) =>
      if Owns(s, k, o) && ttl > 0 {
        var e := Renewed(k, o);
        forall j ensures Told(s.log + [e], j) == Told(s.log, j) {
          ToldAppend(s.log, e, j);
        }
        PutKeepsInv(s, k, s.records[k].fields, ttl, e);
      }
    case FinishCall(k, o, outcome, ttl) =>
      if Owns(s, k, o) && ttl > 0 {
        var e := Finished(k, o, outcome);
        forall j ensures j != k ==> Told(s.log + [e], j) == Told(s.log, j) {
          ToldAppend(s.log, e, j);
        }
        ToldAppend(s.log, e, k);
        PutKeepsInv(s, k, Ended(s.records[k].fields, outcome), ttl, e);
      }
    case AbortCall(k, o) =>
      if Owns(s, k, o) {
        forall j ensures Told(s.log + [Aborted(k, o)], j) == if j == k then None else Told(s.log, j) {
          ToldAppend(s.log, Aborted(k, o), j);
        }
        EventKeepsInv(s, Abort(s, k, o), Aborted(k, o));
      }
    case Tick(ms) =>
      var s' := Advance(s, ms);
      var e := s'.log[|s.log|];
      forall j ensures Told(s.log + [e], j) == if j in e.keys then None else Told(s.log, j) {
        ToldAppend(s.log, e, j);
      }
      EventKeepsInv(s, s', e);
  }

  lemma {:induction false} RunKeepsInv(s: Store, actions: seq<Action>)
    requires Inv(s)
    ensures Inv(Run(s, actions))
    decreases |actions|
  {
    if actions != [] {
      StepKeepsInv(s, actions[0]);
      RunKeepsInv(Step(s, actions[0]), actions[1..]);
    }
  }

  lemma {:induction false} RunAppend(s: Store, xs: seq<Action>, ys: seq<Action>)
    ensures Run(s, xs + ys) == Run(Run(s, xs), ys)
    decreases |xs|
  {
    if xs == [] {
      assert xs + ys == ys;
    } else {
      assert (xs + ys)[1..] == xs[1..] + ys;
      RunAppend(Step(s, xs[0]), xs[1..], ys);
    }
  }

  // ---- What legal logs guarantee --------------------------------------------

  /** A token finishes or aborts. */
  predicate EndsWith(e: Event, o: Owner) {
    (e.Finished? || e.Aborted?) && e.owner == o
  }

  ghost predicate Powerless(log: seq<Event>, o: Owner) {
    Issued(log, o) && forall k :: !ToldOwns(log, k, o)
  }

  /** A token owns at most the key it was acquired for. */
  lemma {:induction false} TokenOwnsItsKey(log: seq<Event>, i: nat, k: Key)
    requires Legal(log) && i < |log| && log[i].Acquired? && ToldOwns(log, k, log[i].owner)
    ensures k == log[i].key
    decreases |log|
  {
    var n := |log| - 1;
    var last := log[n];
    assert Allowed(log[..n], last);
    if i < n {
      assert log[..n][i] == log[i];
      assert Issued(log[..n], log[i].owner);
      LegalPrefix(log, n);
      TokenOwnsItsKey(log[..n], i, k);
    } else if !(last.key == k) {
      OwnerWasIssued(log[..n], k, last.owner);
    }
  }

  lemma {:induction false} OwnerWasIssued(log: seq<Event>, k: Key, o: Owner)
    requires Told(log, k).Some? && Told(log, k).value.owner == Some(o)
    ensures Issued(log, o)
    decreases |log|
  {
    var n := |log| - 1;
    assert log == log[..n] + [log[n]];
    IssuedAppend(log[..n], log[n], o);
    if !(log[n].Acquired? && log[n].key == k) {
      OwnerWasIssued(log[..n], k, o);
    }
  }

  lemma PowerlessStep(log: seq<Event>, e: Event, o: Owner)
    requires Allowed(log, e) && Powerless(log, o)
    ensures Powerless(log + [e], o)
  {
    IssuedAppend(log, e, o);
    forall k ensures !ToldOwns(log + [e], k, o) {
      ToldAppend(log, e, k);
      assert !ToldOwns(log, k, o);
    }
  }

  /** Once a token owns nothing it never owns anything again. */
  lemma {:induction false} StaysPowerless(log: seq<Event>, n: nat, o: Owner)
    requires Legal(log) && n <= |log| && Powerless(log[..n], o)
    ensures Powerless(log, o)
    decreases |log|
  {
    if n == |log| {
      assert log[..n] == log;
    } else {
      var m := |log| - 1;
      LegalPrefix(log, m);
      assert log[..m][..n] == log[..n];
      StaysPowerless(log[..m], n, o);
      assert Allowed(log[..m], log[m]);
      PowerlessStep(log[..m], log[m], o);
      assert log[..m] + [log[m]] == log;
    }
  }

  lemma PowerlessAfter(log: seq<Event>, i: nat, m: nat)
    requires Legal(log) && i < m < |log| && log[i].Acquired?
    requires EndsWith(log[m], log[i].owner) || Removes(log[m], log[i].key)
    ensures Powerless(log[..m + 1], log[i].owner)
  {
    var o, before, after := log[i].owner, log[..m], log[..m + 1];
    assert after == before + [log[m]];
    assert before[i] == log[i] && after[i] == log[i];
    assert Allowed(before, log[m]);
    LegalPrefix(log, m);
    forall k ensures !ToldOwns(after, k, o) {
      ToldAppend(before, log[m], k);
      if ToldOwns(before, k, o) {
        TokenOwnsItsKey(before, i, k);
      }
      if EndsWith(log[m], o) {
        TokenOwnsItsKey(before, i, log[m].key);
      }
    }
  }

  /** The record that an acquisition made, untouched or finished. */
  ghost predicate StillThere(told: Option<Fields>, a: Event)
    requires a.Acquired?
  {
    && told.Some? && told.value.fingerprint == a.fingerprint
    && (told.value.owner == Some(a.owner) || told.value.owner.None?)
  }

  lemma StillThereStep(log: seq<Event>, e: Event, a: Event)
    requires a.Acquired? && StillThere(Told(log, a.key), a) && Allowed(log, e)
    ensures StillThere(Told(log + [e], a.key), a) || SeparatesFrom(e, a.key, a.owner)
  {
    ToldAppend(log, e, a.key);
  }

  /** From its acquisition on, a record stays until it is removed by expiry or by
      its own owner's abort; nobody else's token is ever on it. */
  lemma {:induction false} HeldUntilRemoved(log: seq<Event>, i: nat, n: nat)
    requires Legal(log) && i < n <= |log| && log[i].Acquired?
    ensures StillThere(Told(log[..n], log[i].key), log[i])
            || exists m :: i < m < n && SeparatesFrom(log[m], log[i].key, log[i].owner)
    decreases n
  {
    assert log[..n] == log[..n - 1] + [log[n - 1]];
    if i == n - 1 {
      ToldAppend(log[..i], log[i], log[i].key);
    } else {
      HeldUntilRemoved(log, i, n - 1);
      assert Allowed(log[..n - 1], log[n - 1]);
      if StillThere(Told(log[..n - 1], log[i].key), log[i]) {
        StillThereStep(log[..n - 1], log[n - 1], log[i]);
      }
    }
  }

  /** An expiry of the key, or an abort by the given token. */
  predicate SeparatesFrom(e: Event, k: Key, o: Owner) {
    e == Aborted(k, o) || (e.Expired? && k in e.keys)
  }

  lemma Separated(log: seq<Event>, i: nat, j: nat)
    requires Legal(log) && i < j < |log| && log[i].Acquired? && log[j].Acquired? && log[i].key == log[j].key
    ensures exists m :: i < m < j && SeparatesFrom(log[m], log[i].key, log[i].owner)
  {
    HeldUntilRemoved(log, i, j);
    assert Allowed(log[..j], log[j]);
  }

  lemma SupersededOwnsNothing(log: seq<Event>, i: nat, j: nat)
    requires Legal(log) && i < j < |log| && log[i].Acquired? && log[j].Acquired? && log[i].key == log[j].key
    ensures Powerless(log, log[i].owner)
  {
    Separated(log, i, j);
    var m :| i < m < j && SeparatesFrom(log[m], log[i].key, log[i].owner);
    PowerlessAfter(log, i, m);
    StaysPowerless(log, m + 1, log[i].owner);
  }

  /** A token owns its key with the fingerprint it was acquired for. */
  lemma {:induction false} OwnersFingerprint(log: seq<Event>, i: nat)
    requires Legal(log) && i < |log| && log[i].Acquired? && ToldOwns(log, log[i].key, log[i].owner)
    ensures Told(log, log[i].key).value.fingerprint == log[i].fingerprint
    decreases |log|
  {
    var n := |log| - 1;
    assert Allowed(log[..n], log[n]);
    if i < n {
      assert log[..n][i] == log[i];
      assert Issued(log[..n], log[i].owner);
      LegalPrefix(log, n);
      OwnersFingerprint(log[..n], i);
    }
  }

  /** The holder of an acquisition has neither finished nor aborted and no longer
      owns its key: its handler may still be at work, unprotected. */
  ghost predicate Stranded(log: seq<Event>, i: nat)
    requires i < |log| && log[i].Acquired?
  {
    && (forall j :: i < j < |log| ==> !EndsWith(log[j], log[i].owner))
    && !ToldOwns(log, log[i].key, log[i].owner)
  }

  /** The event is an expiry that takes the key from its owner. */
  ghost predicate TakesFrom(log: seq<Event>, m: nat, k: Key, o: Owner)
    requires m < |log|
  {
    log[m].Expired? && k in log[m].keys && ToldOwns(log[..m], k, o)
  }

  /** Ownership ends by the owner's own finish or abort, or by such an expiry. */
  lemma {:induction false} OwnershipEnds(log: seq<Event>, i: nat, n: nat)
    requires Legal(log) && i < n <= |log| && log[i].Acquired?
    ensures ToldOwns(log[..n], log[i].key, log[i].owner)
            || (exists m :: i < m < n && EndsWith(log[m], log[i].owner))
            || (exists m :: i < m < n && TakesFrom(log, m, log[i].key, log[i].owner))
    decreases n
  {
    var k, o := log[i].key, log[i].owner;
    assert log[..n] == log[..n - 1] + [log[n - 1]];
    ToldAppend(log[..n - 1], log[n - 1], k);
    if i < n - 1 {
      OwnershipEnds(log, i, n - 1);
      assert Allowed(log[..n - 1], log[n - 1]);
      if ToldOwns(log[..n - 1], k, o) && !ToldOwns(log[..n], k, o) {
        assert EndsWith(log[n - 1], o) || TakesFrom(log, n - 1, k, o);
      }
    }
  }

  lemma TakenDoesNotEnd(log: seq<Event>, i: nat, m: nat, j: nat)
    requires Legal(log) && i < m < |log| && i < j < |log| && log[i].Acquired?
    requires TakesFrom(log, m, log[i].key, log[i].owner)
    ensures !EndsWith(log[j], log[i].owner)
  {
    var o := log[i].owner;
    if j > m {
      PowerlessAfter(log, i, m);
      LegalPrefix(log, j);
      assert log[..j][..m + 1] == log[..m + 1];
      StaysPowerless(log[..j], m + 1, o);
      assert Allowed(log[..j], log[j]);
    } else if j < m && EndsWith(log[j], o) {
      PowerlessAfter(log, i, j);
      LegalPrefix(log, m);
      assert log[..m][..j + 1] == log[..j + 1];
      StaysPowerless(log[..m], j + 1, o);
    }
  }

  // ---- Main results --------------------------------------------------------

  /** Over every run, a token makes at most one successful finish or abort. */
  lemma TokenEndsOnce(actions: seq<Action>, i: nat, j: nat, o: Owner)
    requires i < j < |Run(Init(), actions).log|
    requires EndsWith(Run(Init(), actions).log[i], o)
    ensures !EndsWith(Run(Init(), actions).log[j], o)
  {
    var log := Run(Init(), actions).log;
    RunKeepsInv(Init(), actions);
    assert Allowed(log[..i], log[i]);
    OwnerWasIssued(log[..i], log[i].key, o);
    var a :| 0 <= a < i && log[..i][a].Acquired? && log[..i][a].owner == o;
    assert log[a] == log[..i][a];
    PowerlessAfter(log, a, i);
    LegalPrefix(log, j);
    assert log[..j][..i + 1] == log[..i + 1];
    StaysPowerless(log[..j], i + 1, o);
    assert Allowed(log[..j], log[j]);
  }

  /** Over every run, two acquisitions of one key are separated by an expiry of
      the key or by an abort with the earlier owner's token. */
  lemma AcquisitionsSeparated(actions: seq<Action>, i: nat, j: nat)
    requires i < j < |Run(Init(), actions).log|
    requires Run(Init(), actions).log[i].Acquired? && Run(Init(), actions).log[j].Acquired?
    requires Run(Init(), actions).log[i].key == Run(Init(), actions).log[j].key
    ensures
      var log := Run(Init(), actions).log;
      exists m :: i < m < j && SeparatesFrom(log[m], log[i].key, log[i].owner)
  {
    RunKeepsInv(Init(), actions);
    Separated(Run(Init(), actions).log, i, j);
  }

  /** A token whose key has been acquired again can change nothing any more. */
  lemma SupersededIsPowerless(actions: seq<Action>, i: nat, j: nat, k: Key, outcome: Outcome, ttl: int)
    requires i < j < |Run(Init(), actions).log|
    requires Run(Init(), actions).log[i].Acquired? && Run(Init(), actions).log[j].Acquired?
    requires Run(Init(), actions).log[i].key == Run(Init(), actions).log[j].key
    ensures
      var s := Run(Init(), actions);
      var o := s.log[i].owner;
      Step(s, RenewCall(k, o, ttl)) == Step(s, FinishCall(k, o, outcome, ttl)) == Step(s, AbortCall(k, o)) == s
  {
    var s := Run(Init(), actions);
    RunKeepsInv(Init(), actions);
    SupersededOwnsNothing(s.log, i, j);
    assert !ToldOwns(s.log, k, s.log[i].owner);
  }

  ghost predicate ShapeOk(f: Fields) {
    && (f.status == Processing <==> f.owner.Some?)
    && (f.status == Completed <==> f.response.Some?)
    && (f.status == Failed <==> f.failure.Some?)
  }

  lemma {:induction false} ToldShape(log: seq<Event>, k: Key)
    requires Legal(log) && Told(log, k).Some?
    ensures ShapeOk(Told(log, k).value)
    decreases |log|
  {
    var n := |log| - 1;
    assert Allowed(log[..n], log[n]);
    if !(log[n].Acquired? && log[n].key == k) {
      LegalPrefix(log, n);
      ToldShape(log[..n], k);
    }
  }

  /** In every reachable store, a record's owner, response and failure fields
      are there exactly in the state they belong to. */
  lemma RecordShape(actions: seq<Action>, k: Key)
    requires k in Run(Init(), actions).records
    ensures ShapeOk(Run(Init(), actions).records[k].fields)
  {
    RunKeepsInv(Init(), actions);
    ToldShape(Run(Init(), actions).log, k);
  }

  /** The fingerprint of a record is the one its acquisition brought, from then
      until the record is removed. */
  lemma FingerprintFixed(actions: seq<Action>, i: nat)
    requires i < |Run(Init(), actions).log| && Run(Init(), actions).log[i].Acquired?
    requires forall m :: i < m < |Run(Init(), actions).log| ==>
        !Removes(Run(Init(), actions).log[m], Run(Init(), actions).log[i].key)
    ensures
      var s := Run(Init(), actions);
      s.log[i].key in s.records && s.records[s.log[i].key].fields.fingerprint == s.log[i].fingerprint
  {
    var s := Run(Init(), actions);
    RunKeepsInv(Init(), actions);
    HeldUntilRemoved(s.log, i, |s.log|);
    assert s.log[..|s.log|] == s.log;
  }

  lemma {:induction false} ClockMonotone(s: Store, actions: seq<Action>)
    ensures s.now <= Run(s, actions).now
    decreases |actions|
  {
    if actions != [] {
      ClockMonotone(Step(s, actions[0]), actions[1..]);
    }
  }

  /** A call by which the owner o of k may change its record. */
  predicate CallOf(a: Action, k: Key, o: Owner) {
    (a.RenewCall? || a.FinishCall? || a.AbortCall?) && a.key == k && a.owner == o
  }

  lemma StepLease(s: Store, a: Action, k: Key, o: Owner)
    requires Inv(s) && o in s.issued && !CallOf(a, k, o)
    ensures o in Step(s, a).issued
    ensures Owns(s, k, o) && Step(s, a).now < s.records[k].expireAt ==>
              Owns(Step(s, a), k, o) && Step(s, a).records[k] == s.records[k]
    ensures Owns(s, k, o) && Step(s, a).now >= s.records[k].expireAt ==> !Owns(Step(s, a), k, o)
    ensures !Owns(s, k, o) ==> !Owns(Step(s, a), k, o)
  {
  }

  lemma {:induction false} NotOwnedStays(s: Store, actions: seq<Action>, k: Key, o: Owner)
    requires Inv(s) && o in s.issued && !Owns(s, k, o)
    requires forall a :: a in actions ==> !CallOf(a, k, o)
    ensures !Owns(Run(s, actions), k, o)
    decreases |actions|
  {
    if actions != [] {
      assert actions[0] in actions;
      assert forall a :: a in actions[1..] ==> a in actions;
      StepLease(s, actions[0], k, o);
      StepKeepsInv(s, actions[0]);
      NotOwnedStays(Step(s, actions[0]), actions[1..], k, o);
    }
  }

  /** While its owner makes no call, a lease lasts exactly until it expires, whatever
      others do. */
  lemma {:induction false} LeaseLasts(s: Store, actions: seq<Action>, k: Key, o: Owner)
    requires Inv(s) && Owns(s, k, o) && o in s.issued
    requires forall a :: a in actions ==> !CallOf(a, k, o)
    ensures Owns(Run(s, actions), k, o) <==> Run(s, actions).now < s.records[k].expireAt
    decreases |actions|
  {
    if actions != [] {
      var s1 := Step(s, actions[0]);
      assert actions[0] in actions;
      assert forall a :: a in actions[1..] ==> a in actions;
      StepLease(s, actions[0], k, o);
      StepKeepsInv(s, actions[0]);
      ClockMonotone(s1, actions[1..]);
      if Owns(s1, k, o) {
        LeaseLasts(s1, actions[1..], k, o);
      } else {
        NotOwnedStays(s1, actions[1..], k, o);
      }
    }
  }

  lemma OwnerIsIssued(s: Store, k: Key, o: Owner)
    requires Inv(s) && Owns(s, k, o)
    ensures o in s.issued
  {
    OwnerWasIssued(s.log, k, o);
  }

  /** A renewal by the owner makes the lease last ttl from then on, and exactly that. */
  lemma RenewExtends(before: seq<Action>, k: Key, o: Owner, ttl: int, after: seq<Action>)
    requires Owns(Run(Init(), before), k, o) && ttl > 0
    requires forall a :: a in after ==> !CallOf(a, k, o)
    ensures
      var s := Run(Init(), before);
      var s' := Run(Step(s, RenewCall(k, o, ttl)), after);
      Owns(s', k, o) <==> s'.now < s.now + ttl
  {
    var s := Run(Init(), before);
    RunKeepsInv(Init(), before);
    StepKeepsInv(s, RenewCall(k, o, ttl));
    OwnerIsIssued(s, k, o);
    LeaseLasts(Step(s, RenewCall(k, o, ttl)), after, k, o);
  }

  /** A begin that finds nothing stored takes the key for ttl, and exactly that. */
  lemma BeginLeases(before: seq<Action>, k: Key, fingerprint: string, o: Owner, ttl: int, after: seq<Action>)
    requires k !in Run(Init(), before).records && o !in Run(Init(), before).issued && ttl > 0
    requires forall a :: a in after ==> !CallOf(a, k, o)
    ensures
      var s := Run(Init(), before);
      var s' := Run(Step(s, BeginCall(k, fingerprint, o, ttl)), after);
      Owns(s', k, o) <==> s'.now < s.now + ttl
  {
    var s := Run(Init(), before);
    RunKeepsInv(Init(), before);
    StepKeepsInv(s, BeginCall(k, fingerprint, o, ttl));
    LeaseLasts(Step(s, BeginCall(k, fingerprint, o, ttl)), after, k, o);
  }

  ghost predicate NotAcquiredIn(log: seq<Event>, from: nat, k: Key) {
    forall i :: from <= i < |log| ==> !(log[i].Acquired? && log[i].key == k)
  }

  /** No single call or passage of time touches a finished record early. */
  lemma FinishedIsFrozen(s: Store, a: Action, k: Key)
    requires k in s.records && s.records[k].fields.status != Processing
    requires Step(s, a).now < s.records[k].expireAt
    ensures k in Step(s, a).records && Step(s, a).records[k] == s.records[k]
    ensures s.log <= Step(s, a).log && |Step(s, a).log| <= |s.log| + 1
    ensures NotAcquiredIn(Step(s, a).log, |s.log|, k)
  {
  }

  /** From a successful complete or fail until the record's time runs out: the
      record does not change, so each begin with its fingerprint is answered with
      that outcome and each other one with a conflict, and the key is not acquired
      again by anybody, whatever calls are made. */
  lemma {:induction false} OutcomeReplayed(s: Store, actions: seq<Action>, k: Key, fingerprint: string)
    requires k in s.records && s.records[k].fields.status != Processing
    requires Run(s, actions).now < s.records[k].expireAt
    ensures
      var s' := Run(s, actions);
      && k in s'.records && s'.records[k] == s.records[k]
      && BeginReply(s', k, fingerprint) == BeginReply(s, k, fingerprint)
      && (BeginReply(s', k, fingerprint) ==
            if fingerprint == s.records[k].fields.fingerprint
            then Seen(s.records[k].fields.status, s.records[k].fields.response, s.records[k].fields.failure)
            else Conflict)
      && s.log <= s'.log && NotAcquiredIn(s'.log, |s.log|, k)
    decreases |actions|
  {
    if actions != [] {
      var s1, s' := Step(s, actions[0]), Run(s, actions);
      ClockMonotone(s1, actions[1..]);
      FinishedIsFrozen(s, actions[0], k);
      OutcomeReplayed(s1, actions[1..], k, fingerprint);
      forall i | |s.log| <= i < |s'.log| ensures !(s'.log[i].Acquired? && s'.log[i].key == k) {
        assert i < |s1.log| ==> s'.log[i] == s1.log[i];
      }
    }
  }

  /** A successful finish opens such a window, with the outcome it was given. */
  lemma FinishOpensWindow(s: Store, k: Key, o: Owner, outcome: Outcome, ttl: int)
    requires Inv(s) && Owns(s, k, o) && ttl > 0
    ensures
      var s' := Step(s, FinishCall(k, o, outcome, ttl));
      && Inv(s') && k in s'.records && s'.records[k].expireAt == s.now + ttl
      && BeginReply(s', k, s.records[k].fields.fingerprint) ==
           match outcome
           case Response(body) => Seen(Completed, Some(body), None)
           case Refusal(failure) => Seen(Failed, None, Some(failure))
  {
    StepKeepsInv(s, FinishCall(k, o, outcome, ttl));
    ToldShape(s.log, k);
  }

  /** Over every run, the holder of an acquisition is stranded exactly if the key
      expired while it owned it. So while a record is finished, every handler that
      was ever let in for its key has finished or aborted, or its lease ran out. */
  lemma StrandedIffExpired(actions: seq<Action>, i: nat)
    requires i < |Run(Init(), actions).log| && Run(Init(), actions).log[i].Acquired?
    ensures
      var log := Run(Init(), actions).log;
      Stranded(log, i) <==> exists m :: i < m < |log| && TakesFrom(log, m, log[i].key, log[i].owner)
  {
    var log := Run(Init(), actions).log;
    RunKeepsInv(Init(), actions);
    OwnershipEnds(log, i, |log|);
    assert log[..|log|] == log;
    forall m | i < m < |log| && TakesFrom(log, m, log[i].key, log[i].owner) ensures Stranded(log, i) {
      PowerlessAfter(log, i, m);
      StaysPowerless(log, m + 1, log[i].owner);
      forall j | i < j < |log| ensures !EndsWith(log[j], log[i].owner) {
        TakenDoesNotEnd(log, i, m, j);
      }
    }
  }

  lemma RunTwo(s: Store, a: Action, b: Action)
    ensures Run(s, [a, b]) == Step(Step(s, a), b)
  {
    assert [a, b][1..] == [b] && [b][1..] == [];
    assert Run(Step(s, a), [b]) == Run(Step(Step(s, a), b), []);
  }

  lemma RunFour(s: Store, a: Action, b: Action, c: Action, d: Action)
    ensures Run(s, [a, b] + [c, d]) == Step(Step(Step(Step(s, a), b), c), d)
  {
    RunTwo(s, a, b);
    RunTwo(Step(Step(s, a), b), c, d);
    RunAppend(s, [a, b], [c, d]);
  }

  lemma ExpiresAlone(k: Key, fingerprint: string)
    ensures var s := Step(Step(Init(), BeginCall(k, fingerprint, 1, 10)), Tick(10));
            s == Store(map[], 10, {1}, [Acquired(k, 1, fingerprint), Expired({k})])
  {
    var s1 := Step(Init(), BeginCall(k, fingerprint, 1, 10));
    assert s1.records == map[k := Record(Fresh(fingerprint, 1), 10)];
    assert (set j | j in s1.records && s1.records[j].expireAt <= 10) == {k};
  }

  lemma TakenAtOne(log: seq<Event>, k: Key, fingerprint: string)
    requires |log| >= 2 && log[0] == Acquired(k, 1, fingerprint) && log[1] == Expired({k})
    ensures TakesFrom(log, 1, k, 1)
  {
    assert log[..1] == [] + [log[0]];
    ToldAppend([], log[0], k);
  }

  /** It happens: the lease of token 1 runs out, token 2 acquires the key and
      finishes, and token 1 is still at work while the outcome is replayed. */
  lemma StrandedBesideOutcome(k: Key, fingerprint: string, outcome: Outcome) returns (actions: seq<Action>)
    ensures
      var s := Run(Init(), actions);
      && s.log == [Acquired(k, 1, fingerprint), Expired({k})] + [Acquired(k, 2, fingerprint)] +
          [Finished(k, 2, outcome)]
      && Stranded(s.log, 0)
      && k in s.records && s.records[k].fields.status != Processing && s.now < s.records[k].expireAt
  {
    var first, second := BeginCall(k, fingerprint, 1, 10), BeginCall(k, fingerprint, 2, 10);
    actions := [first, Tick(10)] + [second, FinishCall(k, 2, outcome, 10)];
    RunFour(Init(), first, Tick(10), second, FinishCall(k, 2, outcome, 10));
    ExpiresAlone(k, fingerprint);
    TakenAtOne(Run(Init(), actions).log, k, fingerprint);
    StrandedIffExpired(actions, 0);
  }
}
