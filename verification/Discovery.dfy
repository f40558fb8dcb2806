/**
 The client-side view of a service (serviceregistry/discovery.go): a snapshot of
 instances, the instances ejected after failures, and the round-robin cursor.
 Every operation runs under the view's lock; the clock is a parameter.
 */
module Discovery {
  import opened Common
  import opened RoundRobin
  import opened Listing

  datatype Snapshot = Snapshot(revision: nat, savedAt: int, instances: seq<Instance>)

  /** The moment until which each reported instance is ejected. */
  type Ejections = map<string, int>

  predicate Eligible(x: Instance, ejected: Ejections, now: int) {
    x.healthy && !(x.id in ejected && ejected[x.id] > now)
  }

  /** Weight zero counts as one. */
  function Weight(x: Instance): (w: nat)
    ensures w >= 1
  {
    if x.weight == 0 then 1 else x.weight
  }

  function Repeat(i: nat, n: nat): seq<nat> {
    seq(n, _ => i)
  }

  /** The slots of the first n instances: the position of each eligible one, as
      many times as its weight. */
  function Slots(xs: seq<Instance>, n: nat, ejected: Ejections, now: int): (slots: seq<nat>)
    requires n <= |xs|
    ensures forall k :: 0 <= k < |slots| ==> slots[k] < n && Eligible(xs[slots[k]], ejected, now)
  {
    if n == 0 then []
    else if Eligible(xs[n - 1], ejected, now) then Slots(xs, n - 1, ejected, now) + Repeat(n - 1, Weight(xs[n - 1]))
    else Slots(xs, n - 1, ejected, now)
  }

  lemma RepeatCount(i: nat, n: nat, j: nat)
    ensures multiset(Repeat(i, n))[j] == if i == j then n else 0
  {
    if n > 0 {
      assert Repeat(i, n) == Repeat(i, n - 1) + [i];
      RepeatCount(i, n - 1, j);
    } else {
      assert Repeat(i, n) == [];
    }
  }

  /** An instance has as many slots as its weight if it is eligible, else none. */
  lemma {:induction false} SlotCount(xs: seq<Instance>, n: nat, ejected: Ejections, now: int, i: nat)
    requires n <= |xs| && i < |xs|
    ensures multiset(Slots(xs, n, ejected, now))[i] ==
            if i < n && Eligible(xs[i], ejected, now) then (if xs[i].weight == 0 then 1 else xs[i].weight) else 0
  {
    if n > 0 {
      SlotCount(xs, n - 1, ejected, now, i);
      RepeatCount(n - 1, Weight(xs[n - 1]), i);
    }
  }

  // ---- The view ------------------------------------------------------------

  /** What can be picked now: nothing without a snapshot or with a stale one. */
  function Available(snapshot: Option<Snapshot>, ejected: Ejections, maxStale: int, now: int): (slots: seq<nat>)
    ensures slots != [] ==> snapshot.Some? && now - snapshot.value.savedAt <= maxStale
    ensures forall k :: 0 <= k < |slots| ==> slots[k] < |snapshot.value.instances|
  {
    if snapshot.None? || now - snapshot.value.savedAt > maxStale then []
    else Slots(snapshot.value.instances, |snapshot.value.instances|, ejected, now)
  }

  /** The positions chosen by picks at the given moments, from cursor c on, while
      the snapshot and the ejections stay. */
  function Picks(snapshot: Option<Snapshot>, ejected: Ejections, maxStale: int, nows: seq<int>, c: nat): seq<nat> {
    if nows == [] then []
    else
      var slots := Available(snapshot, ejected, maxStale, nows[0]);
      if slots == [] then Picks(snapshot, ejected, maxStale, nows[1..], c)
      else [slots[c % |slots|]] + Picks(snapshot, ejected, maxStale, nows[1..], (c + 1) % TWO_64)
  }

  lemma NextSlot(c: nat, k: nat, w: nat)
    requires w > 0 && c < TWO_64
    ensures Slot(c, 0, w) == c % w
    ensures Slot((c + 1) % TWO_64, k, w) == Slot(c, k + 1, w)
  {
    if c + 1 == TWO_64 {
      AddModulus(k, TWO_64);
    }
  }

  /** The k-th pick among unchanged slots takes the k-th slot from the cursor. */
  lemma {:induction false} PickAt(
    snapshot: Option<Snapshot>, ejected: Ejections, maxStale: int, nows: seq<int>, c: nat, slots: seq<nat>, k: nat)
    requires slots != [] && c < TWO_64 && k < |nows|
    requires forall t :: t in nows ==> Available(snapshot, ejected, maxStale, t) == slots
    ensures |Picks(snapshot, ejected, maxStale, nows, c)| == |nows|
    ensures Picks(snapshot, ejected, maxStale, nows, c)[k] == slots[Slot(c, k, |slots|)]
    decreases |nows|
  {
    assert Available(snapshot, ejected, maxStale, nows[0]) == slots;
    NextSlot(c, if k == 0 then 0 else k - 1, |slots|);
    if |nows| > 1 {
      PickAt(snapshot, ejected, maxStale, nows[1..], (c + 1) % TWO_64, slots, if k == 0 then 0 else k - 1);
    }
  }

  lemma PicksInTurn(
    snapshot: Option<Snapshot>, ejected: Ejections, maxStale: int, nows: seq<int>, c: nat, slots: seq<nat>)
    requires slots != [] && c < TWO_64
    requires forall t :: t in nows ==> Available(snapshot, ejected, maxStale, t) == slots
    ensures |Picks(snapshot, ejected, maxStale, nows, c)| == |nows|
    ensures forall k :: 0 <= k < |nows| ==>
                          Picks(snapshot, ejected, maxStale, nows, c)[k] == slots[Slot(c, k, |slots|)]
  {
    forall k | 0 <= k < |nows|
      ensures |Picks(snapshot, ejected, maxStale, nows, c)| == |nows|
      ensures Picks(snapshot, ejected, maxStale, nows, c)[k] == slots[Slot(c, k, |slots|)]
    {
      PickAt(snapshot, ejected, maxStale, nows, c, slots, k);
    }
    if nows != [] {
      PickAt(snapshot, ejected, maxStale, nows, c, slots, 0);
    }
  }

  /** A round over slots is a rotation of them. */
  lemma RoundIsRotation(slots: seq<nat>, picks: seq<nat>, c: nat)
    requires 0 < |slots| == |picks| <= TWO_64 && c < TWO_64 && Even(c, |slots|)
    requires forall k :: 0 <= k < |slots| ==> picks[k] == slots[Slot(c, k, |slots|)]
    ensures multiset(picks) == multiset(slots)
  {
    var r := c % |slots|;
    forall k | 0 <= k < |slots| ensures picks[k] == (slots[r..] + slots[..r])[k] {
      SlotOf(c, k, |slots|);
    }
    assert picks == slots[r..] + slots[..r];
    assert slots == slots[..r] + slots[r..];
  }

  /** Weighted round robin is fair. While the slots stay the same, as many picks as
      there are slots choose each instance exactly its weight times if it is
      eligible and never otherwise, wherever the cursor stands, unless the counter
      wraps inside the round off a slot boundary. */
  lemma RoundIsFair(
    snapshot: Option<Snapshot>, ejected: Ejections, maxStale: int, nows: seq<int>, c: nat, i: nat)
    requires nows != [] && c < TWO_64
    requires |nows| == |Available(snapshot, ejected, maxStale, nows[0])| <= TWO_64 && Even(c, |nows|)
    requires forall t :: t in nows ==>
                           Available(snapshot, ejected, maxStale, t) == Available(snapshot, ejected, maxStale, nows[0])
    requires snapshot.Some? && i < |snapshot.value.instances|
    ensures multiset(Picks(snapshot, ejected, maxStale, nows, c))[i] ==
            var x := snapshot.value.instances[i];
            if Eligible(x, ejected, nows[0]) then (if x.weight == 0 then 1 else x.weight) else 0
  {
    var slots := Available(snapshot, ejected, maxStale, nows[0]);
    PicksInTurn(snapshot, ejected, maxStale, nows, c, slots);
    RoundIsRotation(slots, Picks(snapshot, ejected, maxStale, nows, c), c);
    SlotCount(snapshot.value.instances, |snapshot.value.instances|, ejected, nows[0], i);
  }

  ghost predicate Fair(
    snapshot: Option<Snapshot>, ejected: Ejections, maxStale: int, nows: seq<int>, c: nat)
    requires snapshot.Some? && nows != []
  {
    var xs, picks := snapshot.value.instances, multiset(Picks(snapshot, ejected, maxStale, nows, c));
    forall i :: 0 <= i < |xs| ==> picks[i] == if Eligible(xs[i], ejected, nows[0]) then Weight(xs[i]) else 0
  }

  /** Around the wrap it need not be. Where every weight counts as one, a round is
      fair exactly when it is even. */
  lemma UnitRoundFairIffEven(
    snapshot: Option<Snapshot>, ejected: Ejections, maxStale: int, nows: seq<int>, c: nat)
    requires nows != [] && c < TWO_64
    requires |nows| == |Available(snapshot, ejected, maxStale, nows[0])| <= TWO_64
    requires forall t :: t in nows ==>
                           Available(snapshot, ejected, maxStale, t) == Available(snapshot, ejected, maxStale, nows[0])
    requires snapshot.Some? && forall x :: x in snapshot.value.instances ==> Weight(x) == 1
    ensures Fair(snapshot, ejected, maxStale, nows, c) <==> Even(c, |nows|)
  {
    var xs := snapshot.value.instances;
    if Even(c, |nows|) {
      forall i | 0 <= i < |xs| {
        RoundIsFair(snapshot, ejected, maxStale, nows, c, i);
      }
    } else {
      var i := UnevenPick(snapshot, ejected, maxStale, nows, c);
      assert xs[i] in xs;
    }
  }

  /** An uneven round chooses some position twice. */
  lemma UnevenPick(
    snapshot: Option<Snapshot>, ejected: Ejections, maxStale: int, nows: seq<int>, c: nat) returns (i: nat)
    requires nows != [] && c < TWO_64 && snapshot.Some?
    requires |nows| == |Available(snapshot, ejected, maxStale, nows[0])| <= TWO_64 && !Even(c, |nows|)
    requires forall t :: t in nows ==>
                           Available(snapshot, ejected, maxStale, t) == Available(snapshot, ejected, maxStale, nows[0])
    ensures i < |snapshot.value.instances|
    ensures multiset(Picks(snapshot, ejected, maxStale, nows, c))[i] >= 2
  {
    var slots := Available(snapshot, ejected, maxStale, nows[0]);
    var j, k := Repeated(c, |slots|);
    PickAt(snapshot, ejected, maxStale, nows, c, slots, j);
    PickAt(snapshot, ejected, maxStale, nows, c, slots, k);
    SeenTwice(Picks(snapshot, ejected, maxStale, nows, c), j, k);
    i := slots[Slot(c, j, |slots|)];
  }

  /** m slots from a on, around the end. */
  function Window(slots: seq<nat>, a: nat, m: nat): seq<nat>
    requires slots != []
  {
    seq(m, i requires 0 <= i < m => slots[(a + i) % |slots|])
  }

  /** How many of w picks from cursor c come after the counter has wrapped. */
  function AfterWrap(c: nat, w: nat): nat {
    if c + w <= TWO_64 then 0 else c + w - TWO_64
  }

  lemma WindowIsRotation(slots: seq<nat>, c: nat)
    requires slots != []
    ensures multiset(Window(slots, c, |slots|)) == multiset(slots)
  {
    var r, w := c % |slots|, Window(slots, c, |slots|);
    forall k | 0 <= k < |slots| ensures w[k] == (slots[r..] + slots[..r])[k] {
      ModAdd(c, k, |slots|);
    }
    assert w == slots[r..] + slots[..r];
    assert slots == slots[..r] + slots[r..];
  }

  lemma ModAgain(x: nat, k: nat, w: nat)
    requires k < w
    ensures (x + k) % w == (x % w + k) % w
  {
    ModAdd(x, k, w);
    ModAdd(x % w, k, w);
    SmallMod(x % w, w);
  }

  /** A round that does not wrap is a window; after the wrap it starts over at slot 0
      where the window would go on at slot 2^64 mod w. */
  lemma RoundInParts(slots: seq<nat>, picks: seq<nat>, c: nat)
    requires 0 < |slots| == |picks| <= TWO_64 && c < TWO_64
    requires forall k :: 0 <= k < |slots| ==> picks[k] == slots[Slot(c, k, |slots|)]
    ensures AfterWrap(c, |slots|) <= |slots|
    ensures var m := AfterWrap(c, |slots|); var n := |slots| - m;
            && picks == Window(slots, c, n) + slots[..m]
            && Window(slots, c, |slots|) == Window(slots, c, n) + Window(slots, TWO_64 % |slots|, m)
  {
    var w, m := |slots|, AfterWrap(c, |slots|);
    var n := w - m;
    forall k | 0 <= k < w
      ensures picks[k] == (Window(slots, c, n) + slots[..m])[k]
      ensures Window(slots, c, w)[k] == (Window(slots, c, n) + Window(slots, TWO_64 % w, m))[k]
    {
      if k < n {
        BeforeWrap(c, k, w);
      } else {
        SlotAfterWrap(c, k, w);
        ModAgain(TWO_64, k - n, w);
      }
    }
  }

  lemma BeforeWrap(c: nat, k: nat, w: nat)
    requires w > 0 && c + k < TWO_64
    ensures Slot(c, k, w) == (c + k) % w
  {
    SmallMod(c + k, TWO_64);
  }

  ghost predicate SameCountsBelow(a: seq<nat>, b: seq<nat>, n: nat) {
    forall i: nat :: i < n ==> multiset(a)[i] == multiset(b)[i]
  }

  lemma CountsDecide(a: seq<nat>, b: seq<nat>, n: nat)
    requires forall k :: 0 <= k < |a| ==> a[k] < n
    requires forall k :: 0 <= k < |b| ==> b[k] < n
    ensures SameCountsBelow(a, b, n) <==> multiset(a) == multiset(b)
  {
    var ma: multiset<nat>, mb: multiset<nat> := multiset(a), multiset(b);
    if SameCountsBelow(a, b, n) {
      forall i: nat ensures ma[i] == mb[i] {
        if i >= n {
          assert i !in a && i !in b;
          assert i !in ma && i !in mb;
        }
      }
    }
  }

  lemma FairIffSameCounts(
    snapshot: Option<Snapshot>, ejected: Ejections, maxStale: int, nows: seq<int>, c: nat,
    slots: seq<nat>, picks: seq<nat>)
    requires nows != [] && snapshot.Some?
    requires slots == Available(snapshot, ejected, maxStale, nows[0]) != []
    requires picks == Picks(snapshot, ejected, maxStale, nows, c)
    ensures Fair(snapshot, ejected, maxStale, nows, c) <==> SameCountsBelow(picks, slots, |snapshot.value.instances|)
  {
    var xs := snapshot.value.instances;
    forall i: nat | i < |xs|
      ensures multiset(slots)[i] == if Eligible(xs[i], ejected, nows[0]) then Weight(xs[i]) else 0
    {
      SlotCount(xs, |xs|, ejected, nows[0], i);
    }
  }

  lemma SlotsFairIffSameAfterWrap(slots: seq<nat>, picks: seq<nat>, c: nat)
    requires 0 < |slots| == |picks| <= TWO_64 && c < TWO_64
    requires forall k :: 0 <= k < |slots| ==> picks[k] == slots[Slot(c, k, |slots|)]
    ensures AfterWrap(c, |slots|) <= |slots|
    ensures var m := AfterWrap(c, |slots|);
            multiset(picks) == multiset(slots) <==> multiset(slots[..m]) == multiset(Window(slots, TWO_64 % |slots|, m))
  {
    RoundInParts(slots, picks, c);
    WindowIsRotation(slots, c);
    var m := AfterWrap(c, |slots|);
    SameRest(Window(slots, c, |slots| - m), slots[..m], Window(slots, TWO_64 % |slots|, m));
  }

  /** For any weights, a round is fair exactly if the picks after the wrap, which
      start at slot 0, are of the same instances as those that would have followed:
      as many slots from 2^64 mod w on. Without a wrap there are none. */
  lemma FairIffSameAfterWrap(
    snapshot: Option<Snapshot>, ejected: Ejections, maxStale: int, nows: seq<int>, c: nat)
    requires nows != [] && c < TWO_64 && snapshot.Some?
    requires |nows| == |Available(snapshot, ejected, maxStale, nows[0])| <= TWO_64
    requires forall t :: t in nows ==>
                           Available(snapshot, ejected, maxStale, t) == Available(snapshot, ejected, maxStale, nows[0])
    ensures
      var slots := Available(snapshot, ejected, maxStale, nows[0]);
      var m := AfterWrap(c, |slots|);
      m <= |slots| && (Fair(snapshot, ejected, maxStale, nows, c) <==>
                       multiset(slots[..m]) == multiset(Window(slots, TWO_64 % |slots|, m)))
  {
    var slots := Available(snapshot, ejected, maxStale, nows[0]);
    var picks := Picks(snapshot, ejected, maxStale, nows, c);
    PicksInTurn(snapshot, ejected, maxStale, nows, c, slots);
    FairIffSameCounts(snapshot, ejected, maxStale, nows, c, slots, picks);
    CountsDecide(picks, slots, |snapshot.value.instances|);
    SlotsFairIffSameAfterWrap(slots, picks, c);
  }

  lemma SameRest(a: seq<nat>, b: seq<nat>, c: seq<nat>)
    ensures multiset(a + b) == multiset(a + c) <==> multiset(b) == multiset(c)
  {
    assert multiset(a + b) - multiset(a) == multiset(b);
    assert multiset(a + c) - multiset(a) == multiset(c);
  }

  /** With one slot for each of three instances and the cursor at its last value,
      a round takes slots 0, 0 and 1: the last instance is passed over. */
  lemma WrapIsUneven()
    ensures !Even(TWO_64 - 1, 3)
    ensures Round(TWO_64 - 1, 3) == [0, 0, 1]
  {
  }

  // ---- Instances -----------------------------------------------------------

  function EligibleOf(xs: seq<Instance>, ejected: Ejections, now: int): seq<Instance> {
    if xs == [] then []
    else
      var init := EligibleOf(xs[..|xs| - 1], ejected, now);
      if Eligible(xs[|xs| - 1], ejected, now) then init + [xs[|xs| - 1]] else init
  }

  /** The instances listed are those at the eligible positions, each once, in order. */
  lemma {:induction false} ListedInOrder(xs: seq<Instance>, ejected: Ejections, now: int) returns (at: seq<nat>)
    ensures |at| == |EligibleOf(xs, ejected, now)|
    ensures forall k :: 0 <= k < |at| ==> at[k] < |xs| && EligibleOf(xs, ejected, now)[k] == xs[at[k]]
    ensures forall j, k :: 0 <= j < k < |at| ==> at[j] < at[k]
    ensures forall i :: 0 <= i < |xs| ==> (i in at <==> Eligible(xs[i], ejected, now))
  {
    if xs == [] {
      at := [];
    } else {
      var n := |xs| - 1;
      at := ListedInOrder(xs[..n], ejected, now);
      if Eligible(xs[n], ejected, now) {
        at := at + [n];
      }
    }
  }

  /** Something can be picked exactly if there is a snapshot, it is not older than the
      configured age, and an instance in it is healthy and not ejected any more. */
  lemma PickableIff(snapshot: Option<Snapshot>, ejected: Ejections, maxStale: int, now: int)
    ensures Available(snapshot, ejected, maxStale, now) != [] <==>
            && snapshot.Some? && now <= snapshot.value.savedAt + maxStale
            && exists x :: && x in snapshot.value.instances && x.healthy
                           && (x.id in ejected ==> ejected[x.id] <= now)
  {
    var slots := Available(snapshot, ejected, maxStale, now);
    if slots != [] {
      assert Eligible(snapshot.value.instances[slots[0]], ejected, now);
    }
    if snapshot.Some? && now <= snapshot.value.savedAt + maxStale {
      var xs := snapshot.value.instances;
      forall i: nat | i < |xs| && Eligible(xs[i], ejected, now) ensures slots != [] {
        SlotCount(xs, |xs|, ejected, now, i);
      }
    }
  }

  /** Something is listed exactly when something can be picked. */
  lemma {:induction false} ListedIffPickable(xs: seq<Instance>, n: nat, ejected: Ejections, now: int)
    requires n <= |xs|
    ensures EligibleOf(xs[..n], ejected, now) == [] <==> Slots(xs, n, ejected, now) == []
  {
    if n > 0 {
      ListedIffPickable(xs, n - 1, ejected, now);
      assert xs[..n][..n - 1] == xs[..n - 1];
      assert |Repeat(n - 1, Weight(xs[n - 1]))| >= 1;
    }
  }

  class View {
    const maxStale: int
    var snapshot: Option<Snapshot>
    var ejected: Ejections
    var cursor: nat

    constructor (maxStale: int)
      ensures this.maxStale == maxStale && snapshot == None && ejected == map[] && cursor == 0
    {
      this.maxStale := maxStale;
      snapshot, ejected, cursor := None, map[], 0;
    }

    ghost predicate Valid()
      reads this
    {
      cursor < TWO_64
    }

    /** The instance in the slot under the cursor, which moves on; nothing without
        slots, and then the cursor stays. */
    method Pick(now: int) returns (chosen: Option<Instance>)
      requires Valid()
      modifies this`cursor
      ensures Valid()
      ensures var slots := Available(snapshot, ejected, maxStale, now);
              if slots == [] then chosen == None && cursor == old(cursor)
              else
                && chosen == Some(snapshot.value.instances[slots[old(cursor) % |slots|]])
                && cursor == (old(cursor) + 1) % TWO_64
    {
      if snapshot.None? || now - snapshot.value.savedAt > maxStale {
        return None;
      }
      var xs := snapshot.value.instances;
      var available: seq<Instance> := [];
      for i := 0 to |xs|
        invariant |available| == |Slots(xs, i, ejected, now)|
        invariant forall k :: 0 <= k < |available| ==> available[k] == xs[Slots(xs, i, ejected, now)[k]]
      {
        if xs[i].healthy && !(xs[i].id in ejected && ejected[xs[i].id] > now) {
          var weight := xs[i].weight;
          if weight == 0 {
            weight := 1;
          }
          ghost var before := available;
          for j := 0 to weight
            invariant |available| == |before| + j && available[..|before|] == before
            invariant forall k :: |before| <= k < |available| ==> available[k] == xs[i]
          {
            available := available + [xs[i]];
          }
          assert forall k :: 0 <= k < |before| ==> available[k] == available[..|before|][k];
        }
      }
      if |available| == 0 {
        return None;
      }
      var index := cursor;
      cursor := (cursor + 1) % TWO_64;
      return Some(available[index % |available|]);
    }

    /** The eligible instances in snapshot order; it fails exactly when a pick would. */
    method Instances(now: int) returns (listed: Option<seq<Instance>>)
      ensures listed.Some? <==> Available(snapshot, ejected, maxStale, now) != []
      ensures listed.Some? ==> listed.value == EligibleOf(snapshot.value.instances, ejected, now)
    {
      if snapshot.None? || now - snapshot.value.savedAt > maxStale {
        return None;
      }
      var xs := snapshot.value.instances;
      var result: seq<Instance> := [];
      for i := 0 to |xs|
        invariant result == EligibleOf(xs[..i], ejected, now)
      {
        assert xs[..i + 1][..i] == xs[..i];
        if xs[i].healthy && !(xs[i].id in ejected && ejected[xs[i].id] > now) {
          result := result + [xs[i]];
        }
      }
      assert xs[..|xs|] == xs;
      ListedIffPickable(xs, |xs|, ejected, now);
      if |result| == 0 {
        return None;
      }
      return Some(result);
    }

    /** The instance is not eligible before the cooldown is over; others are as before. */
    method ReportFailure(id: string, now: int, cooldown: int)
      modifies this`ejected
      ensures ejected == old(ejected)[id := now + cooldown]
      ensures forall x: Instance, t :: x.id == id ==> (Eligible(x, ejected, t) <==> x.healthy && now + cooldown <= t)
      ensures forall x: Instance, t :: x.id != id ==> (Eligible(x, ejected, t) <==> Eligible(x, old(ejected), t))
    {
      ejected := ejected[id := now + cooldown];
    }

    /** The instance is eligible again as soon as it is healthy. */
    method ReportSuccess(id: string)
      modifies this`ejected
      ensures ejected == old(ejected) - {id}
      ensures forall x: Instance, t :: x.id == id ==> (Eligible(x, ejected, t) <==> x.healthy)
      ensures forall x: Instance, t :: x.id != id ==> (Eligible(x, ejected, t) <==> Eligible(x, old(ejected), t))
    {
      ejected := ejected - {id};
    }

    /** A watch response: the new snapshot shows, in order of id, the map that the
        ordered changes make of the old one. */
    method Apply(revision: nat, changes: seq<Change>, now: int) returns (ghost order: seq<string>)
      modifies this`snapshot
      ensures snapshot.Some? && snapshot.value.revision == revision && snapshot.value.savedAt == now
      ensures var before := if old(snapshot).None? then [] else old(snapshot).value.instances;
              Shows(snapshot.value.instances, Updated(ById(before), changes), order)
    {
      var before := if snapshot.None? then [] else snapshot.value.instances;
      var values := Index(before);
      values := ApplyChanges(values, changes);
      var instances;
      instances, order := Collect(values);
      var sorted := SortById(instances);
      snapshot := Some(Snapshot(revision, now, sorted));
    }
  }
}
