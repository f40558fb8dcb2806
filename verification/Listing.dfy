/**
 Applying watch responses to a snapshot (serviceregistry/discovery.go): the
 instances become a map by id, the changes update it in order, and its values,
 taken out in any order, are sorted by id.
 */
module Listing {
  import opened Common

  datatype Instance = Instance(id: string, healthy: bool, weight: nat, address: string)

  /** A change of a watch response: a delete, or an upsert that may carry no instance. */
  datatype Change = Delete(id: string) | Upsert(id: string, instance: Option<Instance>)

  // ---- Order of ids --------------------------------------------------------

  /** String order; on UTF-8 the order of bytes is the order of code points. */
  predicate Less(a: string, b: string) {
    b != [] && (a == [] || a[0] < b[0] || (a[0] == b[0] && Less(a[1..], b[1..])))
  }

  lemma {:induction false} LessIsOrder(a: string, b: string, c: string)
    ensures !Less(a, a)
    ensures Less(a, b) && Less(b, c) ==> Less(a, c)
    ensures a == b || Less(a, b) || Less(b, a)
    decreases |a| + |b| + |c|
  {
    if a != [] && b != [] && c != [] {
      LessIsOrder(a[1..], b[1..], c[1..]);
      assert a == [a[0]] + a[1..] && b == [b[0]] + b[1..];
    } else if a != [] && b != [] {
      LessIsOrder(a[1..], b[1..], c);
      assert a == [a[0]] + a[1..] && b == [b[0]] + b[1..];
    } else if a != [] {
      LessIsOrder(a[1..], b, c);
    }
  }

  /** It is the order of dictionaries: a proper prefix comes first, else the first
      difference decides. */
  lemma {:induction false} LessIsLexicographic(a: string, b: string)
    ensures Less(a, b) <==> a < b || DiffersBelow(a, b)
  {
    if a != [] && b != [] {
      LessIsLexicographic(a[1..], b[1..]);
      assert a == [a[0]] + a[1..] && b == [b[0]] + b[1..];
      DiffersTail(a, b);
    }
  }

  ghost predicate DiffersBelow(a: string, b: string) {
    exists i :: 0 <= i < |a| && i < |b| && a[..i] == b[..i] && a[i] < b[i]
  }

  lemma DiffersTail(a: string, b: string)
    requires a != [] && b != []
    ensures DiffersBelow(a, b) <==> a[0] < b[0] || (a[0] == b[0] && DiffersBelow(a[1..], b[1..]))
  {
    if i :| 0 <= i < |a| && i < |b| && a[..i] == b[..i] && a[i] < b[i] {
      if i > 0 {
        assert a[0] == a[..i][0] && b[0] == b[..i][0];
        assert a[1..][..i - 1] == a[..i][1..] && b[1..][..i - 1] == b[..i][1..];
        assert a[1..][i - 1] == a[i] && b[1..][i - 1] == b[i];
      }
    }
    if a[0] < b[0] {
      assert a[..0] == b[..0];
    }
    if a[0] == b[0] && DiffersBelow(a[1..], b[1..]) {
      var i :| 0 <= i < |a[1..]| && i < |b[1..]| && a[1..][..i] == b[1..][..i] && a[1..][i] < b[1..][i];
      assert a[..i + 1] == [a[0]] + a[1..][..i] && b[..i + 1] == [b[0]] + b[1..][..i];
      assert a[i + 1] == a[1..][i] && b[i + 1] == b[1..][i];
    }
  }

  ghost predicate Sorted(xs: seq<Instance>) {
    forall i, j :: 0 <= i < j < |xs| ==> !Less(xs[j].id, xs[i].id)
  }

  ghost predicate StrictlySorted(xs: seq<Instance>) {
    forall i, j :: 0 <= i < j < |xs| ==> Less(xs[i].id, xs[j].id)
  }

  // ---- Maps by id ----------------------------------------------------------

  /** The instances of a snapshot by id; a later one replaces an earlier one. */
  function ById(xs: seq<Instance>): map<string, Instance> {
    if xs == [] then map[] else ById(xs[..|xs| - 1])[xs[|xs| - 1].id := xs[|xs| - 1]]
  }

  function Changed(m: map<string, Instance>, c: Change): map<string, Instance> {
    match c
    case Delete(id) => m - {id}
    case Upsert(id, instance) => if instance.Some? then m[id := instance.value] else m
  }

  /** The changes in order. */
  function Updated(m: map<string, Instance>, changes: seq<Change>): map<string, Instance> {
    if changes == [] then m else Changed(Updated(m, changes[..|changes| - 1]), changes[|changes| - 1])
  }

  ghost predicate KeysMatch(m: map<string, Instance>) {
    forall k :: k in m ==> m[k].id == k
  }

  lemma {:induction false} ByIdHolds(xs: seq<Instance>, k: string)
    ensures k in ById(xs) ==> ById(xs)[k] in xs && ById(xs)[k].id == k
    ensures (exists i :: 0 <= i < |xs| && xs[i].id == k) ==> k in ById(xs)
  {
    if xs != [] {
      ByIdHolds(xs[..|xs| - 1], k);
      forall i | 0 <= i < |xs| && xs[i].id == k ensures k in ById(xs) {
        assert i < |xs| - 1 ==> xs[..|xs| - 1][i].id == k;
      }
    }
  }

  lemma {:induction false} UpdatedConcat(m: map<string, Instance>, a: seq<Change>, b: seq<Change>)
    ensures Updated(m, a + b) == Updated(Updated(m, a), b)
    decreases |b|
  {
    if b == [] {
      assert a + b == a;
    } else {
      assert (a + b)[..|a + b| - 1] == a + b[..|b| - 1];
      UpdatedConcat(m, a, b[..|b| - 1]);
    }
  }

  /** An upsert without an instance changes nothing. */
  predicate Effective(c: Change) {
    c.Delete? || c.instance.Some?
  }

  /** The last effective change of an id, or -1. */
  function Last(changes: seq<Change>, k: string): (i: int)
    ensures -1 <= i < |changes|
    ensures i >= 0 ==> Effective(changes[i]) && changes[i].id == k
  {
    if changes == [] then -1
    else if Effective(changes[|changes| - 1]) && changes[|changes| - 1].id == k then |changes| - 1
    else Last(changes[..|changes| - 1], k)
  }

  /** The last effective change of an id decides; without one its entry stays. */
  lemma {:induction false} LastChangeWins(m: map<string, Instance>, changes: seq<Change>, k: string)
    ensures var i := Last(changes, k); var after := Updated(m, changes);
            if i < 0 then (k in after <==> k in m) && (k in m ==> after[k] == m[k])
            else if changes[i].Delete? then k !in after
            else k in after && after[k] == changes[i].instance.value
  {
    if changes != [] {
      LastChangeWins(m, changes[..|changes| - 1], k);
    }
  }

  /** Each id's last effective change carries an instance of that id, or none. */
  predicate Consistent(changes: seq<Change>) {
    forall i :: 0 <= i < |changes| && Last(changes, changes[i].id) == i && changes[i].Upsert? ==>
                  changes[i].instance.value.id == changes[i].id
  }

  lemma KeysMatchIffConsistent(m: map<string, Instance>, changes: seq<Change>)
    requires KeysMatch(m)
    ensures KeysMatch(Updated(m, changes)) <==> Consistent(changes)
  {
    var after := Updated(m, changes);
    if Consistent(changes) {
      forall k | k in after ensures after[k].id == k {
        LastChangeWins(m, changes, k);
      }
    }
    if KeysMatch(after) {
      forall i | 0 <= i < |changes| && Last(changes, changes[i].id) == i && changes[i].Upsert?
        ensures changes[i].instance.value.id == changes[i].id
      {
        LastChangeWins(m, changes, changes[i].id);
      }
    }
  }

  // ---- The listing of a map ------------------------------------------------

  predicate Distinct(order: seq<string>) {
    forall i, j :: 0 <= i < j < |order| ==> order[i] != order[j]
  }

  ghost function ValuesOf(m: map<string, Instance>, order: seq<string>): seq<Instance>
    requires forall k :: k in order ==> k in m
  {
    seq(|order|, i requires 0 <= i < |order| => assert order[i] in order; m[order[i]])
  }

  /** xs is the values of m, sorted by id; order is the order they were taken in. */
  ghost predicate Shows(xs: seq<Instance>, m: map<string, Instance>, order: seq<string>) {
    && Distinct(order) && (forall k :: k in order <==> k in m)
    && multiset(xs) == multiset(ValuesOf(m, order))
    && Sorted(xs)
  }

  /** xs lists m strictly in order of id, each instance under its own id. */
  ghost predicate Lists(xs: seq<Instance>, m: map<string, Instance>) {
    && StrictlySorted(xs)
    && (forall i :: 0 <= i < |xs| ==> xs[i].id in m && m[xs[i].id] == xs[i])
    && (forall k :: k in m ==> m[k].id == k && m[k] in xs)
  }

  lemma SameElements(xs: seq<Instance>, ys: seq<Instance>, x: Instance)
    requires multiset(xs) == multiset(ys)
    ensures x in xs <==> x in ys
  {
    assert x in xs <==> x in multiset(xs);
    assert x in ys <==> x in multiset(ys);
  }

  lemma {:induction false} SeenOnce(xs: seq<Instance>, x: Instance)
    requires forall i, j :: 0 <= i < j < |xs| ==> xs[i].id != xs[j].id
    ensures multiset(xs)[x] <= 1
  {
    if xs != [] {
      SeenOnce(xs[1..], x);
      assert xs == [xs[0]] + xs[1..];
      if x == xs[0] {
        assert x !in xs[1..];
      }
    }
  }

  /** When keys match ids the listing is strict and complete. */
  lemma ShowsLists(xs: seq<Instance>, m: map<string, Instance>, order: seq<string>)
    requires Shows(xs, m, order) && KeysMatch(m)
    ensures Lists(xs, m)
  {
    var values := ValuesOf(m, order);
    forall i | 0 <= i < |order| ensures values[i] == m[order[i]] && values[i].id == order[i] {
      assert order[i] in order;
    }
    forall i | 0 <= i < |xs| ensures xs[i].id in m && m[xs[i].id] == xs[i] {
      SameElements(xs, values, xs[i]);
      var j :| 0 <= j < |values| && values[j] == xs[i];
      assert order[j] in order;
    }
    forall k | k in m ensures m[k].id == k && m[k] in xs {
      var j :| 0 <= j < |order| && order[j] == k;
      assert values[j] in values;
      SameElements(xs, values, m[k]);
    }
    forall i, j | 0 <= i < j < |xs| ensures Less(xs[i].id, xs[j].id) {
      SeenOnce(values, xs[i]);
      if xs[i] == xs[j] {
        SeenTwice(xs, i, j);
      }
      LessIsOrder(xs[i].id, xs[j].id, xs[i].id);
    }
  }

  /** A listing is determined by its map: the order the values came in is forgotten. */
  lemma {:induction false} ListingUnique(xs: seq<Instance>, ys: seq<Instance>, m: map<string, Instance>)
    requires Lists(xs, m) && Lists(ys, m)
    ensures xs == ys
    decreases |xs|
  {
    assert xs != [] ==> m[xs[0].id] in ys;
    assert ys != [] ==> m[ys[0].id] in xs;
    if xs != [] {
      LessIsOrder(xs[0].id, ys[0].id, xs[0].id);
      assert xs[0] == ys[0];
      TailLists(xs, m);
      TailLists(ys, m);
      ListingUnique(xs[1..], ys[1..], m - {xs[0].id});
    }
  }

  lemma TailLists(xs: seq<Instance>, m: map<string, Instance>)
    requires Lists(xs, m) && xs != []
    ensures Lists(xs[1..], m - {xs[0].id})
  {
    var rest, id := xs[1..], xs[0].id;
    forall i | 0 <= i < |rest| ensures rest[i].id in m && rest[i].id != id && m[rest[i].id] == rest[i] {
      LessIsOrder(id, rest[i].id, id);
      assert rest[i] == xs[i + 1];
    }
    forall k | k in m && k != id ensures m[k] in rest {
      var i :| 0 <= i < |xs| && xs[i] == m[k];
      assert xs[i] == rest[i - 1];
    }
  }

  /** Reading a snapshot back by id gives the map it shows exactly when the changes
      that made the map were consistent. */
  lemma ReadBackIffConsistent(
    m: map<string, Instance>, changes: seq<Change>, xs: seq<Instance>, order: seq<string>)
    requires KeysMatch(m) && Shows(xs, Updated(m, changes), order)
    ensures ById(xs) == Updated(m, changes) <==> Consistent(changes)
  {
    var after := Updated(m, changes);
    KeysMatchIffConsistent(m, changes);
    forall k | k in ById(xs) ensures ById(xs)[k].id == k {
      ByIdHolds(xs, k);
    }
    if Consistent(changes) {
      ShowsLists(xs, after, order);
      forall k ensures k in ById(xs) <==> k in after
               ensures k in after ==> ById(xs)[k] == after[k] {
        ByIdHolds(xs, k);
      }
    }
  }

  /** Two responses in turn are one response with their changes in order, whatever
      the second is, exactly when the first is consistent. */
  lemma ResponsesComposeIffConsistent(
    xs: seq<Instance>, a: seq<Change>, ys: seq<Instance>, order: seq<string>)
    requires Shows(ys, Updated(ById(xs), a), order)
    ensures (forall b :: Updated(ById(ys), b) == Updated(ById(xs), a + b)) <==> Consistent(a)
  {
    forall k | k in ById(xs) ensures ById(xs)[k].id == k {
      ByIdHolds(xs, k);
    }
    ReadBackIffConsistent(ById(xs), a, ys, order);
    if Consistent(a) {
      forall b ensures Updated(ById(ys), b) == Updated(ById(xs), a + b) {
        UpdatedConcat(ById(xs), a, b);
      }
    } else {
      assert a + [] == a && Updated(ById(ys), []) == ById(ys);
      assert Updated(ById(ys), []) != Updated(ById(xs), a + []);
    }
  }

  /** For consistent changes this is so of the snapshots themselves: two responses in
      turn leave the same sequence of instances as one with their changes in order,
      whatever orders the maps were iterated in. */
  lemma SnapshotsCompose(
    xs: seq<Instance>, a: seq<Change>, b: seq<Change>, ys: seq<Instance>, order: seq<string>,
    zs: seq<Instance>, order': seq<string>, all: seq<Instance>, order'': seq<string>)
    requires Consistent(a) && Consistent(a + b)
    requires Shows(ys, Updated(ById(xs), a), order) && Shows(zs, Updated(ById(ys), b), order')
    requires Shows(all, Updated(ById(xs), a + b), order'')
    ensures zs == all
  {
    var m := Updated(ById(xs), a + b);
    forall k | k in ById(xs) ensures ById(xs)[k].id == k {
      ByIdHolds(xs, k);
    }
    ReadBackIffConsistent(ById(xs), a, ys, order);
    UpdatedConcat(ById(xs), a, b);
    KeysMatchIffConsistent(ById(xs), a + b);
    ShowsLists(zs, m, order');
    ShowsLists(all, m, order'');
    ListingUnique(zs, all, m);
  }

  /** An inconsistent response: an instance put under another id survives the
      delete of that id once a snapshot has been taken in between. */
  lemma MismatchSurvivesDelete(x: Instance)
    requires x.id == "b"
    ensures var put, del := [Upsert("a", Some(x))], [Delete("a")];
            && Shows([x], Updated(map[], put), ["a"])
            && Updated(ById([x]), del) == map["b" := x]
            && Updated(map[], put + del) == map[]
  {
    var put, del := [Upsert("a", Some(x))], [Delete("a")];
    assert put[..0] == [] && del[..0] == [] && (put + del)[..1] == put;
    assert Updated(map[], put) == map["a" := x];
    assert ValuesOf(map["a" := x], ["a"]) == [x];
    assert [x][..0] == [];
  }

  // ---- The code ------------------------------------------------------------

  method Index(xs: seq<Instance>) returns (values: map<string, Instance>)
    ensures values == ById(xs)
  {
    values := map[];
    for i := 0 to |xs|
      invariant values == ById(xs[..i])
    {
      assert xs[..i + 1][..i] == xs[..i];
      values := values[xs[i].id := xs[i]];
    }
    assert xs[..|xs|] == xs;
  }

  method ApplyChanges(start: map<string, Instance>, changes: seq<Change>) returns (values: map<string, Instance>)
    ensures values == Updated(start, changes)
  {
    values := start;
    for i := 0 to |changes|
      invariant values == Updated(start, changes[..i])
    {
      assert changes[..i + 1][..i] == changes[..i];
      if changes[i].Delete? {
        values := values - {changes[i].id};
      } else if changes[i].instance.Some? {
        values := values[changes[i].id := changes[i].instance.value];
      }
    }
    assert changes[..|changes|] == changes;
  }

  /** The values of a map, in whatever order it is iterated. */
  method Collect(values: map<string, Instance>) returns (instances: seq<Instance>, ghost order: seq<string>)
    ensures Distinct(order) && (forall k :: k in order <==> k in values)
    ensures instances == ValuesOf(values, order)
  {
    instances, order := [], [];
    var rest := values.Keys;
    while rest != {}
      invariant Distinct(order) && rest <= values.Keys
      invariant forall k :: k in order <==> k in values && k !in rest
      invariant instances == ValuesOf(values, order)
      decreases rest
    {
      var k :| k in rest;
      instances, order := instances + [values[k]], order + [k];
      rest := rest - {k};
    }
  }

  /** Sorting by id; nothing is said about instances of the same id. */
  method SortById(instances: seq<Instance>) returns (xs: seq<Instance>)
    ensures Sorted(xs) && multiset(xs) == multiset(instances)
  {
    xs := [];
    for i := 0 to |instances|
      invariant Sorted(xs) && multiset(xs) == multiset(instances[..i])
    {
      var j := |xs|;
      while j > 0 && Less(instances[i].id, xs[j - 1].id)
        invariant 0 <= j <= |xs|
        invariant forall k :: j <= k < |xs| ==> Less(instances[i].id, xs[k].id)
      {
        j := j - 1;
      }
      InsertSorted(xs, j, instances[i]);
      InsertCounts(instances, i, xs, j);
      xs := xs[..j] + [instances[i]] + xs[j..];
    }
    assert instances[..|instances|] == instances;
  }

  lemma InsertCounts(instances: seq<Instance>, i: nat, xs: seq<Instance>, j: nat)
    requires i < |instances| && j <= |xs| && multiset(xs) == multiset(instances[..i])
    ensures multiset(xs[..j] + [instances[i]] + xs[j..]) == multiset(instances[..i + 1])
  {
    assert instances[..i + 1] == instances[..i] + [instances[i]];
    assert xs == xs[..j] + xs[j..];
  }

  lemma InsertSorted(xs: seq<Instance>, j: nat, x: Instance)
    requires Sorted(xs) && j <= |xs|
    requires j > 0 ==> !Less(x.id, xs[j - 1].id)
    requires forall k :: j <= k < |xs| ==> Less(x.id, xs[k].id)
    ensures Sorted(xs[..j] + [x] + xs[j..])
  {
    forall k | 0 <= k < j ensures !Less(x.id, xs[k].id) {
      LessIsOrder(x.id, xs[k].id, xs[j - 1].id);
      LessIsOrder(xs[j - 1].id, x.id, xs[k].id);
    }
    forall k | j <= k < |xs| ensures !Less(xs[k].id, x.id) {
      LessIsOrder(x.id, xs[k].id, x.id);
    }
  }
}
