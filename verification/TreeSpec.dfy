/**
 What tree/tree.go promises of `Build`, `Walk` and `Flatten`, on values: the
 parent relation of a flat list of records, when it has a cycle, and the
 depth-first listing of the forest it describes.
 */
module TreeSpec {
  import opened Common

  /** Follow parent links n times, if there are that many. */
  ghost function Up<K>(parents: map<K, K>, k: K, n: nat): Option<K> {
    if n == 0 then Some(k)
    else
      var below := Up(parents, k, n - 1);
      if below.Some? && below.value in parents then Some(parents[below.value]) else None
  }

  /** Some key is reached again from itself. */
  ghost predicate Cyclic<K(!new)>(parents: map<K, K>) {
    exists k, n: nat :: n >= 1 && Up(parents, k, n) == Some(k)
  }

  /** The chain of parents from a key comes to an end. */
  ghost predicate Ends<K>(parents: map<K, K>, k: K) {
    exists n: nat :: Up(parents, k, n).None?
  }

  lemma {:induction false} UpAdd<K>(parents: map<K, K>, k: K, m: nat, n: nat)
    ensures Up(parents, k, m + n) == if Up(parents, k, m).Some? then Up(parents, Up(parents, k, m).value, n) else None
  {
    if n > 0 {
      UpAdd(parents, k, m, n - 1);
      assert m + n - 1 == m + (n - 1);
    }
  }

  lemma {:induction false} UpRounds<K>(parents: map<K, K>, k: K, n: nat, rounds: nat)
    requires n >= 1 && Up(parents, k, n) == Some(k)
    ensures exists m: nat :: m >= rounds && Up(parents, k, m) == Some(k)
  {
    if rounds == 0 {
      assert Up(parents, k, 0) == Some(k);
    } else {
      UpRounds(parents, k, n, rounds - 1);
      var m: nat :| m >= rounds - 1 && Up(parents, k, m) == Some(k);
      UpAdd(parents, k, m, n);
      assert Up(parents, k, m + n) == Some(k);
    }
  }

  /** No key on a cycle has a chain that ends. */
  lemma CycleNeverEnds<K>(parents: map<K, K>, k: K, n: nat)
    requires n >= 1 && Up(parents, k, n) == Some(k)
    ensures !Ends(parents, k)
  {
    if e: nat :| Up(parents, k, e).None? {
      UpRounds(parents, k, n, e);
      var m: nat :| m >= e && Up(parents, k, m) == Some(k);
      UpAdd(parents, k, e, m - e);
      assert false;
    }
  }

  /** The chain from k has exactly d links. */
  ghost predicate EndsAfter<K>(parents: map<K, K>, k: K, d: nat) {
    Up(parents, k, d).Some? && Up(parents, k, d + 1).None?
  }

  /** The number of links from a key up to the end of its chain. */
  ghost function Depth<K>(parents: map<K, K>, k: K): (d: nat)
    requires Ends(parents, k)
    ensures EndsAfter(parents, k, d)
  {
    var n: nat :| Up(parents, k, n).None?;
    LastLink(parents, k, n);
    var d: nat :| EndsAfter(parents, k, d);
    d
  }

  lemma {:induction false} LastLink<K>(parents: map<K, K>, k: K, n: nat)
    requires Up(parents, k, n).None?
    ensures exists d: nat :: EndsAfter(parents, k, d)
  {
    assert n >= 1;
    if Up(parents, k, n - 1).Some? {
      assert EndsAfter(parents, k, n - 1);
    } else {
      LastLink(parents, k, n - 1);
    }
  }

  lemma DepthIsUnique<K>(parents: map<K, K>, k: K, d: nat)
    requires EndsAfter(parents, k, d)
    ensures Ends(parents, k) && Depth(parents, k) == d
  {
    var e := Depth(parents, k);
    NoneStays(parents, k, d + 1, e);
    NoneStays(parents, k, e + 1, d);
  }

  lemma NoneStays<K>(parents: map<K, K>, k: K, m: nat, n: nat)
    ensures Up(parents, k, m).None? && m <= n ==> Up(parents, k, n).None?
  {
    if m <= n {
      UpAdd(parents, k, m, n - m);
    }
  }

  /** n links up, n levels less deep. */
  lemma DepthUp<K>(parents: map<K, K>, k: K, n: nat)
    requires Ends(parents, k) && Up(parents, k, n).Some?
    ensures
      var a := Up(parents, k, n).value;
      Ends(parents, a) && Depth(parents, k) == Depth(parents, a) + n
  {
    var a, d := Up(parents, k, n).value, Depth(parents, k);
    NoneStays(parents, k, d + 1, n);
    UpAdd(parents, k, n, d - n);
    UpAdd(parents, k, n, d - n + 1);
    DepthIsUnique(parents, a, d - n);
  }

  lemma TakeOut<T>(s: seq<T>, i: nat)
    requires i < |s|
    ensures multiset(s) == multiset(s[..i] + s[i + 1..]) + multiset{s[i]}
  {
    assert s == s[..i] + [s[i]] + s[i + 1..];
  }

  lemma {:induction false} SameCounts<T(!new)>(a: seq<T>, b: seq<T>)
    requires forall x :: multiset(a)[x] == multiset(b)[x]
    ensures multiset(a) == multiset(b)
    decreases |a|
  {
    assert b != [] ==> b[0] in multiset(b);
    if a != [] {
      var x := a[0];
      assert multiset(b)[x] == multiset(a)[x];
      var i :| 0 <= i < |b| && b[i] == x;
      TakeOut(a, 0);
      TakeOut(b, i);
      assert a[..0] + a[1..] == a[1..];
      forall y ensures multiset(a[1..])[y] == multiset(b[..i] + b[i + 1..])[y] {
        assert multiset(a)[y] == multiset(b)[y];
      }
      SameCounts(a[1..], b[..i] + b[i + 1..]);
    }
  }

  lemma Regroup<T>(a: seq<T>, b: seq<T>, c: seq<T>, d: seq<T>, e: seq<T>)
    ensures a + (b + c + d) + e == (a + b) + c + (d + e)
  {
  }

  /** A flat list of records with the two accessors `Build` is given. */
  datatype Records<!T(==, !new), !K(==, !new)> = Records(items: seq<T>, id: T -> K, parent: T -> Option<K>) {

    predicate DistinctIds() {
      forall i, j :: 0 <= i < j < |items| ==> id(items[i]) != id(items[j])
    }

    predicate HasId(k: K) {
      exists i :: 0 <= i < |items| && id(items[i]) == k
    }

    predicate ParentsPresent() {
      forall i {:trigger parent(items[i])} :: 0 <= i < |items| && parent(items[i]).Some? ==>
          HasId(parent(items[i]).value)
    }

    /** The `parents` map of `hasCycle`, for the first n items. */
    function Links(n: nat): map<K, K>
      requires n <= |items|
    {
      if n == 0 then map[]
      else if parent(items[n - 1]).Some? then Links(n - 1)[id(items[n - 1]) := parent(items[n - 1]).value]
      else Links(n - 1)
    }

    function Parents(): map<K, K> {
      Links(|items|)
    }

    lemma {:induction false} LinksKeys(n: nat, k: K)
      requires n <= |items| && k in Links(n)
      ensures exists i :: 0 <= i < n && id(items[i]) == k
    {
      if !(parent(items[n - 1]).Some? && id(items[n - 1]) == k) {
        LinksKeys(n - 1, k);
      }
    }

    lemma {:induction false} LinksOf(n: nat, i: nat)
      requires n <= |items| && i < n && DistinctIds()
      ensures id(items[i]) in Links(n) <==> parent(items[i]).Some?
      ensures parent(items[i]).Some? ==> Links(n)[id(items[i])] == parent(items[i]).value
    {
      if i < n - 1 {
        LinksOf(n - 1, i);
      } else if id(items[i]) in Links(n - 1) {
        LinksKeys(n - 1, id(items[i]));
        assert false;
      }
    }

    ghost predicate AllEnd() {
      forall i :: 0 <= i < |items| ==> Ends(Parents(), id(items[i]))
    }

    /** A record list that describes a forest. */
    ghost predicate Sound() {
      DistinctIds() && ParentsPresent() && AllEnd()
    }

    /** The records with a given parent, in input order; `None` gives the roots. */
    function Group(p: Option<K>, n: nat): seq<T>
      requires n <= |items|
    {
      if n == 0 then [] else Group(p, n - 1) + (if parent(items[n - 1]) == p then [items[n - 1]] else [])
    }

    function Kids(p: Option<K>): seq<T> {
      Group(p, |items|)
    }

    /** A record followed by everything below it, `height` levels deep. */
    ghost function Block(x: T, height: nat): seq<T>
      decreases height, 1, 0
    {
      [x] + (if height == 0 then [] else Listing(Kids(Some(id(x))), height - 1))
    }

    /** The blocks of a list of siblings, one after the other. */
    ghost function Listing(xs: seq<T>, height: nat): seq<T>
      decreases height, 2, |xs|
    {
      if xs == [] then [] else Block(xs[0], height) + Listing(xs[1..], height)
    }

    // ---- Facts about the parent relation -----------------------------------

    lemma SameId(x: T, y: T)
      requires DistinctIds() && x in items && y in items && id(x) == id(y)
      ensures x == y
    {
    }

    ghost function At(x: T): nat
      requires AllEnd() && x in items
    {
      Depth(Parents(), id(x))
    }

    lemma {:induction false} GroupMember(p: Option<K>, n: nat, x: T)
      requires n <= |items|
      ensures x in Group(p, n) <==> x in items[..n] && parent(x) == p
    {
      if n > 0 {
        GroupMember(p, n - 1, x);
        assert items[..n] == items[..n - 1] + [items[n - 1]];
      }
    }

    lemma KidsMember(p: Option<K>, x: T)
      ensures x in Kids(p) <==> x in items && parent(x) == p
    {
      GroupMember(p, |items|, x);
      assert items[..|items|] == items;
    }

    lemma {:induction false} GroupDistinct(p: Option<K>, n: nat)
      requires n <= |items| && DistinctIds()
      ensures forall a, b :: 0 <= a < b < |Group(p, n)| ==> Group(p, n)[a] != Group(p, n)[b]
    {
      if n > 0 {
        GroupDistinct(p, n - 1);
        GroupMember(p, n - 1, items[n - 1]);
      }
    }

    /** Siblings appear in their group in input order. */
    lemma {:induction false} GroupSplit(p: Option<K>, n: nat, i: nat, j: nat) returns (a: seq<T>, b: seq<T>, c: seq<T>)
      requires i < j < n <= |items| && parent(items[i]) == parent(items[j]) == p
      ensures Group(p, n) == a + [items[i]] + b + [items[j]] + c
    {
      if j == n - 1 {
        var front, back := GroupSplitOne(p, n - 1, i);
        a, b, c := front, back, [];
      } else {
        a, b, c := GroupSplit(p, n - 1, i, j);
        c := c + (if parent(items[n - 1]) == p then [items[n - 1]] else []);
      }
    }

    lemma {:induction false} GroupSplitOne(p: Option<K>, n: nat, i: nat) returns (a: seq<T>, b: seq<T>)
      requires i < n <= |items| && parent(items[i]) == p
      ensures Group(p, n) == a + [items[i]] + b
    {
      if i == n - 1 {
        a, b := Group(p, n - 1), [];
      } else {
        a, b := GroupSplitOne(p, n - 1, i);
        b := b + (if parent(items[n - 1]) == p then [items[n - 1]] else []);
      }
    }

    /** The parent link of a record, and the record a key belongs to. */
    lemma LinkOf(x: T)
      requires DistinctIds() && x in items
      ensures id(x) in Parents() <==> parent(x).Some?
      ensures parent(x).Some? ==> Parents()[id(x)] == parent(x).value
    {
      var i :| 0 <= i < |items| && items[i] == x;
      LinksOf(|items|, i);
    }

    lemma KidDepth(x: T, c: T)
      requires Sound() && x in items && c in Kids(Some(id(x)))
      ensures c in items && At(c) == At(x) + 1
      ensures Up(Parents(), id(c), 1) == Some(id(x))
    {
      KidsMember(Some(id(x)), c);
      LinkOf(c);
      assert Up(Parents(), id(c), 0) == Some(id(c));
      DepthUp(Parents(), id(c), 1);
    }

    lemma RootDepth(x: T)
      requires Sound() && x in items
      ensures At(x) == 0 <==> parent(x).None?
    {
      LinkOf(x);
      assert Up(Parents(), id(x), 0) == Some(id(x));
      NoneStays(Parents(), id(x), 1, At(x));
    }

    ghost function MaxDepth(n: nat): (h: nat)
      requires n <= |items| && AllEnd()
      ensures forall i :: 0 <= i < n ==> At(items[i]) <= h
    {
      if n == 0 then 0
      else if At(items[n - 1]) > MaxDepth(n - 1) then At(items[n - 1]) else MaxDepth(n - 1)
    }

    ghost function Height(): (h: nat)
      requires AllEnd()
      ensures forall x :: x in items ==> At(x) <= h
    {
      MaxDepth(|items|)
    }

    /** y is x or lies somewhere below it. */
    ghost predicate Under(x: T, y: T) {
      exists n: nat :: Up(Parents(), id(y), n) == Some(id(x))
    }

    lemma UnderDepth(x: T, y: T)
      requires Sound() && x in items && y in items && Under(x, y)
      ensures At(x) <= At(y) && Up(Parents(), id(y), At(y) - At(x)) == Some(id(x))
    {
      var n: nat :| Up(Parents(), id(y), n) == Some(id(x));
      DepthUp(Parents(), id(y), n);
    }

    lemma UnderSelf(x: T)
      ensures Under(x, x)
    {
      assert Up(Parents(), id(x), 0) == Some(id(x));
    }

    /** Below a record means at it or below one of its children. */
    lemma UnderKids(x: T, y: T)
      requires Sound() && x in items && y in items
      ensures Under(x, y) <==> x == y || exists c :: c in Kids(Some(id(x))) && Under(c, y)
      ensures x == y ==> forall c :: c in Kids(Some(id(x))) ==> !Under(c, y)
    {
      if x == y {
        UnderSelf(x);
        forall c | c in Kids(Some(id(x))) ensures !Under(c, y) {
          KidDepth(x, c);
          if Under(c, y) {
            UnderDepth(c, y);
          }
        }
      } else if Under(x, y) {
        var n: nat :| Up(Parents(), id(y), n) == Some(id(x));
        if n == 0 {
          SameId(x, y);
        } else {
          var k := Up(Parents(), id(y), n - 1).value;
          LinksKeys(|items|, k);
          var i :| 0 <= i < |items| && id(items[i]) == k;
          LinkOf(items[i]);
          KidsMember(Some(id(x)), items[i]);
          assert Under(items[i], y);
        }
      }
      if c :| c in Kids(Some(id(x))) && Under(c, y) {
        KidDepth(x, c);
        var n: nat :| Up(Parents(), id(y), n) == Some(id(c));
        UpAdd(Parents(), id(y), n, 1);
        assert Up(Parents(), id(y), n + 1) == Some(id(x));
      }
    }

    /** Two records of the same depth have nothing below them in common. */
    lemma UnderOne(x: T, x': T, y: T)
      requires Sound() && x in items && x' in items && y in items
      requires At(x) == At(x') && Under(x, y) && Under(x', y)
      ensures x == x'
    {
      UnderDepth(x, y);
      UnderDepth(x', y);
      SameId(x, x');
    }

    /** Every record lies under exactly one root. */
    lemma HasRoot(y: T) returns (r: T)
      requires Sound() && y in items
      ensures r in Kids(None) && r in items && Under(r, y)
    {
      var d := At(y);
      var k := Up(Parents(), id(y), d).value;
      if d > 0 {
        var below := Up(Parents(), id(y), d - 1).value;
        LinksKeys(|items|, below);
        var j :| 0 <= j < |items| && id(items[j]) == below;
        LinkOf(items[j]);
      }
      assert HasId(k) by {
        if d == 0 {
          var j :| 0 <= j < |items| && items[j] == y;
          assert id(items[j]) == k;
        }
      }
      var i :| 0 <= i < |items| && id(items[i]) == k;
      r := items[i];
      LinkOf(r);
      KidsMember(None, r);
    }

    // ---- The listing -------------------------------------------------------

    /** Siblings at the level that `height` leaves room below for. */
    ghost predicate Level(xs: seq<T>, height: nat)
      requires AllEnd()
    {
      && height <= Height()
      && (forall x :: x in xs ==> x in items && At(x) == Height() - height)
      && (forall a, b :: 0 <= a < b < |xs| ==> xs[a] != xs[b])
    }

    lemma KidsLevel(x: T, height: nat)
      requires Sound() && x in items && At(x) == Height() - height && height > 0
      ensures Level(Kids(Some(id(x))), height - 1)
    {
      GroupDistinct(Some(id(x)), |items|);
      forall c | c in Kids(Some(id(x))) ensures c in items && At(c) == Height() - (height - 1) {
        KidDepth(x, c);
      }
    }

    lemma RootsLevel()
      requires Sound()
      ensures Level(Kids(None), Height())
    {
      GroupDistinct(None, |items|);
      forall x | x in Kids(None) ensures x in items && At(x) == 0 {
        KidsMember(None, x);
        RootDepth(x);
      }
    }

    lemma NoKids(x: T)
      requires Sound() && x in items && At(x) == Height()
      ensures Kids(Some(id(x))) == []
    {
      if Kids(Some(id(x))) != [] {
        KidDepth(x, Kids(Some(id(x)))[0]);
      }
    }

    /** A record occurs in the listing of some siblings once if it lies under one
        of them and not at all otherwise. */
    lemma {:induction false} ListingCount(xs: seq<T>, height: nat, y: T)
      requires Sound() && y in items && Level(xs, height)
      ensures multiset(Listing(xs, height))[y] == if exists x :: x in xs && Under(x, y) then 1 else 0
      decreases height, |xs|
    {
      if xs != [] {
        var x, rest := xs[0], xs[1..];
        BlockCount(x, height, y);
        ListingCount(rest, height, y);
        if Under(x, y) {
          forall x' | x' in rest ensures !Under(x', y) {
            if Under(x', y) {
              UnderOne(x, x', y);
            }
          }
        }
        assert forall z :: z in xs <==> z == x || z in rest;
      }
    }

    lemma {:induction false} BlockCount(x: T, height: nat, y: T)
      requires Sound() && x in items && y in items && height <= Height() && At(x) == Height() - height
      ensures multiset(Block(x, height))[y] == if Under(x, y) then 1 else 0
      decreases height, 0
    {
      UnderKids(x, y);
      if height == 0 {
        NoKids(x);
      } else {
        KidsLevel(x, height);
        ListingCount(Kids(Some(id(x))), height - 1, y);
      }
    }

    lemma {:induction false} ListingMembers(xs: seq<T>, height: nat, y: T)
      requires (forall x :: x in xs ==> x in items) && y in Listing(xs, height)
      ensures y in items
      decreases height, |xs|
    {
      if y in Block(xs[0], height) {
        if y != xs[0] {
          forall c | c in Kids(Some(id(xs[0]))) ensures c in items {
            KidsMember(Some(id(xs[0])), c);
          }
          ListingMembers(Kids(Some(id(xs[0]))), height - 1, y);
        }
      } else {
        ListingMembers(xs[1..], height, y);
      }
    }

    lemma {:induction false} ListingConcat(xs: seq<T>, ys: seq<T>, height: nat)
      ensures Listing(xs + ys, height) == Listing(xs, height) + Listing(ys, height)
      decreases |xs|
    {
      if xs == [] {
        assert xs + ys == ys;
      } else {
        assert (xs + ys)[1..] == xs[1..] + ys;
        ListingConcat(xs[1..], ys, height);
      }
    }

    /** The block of every record below some siblings stands in one piece in
        their listing. */
    lemma {:induction false} Segment(xs: seq<T>, height: nat, y: T) returns (a: seq<T>, b: seq<T>)
      requires Sound() && y in items && Level(xs, height) && exists x :: x in xs && Under(x, y)
      ensures Listing(xs, height) == a + Block(y, Height() - At(y)) + b
      decreases height, |xs|
    {
      var x, rest := xs[0], xs[1..];
      var block := Block(y, Height() - At(y));
      if Under(x, y) {
        UnderKids(x, y);
        if x == y {
          a, b := [], Listing(rest, height);
          assert [] + block == block;
        } else {
          if height == 0 {
            NoKids(x);
          }
          KidsLevel(x, height);
          var front, back := Segment(Kids(Some(id(x))), height - 1, y);
          a, b := [x] + front, back + Listing(rest, height);
          Regroup([x], front, block, back, Listing(rest, height));
        }
      } else {
        assert forall z :: z in xs <==> z == x || z in rest;
        var front, back := Segment(rest, height, y);
        a, b := Block(x, height) + front, back;
        Regroup(Block(x, height), front, block, back, []);
        assert Listing(rest, height) + [] == Listing(rest, height) && back + [] == back;
        assert Block(x, height) + Listing(rest, height) + [] == Listing(xs, height);
      }
    }

    // ---- Main results ------------------------------------------------------

    /** The depth-first listing of the whole forest. */
    ghost function Forest(): seq<T>
      requires AllEnd()
    {
      Listing(Kids(None), Height())
    }

    lemma ForestCount(y: T)
      requires Sound()
      ensures multiset(Forest())[y] == multiset(items)[y]
    {
      RootsLevel();
      if y in items {
        var r := HasRoot(y);
        ListingCount(Kids(None), Height(), y);
        ItemOnce(y);
      } else if y in Forest() {
        forall x | x in Kids(None) ensures x in items {
          KidsMember(None, x);
        }
        ListingMembers(Kids(None), Height(), y);
      } else {
        assert y !in multiset(Forest()) && y !in multiset(items);
      }
    }

    /** The listing is a permutation of the input. */
    lemma ForestIsPermutation()
      requires Sound()
      ensures multiset(Forest()) == multiset(items)
    {
      forall y ensures multiset(Forest())[y] == multiset(items)[y] {
        ForestCount(y);
      }
      SameCounts(Forest(), items);
    }

    lemma ItemOnce(y: T)
      requires DistinctIds() && y in items
      ensures multiset(items)[y] == 1
    {
      var i :| 0 <= i < |items| && items[i] == y;
      assert items == items[..i] + [y] + items[i + 1..];
      assert y !in items[..i] && y !in items[i + 1..];
    }

    /** Where a block sits in a longer listing, its members keep their order. */
    lemma BeforeInside(a: seq<T>, s: seq<T>, b: seq<T>, x: T, y: T)
      requires Before(s, x, y)
      ensures Before(a + s + b, x, y)
    {
      var i, j :| 0 <= i < j < |s| && s[i] == x && s[j] == y;
      assert (a + s + b)[|a| + i] == x && (a + s + b)[|a| + j] == y;
    }

    lemma BeforeAcross(s: seq<T>, t: seq<T>, x: T, y: T)
      requires x in s && y in t
      ensures Before(s + t, x, y)
    {
      var i :| 0 <= i < |s| && s[i] == x;
      var j :| 0 <= j < |t| && t[j] == y;
      assert (s + t)[i] == x && (s + t)[|s| + j] == y;
    }

    lemma UnderInBlock(x: T, height: nat, y: T)
      requires Sound() && x in items && y in items && Under(x, y)
      requires height <= Height() && At(x) == Height() - height
      ensures y in Block(x, height)
    {
      BlockCount(x, height, y);
      assert multiset(Block(x, height))[y] == 1;
    }

    /** Every record stands before everything beneath it. */
    lemma AncestorFirst(x: T, y: T)
      requires Sound() && x in items && y in items && Under(x, y) && x != y
      ensures Before(Forest(), x, y)
    {
      RootsLevel();
      var r := HasRoot(x);
      var a, b := Segment(Kids(None), Height(), x);
      UnderInBlock(x, Height() - At(x), y);
      var block := Block(x, Height() - At(x));
      assert block == [x] + block[1..];
      BeforeAcross([x], block[1..], x, y);
      BeforeInside(a, block, b, x, y);
    }

    /** In particular, after its parent. */
    lemma ParentFirst(x: T, c: T)
      requires Sound() && x in items && c in items && parent(c) == Some(id(x))
      ensures Before(Forest(), x, c)
    {
      KidsMember(Some(id(x)), c);
      KidDepth(x, c);
      UnderKids(x, c);
      UnderSelf(c);
      AncestorFirst(x, c);
    }

    lemma InListing(xs: seq<T>, x: T, ys: seq<T>, height: nat, y: T)
      requires y in Block(x, height)
      ensures y in Listing(xs + [x] + ys, height)
    {
      ListingConcat(xs + [x], ys, height);
      ListingConcat(xs, [x], height);
      assert Listing([x], height) == Block(x, height);
    }

    /** In the listing of a group, what lies under an earlier sibling stands
        before what lies under a later one. */
    lemma SiblingsApart(xs: seq<T>, ys: seq<T>, zs: seq<T>, x: T, x': T, y: T, y': T, height: nat)
      requires y in Block(x, height) && y' in Block(x', height)
      ensures Before(Listing(xs + [x] + ys + [x'] + zs, height), y, y')
    {
      var front := xs + [x] + ys;
      InListing(xs, x, ys, height, y);
      InListing([], x', zs, height, y');
      assert [] + [x'] + zs == [x'] + zs;
      ListingConcat(front, [x'] + zs, height);
      BeforeAcross(Listing(front, height), Listing([x'] + zs, height), y, y');
      assert front + ([x'] + zs) == front + [x'] + zs;
    }

    lemma KidsApart(p: Option<K>, i: nat, j: nat, height: nat, y: T, y': T)
      requires i < j < |items| && parent(items[i]) == parent(items[j]) == p
      requires y in Block(items[i], height) && y' in Block(items[j], height)
      ensures Before(Listing(Kids(p), height), y, y')
    {
      var xs, ys, zs := GroupSplit(p, |items|, i, j);
      SiblingsApart(xs, ys, zs, items[i], items[j], y, y', height);
    }

    /** The order among the children of a record is the order in the forest. */
    lemma OrderBelow(top: T, y: T, y': T)
      requires Sound() && top in items && At(top) < Height()
      requires Before(Listing(Kids(Some(id(top))), Height() - At(top) - 1), y, y')
      ensures Before(Forest(), y, y')
    {
      var h := Height() - At(top) - 1;
      RootsLevel();
      var r := HasRoot(top);
      var a, b := Segment(Kids(None), Height(), top);
      BeforeInside([top], Listing(Kids(Some(id(top))), h), [], y, y');
      assert [top] + Listing(Kids(Some(id(top))), h) + [] == Block(top, h + 1);
      BeforeInside(a, Block(top, h + 1), b, y, y');
    }

    lemma OrderUnder(k: nat, i: nat, j: nat, y: T, y': T)
      requires Sound() && k < |items| && i < j < |items|
      requires parent(items[i]) == parent(items[j]) == Some(id(items[k]))
      requires y in items && y' in items && Under(items[i], y) && Under(items[j], y')
      ensures Before(Forest(), y, y')
    {
      var p := Some(id(items[k]));
      KidsMember(p, items[i]);
      KidsMember(p, items[j]);
      KidDepth(items[k], items[i]);
      KidDepth(items[k], items[j]);
      var h := Height() - At(items[k]) - 1;
      UnderInBlock(items[i], h, y);
      UnderInBlock(items[j], h, y');
      KidsApart(p, i, j, h, y, y');
      OrderBelow(items[k], y, y');
    }

    lemma OrderOfRoots(i: nat, j: nat, y: T, y': T)
      requires Sound() && i < j < |items| && parent(items[i]).None? && parent(items[j]).None?
      requires y in items && y' in items && Under(items[i], y) && Under(items[j], y')
      ensures Before(Forest(), y, y')
    {
      RootDepth(items[i]);
      RootDepth(items[j]);
      UnderInBlock(items[i], Height(), y);
      UnderInBlock(items[j], Height(), y');
      KidsApart(None, i, j, Height(), y, y');
    }

    /** Roots and siblings keep their input order, each with everything below it. */
    lemma SiblingsInOrder(i: nat, j: nat, y: T, y': T)
      requires Sound() && i < j < |items| && parent(items[i]) == parent(items[j])
      requires y in items && y' in items && Under(items[i], y) && Under(items[j], y')
      ensures Before(Forest(), y, y')
    {
      if parent(items[i]).None? {
        OrderOfRoots(i, j, y, y');
      } else {
        assert HasId(parent(items[i]).value);
        var k :| 0 <= k < |items| && id(items[k]) == parent(items[i]).value;
        OrderUnder(k, i, j, y, y');
      }
    }
  }

  /** a stands before b. */
  ghost predicate Before<T>(s: seq<T>, a: T, b: T) {
    exists i, j :: 0 <= i < j < |s| && s[i] == a && s[j] == b
  }
}
