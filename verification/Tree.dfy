/**
 tree/tree.go as it runs: `Build` fills a map of heap nodes and appends to their
 child lists in place, `hasCycle` follows parent links with a growing set of
 visited keys, `Walk` recurses over the nodes and `Flatten` collects.
 */
module Tree {
  import opened Common
  import opened TreeSpec

  datatype Error = DuplicateId | MissingParent | CycleFound

  datatype Result<+T> = Ok(value: T) | Err(error: Error)

  class Node<T> {
    const value: T
    var children: seq<Node<T>>

    constructor (value: T)
      ensures this.value == value && children == []
    {
      this.value, children := value, [];
    }
  }

  // ---- hasCycle ------------------------------------------------------------

  /** `hasCycle` terminates on every input, and finds a cycle exactly when the
      parent relation has one. */
  method HasCycle<T(==, !new), K(==, !new)>(r: Records<T, K>) returns (cyclic: bool)
    ensures cyclic <==> Cyclic(r.Parents())
    ensures !cyclic ==> r.AllEnd()
  {
    var parents: map<K, K> := map[];
    for i := 0 to |r.items|
      invariant parents == r.Links(i)
    {
      if r.parent(r.items[i]).Some? {
        parents := parents[r.id(r.items[i]) := r.parent(r.items[i]).value];
      }
    }
    for i := 0 to |r.items|
      invariant forall j :: 0 <= j < i ==> Ends(parents, r.id(r.items[j]))
    {
      var seen: set<K> := {};
      var start := r.id(r.items[i]);
      var current := start;
      ghost var n: nat := 0;
      while true
        invariant Up(parents, start, n) == Some(current)
        invariant seen <= parents.Keys
        invariant forall x :: x in seen ==> exists m: nat :: m < n && Up(parents, start, m) == Some(x)
        decreases parents.Keys - seen
      {
        if current in seen {
          ghost var m: nat :| m < n && Up(parents, start, m) == Some(current);
          UpAdd(parents, start, m, n - m);
          assert Up(parents, current, n - m) == Some(current);
          return true;
        }
        seen := seen + {current};
        if current !in parents {
          assert Up(parents, start, n + 1).None?;
          break;
        }
        current := parents[current];
        n := n + 1;
      }
    }
    cyclic := false;
    AllEndNoCycle(r);
  }

  lemma AllEndNoCycle<T(!new), K(!new)>(r: Records<T, K>)
    requires r.AllEnd()
    ensures !Cyclic(r.Parents())
  {
    if k: K, n: nat :| n >= 1 && Up(r.Parents(), k, n) == Some(k) {
      CycleNeverEnds(r.Parents(), k, n);
      NoneStays(r.Parents(), k, 1, n);
      assert Up(r.Parents(), k, 0) == Some(k);
      r.LinksKeys(|r.items|, k);
    }
  }

  // ---- Build ---------------------------------------------------------------

  ghost predicate HasNodes<T, K>(nodes: map<K, Node<T>>, id: T -> K, xs: seq<T>) {
    forall i :: 0 <= i < |xs| ==> id(xs[i]) in nodes
  }

  /** The nodes of a list of records. */
  ghost function NodesOf<T, K>(nodes: map<K, Node<T>>, id: T -> K, xs: seq<T>): seq<Node<T>>
    requires HasNodes(nodes, id, xs)
  {
    seq(|xs|, i requires 0 <= i < |xs| => nodes[id(xs[i])])
  }

  /** One node for each of the first n records, holding it. */
  ghost predicate Holds<T(!new), K(!new)>(r: Records<T, K>, nodes: map<K, Node<T>>, n: nat)
    requires n <= |r.items|
  {
    && (forall i :: 0 <= i < n ==> r.id(r.items[i]) in nodes && nodes[r.id(r.items[i])].value == r.items[i])
    && (forall k :: k in nodes ==> exists i :: 0 <= i < n && r.id(r.items[i]) == k)
  }

  lemma {:induction false} GroupHasNodes<T(!new), K(!new)>(
    r: Records<T, K>, nodes: map<K, Node<T>>, p: Option<K>, n: nat)
    requires n <= |r.items| && Holds(r, nodes, |r.items|)
    ensures HasNodes(nodes, r.id, r.Group(p, n))
  {
    if n > 0 {
      GroupHasNodes(r, nodes, p, n - 1);
    }
  }

  /** Every node's children are the nodes of its record's children so far, in order. */
  ghost predicate LinkedUpTo<T(!new), K(!new)>(r: Records<T, K>, nodes: map<K, Node<T>>, n: nat)
    requires n <= |r.items|
    reads nodes.Values
  {
    && Holds(r, nodes, |r.items|)
    && forall k {:trigger r.Group(Some(k), n)} :: k in nodes ==>
         && HasNodes(nodes, r.id, r.Group(Some(k), n))
         && nodes[k].children == NodesOf(nodes, r.id, r.Group(Some(k), n))
  }

  /** The first loop of `Build`. */
  method MakeNodes<T(==, !new), K(==, !new)>(r: Records<T, K>) returns (nodes: map<K, Node<T>>, duplicate: bool)
    ensures duplicate <==> !r.DistinctIds()
    ensures !duplicate ==> Holds(r, nodes, |r.items|)
    ensures !duplicate ==> forall k :: k in nodes ==> fresh(nodes[k]) && nodes[k].children == []
  {
    nodes := map[];
    for i := 0 to |r.items|
      invariant forall a, b :: 0 <= a < b < i ==> r.id(r.items[a]) != r.id(r.items[b])
      invariant Holds(r, nodes, i)
      invariant forall k :: k in nodes ==> fresh(nodes[k]) && nodes[k].children == []
    {
      var key := r.id(r.items[i]);
      if key in nodes {
        return nodes, true;
      }
      var node := new Node(r.items[i]);
      nodes := nodes[key := node];
    }
    duplicate := false;
  }

  /** Appending one record to its parent's children. */
  method LinkOne<T(==, !new), K(==, !new)>(r: Records<T, K>, nodes: map<K, Node<T>>, i: nat)
    requires i < |r.items| && LinkedUpTo(r, nodes, i)
    requires r.parent(r.items[i]).Some? && r.parent(r.items[i]).value in nodes
    modifies nodes.Values
    ensures LinkedUpTo(r, nodes, i + 1)
  {
    var item := r.items[i];
    var parent := nodes[r.parent(item).value];
    GroupsExtend(r, nodes, i);
    parent.children := parent.children + [nodes[r.id(item)]];
    forall k | k in nodes
      ensures HasNodes(nodes, r.id, r.Group(Some(k), i + 1))
      ensures nodes[k].children == NodesOf(nodes, r.id, r.Group(Some(k), i + 1))
    {
      SameNodeSameKey(r, nodes, k, r.parent(item).value);
    }
  }

  lemma SameNodeSameKey<T(!new), K(!new)>(r: Records<T, K>, nodes: map<K, Node<T>>, k: K, k': K)
    requires Holds(r, nodes, |r.items|) && k in nodes && k' in nodes
    ensures nodes[k] == nodes[k'] ==> k == k'
  {
    var i :| 0 <= i < |r.items| && r.id(r.items[i]) == k;
    var j :| 0 <= j < |r.items| && r.id(r.items[j]) == k';
    assert nodes[k].value == r.items[i] && nodes[k'].value == r.items[j];
  }

  lemma GroupsExtend<T(!new), K(!new)>(r: Records<T, K>, nodes: map<K, Node<T>>, i: nat)
    requires i < |r.items| && Holds(r, nodes, |r.items|)
    ensures forall p {:trigger r.Group(p, i)} {:trigger r.Group(p, i + 1)} ::
              && HasNodes(nodes, r.id, r.Group(p, i)) && HasNodes(nodes, r.id, r.Group(p, i + 1))
              && NodesOf(nodes, r.id, r.Group(p, i + 1)) ==
                 NodesOf(nodes, r.id, r.Group(p, i)) +
                     (if r.parent(r.items[i]) == p then [nodes[r.id(r.items[i])]] else [])
  {
    forall p
      ensures HasNodes(nodes, r.id, r.Group(p, i)) && HasNodes(nodes, r.id, r.Group(p, i + 1))
      ensures NodesOf(nodes, r.id, r.Group(p, i + 1)) ==
              NodesOf(nodes, r.id, r.Group(p, i)) +
                  (if r.parent(r.items[i]) == p then [nodes[r.id(r.items[i])]] else [])
    {
      GroupHasNodes(r, nodes, p, i);
      GroupHasNodes(r, nodes, p, i + 1);
    }
  }

  lemma LinkRoot<T(!new), K(!new)>(r: Records<T, K>, nodes: map<K, Node<T>>, i: nat)
    requires i < |r.items| && LinkedUpTo(r, nodes, i) && r.parent(r.items[i]).None?
    ensures LinkedUpTo(r, nodes, i + 1)
  {
    GroupsExtend(r, nodes, i);
  }

  lemma MissingKey<T(!new), K(!new)>(r: Records<T, K>, nodes: map<K, Node<T>>, i: nat)
    requires i < |r.items| && Holds(r, nodes, |r.items|) && r.parent(r.items[i]).Some?
    ensures r.HasId(r.parent(r.items[i]).value) <==> r.parent(r.items[i]).value in nodes
  {
  }

  lemma RootsNext<T(!new), K(!new)>(r: Records<T, K>, nodes: map<K, Node<T>>, i: nat)
    requires i < |r.items| && Holds(r, nodes, |r.items|)
    ensures HasNodes(nodes, r.id, r.Group(None, i)) && HasNodes(nodes, r.id, r.Group(None, i + 1))
    ensures NodesOf(nodes, r.id, r.Group(None, i + 1)) ==
            NodesOf(nodes, r.id, r.Group(None, i)) +
                (if r.parent(r.items[i]).None? then [nodes[r.id(r.items[i])]] else [])
  {
    GroupsExtend(r, nodes, i);
  }

  /** One round of the second loop: the roots grow, or the parent's children do. */
  method LinkStep<T(==, !new), K(==, !new)>(r: Records<T, K>, nodes: map<K, Node<T>>, i: nat, roots: seq<Node<T>>)
    returns (roots': seq<Node<T>>, missing: bool)
    requires i < |r.items| && LinkedUpTo(r, nodes, i)
    requires HasNodes(nodes, r.id, r.Group(None, i)) && roots == NodesOf(nodes, r.id, r.Group(None, i))
    modifies nodes.Values
    ensures missing <==> MissingAt(r, i)
    ensures !missing ==> LinkedUpTo(r, nodes, i + 1)
    ensures !missing ==> && HasNodes(nodes, r.id, r.Group(None, i + 1))
                         && roots' == NodesOf(nodes, r.id, r.Group(None, i + 1))
  {
    roots', missing := roots, false;
    RootsNext(r, nodes, i);
    if r.parent(r.items[i]).None? {
      LinkRoot(r, nodes, i);
      roots' := roots + [nodes[r.id(r.items[i])]];
    } else {
      MissingKey(r, nodes, i);
      if r.parent(r.items[i]).value !in nodes {
        missing := true;
      } else {
        LinkOne(r, nodes, i);
      }
    }
  }

  lemma LinkedStart<T(!new), K(!new)>(r: Records<T, K>, nodes: map<K, Node<T>>)
    requires Holds(r, nodes, |r.items|) && forall k :: k in nodes ==> nodes[k].children == []
    ensures LinkedUpTo(r, nodes, 0)
  {
    forall k | k in nodes
      ensures HasNodes(nodes, r.id, r.Group(Some(k), 0))
      ensures nodes[k].children == NodesOf(nodes, r.id, r.Group(Some(k), 0))
    {
      assert r.Group(Some(k), 0) == [];
    }
  }

  ghost predicate MissingAt<T(!new), K(!new)>(r: Records<T, K>, i: nat) {
    i < |r.items| && r.parent(r.items[i]).Some? && !r.HasId(r.parent(r.items[i]).value)
  }

  lemma NoneMissing<T(!new), K(!new)>(r: Records<T, K>)
    ensures r.ParentsPresent() <==> forall i :: 0 <= i < |r.items| ==> !MissingAt(r, i)
  {
    if !r.ParentsPresent() {
      var i :| 0 <= i < |r.items| && r.parent(r.items[i]).Some? && !r.HasId(r.parent(r.items[i]).value);
      assert MissingAt(r, i);
    }
  }

  /** The second loop of `Build`. */
  method LinkNodes<T(==, !new), K(==, !new)>(r: Records<T, K>, nodes: map<K, Node<T>>)
    returns (roots: seq<Node<T>>, missing: bool, ghost at: nat)
    requires Holds(r, nodes, |r.items|) && forall k :: k in nodes ==> nodes[k].children == []
    modifies nodes.Values
    ensures if missing then MissingAt(r, at) else forall i :: 0 <= i < |r.items| ==> !MissingAt(r, i)
    ensures !missing ==> LinkedUpTo(r, nodes, |r.items|)
    ensures !missing ==> HasNodes(nodes, r.id, r.Kids(None)) && roots == NodesOf(nodes, r.id, r.Kids(None))
  {
    roots, missing, at := [], false, 0;
    LinkedStart(r, nodes);
    var i := 0;
    while i < |r.items|
      invariant 0 <= i <= |r.items| && !missing
      invariant LinkedUpTo(r, nodes, i)
      invariant HasNodes(nodes, r.id, r.Group(None, i)) && roots == NodesOf(nodes, r.id, r.Group(None, i))
      invariant forall j :: 0 <= j < i ==> !MissingAt(r, j)
    {
      roots, missing := LinkStep(r, nodes, i, roots);
      if missing {
        at := i;
        return;
      }
      i := i + 1;
    }
  }

  /** `Build`. The outcome is decided by the input alone: duplicate ids first,
      then a missing parent, then a cycle; otherwise the nodes of the roots, in
      input order, each node linked to the nodes of its children in input order. */
  method Build<T(==, !new), K(==, !new)>(r: Records<T, K>)
    returns (result: Result<seq<Node<T>>>, ghost nodes: map<K, Node<T>>)
    ensures result == Err(DuplicateId) <==> !r.DistinctIds()
    ensures result == Err(MissingParent) <==> r.DistinctIds() && !r.ParentsPresent()
    ensures result == Err(CycleFound) <==> r.DistinctIds() && r.ParentsPresent() && Cyclic(r.Parents())
    ensures result.Ok? ==> r.Sound() && LinkedUpTo(r, nodes, |r.items|)
    ensures result.Ok? ==> HasNodes(nodes, r.id, r.Kids(None)) && result.value == NodesOf(nodes, r.id, r.Kids(None))
    ensures result.Ok? ==> forall k :: k in nodes ==> fresh(nodes[k])
  {
    var made, duplicate := MakeNodes(r);
    nodes := made;
    if duplicate {
      return Err(DuplicateId), nodes;
    }
    var roots, missing, at := LinkNodes(r, made);
    NoneMissing(r);
    if missing {
      return Err(MissingParent), nodes;
    }
    var cyclic := HasCycle(r);
    if cyclic {
      return Err(CycleFound), nodes;
    }
    result := Ok(roots);
  }

  // ---- Walk and Flatten ----------------------------------------------------

  /** The nodes of a forest are in `repr` and at most `depth` deep, so that a walk
      over them ends. */
  ghost predicate Shallow<T>(forest: seq<Node<T>>, repr: set<Node<T>>, depth: nat)
    reads repr
    decreases depth
  {
    forall i :: 0 <= i < |forest| ==> forest[i] in repr && depth > 0 && Shallow(forest[i].children, repr, depth - 1)
  }

  /** The values a depth-first walk hands to `visit`. A false answer ends the
      list of siblings it was given in, and nothing else. */
  ghost function Visited<T>(forest: seq<Node<T>>, repr: set<Node<T>>, depth: nat, visit: T -> bool): seq<T>
    requires Shallow(forest, repr, depth)
    reads repr
    decreases depth, |forest|
  {
    if forest == [] then []
    else if !visit(forest[0].value) then [forest[0].value]
    else
      [forest[0].value] + Visited(forest[0].children, repr, depth - 1, visit) + Visited(forest[1..], repr, depth, visit)
  }

  /** The values of a forest, each node before its children's. */
  ghost function Preorder<T>(forest: seq<Node<T>>, repr: set<Node<T>>, depth: nat): seq<T>
    requires Shallow(forest, repr, depth)
    reads repr
    decreases depth, |forest|
  {
    if forest == [] then []
    else [forest[0].value] + Preorder(forest[0].children, repr, depth - 1) + Preorder(forest[1..], repr, depth)
  }

  /** A visitor that always goes on sees everything. */
  lemma {:induction false} VisitedAll<T(!new)>(forest: seq<Node<T>>, repr: set<Node<T>>, depth: nat, visit: T -> bool)
    requires Shallow(forest, repr, depth)
    requires forall v :: visit(v)
    ensures Visited(forest, repr, depth, visit) == Preorder(forest, repr, depth)
    decreases depth, |forest|
  {
    if forest != [] {
      VisitedAll(forest[0].children, repr, depth - 1, visit);
      VisitedAll(forest[1..], repr, depth, visit);
    }
  }

  lemma Reassociate<T>(a: seq<T>, b: seq<T>, c: seq<T>, d: seq<T>)
    ensures a + (b + c + d) == a + b + c + d
  {
  }

  method Walk<T>(forest: seq<Node<T>>, visit: T -> bool, ghost repr: set<Node<T>>, ghost depth: nat)
    returns (visited: seq<T>)
    requires Shallow(forest, repr, depth)
    ensures visited == Visited(forest, repr, depth, visit)
    decreases depth
  {
    visited := [];
    for i := 0 to |forest|
      invariant visited + Visited(forest[i..], repr, depth, visit) == Visited(forest, repr, depth, visit)
    {
      var node := forest[i];
      assert forest[i..][0] == node && forest[i..][1..] == forest[i + 1..];
      visited := visited + [node.value];
      if !visit(node.value) {
        return;
      }
      var below := Walk(node.children, visit, repr, depth - 1);
      Reassociate(visited[..|visited| - 1], [node.value], below, Visited(forest[i + 1..], repr, depth, visit));
      visited := visited + below;
    }
  }

  method Flatten<T(!new)>(forest: seq<Node<T>>, ghost repr: set<Node<T>>, ghost depth: nat) returns (values: seq<T>)
    requires Shallow(forest, repr, depth)
    ensures values == Preorder(forest, repr, depth)
  {
    var visit := (_: T) => true;
    VisitedAll(forest, repr, depth, visit);
    values := Walk(forest, visit, repr, depth);
  }

  // ---- Flatten after Build -------------------------------------------------

  /** The nodes hold the records xs, and their children mirror the records'. */
  ghost predicate Mirrors<T(!new), K(!new)>(
    r: Records<T, K>, forest: seq<Node<T>>, xs: seq<T>, repr: set<Node<T>>, height: nat)
    reads repr
    decreases height
  {
    && |forest| == |xs|
    && forall i :: 0 <= i < |forest| ==>
         && forest[i] in repr && forest[i].value == xs[i]
         && if height == 0 then forest[i].children == []
            else Mirrors(r, forest[i].children, r.Kids(Some(r.id(xs[i]))), repr, height - 1)
  }

  lemma {:induction false} MirrorIsShallow<T(!new), K(!new)>(
      r: Records<T, K>, forest: seq<Node<T>>, xs: seq<T>, repr: set<Node<T>>, height: nat)
    requires Mirrors(r, forest, xs, repr, height)
    ensures Shallow(forest, repr, height + 1)
    decreases height
  {
    if height > 0 {
      forall i | 0 <= i < |forest| ensures Shallow(forest[i].children, repr, height) {
        MirrorIsShallow(r, forest[i].children, r.Kids(Some(r.id(xs[i]))), repr, height - 1);
      }
    }
  }

  /** Nodes that mirror records list them in the order of their listing. */
  lemma {:induction false} PreorderIsListing<T(!new), K(!new)>(
      r: Records<T, K>, forest: seq<Node<T>>, xs: seq<T>, repr: set<Node<T>>, height: nat)
    requires Mirrors(r, forest, xs, repr, height) && Shallow(forest, repr, height + 1)
    ensures Preorder(forest, repr, height + 1) == r.Listing(xs, height)
    decreases height, |xs|
  {
    if xs != [] {
      PreorderIsListing(r, forest[1..], xs[1..], repr, height);
      if height > 0 {
        PreorderIsListing(r, forest[0].children, r.Kids(Some(r.id(xs[0]))), repr, height - 1);
      }
    }
  }

  lemma ChildrenOf<T(!new), K(!new)>(r: Records<T, K>, nodes: map<K, Node<T>>, x: T)
    requires LinkedUpTo(r, nodes, |r.items|) && x in r.items
    ensures r.id(x) in nodes && nodes[r.id(x)].value == x && HasNodes(nodes, r.id, r.Kids(Some(r.id(x))))
    ensures nodes[r.id(x)].children == NodesOf(nodes, r.id, r.Kids(Some(r.id(x))))
  {
    assert r.Kids(Some(r.id(x))) == r.Group(Some(r.id(x)), |r.items|);
  }

  /** The nodes `Build` links mirror the records, level by level. */
  lemma {:induction false} BuiltMirrors<T(!new), K(!new)>(
    r: Records<T, K>, nodes: map<K, Node<T>>, xs: seq<T>, height: nat)
    requires r.Sound() && LinkedUpTo(r, nodes, |r.items|) && r.Level(xs, height) && HasNodes(nodes, r.id, xs)
    ensures Mirrors(r, NodesOf(nodes, r.id, xs), xs, nodes.Values, height)
    decreases height
  {
    forall i | 0 <= i < |xs|
      ensures
        var node := nodes[r.id(xs[i])];
        && node.value == xs[i]
        && if height == 0 then node.children == []
           else Mirrors(r, node.children, r.Kids(Some(r.id(xs[i]))), nodes.Values, height - 1)
    {
      ChildrenOf(r, nodes, xs[i]);
      if height == 0 {
        r.NoKids(xs[i]);
      } else {
        r.KidsLevel(xs[i], height);
        BuiltMirrors(r, nodes, r.Kids(Some(r.id(xs[i]))), height - 1);
      }
    }
  }

  /** `Flatten` after `Build`: when the input describes a forest the values come
      back as its depth-first listing, which `ForestIsPermutation`, `ParentFirst`
      and `SiblingsInOrder` speak about. */
  method BuildAndFlatten<T(==, !new), K(==, !new)>(r: Records<T, K>) returns (result: Result<seq<T>>)
    ensures result.Ok? <==> r.DistinctIds() && r.ParentsPresent() && !Cyclic(r.Parents())
    ensures result.Ok? ==> r.Sound() && result.value == r.Forest()
  {
    var forest, nodes := Build(r);
    if forest.Err? {
      match forest.error {
        case DuplicateId =>
        case MissingParent =>
        case CycleFound =>
      }
      return Err(forest.error);
    }
    AllEndNoCycle(r);
    BuiltListing(r, nodes);
    var values := Flatten(forest.value, nodes.Values, r.Height() + 1);
    result := Ok(values);
  }

  lemma BuiltListing<T(!new), K(!new)>(r: Records<T, K>, nodes: map<K, Node<T>>)
    requires r.Sound() && LinkedUpTo(r, nodes, |r.items|) && HasNodes(nodes, r.id, r.Kids(None))
    ensures
      var roots := NodesOf(nodes, r.id, r.Kids(None));
      && Shallow(roots, nodes.Values, r.Height() + 1)
      && Preorder(roots, nodes.Values, r.Height() + 1) == r.Forest()
  {
    var roots := NodesOf(nodes, r.id, r.Kids(None));
    r.RootsLevel();
    BuiltMirrors(r, nodes, r.Kids(None), r.Height());
    MirrorIsShallow(r, roots, r.Kids(None), nodes.Values, r.Height());
    PreorderIsListing(r, roots, r.Kids(None), nodes.Values, r.Height());
  }
}
