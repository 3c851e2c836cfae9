/** (parent, child) dependencies as bindings/python/topsort.py keeps them: counts of
    predecessors and lists of successors, with cycles and predecessor chains. */
module Dependencies {
  import opened Common

  // Anything hashable.
  type Elem(==, !new)
  type Pair = (Elem, Elem)

  function Elements(pairs: seq<Pair>): set<Elem> {
    if pairs == [] then {} else Elements(pairs[..|pairs|-1]) + {pairs[|pairs|-1].0, pairs[|pairs|-1].1}
  }

  // How often x is a child of a parent outside `done`.
  function Incoming(pairs: seq<Pair>, x: Elem, done: set<Elem>): nat {
    if pairs == [] then 0
    else
      var l := pairs[|pairs|-1];
      Incoming(pairs[..|pairs|-1], x, done) + if l.1 == x && l.0 !in done then 1 else 0
  }

  // The children of p, as often as listed and in that order.
  function ChildrenOf(pairs: seq<Pair>, p: Elem): seq<Elem> {
    if pairs == [] then []
    else
      var l := pairs[|pairs|-1];
      ChildrenOf(pairs[..|pairs|-1], p) + if l.0 == p then [l.1] else []
  }

  ghost predicate Edge(pairs: seq<Pair>, p: Elem, c: Elem) {
    (p, c) in pairs
  }

  lemma {:induction false} EdgeInElements(pairs: seq<Pair>, p: Elem, c: Elem)
    requires Edge(pairs, p, c)
    ensures p in Elements(pairs) && c in Elements(pairs)
  {
    if (p, c) != pairs[|pairs|-1] {
      EdgeInElements(pairs[..|pairs|-1], p, c);
    }
  }

  lemma {:induction false} IncomingIsEdge(pairs: seq<Pair>, x: Elem, done: set<Elem>)
    ensures Incoming(pairs, x, done) > 0 <==> exists p :: Edge(pairs, p, x) && p !in done
  {
    if pairs != [] {
      var init, l := pairs[..|pairs|-1], pairs[|pairs|-1];
      IncomingIsEdge(init, x, done);
      assert forall p :: Edge(pairs, p, x) <==> Edge(init, p, x) || l == (p, x);
      if l.1 == x && l.0 !in done { assert Edge(pairs, l.0, x); }
      if p :| Edge(init, p, x) && p !in done { assert Edge(pairs, p, x); }
    }
  }

  lemma {:induction false} IncomingAfter(pairs: seq<Pair>, x: Elem, done: set<Elem>, p: Elem)
    requires p !in done
    ensures Incoming(pairs, x, done) == Incoming(pairs, x, done + {p}) + multiset(ChildrenOf(pairs, p))[x]
  {
    if pairs != [] {
      IncomingAfter(pairs[..|pairs|-1], x, done, p);
    }
  }

  lemma {:induction false} ChildIsEdge(pairs: seq<Pair>, p: Elem, c: Elem)
    ensures c in ChildrenOf(pairs, p) <==> Edge(pairs, p, c)
  {
    if pairs != [] {
      var init, l := pairs[..|pairs|-1], pairs[|pairs|-1];
      ChildIsEdge(init, p, c);
      assert Edge(pairs, p, c) <==> Edge(init, p, c) || l == (p, c);
    }
  }

  /** The dictionaries hold, for the elements outside `done`, the predecessors outside `done`
      and all successors. */
  ghost predicate Counted(pairs: seq<Pair>, done: set<Elem>, numParents: map<Elem, nat>, children: map<Elem, seq<Elem>>) {
    && numParents.Keys == Elements(pairs) - done
    && (forall x :: x in numParents ==> numParents[x] == Incoming(pairs, x, done))
    && Listed(pairs, done, children)
  }

  ghost predicate Listed(pairs: seq<Pair>, done: set<Elem>, children: map<Elem, seq<Elem>>) {
    && (forall p :: p in children <==> p !in done && ChildrenOf(pairs, p) != [])
    && (forall p :: p in children ==> children[p] == ChildrenOf(pairs, p))
  }

  // The loop over the pairs that both sorts begin with.
  method CountParents(pairlist: seq<Pair>) returns (numParents: map<Elem, nat>, children: map<Elem, seq<Elem>>)
    ensures Counted(pairlist, {}, numParents, children)
  {
    numParents, children := map[], map[];
    for i := 0 to |pairlist|
      invariant Counted(pairlist[..i], {}, numParents, children)
    {
      var (parent, child) := pairlist[i];
      assert pairlist[..i+1][..i] == pairlist[..i];
      if parent !in numParents {
        numParents := numParents[parent := 0];
      }
      if child !in numParents {
        numParents := numParents[child := 0];
      }
      NotYetCounted(pairlist[..i], parent);
      NotYetCounted(pairlist[..i], child);
      numParents := numParents[child := numParents[child] + 1];
      children := children[parent := (if parent in children then children[parent] else []) + [child]];
    }
    assert pairlist[..|pairlist|] == pairlist;
  }

  lemma NotYetCounted(pairs: seq<Pair>, x: Elem)
    ensures x !in Elements(pairs) ==> Incoming(pairs, x, {}) == 0
  {
    IncomingIsEdge(pairs, x, {});
    if p :| Edge(pairs, p, x) { EdgeInElements(pairs, p, x); }
  }

  /** A cycle: each element is a parent of the next, and the last of the first. */
  ghost predicate IsCycle(pairs: seq<Pair>, c: seq<Elem>) {
    |c| >= 1 && IsWalk(pairs, c) && Edge(pairs, c[|c|-1], c[0])
  }

  ghost predicate Cyclic(pairs: seq<Pair>) {
    exists c :: IsCycle(pairs, c)
  }

  /** All elements, each once, parents before children. */
  ghost predicate Sorted(pairs: seq<Pair>, order: seq<Elem>) {
    && (forall x :: x in order <==> x in Elements(pairs))
    && Distinct(order)
    && (forall i, j :: 0 <= i < |order| && 0 <= j < |order| && Edge(pairs, order[i], order[j]) ==> i < j)
  }

  // Every element left over has a predecessor that is left over too.
  ghost predicate NoSource(pairs: seq<Pair>, left: set<Elem>) {
    forall x {:trigger HasParentIn(pairs, left, x)} :: x in left ==> HasParentIn(pairs, left, x)
  }

  ghost predicate HasParentIn(pairs: seq<Pair>, left: set<Elem>, x: Elem) {
    exists p :: p in left && Edge(pairs, p, x)
  }

  function Position(order: seq<Elem>, x: Elem): (i: nat)
    requires x in order
    ensures i < |order| && order[i] == x
  {
    if order[0] == x then 0 else 1 + Position(order[1..], x)
  }

  /** A list that can be sorted has no cycle ... */
  lemma SortedIsAcyclic(pairs: seq<Pair>, order: seq<Elem>)
    requires Sorted(pairs, order)
    ensures !Cyclic(pairs)
  {
    hide Position, Sorted;
    forall c: seq<Elem> ensures !IsCycle(pairs, c) {
      if |c| >= 1 && IsWalk(pairs, c) {
        EdgeRises(pairs, order, c[|c|-1], c[0]);
        if c[0] in order { RisesAlong(pairs, order, c, |c| - 1); }
      }
    }
  }

  ghost predicate IsWalk(pairs: seq<Pair>, c: seq<Elem>) {
    forall i :: 0 <= i < |c| - 1 ==> Edge(pairs, c[i], c[i+1])
  }

  lemma EdgeRises(pairs: seq<Pair>, order: seq<Elem>, p: Elem, x: Elem)
    requires Sorted(pairs, order)
    ensures Edge(pairs, p, x) ==> p in order && x in order && Position(order, p) < Position(order, x)
  {
    hide Position;
    if Edge(pairs, p, x) {
      EdgeInElements(pairs, p, x);
      assert order[Position(order, p)] == p && order[Position(order, x)] == x;
    }
  }

  lemma {:induction false} RisesAlong(pairs: seq<Pair>, order: seq<Elem>, c: seq<Elem>, k: nat)
    requires Sorted(pairs, order) && IsWalk(pairs, c) && k < |c| && c[0] in order
    ensures c[k] in order && Position(order, c[0]) <= Position(order, c[k])
  {
    hide Position, Sorted;
    if k > 0 {
      RisesAlong(pairs, order, c, k - 1);
      EdgeRises(pairs, order, c[k-1], c[k-1+1]);
    }
  }

  // The walk w comes back to where it began after i steps, and goes on to x.
  ghost predicate TrapWalk(pairs: seq<Pair>, w: seq<Elem>, i: nat, x: Elem) {
    0 < i < |w| && IsWalk(pairs, w) && w[0] == w[i] && w[|w|-1] == x
  }

  /** x lies on a cycle or behind one. */
  ghost predicate Trapped(pairs: seq<Pair>, x: Elem) {
    exists w, i: nat :: TrapWalk(pairs, w, i, x)
  }

  lemma TrappedInElements(pairs: seq<Pair>, x: Elem)
    requires Trapped(pairs, x)
    ensures x in Elements(pairs)
  {
    var w, i: nat :| TrapWalk(pairs, w, i, x);
    var k := |w| - 2;
    assert Edge(pairs, w[k], w[k+1]);
    EdgeInElements(pairs, w[k], x);
  }

  /** ... and elements that are left over without a source contain one: each of them lies on a
      cycle or behind one. */
  lemma LeftoverCycle(pairs: seq<Pair>, left: set<Elem>, x: Elem) returns (c: seq<Elem>)
    requires NoSource(pairs, left) && x in left
    ensures IsCycle(pairs, c) && forall i :: 0 <= i < |c| ==> c[i] in left
    ensures Trapped(pairs, x)
  {
    var w, i := WalkBack(pairs, left, [x], left - {x}, x);
    c := w[..i];
    assert Edge(pairs, w[i-1], w[i-1+1]);
  }

  // Prepends predecessors to the walk w until one repeats; `rest` is what w has not visited.
  lemma {:induction false} WalkBack(pairs: seq<Pair>, left: set<Elem>, w: seq<Elem>, rest: set<Elem>, x: Elem)
    returns (trap: seq<Elem>, i: nat)
    requires NoSource(pairs, left) && |w| >= 1 && w[|w|-1] == x
    requires forall i :: 0 <= i < |w| ==> w[i] in left
    requires IsWalk(pairs, w)
    requires forall y :: y in left ==> y in rest || y in w
    ensures TrapWalk(pairs, trap, i, x) && forall i :: 0 <= i < |trap| ==> trap[i] in left
    decreases rest
  {
    assert HasParentIn(pairs, left, w[0]);
    var p :| p in left && Edge(pairs, p, w[0]);
    if p in w {
      var k :| 0 <= k < |w| && w[k] == p;
      trap, i := [p] + w, k + 1;
    } else {
      trap, i := WalkBack(pairs, left, [p] + w, rest - {p}, x);
    }
  }

  // Each element stands behind its predecessors.
  ghost predicate ParentsFirst(pairs: seq<Pair>, order: seq<Elem>) {
    forall j, p :: 0 <= j < |order| && Edge(pairs, p, order[j]) ==> p in order[..j]
  }

  lemma {:induction false} PositionFirst(order: seq<Elem>, k: nat)
    requires k < |order|
    ensures Position(order, order[k]) <= k
  {
    if order[0] != order[k] { PositionFirst(order[1..], k - 1); }
  }

  lemma ParentBefore(pairs: seq<Pair>, order: seq<Elem>, p: Elem, x: Elem)
    requires ParentsFirst(pairs, order) && Edge(pairs, p, x) && x in order
    ensures p in order && Position(order, p) < Position(order, x)
  {
    hide Position;
    var j := Position(order, x);
    assert order[j] == x;
    assert p in order[..j];
    var k :| 0 <= k < j && order[..j][k] == p;
    PositionFirst(order, k);
  }

  lemma {:induction false} WalkRises(pairs: seq<Pair>, order: seq<Elem>, w: seq<Elem>, j: nat, k: nat)
    requires ParentsFirst(pairs, order) && IsWalk(pairs, w) && j <= k < |w| && w[k] in order
    ensures w[j] in order && Position(order, w[j]) <= Position(order, w[k]) && (j < k ==> Position(order, w[j]) < Position(order, w[k]))
    decreases k - j
  {
    hide Position, ParentsFirst;
    if j < k {
      assert Edge(pairs, w[k-1], w[k-1+1]);
      ParentBefore(pairs, order, w[k-1], w[k]);
      WalkRises(pairs, order, w, j, k - 1);
    }
  }

  // Nothing that has been put behind its predecessors is trapped.
  lemma OrderedNotTrapped(pairs: seq<Pair>, order: seq<Elem>, x: Elem)
    requires ParentsFirst(pairs, order) && x in order
    ensures !Trapped(pairs, x)
  {
    hide Position, ParentsFirst;
    forall w: seq<Elem>, i: nat ensures !TrapWalk(pairs, w, i, x) {
      if 0 < i < |w| && IsWalk(pairs, w) && w[|w|-1] == x {
        WalkRises(pairs, order, w, i, |w| - 1);
        WalkRises(pairs, order, w, 0, i);
      }
    }
  }

  /** What is left when an order cannot be continued is exactly what lies on a cycle or behind one. */
  lemma LeftoverIsTrapped(pairs: seq<Pair>, order: seq<Elem>, left: set<Elem>)
    requires ParentsFirst(pairs, order) && NoSource(pairs, left)
    requires forall x :: x in Elements(pairs) ==> x in left || x in order
    ensures forall x :: x in left ==> Trapped(pairs, x)
    ensures forall x :: Trapped(pairs, x) ==> x in left
  {
    forall x | x in left ensures Trapped(pairs, x) { var c := LeftoverCycle(pairs, left, x); }
    forall x | Trapped(pairs, x) ensures x in left {
      TrappedInElements(pairs, x);
      if x in order { OrderedNotTrapped(pairs, order, x); }
    }
  }

  ghost predicate HasChild(pairs: seq<Pair>, x: Elem) { exists c :: Edge(pairs, x, c) }

  // Some cycle leads to an element without children.
  ghost predicate DeadEnd(pairs: seq<Pair>) { exists x :: Trapped(pairs, x) && !HasChild(pairs, x) }

  /** Of x and y, each a child of the other, and z, a child of y: z is left over without a child.
      What is left over has a child each if and only if no cycle leads to an element without. */
  lemma LeftoverChildren(pairs: seq<Pair>, left: set<Elem>, x: Elem, y: Elem, z: Elem)
    requires forall e :: e in left <==> Trapped(pairs, e)
    ensures (forall e :: e in left ==> HasChild(pairs, e)) <==> !DeadEnd(pairs)
    ensures x != z && y != z ==> Trapped([(x, y), (y, x), (y, z)], z) && DeadEnd([(x, y), (y, x), (y, z)])
  {
    hide Trapped;
    if x != z && y != z {
      TwoAndOne(x, y, z);
      var three := [(x, y), (y, x), (y, z)];
      assert !HasChild(three, z) by {
        forall c ensures !Edge(three, z, c) {
          assert three[0] != (z, c) && three[1] != (z, c) && three[2] != (z, c);
        }
      }
    }
  }

  lemma TwoAndOne(x: Elem, y: Elem, z: Elem)
    ensures Trapped([(x, y), (y, x), (y, z)], z)
  {
    var pairs := [(x, y), (y, x), (y, z)];
    assert pairs[0] == (x, y) && pairs[1] == (y, x) && pairs[2] == (y, z);
    assert Edge(pairs, x, y) && Edge(pairs, y, x) && Edge(pairs, y, z);
    assert TrapWalk(pairs, [x, y, x, y, z], 2, z);
  }
}
