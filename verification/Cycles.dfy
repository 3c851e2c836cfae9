/** find_cycles of bindings/python/topsort.py: all simple cycles, by a search with an explicit
    stack of paths. */
module Cycles {
  import opened Common
  import opened Rotations

  // Anything hashable.
  type Item(==, !new)

  // parent -> collection of children
  type Graph = map<Item, seq<Item>>

  predicate Child(g: Graph, p: Item, c: Item) {
    p in g && c in g[p]
  }

  // No item twice, and each a parent of the next.
  ghost predicate SimplePath(g: Graph, p: seq<Item>) {
    |p| >= 1 && Distinct(p) && forall i :: 0 <= i < |p| - 1 ==> Child(g, p[i], p[i+1])
  }

  /** A simple cycle: a simple path whose last item is a parent of its first. */
  ghost predicate SimpleCycle(g: Graph, c: seq<Item>) {
    SimplePath(g, c) && Child(g, c[|c|-1], c[0])
  }

  // Some cycle found is a rotation of c.
  ghost predicate Covered(cycles: seq<seq<Item>>, c: seq<Item>) {
    exists i :: 0 <= i < |cycles| && IsRotation(cycles[i], c)
  }

  // The cycles found are simple cycles, no two of them rotations of each other.
  ghost predicate Found(g: Graph, cycles: seq<seq<Item>>) {
    && (forall i :: 0 <= i < |cycles| ==> SimpleCycle(g, cycles[i]))
    && (forall i, j :: 0 <= i < j < |cycles| ==> !IsRotation(cycles[i], cycles[j]))
  }

  function IndexOf(p: seq<Item>, x: Item): (i: nat)
    requires x in p
    ensures i < |p| && p[i] == x && x !in p[..i]
  {
    if p[0] == x then 0 else 1 + IndexOf(p[1..], x)
  }

  // The cycle closed by going from the end of p back to x.
  function Closing(p: seq<Item>, x: Item): seq<Item>
    requires x in p
  {
    p[IndexOf(p, x)..]
  }

  // The first k children of the last item of p that lie on p close cycles that have been found.
  ghost predicate Closed(g: Graph, cycles: seq<seq<Item>>, p: seq<Item>, k: nat)
    requires |p| >= 1
  {
    var last := p[|p|-1];
    last in g ==> forall i :: 0 <= i < k && i < |g[last]| && g[last][i] in p ==> Covered(cycles, Closing(p, g[last][i]))
  }

  // All children of the last item of p have been looked at.
  ghost predicate Expanded(g: Graph, cycles: seq<seq<Item>>, p: seq<Item>)
    requires |p| >= 1
  {
    p[|p|-1] in g ==> Closed(g, cycles, p, |g[p[|p|-1]]|)
  }

  ghost predicate OnStack(stack: seq<seq<Item>>, p: seq<Item>) {
    exists i :: 0 <= i < |stack| && stack[i] <= p
  }

  // Every simple path from s has been expanded, or continues a path on the stack.
  ghost predicate Searching(g: Graph, cycles: seq<seq<Item>>, s: Item, stack: seq<seq<Item>>) {
    forall p :: SimplePath(g, p) && p[0] == s ==> Expanded(g, cycles, p) || OnStack(stack, p)
  }

  ghost predicate Searched(g: Graph, cycles: seq<seq<Item>>, s: Item) {
    forall p :: SimplePath(g, p) && p[0] == s ==> Expanded(g, cycles, p)
  }

  // The stack holds simple paths from s.
  ghost predicate Stacked(g: Graph, s: Item, stack: seq<seq<Item>>) {
    forall i :: 0 <= i < |stack| ==> SimplePath(g, stack[i]) && stack[i][0] == s
  }

  // Some simple path from s ends at v.
  ghost predicate Reaches(g: Graph, s: Item, v: Item) {
    exists p :: SimplePath(g, p) && p[0] == s && p[|p|-1] == v
  }

  // Every visited item can be reached from some start.
  ghost predicate Visits(g: Graph, starts: set<Item>, visited: set<Item>) {
    forall v :: v in visited ==> exists s :: s in starts && Reaches(g, s, v)
  }

  // Two simple paths that meet in nothing, joined.
  lemma JoinPaths(g: Graph, p: seq<Item>, q: seq<Item>)
    requires SimplePath(g, p) && SimplePath(g, q) && Child(g, p[|p|-1], q[0])
    requires forall x :: x in p ==> x !in q
    ensures SimplePath(g, p + q)
  {
    var r := p + q;
    forall i, j | 0 <= i < j < |r| ensures r[i] != r[j] {
      if i < |p| <= j { assert p[i] in p; }
    }
    forall i | 0 <= i < |r| - 1 ensures Child(g, r[i], r[i+1]) {
      if i < |p| - 1 { assert Child(g, p[i], p[i+1]); }
      if i >= |p| { assert Child(g, q[i-|p|], q[i-|p|+1]); }
    }
  }

  // A cycle can be entered at any of its items.
  lemma CycleFrom(g: Graph, c: seq<Item>, m: nat)
    requires SimpleCycle(g, c) && m < |c|
    ensures SimpleCycle(g, Rotate(c, m)) && Rotate(c, m)[0] == c[m]
  {
    var r := Rotate(c, m);
    forall i | 0 <= i < |r| - 1 ensures Child(g, r[i], r[i+1]) {
      var j := if i < |c| - m then i + m else i + m - |c|;
      if j < |c| - 1 { assert Child(g, c[j], c[j+1]); }
    }
    if m > 0 { assert Child(g, c[m-1], c[m-1+1]); }
  }

  // From the path q the cycle c can be walked around, from where q first meets it.
  lemma EnterCycle(g: Graph, q: seq<Item>, c: seq<Item>) returns (p: seq<Item>, j: nat, d: seq<Item>)
    requires SimpleCycle(g, c) && SimplePath(g, q) && q[|q|-1] in c
    ensures SimplePath(g, p) && p[0] == q[0] && j <= |p| && p[j..] == d
    ensures SimpleCycle(g, d) && IsRotation(c, d) && p[|p|-1] == d[|d|-1]
  {
    j := FirstOn(q, c);
    var m := IndexOf(c, q[j]);
    CycleFrom(g, c, m);
    d := Rotate(c, m);
    RotationStays(c, m);
    hide Rotate, IsRotation;
    p := JoinAt(g, q, j, d);
  }

  lemma JoinAt(g: Graph, q: seq<Item>, j: nat, d: seq<Item>) returns (p: seq<Item>)
    requires SimplePath(g, q) && SimplePath(g, d) && j < |q| && q[j] == d[0] && forall x :: x in q[..j] ==> x !in d
    ensures SimplePath(g, p) && p[0] == q[0] && j <= |p| && p[j..] == d && p[|p|-1] == d[|d|-1]
  {
    p := q[..j] + d;
    if j > 0 {
      assert Child(g, q[j-1], q[j-1+1]);
      PathPrefix(g, q, j);
      hide SimplePath;
      JoinPaths(g, q[..j], d);
    } else {
      assert p == d;
    }
  }

  lemma RotationStays(c: seq<Item>, m: nat)
    requires m <= |c|
    ensures forall x :: x in Rotate(c, m) ==> x in c
    ensures IsRotation(c, Rotate(c, m))
  {
  }

  lemma PathPrefix(g: Graph, p: seq<Item>, j: nat)
    requires SimplePath(g, p) && 0 < j <= |p|
    ensures SimplePath(g, p[..j])
  {
  }

  lemma ClosingAt(p: seq<Item>, j: nat)
    requires Distinct(p) && j < |p|
    ensures Closing(p, p[j]) == p[j..]
  {
    assert IndexOf(p, p[j]) == j;
  }

  lemma ExpandedCloses(g: Graph, cycles: seq<seq<Item>>, p: seq<Item>, x: Item)
    requires |p| >= 1 && Expanded(g, cycles, p) && Child(g, p[|p|-1], x) && x in p
    ensures Covered(cycles, Closing(p, x))
  {
    var last := p[|p|-1];
    var k :| 0 <= k < |g[last]| && g[last][k] == x;
  }

  lemma CoveredRotation(cycles: seq<seq<Item>>, c: seq<Item>, d: seq<Item>)
    requires Covered(cycles, d) && IsRotation(c, d)
    ensures Covered(cycles, c)
  {
    var i :| 0 <= i < |cycles| && IsRotation(cycles[i], d);
    RotationSymmetric(c, d);
    RotationTransitive(cycles[i], d, c);
  }

  /** A searched start finds every cycle it can reach. */
  lemma SearchedCovers(g: Graph, cycles: seq<seq<Item>>, s: Item, q: seq<Item>, c: seq<Item>)
    requires Searched(g, cycles, s) && SimpleCycle(g, c)
    requires SimplePath(g, q) && q[0] == s && q[|q|-1] in c
    ensures Covered(cycles, c)
  {
    var p, j, d := EnterCycle(g, q, c);
    assert Expanded(g, cycles, p);
    hide Expanded, Searched, Covered, IsRotation;
    assert p[j] == d[0];
    ClosingAt(p, j);
    ExpandedCloses(g, cycles, p, d[0]);
    CoveredRotation(cycles, c, d);
  }

  lemma FirstOn(q: seq<Item>, c: seq<Item>) returns (j: nat)
    requires |q| >= 1 && q[|q|-1] in c
    ensures j < |q| && q[j] in c && forall x :: x in q[..j] ==> x !in c
  {
    j := 0;
    while q[j] !in c
      invariant j < |q| && forall x :: x in q[..j] ==> x !in c
      decreases |q| - j
    {
      j := j + 1;
    }
  }

  // Items of the graph, and how many children one has at most.
  ghost function Items(g: Graph): set<Item> {
    g.Keys + set k, i | k in g && 0 <= i < |g[k]| :: g[k][i]
  }

  lemma {:induction false} MostChildren(g: Graph, keys: set<Item>) returns (d: nat)
    requires keys <= g.Keys
    ensures forall k :: k in keys ==> |g[k]| <= d
  {
    if keys == {} {
      d := 0;
    } else {
      var k :| k in keys;
      d := MostChildren(g, keys - {k});
      d := if d < |g[k]| then |g[k]| else d;
    }
  }

  lemma {:induction false} DistinctFits(p: seq<Item>, xs: set<Item>)
    requires Distinct(p) && forall i :: 0 <= i < |p| ==> p[i] in xs
    ensures |p| <= |xs|
  {
    if p != [] {
      var x := p[|p|-1];
      DistinctFits(p[..|p|-1], xs - {x});
    }
  }

  function Pow(b: nat, e: nat): (r: nat)
    requires b > 0
    ensures r > 0
  {
    if e == 0 then 1 else b * Pow(b, e - 1)
  }

  // Work left: each path on the stack counts for all that can still be pushed on account of it.
  ghost function Weight(stack: seq<seq<Item>>, n: nat, d: nat): nat {
    if stack == [] then 0
    else Weight(stack[..|stack|-1], n, d) + WeightOf(stack[|stack|-1], n, d)
  }

  ghost function WeightOf(p: seq<Item>, n: nat, d: nat): nat {
    Pow(d + 1, if |p| <= n then n - |p| else 0)
  }

  lemma PopWeight(stack: seq<seq<Item>>, n: nat, d: nat)
    requires stack != []
    ensures Weight(stack, n, d) == Weight(stack[..|stack|-1], n, d) + WeightOf(stack[|stack|-1], n, d)
  {
  }

  lemma WeightPush(stack: seq<seq<Item>>, p: seq<Item>, n: nat, d: nat)
    ensures Weight(stack + [p], n, d) == Weight(stack, n, d) + WeightOf(p, n, d)
  {
    assert (stack + [p])[..|stack|] == stack;
  }

  // The weight of k children of p.
  ghost function ChildrenWeight(p: seq<Item>, n: nat, d: nat, k: nat): nat {
    if |p| < n then k * Pow(d + 1, n - |p| - 1) else 0
  }

  lemma OneMoreChild(p: seq<Item>, x: Item, n: nat, d: nat, k: nat)
    requires |p| < n
    ensures ChildrenWeight(p, n, d, k + 1) == ChildrenWeight(p, n, d, k) + WeightOf(p + [x], n, d)
  {
    var w := Pow(d + 1, n - |p| - 1);
    assert (k + 1) * w == k * w + w;
  }

  lemma MoreChildren(p: seq<Item>, n: nat, d: nat, k: nat, l: nat)
    requires k <= l
    ensures ChildrenWeight(p, n, d, k) <= ChildrenWeight(p, n, d, l)
  {
    if |p| < n { assert k * Pow(d + 1, n - |p| - 1) <= l * Pow(d + 1, n - |p| - 1); }
  }

  // All children together weigh less than their parent.
  lemma ChildrenWeighLess(p: seq<Item>, n: nat, d: nat, k: nat)
    requires k <= d
    ensures ChildrenWeight(p, n, d, k) < WeightOf(p, n, d)
  {
    MoreChildren(p, n, d, k, d);
    if |p| < n {
      var w := Pow(d + 1, n - |p| - 1);
      assert Pow(d + 1, n - |p|) == (d + 1) * w == d * w + w;
    }
  }

  lemma CoveredMore(cycles: seq<seq<Item>>, more: seq<seq<Item>>, c: seq<Item>)
    requires cycles <= more && Covered(cycles, c)
    ensures Covered(more, c)
  {
    var i :| 0 <= i < |cycles| && IsRotation(cycles[i], c);
    assert more[i] == cycles[i];
  }

  lemma ClosedMore(g: Graph, cycles: seq<seq<Item>>, more: seq<seq<Item>>, p: seq<Item>, k: nat)
    requires cycles <= more && |p| >= 1 && Closed(g, cycles, p, k)
    ensures Closed(g, more, p, k)
  {
    hide Covered;
    var last := p[|p|-1];
    if last in g {
      forall i | 0 <= i < k && i < |g[last]| && g[last][i] in p ensures Covered(more, Closing(p, g[last][i])) {
        CoveredMore(cycles, more, Closing(p, g[last][i]));
      }
    }
  }

  lemma SearchedMore(g: Graph, cycles: seq<seq<Item>>, more: seq<seq<Item>>, s: Item)
    requires cycles <= more && Searched(g, cycles, s)
    ensures Searched(g, more, s)
  {
    hide Closed, Expanded;
    forall p | SimplePath(g, p) && p[0] == s ensures Expanded(g, more, p) {
      ExpandedMore(g, cycles, more, p);
    }
  }

  lemma ExpandedMore(g: Graph, cycles: seq<seq<Item>>, more: seq<seq<Item>>, p: seq<Item>)
    requires cycles <= more && |p| >= 1 && Expanded(g, cycles, p)
    ensures Expanded(g, more, p)
  {
    hide Closed;
    if p[|p|-1] in g { ClosedMore(g, cycles, more, p, |g[p[|p|-1]]|); }
  }

  // A simple path that continues `path`, if at all, by one of its last item's children from the k-th on.
  ghost predicate Pending(g: Graph, path: seq<Item>, k: nat, p: seq<Item>)
    requires |path| >= 1 && path[|path|-1] in g && k <= |g[path[|path|-1]]|
  {
    path <= p && (p == path || p[|path|] in g[path[|path|-1]][k..])
  }

  // The search from s while the children of `path`, just popped, are looked at.
  ghost predicate Expanding(g: Graph, cycles: seq<seq<Item>>, s: Item, stack: seq<seq<Item>>, path: seq<Item>, k: nat)
  {
    && SimplePath(g, path) && path[0] == s && path[|path|-1] in g && k <= |g[path[|path|-1]]|
    && Closed(g, cycles, path, k)
    && forall p :: SimplePath(g, p) && p[0] == s ==> Expanded(g, cycles, p) || OnStack(stack, p) || Pending(g, path, k, p)
  }

  lemma Pop(g: Graph, cycles: seq<seq<Item>>, s: Item, stack: seq<seq<Item>>)
    requires stack != [] && Stacked(g, s, stack) && Searching(g, cycles, s, stack)
    ensures var path, rest := stack[|stack|-1], stack[..|stack|-1];
            && |path| >= 1 && Stacked(g, s, rest)
            && (path[|path|-1] in g ==> Expanding(g, cycles, s, rest, path, 0))
            && (path[|path|-1] !in g ==> Searching(g, cycles, s, rest))
  {
    var path, rest := stack[|stack|-1], stack[..|stack|-1];
    forall p | SimplePath(g, p) && p[0] == s
      ensures Expanded(g, cycles, p) || OnStack(rest, p) || (path <= p && (p == path || Child(g, path[|path|-1], p[|path|])))
    {
      if OnStack(stack, p) {
        var i :| 0 <= i < |stack| && stack[i] <= p;
        if i < |rest| { assert rest[i] <= p; }
        else if p != path { assert Child(g, p[|path|-1], p[|path|-1+1]); }
      }
    }
    if path[|path|-1] in g {
      assert g[path[|path|-1]][0..] == g[path[|path|-1]];
    } else {
      assert Expanded(g, cycles, path);
      forall p | SimplePath(g, p) && p[0] == s ensures Expanded(g, cycles, p) || OnStack(rest, p) {
        assert !OnStack(rest, p) && !Expanded(g, cycles, p) ==> path <= p && p != path;
      }
    }
    assert Stacked(g, s, rest);
  }

  lemma Done(g: Graph, cycles: seq<seq<Item>>, s: Item, stack: seq<seq<Item>>, path: seq<Item>)
    requires path != [] && path[|path|-1] in g && Expanding(g, cycles, s, stack, path, |g[path[|path|-1]]|)
    ensures Searching(g, cycles, s, stack)
  {
    assert Expanded(g, cycles, path);
  }

  // A child on the path: its cycle is covered.
  lemma ChildOnPath(g: Graph, cycles: seq<seq<Item>>, more: seq<seq<Item>>, s: Item, stack: seq<seq<Item>>, path: seq<Item>, k: nat)
    requires Expanding(g, cycles, s, stack, path, k) && k < |g[path[|path|-1]]| && cycles <= more
    requires var child := g[path[|path|-1]][k]; child in path && Covered(more, Closing(path, child))
    ensures Expanding(g, more, s, stack, path, k + 1)
  {
    hide Covered, Closing;
    ClosedNext(g, cycles, more, path, k);
    hide Closed, Expanded, OnStack, Pending;
    forall p | SimplePath(g, p) && p[0] == s ensures Expanded(g, more, p) || OnStack(stack, p) || Pending(g, path, k + 1, p) {
      if Expanded(g, cycles, p) {
        ExpandedMore(g, cycles, more, p);
      } else if Pending(g, path, k, p) {
        PendingNext(g, path, k, p);
      }
    }
  }

  lemma ClosedNext(g: Graph, cycles: seq<seq<Item>>, more: seq<seq<Item>>, path: seq<Item>, k: nat)
    requires |path| >= 1 && path[|path|-1] in g && k < |g[path[|path|-1]]| && cycles <= more && Closed(g, cycles, path, k)
    requires var child := g[path[|path|-1]][k]; child in path ==> Covered(more, Closing(path, child))
    ensures Closed(g, more, path, k + 1)
  {
    ClosedMore(g, cycles, more, path, k);
    hide Covered, Closing;
  }

  lemma PendingNext(g: Graph, path: seq<Item>, k: nat, p: seq<Item>)
    requires |path| >= 1 && path[|path|-1] in g && k < |g[path[|path|-1]]| && g[path[|path|-1]][k] in path
    requires SimplePath(g, p) && Pending(g, path, k, p)
    ensures Pending(g, path, k + 1, p)
  {
    var children := g[path[|path|-1]];
    if p != path {
      NotRepeated(path, p, children[k]);
      assert children[k..] == [children[k]] + children[k+1..];
    }
  }

  lemma NotRepeated(path: seq<Item>, p: seq<Item>, x: Item)
    requires Distinct(p) && path < p && x in path
    ensures p[|path|] != x
  {
    var i :| 0 <= i < |path| && path[i] == x;
  }

  // A child off the path: the longer path goes on the stack.
  lemma ChildOffPath(g: Graph, cycles: seq<seq<Item>>, s: Item, stack: seq<seq<Item>>, path: seq<Item>, k: nat)
    requires Expanding(g, cycles, s, stack, path, k) && Stacked(g, s, stack) && k < |g[path[|path|-1]]|
    requires g[path[|path|-1]][k] !in path
    ensures var stack' := stack + [path + [g[path[|path|-1]][k]]];
            Expanding(g, cycles, s, stack', path, k + 1) && Stacked(g, s, stack')
    ensures Reaches(g, s, g[path[|path|-1]][k])
  {
    var children := g[path[|path|-1]];
    var child := children[k];
    var longer := path + [child];
    var stack' := stack + [longer];
    JoinPaths(g, path, [child]);
    assert SimplePath(g, longer) && longer[0] == s && longer[|longer|-1] == child;
    forall p | SimplePath(g, p) && p[0] == s ensures Expanded(g, cycles, p) || OnStack(stack', p) || Pending(g, path, k + 1, p) {
      if OnStack(stack, p) {
        var i :| 0 <= i < |stack| && stack[i] <= p;
        assert stack'[i] <= p;
      } else if Pending(g, path, k, p) && p != path {
        assert children[k..] == [children[k]] + children[k+1..];
        if p[|path|] == child {
          assert longer <= p && stack'[|stack|] <= p;
        }
      }
    }
  }

  // The cycle is recorded unless a rotation of it is known.
  method AddCycle(g: Graph, cycles0: seq<seq<Item>>, cycle: seq<Item>) returns (cycles: seq<seq<Item>>)
    requires Found(g, cycles0) && SimpleCycle(g, cycle)
    ensures Found(g, cycles) && cycles0 <= cycles && Covered(cycles, cycle)
  {
    cycles := cycles0;
    var isDup := false;
    for i := 0 to |cycles|
      invariant isDup ==> Covered(cycles, cycle)
      invariant !isDup ==> forall j :: 0 <= j < i ==> !IsRotation(cycles[j], cycle)
    {
      var otherCycle := cycles[i];
      isDup := IsRotated(otherCycle, cycle);
      if isDup {
        break;
      }
    }
    if !isDup {
      cycles := cycles + [cycle];
      Itself(cycle);
      assert IsRotation(cycles[|cycles|-1], cycle);
    }
  }

  lemma Itself(c: seq<Item>)
    ensures IsRotation(c, c)
  {
    assert Rotate(c, 0) == c;
  }

  lemma ClosingIsCycle(g: Graph, path: seq<Item>, child: Item)
    requires SimplePath(g, path) && child in path && Child(g, path[|path|-1], child)
    ensures SimpleCycle(g, Closing(path, child))
  {
    var j := IndexOf(path, child);
    var c := path[j..];
    forall i | 0 <= i < |c| - 1 ensures Child(g, c[i], c[i+1]) {
      assert Child(g, path[i+j], path[i+j+1]);
    }
  }

  lemma PathFits(g: Graph, p: seq<Item>)
    requires SimplePath(g, p) && (|p| == 1 ==> p[0] in g)
    ensures |p| <= |Items(g)|
  {
    forall i | 0 <= i < |p| ensures p[i] in Items(g) {
      if i > 0 { assert Child(g, p[i-1], p[i-1+1]); } else if |p| > 1 { assert Child(g, p[0], p[0+1]); }
    }
    DistinctFits(p, Items(g));
  }

  // The search from one start: the loop over the stack of paths.
  method SearchFrom(g: Graph, start: Item, ghost starts: set<Item>, cycles0: seq<seq<Item>>, visited0: set<Item>)
    returns (cycles: seq<seq<Item>>, visitedNodes: set<Item>)
    requires start in g && Found(g, cycles0) && Visits(g, starts, visited0)
    ensures Found(g, cycles) && cycles0 <= cycles && visited0 <= visitedNodes
    ensures Searched(g, cycles, start) && Visits(g, starts + {start}, visitedNodes)
  {
    hide Found, Covered, Searching, Expanding, Searched, Stacked, Visits, SimpleCycle, Reaches, Items, SimplePath, Weight, WeightOf,
      ChildrenWeight, Closing;
    cycles, visitedNodes := cycles0, visited0;
    ghost var n := |Items(g)|;
    ghost var d := MostChildren(g, g.Keys);
    var paths := [[start]];
    Begin(g, cycles, starts, start, visited0);
    while paths != []
      invariant Found(g, cycles) && cycles0 <= cycles && visited0 <= visitedNodes
      invariant Stacked(g, start, paths) && Searching(g, cycles, start, paths)
      invariant Visits(g, starts + {start}, visitedNodes)
      decreases Weight(paths, n, d)
    {
      Pop(g, cycles, start, paths);
      var path := paths[|paths|-1];
      PopWeight(paths, n, d);
      paths := paths[..|paths|-1];
      ghost var rest := Weight(paths, n, d);
      ChildrenWeighLess(path, n, d, 0);
      var parent := path[|path|-1];
      if parent !in g {
        continue;
      }
      var children := g[parent];
      for k := 0 to |children|
        invariant Found(g, cycles) && cycles0 <= cycles && visited0 <= visitedNodes
        invariant Stacked(g, start, paths) && Expanding(g, cycles, start, paths, path, k)
        invariant Visits(g, starts + {start}, visitedNodes)
        invariant Weight(paths, n, d) <= rest + ChildrenWeight(path, n, d, k)
      {
        var child := children[k];
        if child in path {
          var cycle := path[IndexOf(path, child)..];
          CycleHere(g, cycles, start, paths, path, k);
          ghost var known := cycles;
          cycles := AddCycle(g, cycles, cycle);
          ChildOnPath(g, known, cycles, start, paths, path, k);
          MoreChildren(path, n, d, k, k + 1);
        } else {
          ChildOffPath(g, cycles, start, paths, path, k);
          LongerFits(g, cycles, start, paths, path, k);
          WeightPush(paths, path + [child], n, d);
          OneMoreChild(path, child, n, d, k);
          VisitsOne(g, starts + {start}, visitedNodes, start, child);
          paths := paths + [path + [child]];
          visitedNodes := visitedNodes + {child};
        }
      }
      Done(g, cycles, start, paths, path);
      ChildrenWeighLess(path, n, d, |children|);
    }
    Exhausted(g, cycles, start);
  }

  method FindCycles(parentChildren: Graph) returns (cycles: seq<seq<Item>>)
    ensures Found(parentChildren, cycles)
    ensures forall c :: SimpleCycle(parentChildren, c) ==> Covered(cycles, c)
  {
    hide Found, Covered, Searching, Searched, Stacked, Visits, SimpleCycle;
    cycles := [];
    var visitedNodes: set<Item> := {};
    NothingFound(parentChildren);
    ghost var starts: set<Item> := {};
    var todo := parentChildren.Keys;
    while todo != {}
      invariant todo <= parentChildren.Keys && starts <= parentChildren.Keys
      invariant Found(parentChildren, cycles)
      invariant forall s :: s in starts ==> Searched(parentChildren, cycles, s)
      invariant Visits(parentChildren, starts, visitedNodes)
      invariant forall k :: k in parentChildren && k !in todo ==> k in starts || k in visitedNodes
    {
      var parent :| parent in todo;
      todo := todo - {parent};
      if parent in visitedNodes {
        continue;
      }
      ghost var known := cycles;
      cycles, visitedNodes := SearchFrom(parentChildren, parent, starts, cycles, visitedNodes);
      forall s | s in starts ensures Searched(parentChildren, cycles, s) {
        SearchedMore(parentChildren, known, cycles, s);
      }
      starts := starts + {parent};
    }
    forall c | SimpleCycle(parentChildren, c) ensures Covered(cycles, c) {
      AllCovered(parentChildren, starts, cycles, visitedNodes, c);
    }
  }

  lemma NothingFound(g: Graph)
    ensures Found(g, []) && Visits(g, {}, {})
  {
  }

  lemma Begin(g: Graph, cycles: seq<seq<Item>>, starts: set<Item>, start: Item, visited: set<Item>)
    requires Visits(g, starts, visited)
    ensures Stacked(g, start, [[start]]) && Searching(g, cycles, start, [[start]]) && Visits(g, starts + {start}, visited)
  {
    forall p | SimplePath(g, p) && p[0] == start ensures OnStack([[start]], p) {
      assert [[start]][0] <= p;
    }
    forall v | v in visited ensures exists s :: s in starts + {start} && Reaches(g, s, v) {
      var s :| s in starts && Reaches(g, s, v);
      assert s in starts + {start};
    }
  }

  lemma CycleHere(g: Graph, cycles: seq<seq<Item>>, s: Item, stack: seq<seq<Item>>, path: seq<Item>, k: nat)
    requires Expanding(g, cycles, s, stack, path, k) && k < |g[path[|path|-1]]| && g[path[|path|-1]][k] in path
    ensures SimpleCycle(g, Closing(path, g[path[|path|-1]][k]))
    ensures Closing(path, g[path[|path|-1]][k]) == path[IndexOf(path, g[path[|path|-1]][k])..]
  {
    ClosingIsCycle(g, path, g[path[|path|-1]][k]);
  }

  lemma LongerFits(g: Graph, cycles: seq<seq<Item>>, s: Item, stack: seq<seq<Item>>, path: seq<Item>, k: nat)
    requires Expanding(g, cycles, s, stack, path, k) && k < |g[path[|path|-1]]| && g[path[|path|-1]][k] !in path
    ensures |path| + 1 <= |Items(g)|
  {
    var child := g[path[|path|-1]][k];
    JoinPaths(g, path, [child]);
    PathFits(g, path + [child]);
  }

  lemma VisitsOne(g: Graph, starts: set<Item>, visited: set<Item>, s: Item, v: Item)
    requires Visits(g, starts, visited) && s in starts && Reaches(g, s, v)
    ensures Visits(g, starts, visited + {v})
  {
  }

  lemma Exhausted(g: Graph, cycles: seq<seq<Item>>, s: Item)
    requires Searching(g, cycles, s, [])
    ensures Searched(g, cycles, s)
  {
  }

  // A start that was skipped had been visited, and its cycles found, from another start.
  lemma AllCovered(g: Graph, starts: set<Item>, cycles: seq<seq<Item>>, visited: set<Item>, c: seq<Item>)
    requires forall s :: s in starts ==> Searched(g, cycles, s)
    requires Visits(g, starts, visited) && forall k :: k in g ==> k in starts || k in visited
    requires SimpleCycle(g, c)
    ensures Covered(cycles, c)
  {
    hide Searched, Covered;
    var v := c[0];
    assert v in g by {
      if |c| > 1 { assert Child(g, c[0], c[0+1]); }
    }
    if v in starts {
      SearchedCovers(g, cycles, v, [v], c);
    } else {
      var s :| s in starts && Reaches(g, s, v);
      var q :| SimplePath(g, q) && q[0] == s && q[|q|-1] == v;
      SearchedCovers(g, cycles, s, q, c);
    }
  }
}
