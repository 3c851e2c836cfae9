/** topsort_levels of bindings/python/topsort.py: the same sort, one dependency level at a time. */
module TopsortLevels {
  import opened Common
  import opened Dependencies
  import opened Topsort

  // x ends a chain of n predecessor steps.
  ghost predicate HasChain(pairs: seq<Pair>, n: nat, x: Elem) {
    if n == 0 then x in Elements(pairs) else exists p :: Edge(pairs, p, x) && HasChain(pairs, n - 1, p)
  }

  lemma {:induction false} ShorterChain(pairs: seq<Pair>, n: nat, x: Elem)
    requires HasChain(pairs, n + 1, x)
    ensures HasChain(pairs, n, x)
  {
    var p :| Edge(pairs, p, x) && HasChain(pairs, n, p);
    if n == 0 {
      EdgeInElements(pairs, p, x);
    } else {
      ShorterChain(pairs, n - 1, p);
    }
  }

  /** The longest predecessor chain of x has length n. */
  ghost predicate OnLevel(pairs: seq<Pair>, n: nat, x: Elem) {
    HasChain(pairs, n, x) && !HasChain(pairs, n + 1, x)
  }

  ghost predicate IsLevel(pairs: seq<Pair>, n: nat, level: seq<Elem>) {
    Distinct(level) && level != [] && forall x :: x in level <==> OnLevel(pairs, n, x)
  }

  function Flatten(levels: seq<seq<Elem>>): seq<Elem> {
    if levels == [] then [] else Flatten(levels[..|levels|-1]) + levels[|levels|-1]
  }

  // n levels have been taken off: the elements done are those with no chain of length n.
  ghost predicate Peeled(pairs: seq<Pair>, n: nat, done: set<Elem>) {
    forall x :: x in done <==> x in Elements(pairs) && !HasChain(pairs, n, x)
  }

  // All predecessors of elements done are done.
  ghost predicate Closed(pairs: seq<Pair>, done: set<Elem>) {
    forall x :: x in done ==> Ready(pairs, done, x)
  }

  ghost predicate Ordered(pairs: seq<Pair>, order: seq<Elem>, done: set<Elem>) {
    Distinct(order) && ParentsFirst(pairs, order) && forall x :: x in order <==> x in done
  }

  method TopsortLevelsOf(pairlist: seq<Pair>) returns (levels: seq<seq<Elem>>, raised: bool, numParents: map<Elem, nat>)
    ensures raised <==> Cyclic(pairlist)
    ensures forall n :: 0 <= n < |levels| ==> IsLevel(pairlist, n, levels[n])
    ensures !raised ==> Sorted(pairlist, Flatten(levels))
    ensures forall n: nat, x :: OnLevel(pairlist, n, x) ==> n < |levels|
    ensures raised ==> numParents != map[] && NoSource(pairlist, numParents.Keys)
    ensures raised ==> forall x :: x in numParents <==> Trapped(pairlist, x)
  {
    hide Counted, HasChain, Sorted, Cyclic, NoSource, Listed, Ordered, Closed, Peeled, IsLevel, OnLevel, Trapped;
    var children;
    numParents, children := CountParents(pairlist);
    levels := [];
    ghost var done := {};
    StartLevels(pairlist);
    while true
      invariant Counted(pairlist, done, numParents, children) && done <= Elements(pairlist)
      invariant Peeled(pairlist, |levels|, done) && Closed(pairlist, done) && Ordered(pairlist, Flatten(levels), done)
      invariant forall n :: 0 <= n < |levels| ==> IsLevel(pairlist, n, levels[n])
      decreases numParents.Keys
    {
      var level := Sources(numParents);
      if level == [] {
        break;
      }
      LevelReady(pairlist, |levels|, done, numParents, children, level);
      PeelLevel(pairlist, |levels|, done, numParents, children, level);
      OrderLevel(pairlist, Flatten(levels), done, level);
      assert (levels + [level])[..|levels|] == levels;
      levels := levels + [level];
      numParents, children := TakeLevel(pairlist, done, level, numParents, children);
      done := done + (set x | x in level);
    }
    raised := numParents != map[];
    EndLevels(pairlist, Flatten(levels), done, numParents, children);
    forall n: nat, x | OnLevel(pairlist, n, x) ensures n < |levels| {
      NoLevelMissed(pairlist, |levels|, done, numParents, children, n, x);
    }
  }

  lemma {:induction false} ShorterChains(pairs: seq<Pair>, m: nat, n: nat, x: Elem)
    requires HasChain(pairs, n, x) && m <= n
    ensures HasChain(pairs, m, x)
  {
    hide HasChain;
    if m < n {
      ShorterChain(pairs, n - 1, x);
      ShorterChains(pairs, m, n - 1, x);
    }
  }

  // Without a source there are chains of any length.
  lemma {:induction false} EndlessChains(pairs: seq<Pair>, left: set<Elem>, n: nat, x: Elem)
    requires NoSource(pairs, left) && left <= Elements(pairs) && x in left
    ensures HasChain(pairs, n, x)
  {
    if n > 0 {
      assert HasParentIn(pairs, left, x);
      var p :| p in left && Edge(pairs, p, x);
      EndlessChains(pairs, left, n - 1, p);
    }
  }

  // Every level there is has been taken off when the loop ends.
  lemma NoLevelMissed(pairs: seq<Pair>, count: nat, done: set<Elem>, numParents: map<Elem, nat>, children: map<Elem, seq<Elem>>,
                      n: nat, x: Elem)
    requires Counted(pairs, done, numParents, children) && Peeled(pairs, count, done) && OnLevel(pairs, n, x)
    requires numParents != map[] ==> NoSource(pairs, numParents.Keys)
    ensures n < count
  {
    hide HasChain, NoSource, Listed, Incoming;
    ChainInElements(pairs, n, x);
    if x in done {
      if count <= n { ShorterChains(pairs, count, n, x); }
    } else {
      assert x in numParents.Keys;
      EndlessChains(pairs, numParents.Keys, n + 1, x);
    }
  }

  lemma StartLevels(pairs: seq<Pair>)
    ensures Peeled(pairs, 0, {}) && Closed(pairs, {}) && Ordered(pairs, Flatten([]), {})
  {
  }

  // The elements whose count is 0 are waiting for no one.
  ghost predicate Sourced(pairs: seq<Pair>, done: set<Elem>, level: seq<Elem>) {
    forall x :: x in level ==> x !in done && x in Elements(pairs) && Ready(pairs, done, x)
  }

  lemma LevelReady(pairs: seq<Pair>, n: nat, done: set<Elem>, numParents: map<Elem, nat>, children: map<Elem, seq<Elem>>, level: seq<Elem>)
    requires Counted(pairs, done, numParents, children) && forall x :: x in level <==> x in numParents && numParents[x] == 0
    ensures Sourced(pairs, done, level)
    ensures forall x :: x in Elements(pairs) && x !in done && x !in level ==> exists p :: Edge(pairs, p, x) && p !in done
  {
    forall x | x in Elements(pairs) && x !in done
      ensures x in level ==> Ready(pairs, done, x)
      ensures x !in level ==> exists p :: Edge(pairs, p, x) && p !in done
    {
      IncomingIsEdge(pairs, x, done);
    }
  }

  /** Level n holds exactly the elements whose longest predecessor chain has length n. */
  lemma PeelLevel(pairs: seq<Pair>, n: nat, done: set<Elem>, numParents: map<Elem, nat>, children: map<Elem, seq<Elem>>, level: seq<Elem>)
    requires Sourced(pairs, done, level) && Distinct(level) && level != []
    requires forall x :: x in Elements(pairs) && x !in done && x !in level ==> exists p :: Edge(pairs, p, x) && p !in done
    requires Peeled(pairs, n, done) && Closed(pairs, done)
    ensures IsLevel(pairs, n, level) && Peeled(pairs, n + 1, done + set x | x in level) && Closed(pairs, done + set x | x in level)
  {
    forall x ensures x in level <==> OnLevel(pairs, n, x) {
      LevelMember(pairs, n, done, level, x);
    }
    forall x ensures x in done + (set y | y in level) <==> x in Elements(pairs) && !HasChain(pairs, n + 1, x) {
      LevelMember(pairs, n, done, level, x);
      if HasChain(pairs, n + 1, x) { ShorterChain(pairs, n, x); }
    }
    var more := done + set y | y in level;
    forall x | x in more ensures Ready(pairs, more, x) {
      assert Ready(pairs, done, x);
    }
  }

  lemma LevelMember(pairs: seq<Pair>, n: nat, done: set<Elem>, level: seq<Elem>, x: Elem)
    requires Sourced(pairs, done, level) && Peeled(pairs, n, done) && Closed(pairs, done)
    requires forall y :: y in Elements(pairs) && y !in done && y !in level ==> exists p :: Edge(pairs, p, y) && p !in done
    ensures x in level <==> OnLevel(pairs, n, x)
    ensures x in level ==> x in Elements(pairs)
  {
    if x in level {
      assert Ready(pairs, done, x);
      forall p | Edge(pairs, p, x) ensures !HasChain(pairs, n, p) {
        assert p in done;
      }
    } else if x in Elements(pairs) && x !in done {
      var p :| Edge(pairs, p, x) && p !in done;
      EdgeInElements(pairs, p, x);
      assert HasChain(pairs, n, p);
    } else if HasChain(pairs, n, x) {
      ChainInElements(pairs, n, x);
    }
  }

  lemma ChainInElements(pairs: seq<Pair>, n: nat, x: Elem)
    requires HasChain(pairs, n, x)
    ensures x in Elements(pairs)
  {
    if n > 0 {
      var p :| Edge(pairs, p, x) && HasChain(pairs, n - 1, p);
      EdgeInElements(pairs, p, x);
    }
  }

  lemma OrderLevel(pairs: seq<Pair>, order: seq<Elem>, done: set<Elem>, level: seq<Elem>)
    requires Ordered(pairs, order, done) && Sourced(pairs, done, level) && Distinct(level)
    ensures Ordered(pairs, order + level, done + set x | x in level)
  {
    var all := order + level;
    forall j, p | 0 <= j < |all| && Edge(pairs, p, all[j]) ensures p in all[..j] {
      if j < |order| {
        assert all[..j] == order[..j];
      } else {
        assert all[j] in level && Ready(pairs, done, all[j]);
        assert all[..j] == order + level[..j-|order|];
      }
    }
    forall j, k | 0 <= j < k < |all| ensures all[j] != all[k] {
      if j < |order| <= k {
        assert order[j] in order && level[k-|order|] in level;
      }
    }
  }

  // The loop over one level: its elements are deleted and their children counted down.
  method TakeLevel(ghost pairs: seq<Pair>, ghost done: set<Elem>, level: seq<Elem>, numParents0: map<Elem, nat>, children0: map<Elem, seq<Elem>>)
    returns (numParents: map<Elem, nat>, children: map<Elem, seq<Elem>>)
    requires Counted(pairs, done, numParents0, children0) && Sourced(pairs, done, level) && Distinct(level) && Closed(pairs, done)
    ensures Counted(pairs, done + (set x | x in level), numParents, children)
    ensures level != [] ==> numParents.Keys < numParents0.Keys
  {
    hide Counted, Listed, ChildrenOf, Lowered, Sourced, Closed;
    numParents, children := numParents0, children0;
    ghost var gone := done;
    for m := 0 to |level|
      invariant gone == done + set x | x in level[..m]
      invariant Counted(pairs, gone, numParents, children)
      invariant numParents.Keys <= numParents0.Keys && (m > 0 ==> numParents.Keys < numParents0.Keys)
    {
      var levelParent := level[m];
      ghost var counts, before := children, numParents.Keys;
      StillCounted(pairs, done, gone, level, m, numParents, children);
      CountedIsLowered(pairs, gone, levelParent, numParents, children);
      numParents := numParents - {levelParent};
      if levelParent in children {
        for k := 0 to |children[levelParent]|
          invariant Lowered(pairs, gone, levelParent, k, numParents) && numParents.Keys < before
        {
          var child := children[levelParent][k];
          ChildBelow(pairs, done, gone, level, m, k, numParents);
          CountWaits(pairs, gone, levelParent, k, numParents);
          LowerCounts(pairs, gone, levelParent, k, numParents);
          numParents := numParents[child := numParents[child] - 1];
        }
        children := children - {levelParent};
      }
      LoweredIsCounted(pairs, gone, levelParent, numParents, counts);
      assert children == counts - {levelParent};
      gone := gone + {levelParent};
      assert level[..m+1] == level[..m] + [levelParent];
    }
    assert level[..|level|] == level;
  }

  lemma StillCounted(pairs: seq<Pair>, done: set<Elem>, gone: set<Elem>, level: seq<Elem>, m: nat, numParents: map<Elem, nat>,
                     children: map<Elem, seq<Elem>>)
    requires Counted(pairs, gone, numParents, children) && Sourced(pairs, done, level) && Distinct(level)
    requires m < |level| && gone == done + set x | x in level[..m]
    ensures level[m] in numParents
  {
    assert level[m] in level;
    assert forall j :: 0 <= j < m ==> level[j] != level[m];
  }

  // A child of a level element is below the level: neither done nor on it.
  lemma ChildBelow(pairs: seq<Pair>, done: set<Elem>, gone: set<Elem>, level: seq<Elem>, m: nat, k: nat, numParents: map<Elem, nat>)
    requires m < |level| && gone == done + set x | x in level[..m]
    requires Lowered(pairs, gone, level[m], k, numParents) && Sourced(pairs, done, level) && Closed(pairs, done)
    requires k < |ChildrenOf(pairs, level[m])|
    ensures ChildrenOf(pairs, level[m])[k] in numParents
  {
    var parent, child := level[m], ChildrenOf(pairs, level[m])[k];
    ChildIsEdge(pairs, parent, child);
    EdgeInElements(pairs, parent, child);
    assert parent in level && parent !in done;
    assert child in level || child in done ==> Ready(pairs, done, child);
  }

  lemma EndLevels(pairs: seq<Pair>, order: seq<Elem>, done: set<Elem>, numParents: map<Elem, nat>, children: map<Elem, seq<Elem>>)
    requires Counted(pairs, done, numParents, children) && Ordered(pairs, order, done) && done <= Elements(pairs)
    requires forall x :: x in numParents ==> numParents[x] > 0
    ensures numParents == map[] ==> Sorted(pairs, order) && !Cyclic(pairs)
    ensures numParents != map[] ==> NoSource(pairs, numParents.Keys) && Cyclic(pairs)
    ensures numParents != map[] ==> forall x :: x in numParents <==> Trapped(pairs, x)
  {
    hide Sorted, NoSource, Cyclic, Trapped;
    if numParents == map[] {
      assert Elements(pairs) - done == {};
      FirstIsSorted(pairs, order);
    } else {
      LeftHasNoSource(pairs, done, numParents, children);
      LeftoverIsTrapped(pairs, order, numParents.Keys);
    }
  }
}
