/** topsort of bindings/python/topsort.py: Kahn's algorithm over a list that grows in its loop. */
module Topsort {
  import opened Common
  import opened Dependencies

  // The list, or the arguments of the CycleError that is raised.
  datatype Outcome = Answer(order: seq<Elem>)
                   | CycleError(answer: seq<Elem>, numParents: map<Elem, nat>, children: map<Elem, seq<Elem>>)

  // The answer is made of different elements, of which exactly the first i are done.
  ghost predicate InTurn(pairs: seq<Pair>, answer: seq<Elem>, i: nat, done: set<Elem>) {
    && i <= |answer| && Distinct(answer)
    && (forall x :: x in answer ==> x in Elements(pairs))
    && (forall j :: 0 <= j < |answer| ==> (answer[j] in done <==> j < i))
    && (forall x :: x in done ==> x in answer)
  }

  // All predecessors of x are in the set.
  ghost predicate Ready(pairs: seq<Pair>, xs: set<Elem>, x: Elem) {
    forall p :: Edge(pairs, p, x) ==> p in xs
  }

  // Every answer is ready.
  ghost predicate AllReady(pairs: seq<Pair>, answer: seq<Elem>, xs: set<Elem>) {
    forall x :: x in answer ==> Ready(pairs, xs, x)
  }

  // Exactly the elements counted down to 0 are in the answer.
  ghost predicate ZeroesAnswered(numParents: map<Elem, nat>, answer: seq<Elem>) {
    forall x :: x in numParents ==> (numParents[x] == 0 <==> x in answer)
  }

  /** Between two elements: the first i are done and no longer count as predecessors. */
  ghost predicate Growing(pairs: seq<Pair>, answer: seq<Elem>, i: nat, done: set<Elem>,
                          numParents: map<Elem, nat>, children: map<Elem, seq<Elem>>)
  {
    && InTurn(pairs, answer, i, done) && ParentsFirst(pairs, answer) && AllReady(pairs, answer, done)
    && Counted(pairs, done, numParents, children) && ZeroesAnswered(numParents, answer)
  }

  // The counts when the first k children of `parent` have been counted down once more.
  ghost predicate Lowered(pairs: seq<Pair>, done: set<Elem>, parent: Elem, k: nat, numParents: map<Elem, nat>) {
    && parent !in done && k <= |ChildrenOf(pairs, parent)|
    && numParents.Keys == Elements(pairs) - (done + {parent})
    && (forall x :: x in numParents ==>
          numParents[x] + multiset(ChildrenOf(pairs, parent)[..k])[x] == Incoming(pairs, x, done))
  }

  /** Inside the loop over the children of answer i. */
  ghost predicate Lowering(pairs: seq<Pair>, answer: seq<Elem>, i: nat, done: set<Elem>, k: nat, numParents: map<Elem, nat>) {
    && i < |answer| && InTurn(pairs, answer, i, done) && ParentsFirst(pairs, answer)
    && AllReady(pairs, answer, done + {answer[i]}) && AllReady(pairs, answer[..i+1], done)
    && Lowered(pairs, done, answer[i], k, numParents) && ZeroesAnswered(numParents, answer)
  }

  method TopsortOf(pairlist: seq<Pair>) returns (r: Outcome)
    ensures r.Answer? <==> !Cyclic(pairlist)
    ensures r.Answer? ==> Sorted(pairlist, r.order)
    ensures r.CycleError? ==> r.numParents != map[] && NoSource(pairlist, r.numParents.Keys)
    ensures r.CycleError? ==> r.numParents.Keys == Elements(pairlist) - (set x | x in r.answer)
    ensures r.CycleError? ==> forall x :: x in r.numParents <==> Trapped(pairlist, x)
  {
    hide Growing, Lowering, Counted, Listed, Sorted, Cyclic, ChildrenOf, NoSource, Trapped;
    var numParents, children := CountParents(pairlist);
    var answer := Sources(numParents);
    Begin(pairlist, answer, numParents, children);
    var i := 0;
    ghost var done := {};
    while i < |answer|
      invariant i <= |answer| && Growing(pairlist, answer, i, done, numParents, children)
      decreases numParents.Keys
    {
      var parent := answer[i];
      ghost var before, counts := numParents.Keys, children;
      BeginLowering(pairlist, answer, i, done, numParents, children);
      numParents := numParents - {parent};
      if parent in children {
        for k := 0 to |children[parent]|
          invariant i < |answer| && answer[i] == parent && numParents.Keys < before
          invariant Lowering(pairlist, answer, i, done, k, numParents)
        {
          var child := children[parent][k];
          LowerOne(pairlist, answer, i, done, k, numParents);
          numParents := numParents[child := numParents[child] - 1];
          if numParents[child] == 0 {
            answer := answer + [child];
          }
        }
        children := children - {parent};
      }
      EndLowering(pairlist, answer, i, done, numParents, counts);
      assert children == counts - {parent};
      done := done + {parent};
      i := i + 1;
    }
    Finish(pairlist, answer, done, numParents, children);
    if numParents != map[] {
      return CycleError(answer, numParents, children);
    }
    return Answer(answer);
  }

  lemma Begin(pairs: seq<Pair>, answer: seq<Elem>, numParents: map<Elem, nat>, children: map<Elem, seq<Elem>>)
    requires Counted(pairs, {}, numParents, children)
    requires Distinct(answer) && forall x :: x in answer <==> x in numParents && numParents[x] == 0
    ensures Growing(pairs, answer, 0, {}, numParents, children)
  {
    forall x, p | x in answer && Edge(pairs, p, x) ensures false {
      IncomingIsEdge(pairs, x, {});
    }
  }

  lemma BeginLowering(pairs: seq<Pair>, answer: seq<Elem>, i: nat, done: set<Elem>, numParents: map<Elem, nat>, children: map<Elem, seq<Elem>>)
    requires i < |answer| && Growing(pairs, answer, i, done, numParents, children)
    ensures Lowering(pairs, answer, i, done, 0, numParents - {answer[i]})
    ensures numParents.Keys - {answer[i]} < numParents.Keys
    ensures ChildrenOf(pairs, answer[i]) == if answer[i] in children then children[answer[i]] else []
    ensures Listed(pairs, done, children)
  {
    hide ParentsFirst, Counted, Listed, Lowered, AllReady, InTurn, ChildrenOf;
    var parent := answer[i];
    NextWaits(pairs, answer, i, done, numParents, children);
    CountedIsLowered(pairs, done, parent, numParents, children);
    MoreReady(pairs, answer, done, done + {parent});
    FewerReady(pairs, answer, i + 1, done);
  }

  lemma NextWaits(pairs: seq<Pair>, answer: seq<Elem>, i: nat, done: set<Elem>, numParents: map<Elem, nat>, children: map<Elem, seq<Elem>>)
    requires i < |answer| && InTurn(pairs, answer, i, done) && Counted(pairs, done, numParents, children)
    ensures answer[i] in numParents && answer[i] !in done
  {
    hide Listed, Incoming;
    assert answer[i] in answer;
  }

  lemma FewerReady(pairs: seq<Pair>, answer: seq<Elem>, n: nat, xs: set<Elem>)
    requires AllReady(pairs, answer, xs) && n <= |answer|
    ensures AllReady(pairs, answer[..n], xs)
  {
    hide Ready;
    assert forall x :: x in answer[..n] ==> x in answer;
  }

  lemma MoreReady(pairs: seq<Pair>, answer: seq<Elem>, xs: set<Elem>, ys: set<Elem>)
    requires AllReady(pairs, answer, xs) && xs <= ys
    ensures AllReady(pairs, answer, ys)
  {
  }

  // A child that is still listed has not been done and has a count to lower.
  lemma ChildWaits(pairs: seq<Pair>, answer: seq<Elem>, i: nat, done: set<Elem>, k: nat, numParents: map<Elem, nat>)
    requires Lowering(pairs, answer, i, done, k, numParents) && k < |ChildrenOf(pairs, answer[i])|
    ensures var child := ChildrenOf(pairs, answer[i])[k]; child in numParents && numParents[child] > 0
  {
    var parent, child := answer[i], ChildrenOf(pairs, answer[i])[k];
    ChildIsEdge(pairs, parent, child);
    EdgeInElements(pairs, parent, child);
    assert child in answer[..i+1] ==> Ready(pairs, done, child);
    DoneIsPrefix(pairs, answer, i, done, child);
    CountWaits(pairs, done, parent, k, numParents);
  }

  lemma CountWaits(pairs: seq<Pair>, done: set<Elem>, parent: Elem, k: nat, numParents: map<Elem, nat>)
    requires Lowered(pairs, done, parent, k, numParents) && k < |ChildrenOf(pairs, parent)|
    requires ChildrenOf(pairs, parent)[k] in numParents
    ensures numParents[ChildrenOf(pairs, parent)[k]] > 0
  {
    var cs := ChildrenOf(pairs, parent);
    IncomingAfter(pairs, cs[k], done, parent);
    PrefixCount(cs, k, cs[k]);
  }

  lemma DoneIsPrefix(pairs: seq<Pair>, answer: seq<Elem>, i: nat, done: set<Elem>, x: Elem)
    requires InTurn(pairs, answer, i, done) && i < |answer|
    ensures x in answer[..i+1] <==> x in done + {answer[i]}
  {
    if x in done {
      var j :| 0 <= j < |answer| && answer[j] == x;
      assert answer[..i+1][j] == x;
    }
    assert answer[..i+1][i] == answer[i];
  }

  lemma PrefixCount(cs: seq<Elem>, k: nat, x: Elem)
    requires k < |cs|
    ensures multiset(cs[..k+1])[x] == multiset(cs[..k])[x] + (if cs[k] == x then 1 else 0)
    ensures multiset(cs[..k+1])[x] <= multiset(cs)[x]
  {
    assert cs[..k+1] == cs[..k] + [cs[k]];
    assert cs == cs[..k+1] + cs[k+1..];
  }

  lemma LowerOne(pairs: seq<Pair>, answer: seq<Elem>, i: nat, done: set<Elem>, k: nat, numParents: map<Elem, nat>)
    requires Lowering(pairs, answer, i, done, k, numParents) && k < |ChildrenOf(pairs, answer[i])|
    ensures var child := ChildrenOf(pairs, answer[i])[k];
            && child in numParents && numParents[child] > 0
            && Lowering(pairs, if numParents[child] == 1 then answer + [child] else answer, i, done, k + 1,
                        numParents[child := numParents[child] - 1])
  {
    var parent, cs := answer[i], ChildrenOf(pairs, answer[i]);
    var child := cs[k];
    ChildWaits(pairs, answer, i, done, k, numParents);
    LowerCounts(pairs, done, parent, k, numParents);
    hide Lowered, Ready, Incoming, ChildrenOf;
    if numParents[child] == 1 {
      LastPredecessor(pairs, done, parent, k, numParents);
      AppendAnswer(pairs, answer, i, done, child);
    }
  }

  lemma LowerCounts(pairs: seq<Pair>, done: set<Elem>, parent: Elem, k: nat, numParents: map<Elem, nat>)
    requires Lowered(pairs, done, parent, k, numParents) && k < |ChildrenOf(pairs, parent)|
    requires var child := ChildrenOf(pairs, parent)[k]; child in numParents && numParents[child] > 0
    ensures var child := ChildrenOf(pairs, parent)[k];
            Lowered(pairs, done, parent, k + 1, numParents[child := numParents[child] - 1])
  {
    hide Incoming;
    var cs := ChildrenOf(pairs, parent);
    forall x ensures multiset(cs[..k+1])[x] == multiset(cs[..k])[x] + (if cs[k] == x then 1 else 0) {
      PrefixCount(cs, k, x);
    }
    hide ChildrenOf;
  }

  /** The count of a child falls to 0 with its last predecessor, when the pair is listed for the
      last time. */
  lemma LastPredecessor(pairs: seq<Pair>, done: set<Elem>, parent: Elem, k: nat, numParents: map<Elem, nat>)
    requires Lowered(pairs, done, parent, k, numParents) && k < |ChildrenOf(pairs, parent)|
    requires ChildrenOf(pairs, parent)[k] in numParents
    ensures var cs := ChildrenOf(pairs, parent);
      numParents[cs[k]] == 1 <==> Ready(pairs, done + {parent}, cs[k]) && cs[k] !in cs[k+1..]
  {
    var cs := ChildrenOf(pairs, parent);
    var child := cs[k];
    assert cs == cs[..k] + [child] + cs[k+1..];
    assert multiset(cs)[child] == multiset(cs[..k])[child] + 1 + multiset(cs[k+1..])[child];
    assert child in cs[k+1..] <==> multiset(cs[k+1..])[child] > 0;
    IncomingAfter(pairs, child, done, parent);
    IncomingIsEdge(pairs, child, done + {parent});
  }

  lemma AppendAnswer(pairs: seq<Pair>, answer: seq<Elem>, i: nat, done: set<Elem>, child: Elem)
    requires i < |answer| && InTurn(pairs, answer, i, done) && ParentsFirst(pairs, answer)
    requires AllReady(pairs, answer, done + {answer[i]}) && AllReady(pairs, answer[..i+1], done)
    requires child !in answer && child in Elements(pairs) && Ready(pairs, done + {answer[i]}, child)
    ensures var answer' := answer + [child];
            && InTurn(pairs, answer', i, done) && ParentsFirst(pairs, answer')
            && AllReady(pairs, answer', done + {answer[i]}) && AllReady(pairs, answer'[..i+1], done)
  {
    var answer' := answer + [child];
    assert answer'[..i+1] == answer[..i+1];
    forall j, p | 0 <= j < |answer'| && Edge(pairs, p, answer'[j]) ensures p in answer'[..j] {
      if j < |answer| {
        assert answer'[..j] == answer[..j];
      } else {
        assert answer'[..j] == answer;
      }
    }
    hide ParentsFirst, Ready;
  }

  lemma EndLowering(pairs: seq<Pair>, answer: seq<Elem>, i: nat, done: set<Elem>, numParents: map<Elem, nat>, children: map<Elem, seq<Elem>>)
    requires i < |answer| && Lowering(pairs, answer, i, done, |ChildrenOf(pairs, answer[i])|, numParents)
    requires Listed(pairs, done, children)
    ensures Growing(pairs, answer, i + 1, done + {answer[i]}, numParents, children - {answer[i]})
  {
    LoweredIsCounted(pairs, done, answer[i], numParents, children);
    hide ParentsFirst, Ready, Counted, Listed, Lowered;
  }

  // When all children have been counted down once more, the parent no longer counts.
  lemma LoweredIsCounted(pairs: seq<Pair>, done: set<Elem>, parent: Elem, numParents: map<Elem, nat>, children: map<Elem, seq<Elem>>)
    requires Lowered(pairs, done, parent, |ChildrenOf(pairs, parent)|, numParents) && Listed(pairs, done, children)
    ensures Counted(pairs, done + {parent}, numParents, children - {parent})
  {
    hide Incoming, ChildrenOf, Listed;
    var cs := ChildrenOf(pairs, parent);
    assert cs[..|cs|] == cs;
    forall x | x in numParents ensures numParents[x] == Incoming(pairs, x, done + {parent}) {
      IncomingAfter(pairs, x, done, parent);
    }
    NoLongerListed(pairs, done, parent, children);
  }

  lemma NoLongerListed(pairs: seq<Pair>, done: set<Elem>, parent: Elem, children: map<Elem, seq<Elem>>)
    requires Listed(pairs, done, children)
    ensures Listed(pairs, done + {parent}, children - {parent})
  {
    hide ChildrenOf;
  }

  lemma CountedIsLowered(pairs: seq<Pair>, done: set<Elem>, parent: Elem, numParents: map<Elem, nat>, children: map<Elem, seq<Elem>>)
    requires Counted(pairs, done, numParents, children) && parent in numParents
    ensures Lowered(pairs, done, parent, 0, numParents - {parent}) && Listed(pairs, done, children)
    ensures numParents.Keys - {parent} < numParents.Keys
    ensures ChildrenOf(pairs, parent) == if parent in children then children[parent] else []
  {
    hide Incoming, ChildrenOf;
    assert ChildrenOf(pairs, parent)[..0] == [];
  }

  lemma Finish(pairs: seq<Pair>, answer: seq<Elem>, done: set<Elem>, numParents: map<Elem, nat>, children: map<Elem, seq<Elem>>)
    requires Growing(pairs, answer, |answer|, done, numParents, children)
    ensures numParents.Keys == Elements(pairs) - (set x | x in answer)
    ensures numParents == map[] ==> Sorted(pairs, answer) && !Cyclic(pairs)
    ensures numParents != map[] ==> NoSource(pairs, numParents.Keys) && Cyclic(pairs)
    ensures numParents != map[] ==> forall x :: x in numParents <==> Trapped(pairs, x)
  {
    hide Sorted, NoSource, Cyclic, Incoming, Listed, Trapped;
    forall x ensures x in done <==> x in answer {
      if x in answer {
        var j :| 0 <= j < |answer| && answer[j] == x;
      }
    }
    if numParents == map[] {
      assert Elements(pairs) - done == {};
      FirstIsSorted(pairs, answer);
    } else {
      LeftHasNoSource(pairs, done, numParents, children);
      LeftoverIsTrapped(pairs, answer, numParents.Keys);
    }
  }

  lemma FirstIsSorted(pairs: seq<Pair>, answer: seq<Elem>)
    requires Distinct(answer) && ParentsFirst(pairs, answer) && forall x :: x in answer <==> x in Elements(pairs)
    ensures Sorted(pairs, answer) && !Cyclic(pairs)
  {
    forall j, k | 0 <= j < |answer| && 0 <= k < |answer| && Edge(pairs, answer[j], answer[k]) ensures j < k {
      var l :| 0 <= l < k && answer[l] == answer[j];
    }
    hide Cyclic;
    SortedIsAcyclic(pairs, answer);
  }

  // With no count at 0, whatever is left has a predecessor left.
  lemma LeftHasNoSource(pairs: seq<Pair>, done: set<Elem>, numParents: map<Elem, nat>, children: map<Elem, seq<Elem>>)
    requires Counted(pairs, done, numParents, children) && numParents != map[]
    requires forall x :: x in numParents ==> numParents[x] > 0
    ensures NoSource(pairs, numParents.Keys) && Cyclic(pairs)
  {
    hide NoSource, Incoming, Listed, IsCycle;
    assert NoSource(pairs, numParents.Keys) by { LeftHaveParents(pairs, done, numParents, children); }
    var y :| y in numParents.Keys;
    var c := LeftoverCycle(pairs, numParents.Keys, y);
  }

  lemma LeftHaveParents(pairs: seq<Pair>, done: set<Elem>, numParents: map<Elem, nat>, children: map<Elem, seq<Elem>>)
    requires Counted(pairs, done, numParents, children) && forall x :: x in numParents ==> numParents[x] > 0
    ensures NoSource(pairs, numParents.Keys)
  {
    hide Incoming, Listed;
    forall x | x in numParents.Keys ensures HasParentIn(pairs, numParents.Keys, x) {
      IncomingIsEdge(pairs, x, done);
      var p :| Edge(pairs, p, x) && p !in done;
      EdgeInElements(pairs, p, x);
    }
  }

  // [x for x in num_parents.keys() if num_parents[x] == 0], in some order.
  method Sources(numParents: map<Elem, nat>) returns (s: seq<Elem>)
    ensures Distinct(s)
    ensures forall x :: x in s <==> x in numParents && numParents[x] == 0
  {
    s := [];
    var todo := numParents.Keys;
    while todo != {}
      invariant todo <= numParents.Keys
      invariant Distinct(s)
      invariant forall x :: x in s <==> x in numParents.Keys - todo && numParents[x] == 0
    {
      var x :| x in todo;
      if numParents[x] == 0 {
        s := s + [x];
      }
      todo := todo - {x};
    }
  }
}
