/** All rearrangements of a list: permutations of bindings/python/rad_util.py. */
module Permutations {
  import opened Common

  type Item(==, !new)

  function Inserted(s: seq<Item>, i: nat, x: Item): seq<Item>
    requires i <= |s|
  {
    s[..i] + [x] + s[i..]
  }

  // x inserted into sub at each of its first n places.
  function AtEach(sub: seq<Item>, x: Item, n: nat): seq<seq<Item>>
    requires n <= |sub| + 1
  {
    if n == 0 then [] else AtEach(sub, x, n - 1) + [Inserted(sub, n - 1, x)]
  }

  predicate AllOfLength(subs: seq<seq<Item>>, n: nat) {
    forall k :: 0 <= k < |subs| ==> |subs[k]| == n
  }

  function AtEachOfAll(subs: seq<seq<Item>>, x: Item, n: nat): seq<seq<Item>>
    requires AllOfLength(subs, n)
  {
    if subs == [] then [] else AtEachOfAll(subs[..|subs|-1], x, n) + AtEach(subs[|subs|-1], x, n + 1)
  }

  function Permuted(s: seq<Item>): (r: seq<seq<Item>>)
    ensures AllOfLength(r, |s|)
  {
    if |s| > 1 then
      var subs := Permuted(s[1..]);
      AtEachOfAllLengths(subs, s[0], |s| - 1);
      AtEachOfAll(subs, s[0], |s| - 1)
    else [s]
  }

  lemma {:induction false} AtEachIs(sub: seq<Item>, x: Item, n: nat)
    requires n <= |sub| + 1
    ensures |AtEach(sub, x, n)| == n && forall i :: 0 <= i < n ==> AtEach(sub, x, n)[i] == Inserted(sub, i, x)
  {
    if n > 0 { AtEachIs(sub, x, n - 1); }
  }

  lemma {:induction false} AtEachOfAllLengths(subs: seq<seq<Item>>, x: Item, n: nat)
    requires AllOfLength(subs, n)
    ensures AllOfLength(AtEachOfAll(subs, x, n), n + 1)
  {
    if subs != [] {
      AtEachOfAllLengths(subs[..|subs|-1], x, n);
      AtEachIs(subs[|subs|-1], x, n + 1);
    }
  }

  lemma AtEachOfAllSnoc(subs: seq<seq<Item>>, sub: seq<Item>, x: Item, n: nat)
    requires AllOfLength(subs, n) && |sub| == n
    ensures AllOfLength(subs + [sub], n)
    ensures AtEachOfAll(subs + [sub], x, n) == AtEachOfAll(subs, x, n) + AtEach(sub, x, n + 1)
  {
    assert (subs + [sub])[..|subs|] == subs;
  }

  lemma PermutedUnfold(s: seq<Item>)
    requires |s| > 1
    ensures Permuted(s) == AtEachOfAll(Permuted(s[1..]), s[0], |s| - 1)
  {
  }

  /** The nested loops insert the first item at every place of every permutation of the rest. */
  method Permutations(input: seq<Item>) returns (out: seq<seq<Item>>)
    ensures out == Permuted(input)
    decreases |input|
  {
    hide Inserted;
    out := [];
    if |input| > 1 {
      var item := input[0];
      var subs := Permutations(input[1..]);
      for k := 0 to |subs|
        invariant AllOfLength(subs[..k], |input| - 1) && out == AtEachOfAll(subs[..k], item, |input| - 1)
      {
        ghost var before := out;
        AtEachOfAllSnoc(subs[..k], subs[k], item, |input| - 1);
        assert subs[..k + 1] == subs[..k] + [subs[k]];
        for i := 0 to |input|
          invariant out == before + AtEach(subs[k], item, i)
        {
          out := out + [Inserted(subs[k], i, item)];
        }
      }
      assert subs[..|subs|] == subs;
    } else {
      out := [input];
    }
  }

  /* How many. */

  function Factorial(n: nat): nat { if n == 0 then 1 else n * Factorial(n - 1) }

  lemma {:induction false} AtEachOfAllCount(subs: seq<seq<Item>>, x: Item, n: nat)
    requires AllOfLength(subs, n)
    ensures |AtEachOfAll(subs, x, n)| == |subs| * (n + 1)
  {
    if subs == [] {
    } else {
      hide AtEach, Inserted;
      var front := subs[..|subs|-1];
      AtEachOfAllCount(front, x, n);
      AtEachIs(subs[|subs|-1], x, n + 1);
      OneMoreRow(|front|, n + 1);
    }
  }

  lemma OneMoreRow(m: nat, n: nat)
    ensures m * n + n == (m + 1) * n
  {
  }

  /** There are n! lists. */
  lemma {:induction false} PermutedCount(s: seq<Item>)
    ensures |Permuted(s)| == Factorial(|s|)
  {
    if |s| > 1 {
      PermutedCount(s[1..]);
      AtEachOfAllCount(Permuted(s[1..]), s[0], |s| - 1);
    } else if |s| == 1 {
      assert Factorial(1) == 1 * Factorial(0);
    }
  }

  /* Which. */

  // Where an item of AtEachOfAll comes from, and that all these are there.
  lemma {:induction false} AtEachOfAllHas(subs: seq<seq<Item>>, x: Item, n: nat, p: seq<Item>)
    requires AllOfLength(subs, n)
    ensures p in AtEachOfAll(subs, x, n) <==> exists k: nat, i: nat :: Comes(subs, x, k, i, p)
  {
    if subs != [] {
      var front, last := subs[..|subs|-1], subs[|subs|-1];
      AtEachOfAllHas(front, x, n, p);
      AtEachIs(last, x, n + 1);
      var here := AtEach(last, x, n + 1);
      if p in here {
        var i :| 0 <= i < n + 1 && p == here[i];
        assert Comes(subs, x, |subs| - 1, i, p);
      }
      if k: nat, i: nat :| Comes(front, x, k, i, p) {
        assert Comes(subs, x, k, i, p);
      }
      if k: nat, i: nat :| Comes(subs, x, k, i, p) {
        if k == |subs| - 1 { assert p == here[i]; } else { assert Comes(front, x, k, i, p); }
      }
    }
  }

  ghost predicate Comes(subs: seq<seq<Item>>, x: Item, k: nat, i: nat, p: seq<Item>) {
    k < |subs| && i <= |subs[k]| && p == Inserted(subs[k], i, x)
  }

  lemma InsertedItems(s: seq<Item>, i: nat, x: Item)
    requires i <= |s|
    ensures multiset(Inserted(s, i, x)) == multiset(s) + multiset{x}
    ensures Inserted(s, i, x)[i] == x && Inserted(s, i, x)[..i] + Inserted(s, i, x)[i + 1..] == s
  {
    assert s == s[..i] + s[i..];
  }

  lemma Removed(p: seq<Item>, i: nat)
    requires i < |p|
    ensures multiset(p[..i] + p[i + 1..]) == multiset(p) - multiset{p[i]}
    ensures Inserted(p[..i] + p[i + 1..], i, p[i]) == p
  {
    assert p == p[..i] + [p[i]] + p[i + 1..];
  }

  lemma SameItemsShort(p: seq<Item>, s: seq<Item>)
    requires |s| <= 1 && multiset(p) == multiset(s)
    ensures p == s
  {
    assert |multiset(p)| == |p| && |multiset(s)| == |s|;
    if |s| == 1 { assert p[0] in multiset(p); }
  }

  // One list, from a permutation of the rest.
  lemma PermutedFrom(s: seq<Item>, p: seq<Item>)
    requires |s| > 1
    ensures p in Permuted(s) <==> exists k: nat, i: nat :: Comes(Permuted(s[1..]), s[0], k, i, p)
  {
    PermutedUnfold(s);
    AtEachOfAllHas(Permuted(s[1..]), s[0], |s| - 1, p);
  }

  lemma ComesItems(s: seq<Item>, k: nat, i: nat, p: seq<Item>)
    requires |s| > 1 && Comes(Permuted(s[1..]), s[0], k, i, p)
    requires multiset(Permuted(s[1..])[k]) == multiset(s[1..])
    ensures multiset(p) == multiset(s)
  {
    hide Permuted;
    InsertedItems(Permuted(s[1..])[k], i, s[0]);
    assert s == [s[0]] + s[1..];
  }

  lemma {:induction false} RearrangedComes(s: seq<Item>, p: seq<Item>) returns (i: nat)
    requires |s| > 1 && multiset(p) == multiset(s)
    ensures i < |p| && multiset(p[..i] + p[i + 1..]) == multiset(s[1..])
    ensures Inserted(p[..i] + p[i + 1..], i, s[0]) == p
  {
    assert s == [s[0]] + s[1..];
    assert s[0] in multiset(p);
    i :| 0 <= i < |p| && p[i] == s[0];
    Removed(p, i);
  }

  /** The lists returned are exactly the rearrangements of the input. */
  lemma {:induction false} PermutedAre(s: seq<Item>, p: seq<Item>)
    ensures p in Permuted(s) <==> multiset(p) == multiset(s)
    decreases |s|
  {
    if |s| <= 1 {
      if multiset(p) == multiset(s) { SameItemsShort(p, s); }
    } else {
      hide Permuted, Inserted;
      var x, tail, subs := s[0], s[1..], Permuted(s[1..]);
      PermutedFrom(s, p);
      if p in Permuted(s) {
        var k: nat, i: nat :| Comes(subs, x, k, i, p);
        PermutedAre(tail, subs[k]);
        ComesItems(s, k, i, p);
      }
      if multiset(p) == multiset(s) {
        var i := RearrangedComes(s, p);
        var sub := p[..i] + p[i + 1..];
        PermutedAre(tail, sub);
        var k :| 0 <= k < |subs| && subs[k] == sub;
        assert Comes(subs, x, k, i, p);
      }
    }
  }

  /* How often. */

  lemma DistinctJoin<X>(a: seq<X>, b: seq<X>)
    ensures Distinct(a + b) <==> Distinct(a) && Distinct(b) && forall i, j :: 0 <= i < |a| && 0 <= j < |b| ==> a[i] != b[j]
  {
    var q := a + b;
    if Distinct(q) {
      assert forall i, j :: 0 <= i < j < |b| ==> q[|a| + i] == b[i] && q[|a| + j] == b[j];
      forall i, j | 0 <= i < |a| && 0 <= j < |b| ensures a[i] != b[j] {
        assert q[i] == a[i] && q[|a| + j] == b[j];
      }
      assert forall i, j :: 0 <= i < j < |a| ==> q[i] == a[i] && q[j] == a[j];
    }
  }

  lemma InsertedOnce(a: seq<Item>, i: nat, b: seq<Item>, j: nat, x: Item)
    requires |a| == |b| && i <= |a| && j <= |b| && x !in a && x !in b
    ensures Inserted(a, i, x) == Inserted(b, j, x) ==> i == j && a == b
  {
    InsertedItems(a, i, x);
    InsertedItems(b, j, x);
    if i < j { assert Inserted(b, j, x)[i] == b[i]; }
    if j < i { assert Inserted(a, i, x)[j] == a[j]; }
  }

  lemma AtEachDistinct(sub: seq<Item>, x: Item, n: nat)
    requires n <= |sub| + 1 && x !in sub
    ensures Distinct(AtEach(sub, x, n))
  {
    AtEachIs(sub, x, n);
    forall i, j | 0 <= i < j < n ensures AtEach(sub, x, n)[i] != AtEach(sub, x, n)[j] {
      InsertedOnce(sub, i, sub, j, x);
    }
  }

  lemma {:induction false} AtEachOfAllDistinct(subs: seq<seq<Item>>, x: Item, n: nat)
    requires AllOfLength(subs, n) && Distinct(subs) && forall k :: 0 <= k < |subs| ==> x !in subs[k]
    ensures Distinct(AtEachOfAll(subs, x, n))
  {
    if subs != [] {
      hide AtEach, Inserted;
      var front, last := subs[..|subs|-1], subs[|subs|-1];
      AtEachOfAllDistinct(front, x, n);
      AtEachDistinct(last, x, n + 1);
      var a, b := AtEachOfAll(front, x, n), AtEach(last, x, n + 1);
      forall i, j | 0 <= i < |a| && 0 <= j < |b| ensures a[i] != b[j] {
        Apart(front, last, x, n, i, j);
      }
      DistinctJoin(a, b);
    }
  }

  lemma Apart(front: seq<seq<Item>>, last: seq<Item>, x: Item, n: nat, i: nat, j: nat)
    requires AllOfLength(front, n) && |last| == n && x !in last && last !in front
    requires forall k :: 0 <= k < |front| ==> x !in front[k]
    requires i < |AtEachOfAll(front, x, n)| && j < |AtEach(last, x, n + 1)|
    ensures AtEachOfAll(front, x, n)[i] != AtEach(last, x, n + 1)[j]
  {
    var p := AtEachOfAll(front, x, n)[i];
    AtEachOfAllHas(front, x, n, p);
    AtEachIs(last, x, n + 1);
    var k: nat, m: nat :| Comes(front, x, k, m, p);
    InsertedOnce(front[k], m, last, j, x);
  }

  lemma InsertedTwice(sub: seq<Item>, x: Item, i: nat)
    requires i < |sub| && sub[i] == x
    ensures Inserted(sub, i, x) == Inserted(sub, i + 1, x)
  {
    assert sub[..i + 1] == sub[..i] + [x] && sub[i..] == [x] + sub[i + 1..];
  }

  // An item that occurs again gives some list twice.
  lemma AtEachRepeats(sub: seq<Item>, x: Item, i: nat)
    requires i < |sub| && sub[i] == x
    ensures !Distinct(AtEach(sub, x, |sub| + 1))
  {
    hide Inserted, AtEach;
    AtEachIs(sub, x, |sub| + 1);
    InsertedTwice(sub, x, i);
    var q := AtEach(sub, x, |sub| + 1);
    assert q[i] == q[i + 1];
  }

  lemma {:induction false} AtEachOfAllRepeats(subs: seq<seq<Item>>, x: Item, n: nat)
    requires AllOfLength(subs, n) && subs != []
    requires !Distinct(subs) || x in subs[0]
    ensures !Distinct(AtEachOfAll(subs, x, n))
  {
    var front, last := subs[..|subs|-1], subs[|subs|-1];
    var a, b := AtEachOfAll(front, x, n), AtEach(last, x, n + 1);
    DistinctJoin(a, b);
    DistinctJoin(front, [last]);
    assert subs == front + [last];
    if |subs| == 1 {
      if x in last {
        var i :| 0 <= i < |last| && last[i] == x;
        AtEachRepeats(last, x, i);
      }
    } else if !Distinct(front) || x in subs[0] {
      AtEachOfAllRepeats(front, x, n);
    } else {
      var k :| 0 <= k < |front| && front[k] == last;
      RepeatsAcross(front, k, x, n);
    }
  }

  // A list that occurs again gives, with x in front of it, a list that occurs again.
  lemma RepeatsAcross(front: seq<seq<Item>>, k: nat, x: Item, n: nat)
    requires AllOfLength(front, n) && k < |front|
    ensures var a, b := AtEachOfAll(front, x, n), AtEach(front[k], x, n + 1);
      exists i, j :: 0 <= i < |a| && 0 <= j < |b| && a[i] == b[j]
  {
    hide Inserted;
    var last := front[k];
    var p := Inserted(last, 0, x);
    assert Comes(front, x, k, 0, p);
    AtEachOfAllHas(front, x, n, p);
    AtEachIs(last, x, n + 1);
    var a, b := AtEachOfAll(front, x, n), AtEach(last, x, n + 1);
    assert b[0] == p;
    var i :| 0 <= i < |a| && a[i] == p;
  }

  lemma SomePermuted(s: seq<Item>)
    ensures Permuted(s) != []
  {
    PermutedAre(s, s);
  }

  /** Each rearrangement is returned once if and only if no item of the input is repeated. */
  lemma {:induction false} PermutedOnce(s: seq<Item>)
    ensures Distinct(Permuted(s)) <==> Distinct(s)
    decreases |s|
  {
    if |s| > 1 {
      var x, tail, subs := s[0], s[1..], Permuted(s[1..]);
      PermutedOnce(tail);
      SomePermuted(tail);
      DistinctJoin([x], tail);
      assert s == [x] + tail;
      forall k | 0 <= k < |subs| ensures x in subs[k] <==> x in tail {
        PermutedAre(tail, subs[k]);
        SameMembers(subs[k], tail, x);
      }
      if Distinct(s) {
        assert x !in tail;
        AtEachOfAllDistinct(subs, x, |s| - 1);
      } else {
        assert !Distinct(tail) || x in tail;
        AtEachOfAllRepeats(subs, x, |s| - 1);
      }
    }
  }

  lemma SameMembers(a: seq<Item>, b: seq<Item>, x: Item)
    requires multiset(a) == multiset(b)
    ensures x in a <==> x in b
  {
    assert x in a <==> x in multiset(a);
    assert x in b <==> x in multiset(b);
  }
}
