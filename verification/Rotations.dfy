/** is_rotated of bindings/python/rad_util.py. */
module Rotations {

  function Rotate<T>(s: seq<T>, k: nat): (r: seq<T>)
    requires k <= |s|
    ensures |r| == |s|
  {
    s[k..] + s[..k]
  }

  ghost predicate IsRotation<T>(s: seq<T>, t: seq<T>) {
    exists k :: 0 <= k <= |s| && Rotate(s, k) == t
  }

  /** Decides rotation exactly. Two empty sequences have no head to look for: there the
      program fails. */
  method IsRotated<T(==)>(seq1: seq<T>, seq2: seq<T>) returns (r: bool)
    requires seq1 != [] || seq2 != []
    ensures r <==> IsRotation(seq1, seq2)
  {
    if |seq1| != |seq2| {
      return false;
    }
    var startIndexes: seq<nat> := [];
    var headItem := seq2[0];
    for index1 := 0 to |seq1|
      invariant forall j :: j in startIndexes <==> 0 <= j < index1 && seq1[j] == headItem
    {
      if seq1[index1] == headItem {
        startIndexes := startIndexes + [index1];
      }
    }
    var doubleSeq1 := seq1 + seq1;
    for n := 0 to |startIndexes|
      invariant forall j :: 0 <= j < n ==> startIndexes[j] <= |seq1| && Rotate(seq1, startIndexes[j]) != seq2
    {
      var index1 := startIndexes[n];
      assert index1 in startIndexes;
      assert doubleSeq1[index1..index1+|seq1|] == Rotate(seq1, index1);
      if doubleSeq1[index1..index1+|seq1|] == seq2 {
        return true;
      }
    }
    NoOtherStart(seq1, seq2, startIndexes);
    r := false;
  }

  // A rotation starts where the head item stands.
  lemma NoOtherStart<T>(s: seq<T>, t: seq<T>, starts: seq<nat>)
    requires |s| == |t| > 0
    requires forall j: nat :: j in starts <==> j < |s| && s[j] == t[0]
    requires forall j :: 0 <= j < |starts| ==> starts[j] <= |s| && Rotate(s, starts[j]) != t
    ensures !IsRotation(s, t)
  {
    forall k | 0 <= k <= |s| ensures Rotate(s, k) != t {
      if k == |s| {
        assert Rotate(s, k) == Rotate(s, 0);
        StartMissing(s, t, starts, 0);
      } else {
        StartMissing(s, t, starts, k);
      }
    }
  }

  lemma StartMissing<T>(s: seq<T>, t: seq<T>, starts: seq<nat>, k: nat)
    requires |s| == |t| > 0 && k < |s|
    requires forall j: nat :: j in starts <==> j < |s| && s[j] == t[0]
    requires forall j :: 0 <= j < |starts| ==> starts[j] <= |s| && Rotate(s, starts[j]) != t
    ensures Rotate(s, k) != t
  {
    assert Rotate(s, k)[0] == s[k];
    if s[k] == t[0] {
      assert k in starts;
    }
  }

  lemma RotateBack<T>(s: seq<T>, k: nat)
    requires k <= |s|
    ensures Rotate(Rotate(s, k), |s| - k) == s
  {
  }

  lemma RotationSymmetric<T>(s: seq<T>, t: seq<T>)
    requires IsRotation(s, t)
    ensures IsRotation(t, s)
  {
    var k :| 0 <= k <= |s| && Rotate(s, k) == t;
    RotateBack(s, k);
  }

  lemma RotateTwice<T>(s: seq<T>, k: nat, l: nat)
    requires k <= |s| && l <= |s|
    ensures Rotate(Rotate(s, k), l) == if k + l <= |s| then Rotate(s, k + l) else Rotate(s, k + l - |s|)
  {
  }

  lemma RotationTransitive<T>(s: seq<T>, t: seq<T>, u: seq<T>)
    requires IsRotation(s, t) && IsRotation(t, u)
    ensures IsRotation(s, u)
  {
    var k :| 0 <= k <= |s| && Rotate(s, k) == t;
    var l :| 0 <= l <= |t| && Rotate(t, l) == u;
    RotateTwice(s, k, l);
  }
}
