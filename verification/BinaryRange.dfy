/** Binary numbers as strings: int2bin, bin2int and binary_range of bindings/python/rad_util.py. */
module BinaryRange {

  datatype Result<T> = Ok(value: T) | KeyError | ValueError

  function Pow2(n: nat): nat { if n == 0 then 1 else 2 * Pow2(n - 1) }

  predicate Binary(s: string) { forall i :: 0 <= i < |s| ==> s[i] == '0' || s[i] == '1' }

  function BitOf(c: char): nat { if c == '1' then 1 else 0 }

  // The number a binary string stands for, most significant digit first.
  function ValueOf(s: string): nat {
    if s == "" then 0 else 2 * ValueOf(s[..|s|-1]) + BitOf(s[|s|-1])
  }

  function Zeros(n: nat): (s: string)
    ensures |s| == n && forall i :: 0 <= i < n ==> s[i] == '0'
  {
    seq(n, _ => '0')
  }

  // The four binary digits of a hexadecimal one.
  function Nibble(d: nat): string
    requires d < 16
  {
    var bit := (k: nat) => if k % 2 == 1 then '1' else '0';
    [bit(d / 8), bit(d / 4), bit(d / 2), bit(d)]
  }

  // The digits of hex(i), each turned into four; there is always one.
  function HexBits(i: nat): string {
    if i < 16 then Nibble(i) else HexBits(i / 16) + Nibble(i % 16)
  }

  // For n == 0 the slices [:-n] and [-n:] are empty and whole; a negative number has an 'x' among
  // its digits.
  function Int2Bin(i: int, n: nat): Result<string> {
    if i < 0 then KeyError
    else
      var all := HexBits(i);
      var cut := if n == 0 || |all| <= n then 0 else |all| - n;
      if '1' in all[..cut] then ValueError
      else
        var kept := all[cut..];
        Ok((if |kept| < n then Zeros(n - |kept|) else "") + kept)
  }

  function Bin2Int(s: string): Result<nat> {
    if s != "" && Binary(s) then Ok(ValueOf(s)) else ValueError
  }

  lemma {:induction false} ValueBelow(s: string)
    ensures ValueOf(s) < Pow2(|s|)
  {
    if s != "" { ValueBelow(s[..|s|-1]); }
  }

  lemma {:induction false} ValueJoin(a: string, b: string)
    ensures ValueOf(a + b) == ValueOf(a) * Pow2(|b|) + ValueOf(b)
  {
    if b == "" {
      assert a + b == a;
    } else {
      var front := b[..|b|-1];
      ValueJoin(a, front);
      assert (a + b)[..|a + b|-1] == a + front;
      assert ValueOf(a) * Pow2(|b|) == 2 * (ValueOf(a) * Pow2(|front|));
    }
  }

  lemma {:induction false} ValueZero(s: string)
    requires Binary(s)
    ensures ValueOf(s) == 0 <==> '1' !in s
  {
    if s != "" {
      var front := s[..|s|-1];
      ValueZero(front);
      assert s == front + [s[|s|-1]];
    }
  }

  lemma ValueSnoc(s: string, c: char)
    ensures ValueOf(s + [c]) == 2 * ValueOf(s) + BitOf(c)
  {
    assert (s + [c])[..|s|] == s;
  }

  lemma NibbleIs(d: nat)
    requires d < 16
    ensures |Nibble(d)| == 4 && Binary(Nibble(d)) && ValueOf(Nibble(d)) == d
  {
    hide ValueOf;
    var s := Nibble(d);
    assert s == [s[0]] + [s[1]] + [s[2]] + [s[3]] && [] + [s[0]] == [s[0]];
    ValueSnoc([], s[0]);
    ValueSnoc([s[0]], s[1]);
    ValueSnoc([s[0]] + [s[1]], s[2]);
    ValueSnoc([s[0]] + [s[1]] + [s[2]], s[3]);
    ValueNone();
    DigitSum(d);
  }

  lemma ValueNone()
    ensures ValueOf("") == 0
  {
  }

  lemma DigitSum(d: nat)
    requires d < 16
    ensures 2 * (2 * (2 * (d / 8 % 2) + d / 4 % 2) + d / 2 % 2) + d % 2 == d
  {
  }

  lemma {:induction false} HexBitsIs(i: nat)
    ensures Binary(HexBits(i)) && ValueOf(HexBits(i)) == i
  {
    hide Nibble, ValueOf, Binary, Pow2;
    if i < 16 {
      NibbleIs(i);
    } else {
      HexBitsIs(i / 16);
      NibbleIs(i % 16);
      BinaryBoth(HexBits(i / 16), Nibble(i % 16));
      ValueJoin(HexBits(i / 16), Nibble(i % 16));
      Sixteenfold(0);
      PowZero();
    }
  }

  lemma BinaryBoth(a: string, b: string)
    requires Binary(a) && Binary(b)
    ensures Binary(a + b)
  {
  }

  /** A number is determined by its digits, and the digits by the number and the width. */
  lemma {:induction false} SameValue(s: string, t: string)
    requires Binary(s) && Binary(t) && |s| == |t| && ValueOf(s) == ValueOf(t)
    ensures s == t
  {
    if s != "" {
      SameValue(s[..|s|-1], t[..|t|-1]);
      assert s == s[..|s|-1] + [s[|s|-1]] && t == t[..|t|-1] + [t[|t|-1]];
    }
  }

  /** For n >= 1 a number has an n-digit string if and only if it is below 2^n, and that string is
      read back as the number; a larger one and a negative one raise different errors. */
  lemma Int2BinIs(i: int, n: nat)
    requires n >= 1
    ensures Int2Bin(i, n) == ValueError <==> i >= Pow2(n)
    ensures Int2Bin(i, n) == KeyError <==> i < 0
    ensures Int2Bin(i, n).Ok? <==> 0 <= i < Pow2(n)
    ensures Int2Bin(i, n).Ok? ==> |Int2Bin(i, n).value| == n && Bin2Int(Int2Bin(i, n).value) == Ok(i)
  {
    if i >= 0 { NotNegative(i, n); }
  }

  lemma NotNegative(i: nat, n: nat)
    requires n >= 1
    ensures if i < Pow2(n) then Int2Bin(i, n).Ok? else Int2Bin(i, n) == ValueError
    ensures i < Pow2(n) ==> |Int2Bin(i, n).value| == n && Bin2Int(Int2Bin(i, n).value) == Ok(i)
  {
    hide ValueOf, Binary, HexBits, Pow2;
    var all := HexBits(i);
    HexBitsIs(i);
    if |all| <= n {
      assert all[..0] == "" && all[0..] == all;
      ValueBelow(all);
      PowRises(|all|, n);
      Padded(all, n);
      assert |all| == n ==> "" + all == all;
    } else {
      var head, kept := all[..|all| - n], all[|all| - n..];
      assert all == head + kept && "" + kept == kept;
      Cut(head, kept);
    }
  }

  lemma Padded(s: string, n: nat)
    requires Binary(s) && |s| <= n && n >= 1
    ensures Bin2Int(Zeros(n - |s|) + s) == Ok(ValueOf(s)) && (|s| == n ==> Bin2Int(s) == Ok(ValueOf(s)))
  {
    hide ValueOf, Pow2, Binary, Zeros;
    var zeros := Zeros(n - |s|);
    ZerosBefore(n - |s|, s);
    assert |zeros + s| == n;
    assert |s| == n ==> s != "";
  }

  lemma ZerosBefore(k: nat, s: string)
    requires Binary(s)
    ensures Binary(Zeros(k) + s) && ValueOf(Zeros(k) + s) == ValueOf(s)
  {
    hide Pow2;
    ValueZero(Zeros(k));
    ValueJoin(Zeros(k), s);
    NoTimes(Pow2(|s|));
    BinaryJoin(Zeros(k), s);
  }

  lemma NoTimes(w: nat)
    ensures 0 * w == 0
  {
  }

  lemma BinaryJoin(a: string, b: string)
    requires Binary(a) && Binary(b)
    ensures Binary(a + b)
  {
  }

  lemma BinaryParts(a: string, b: string)
    requires Binary(a + b)
    ensures Binary(a) && Binary(b)
  {
    assert forall i :: 0 <= i < |a| ==> a[i] == (a + b)[i];
    assert forall i :: 0 <= i < |b| ==> b[i] == (a + b)[|a| + i];
  }

  lemma Cut(head: string, kept: string)
    requires Binary(head + kept) && kept != ""
    ensures '1' !in head <==> ValueOf(head + kept) < Pow2(|kept|)
    ensures '1' !in head ==> Bin2Int(kept) == Ok(ValueOf(head + kept))
  {
    hide ValueOf, Pow2;
    BinaryParts(head, kept);
    ValueJoin(head, kept);
    ValueZero(head);
    ValueBelow(kept);
    var h, w := ValueOf(head), Pow2(|kept|);
    assert h == 0 ==> h * w == 0;
    assert h >= 1 ==> h * w >= w;
  }

  lemma {:induction false} PowRises(m: nat, n: nat)
    requires m <= n
    ensures Pow2(m) <= Pow2(n)
  {
    if m < n { PowRises(m, n - 1); }
  }

  lemma {:induction false} HexDigits(i: nat)
    ensures |HexBits(i)| % 4 == 0 && |HexBits(i)| >= 4 && (|HexBits(i)| > 4 ==> i >= Pow2(|HexBits(i)| - 4))
  {
    hide Nibble, Pow2;
    NibbleIs(i % 16);
    if i < 16 {
      NibbleIs(i);
    } else {
      HexDigits(i / 16);
      Sixteenfold(|HexBits(i / 16)| - 4);
      Sixteenfold(0);
      PowZero();
    }
  }

  lemma Sixteenfold(n: nat)
    ensures Pow2(n + 4) == 16 * Pow2(n)
  {
    PowNext(n);
    PowNext(n + 1);
    PowNext(n + 2);
    PowNext(n + 3);
  }

  /** Without a width any number is accepted, and gets as many digits as its hexadecimal digits need. */
  lemma Int2BinNoWidth(i: nat)
    ensures var digits := Int2Bin(i, 0);
      && digits.Ok? && Bin2Int(digits.value) == Ok(i)
      && |digits.value| % 4 == 0 && |digits.value| >= 4 && (|digits.value| > 4 ==> i >= Pow2(|digits.value| - 4))
  {
    HexBitsIs(i);
    HexDigits(i);
    hide HexBits, ValueOf, Binary, Pow2;
    var all := HexBits(i);
    assert all[..0] == "" && all[0..] == all && "" + all == all;
  }

  /* Counting up. */

  // The number with the least significant digit first.
  function Low(v: string): nat {
    if v == "" then 0 else BitOf(v[0]) + 2 * Low(v[1..])
  }

  function Reversed(s: string): (r: string)
    ensures |r| == |s| && forall i :: 0 <= i < |s| ==> r[i] == s[|s| - 1 - i]
  {
    seq(|s|, i requires 0 <= i < |s| => s[|s| - 1 - i])
  }

  lemma {:induction false} ReversedValue(v: string)
    ensures ValueOf(Reversed(v)) == Low(v)
  {
    if v != "" {
      ReversedValue(v[1..]);
      assert Reversed(v) == Reversed(v[1..]) + [v[0]];
      ValueSnoc(Reversed(v[1..]), v[0]);
    }
  }

  lemma {:induction false} LowUpdate(v: string, i: nat, c: char)
    requires i < |v|
    ensures Low(v[i := c]) + BitOf(v[i]) * Pow2(i) == Low(v) + BitOf(c) * Pow2(i)
  {
    if i == 0 {
      assert v[0 := c][1..] == v[1..];
    } else {
      LowUpdate(v[1..], i - 1, c);
      assert v[i := c][1..] == v[1..][i - 1 := c];
      assert forall d: nat :: d * Pow2(i) == 2 * (d * Pow2(i - 1));
    }
  }

  lemma LowBelow(v: string)
    ensures Low(v) < Pow2(|v|)
  {
    ReversedValue(v);
    ValueBelow(Reversed(v));
  }

  lemma LowZeros(n: nat)
    ensures Low(Zeros(n)) == 0
  {
    ReversedValue(Zeros(n));
    ValueZero(Reversed(Zeros(n)));
  }

  // The digits v, turned round, are those of k.
  lemma Digits(v: string, k: nat)
    requires Binary(v) && |v| >= 1 && Low(v) == k
    ensures Int2Bin(k, |v|) == Ok(Reversed(v))
  {
    LowBelow(v);
    Int2BinIs(k, |v|);
    ReversedValue(v);
    SameValue(Int2Bin(k, |v|).value, Reversed(v));
  }

  /** For bits >= 1 the list holds 2^bits strings, the k-th of them int2bin(k, bits); for bits == 0
      it is empty. */
  method BinaryRange(bits: nat) returns (l: seq<string>)
    ensures |l| == if bits == 0 then 0 else Pow2(bits)
    ensures forall k :: 0 <= k < |l| ==> Int2Bin(k, bits) == Ok(l[k])
  {
    hide Low, Pow2, Int2Bin, Reversed;
    l := [];
    var v := Zeros(bits);
    var toggle := [1] + seq(bits, _ => 0);
    LowZeros(bits);
    while toggle[bits] != 1
      invariant |v| == bits && Binary(v) && |toggle| == bits + 1
      invariant bits == 0 ==> toggle[0] == 1 && l == []
      invariant forall k :: 0 <= k < |l| ==> Int2Bin(k, bits) == Ok(l[k])
      invariant bits > 0 ==> if toggle[bits] == 1 then |l| == Pow2(bits) else |l| == Low(v)
      decreases Pow2(bits) - |l|
    {
      Digits(v, |l|);
      LowBelow(v);
      l := l + [Reversed(v)];
      toggle := [1] + seq(bits, _ => 0);
      var i := 0;
      PowZero();
      while i < bits && toggle[i] == 1
        invariant i <= bits && |v| == bits && Binary(v) && |toggle| == bits + 1
        invariant toggle[i] == 0 || toggle[i] == 1
        invariant forall j :: i < j <= bits ==> toggle[j] == 0
        invariant Low(v) + toggle[i] * Pow2(i) == |l|
      {
        LowUpdate(v, i, if v[i] == '0' then '1' else '0');
        PowNext(i);
        if v[i] == '0' {
          v, toggle := v[i := '1'], toggle[i + 1 := 0];
        } else {
          v, toggle := v[i := '0'], toggle[i + 1 := 1];
        }
        i := i + 1;
      }
      LowBelow(v);
    }
  }

  lemma PowZero()
    ensures Pow2(0) == 1
  {
  }

  lemma PowNext(n: nat)
    ensures Pow2(n + 1) == 2 * Pow2(n)
  {
  }
}
