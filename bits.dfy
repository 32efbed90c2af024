/** Bit lists read as unsigned integers, most significant bit first. */
module Bits {
  import opened Config

  function Pow2(n: nat): (r: nat)
    ensures r >= 1
  {
    if n == 0 then 1 else 2 * Pow2(n - 1)
  }

  lemma Pow2Sizes()
    ensures Pow2(UNIT_SIZE) == UNIT_VALUES
    ensures Pow2(WORD_SIZE) == WORD_VALUES
  {
    assert Pow2(4) == 16;
    assert Pow2(8) == 256;
    assert Pow2(12) == 4096;
    assert Pow2(16) == 0x1_0000;
  }

  function Bit(b: bool): nat
  {
    if b then 1 else 0
  }

  /** The unsigned reading of a most-significant-first bit list. */
  function BinaryToInt(bits: seq<bool>): (r: nat)
    ensures r < Pow2(|bits|)
  {
    if |bits| == 0 then 0
    else 2 * BinaryToInt(bits[..|bits| - 1]) + Bit(bits[|bits| - 1])
  }

  /** The n lowest bits of v, most significant first. */
  function IntToBinary(v: nat, n: nat): (bits: seq<bool>)
    ensures |bits| == n
  {
    if n == 0 then [] else IntToBinary(v / 2, n - 1) + [v % 2 == 1]
  }

  lemma {:induction false} IntToBinaryRoundTrip(v: nat, n: nat)
    requires v < Pow2(n)
    ensures BinaryToInt(IntToBinary(v, n)) == v
  {
    if n > 0 {
      var bits := IntToBinary(v, n);
      assert bits[..n - 1] == IntToBinary(v / 2, n - 1);
      IntToBinaryRoundTrip(v / 2, n - 1);
    }
  }

  lemma {:induction false} BinaryToIntRoundTrip(bits: seq<bool>)
    ensures IntToBinary(BinaryToInt(bits), |bits|) == bits
  {
    if |bits| > 0 {
      var n := |bits|;
      var prefix := bits[..n - 1];
      BinaryToIntRoundTrip(prefix);
      var v := BinaryToInt(bits);
      assert v / 2 == BinaryToInt(prefix);
      assert bits == prefix + [bits[n - 1]];
    }
  }

  /** Reading a concatenation: the left part is shifted by the right part's width. */
  lemma {:induction false} BinaryToIntAppend(a: seq<bool>, b: seq<bool>)
    ensures BinaryToInt(a + b) == BinaryToInt(a) * Pow2(|b|) + BinaryToInt(b)
  {
    if |b| == 0 {
      assert a + b == a;
    } else {
      var b' := b[..|b| - 1];
      assert (a + b)[..|a + b| - 1] == a + b';
      BinaryToIntAppend(a, b');
      var x, p, y := BinaryToInt(a), Pow2(|b'|), BinaryToInt(b');
      assert BinaryToInt(a + b) == 2 * (x * p + y) + Bit(b[|b| - 1]);
      assert BinaryToInt(b) == 2 * y + Bit(b[|b| - 1]);
      assert Pow2(|b|) == 2 * p;
      MulTwice(x, p);
    }
  }

  lemma MulTwice(x: nat, p: nat)
    ensures 2 * (x * p) == x * (2 * p)
  {
  }

  /** Leading zero bits do not change the value. */
  lemma ZerosPrefixValue(k: nat, bits: seq<bool>)
    ensures BinaryToInt(seq(k, _ => false) + bits) == BinaryToInt(bits)
  {
    ZerosValue(k);
    BinaryToIntAppend(seq(k, _ => false), bits);
  }

  lemma {:induction false} ZerosValue(k: nat)
    ensures BinaryToInt(seq(k, _ => false)) == 0
  {
    if k > 0 {
      assert seq(k, _ => false)[..k - 1] == seq(k - 1, _ => false);
      ZerosValue(k - 1);
    }
  }

  lemma {:induction false} OnesValue(k: nat)
    ensures BinaryToInt(seq(k, _ => true)) == Pow2(k) - 1
  {
    if k > 0 {
      assert seq(k, _ => true)[..k - 1] == seq(k - 1, _ => true);
      OnesValue(k - 1);
    }
  }

  /** A bit list and its bitwise complement read as v and 2^n - 1 - v. */
  lemma {:induction false} ComplementValue(a: seq<bool>, b: seq<bool>)
    requires |a| == |b|
    requires forall i :: 0 <= i < |a| ==> a[i] == !b[i]
    ensures BinaryToInt(a) + BinaryToInt(b) == Pow2(|a|) - 1
  {
    if |a| > 0 {
      var n := |a|;
      ComplementValue(a[..n - 1], b[..n - 1]);
      assert Bit(a[n - 1]) + Bit(b[n - 1]) == 1;
    }
  }

  /** `list(reversed(s))` and `s[::-1]`. */
  function Reverse<T>(s: seq<T>): (r: seq<T>)
    ensures |r| == |s|
  {
    seq(|s|, k requires 0 <= k < |s| => s[|s| - 1 - k])
  }

  lemma ReverseReverse<T>(s: seq<T>)
    ensures Reverse(Reverse(s)) == s
  {
  }

  /** The unsigned reading of a least-significant-first bit list. */
  function LsbToInt(bits: seq<bool>): nat
  {
    if |bits| == 0 then 0
    else LsbToInt(bits[..|bits| - 1]) + Bit(bits[|bits| - 1]) * Pow2(|bits| - 1)
  }

  /** Reading a list backwards least-significant-first is reading it forwards. */
  lemma {:induction false} LsbToIntReverse(bits: seq<bool>)
    ensures LsbToInt(Reverse(bits)) == BinaryToInt(bits)
  {
    if |bits| > 0 {
      var n := |bits|;
      var rest := bits[1..];
      assert Reverse(bits)[..n - 1] == Reverse(rest);
      LsbToIntReverse(rest);
      assert bits == [bits[0]] + rest;
      BinaryToIntAppend([bits[0]], rest);
    }
  }
}
