/**
 * The arithmetic and logic helpers: integer readings of units and bits,
 * instruction and bit-string parsing, ripple-carry addition, bitwise
 * operations and circular shift, all over full-width words.
 */
module Utils {
  import opened Config
  import opened Failures
  import opened Bits
  import opened Units

  /** `units_to_int`: the units read big-endian in base 2^UNIT_SIZE. */
  function UnitsToInt(units: seq<Unit>): (r: nat)
    ensures r < Pow2(UNIT_SIZE * |units|)
  {
    if |units| == 0 then 0
    else
      var n := |units|;
      Pow2Nibble(UNIT_SIZE * (n - 1));
      UnitsToInt(units[..n - 1]) * UNIT_VALUES + units[n - 1].value
  }

  lemma Pow2Nibble(k: nat)
    ensures Pow2(k + UNIT_SIZE) == UNIT_VALUES * Pow2(k)
  {
    assert Pow2(k + 4) == 2 * Pow2(k + 3);
    assert Pow2(k + 3) == 2 * Pow2(k + 2);
    assert Pow2(k + 2) == 2 * Pow2(k + 1);
  }

  /** The unsigned value of a full-width word. */
  function WordValue(w: Word16): (v: nat)
    ensures v < WORD_VALUES
  {
    Pow2Sizes();
    UnitsToInt(w.units)
  }

  /** An operand pair (hi, lo) names hi * 16 + lo. */
  lemma UnitsToIntPair(hi: Unit, lo: Unit)
    ensures UnitsToInt([hi, lo]) == hi.value * UNIT_VALUES + lo.value
  {
    assert [hi, lo][..1] == [hi];
  }

  /** `binary_to_int` of a word's bits agrees with `units_to_int` of its units. */
  lemma {:induction false} BinaryToIntMatchesUnits(w: Word)
    ensures BinaryToInt(ToBinary(w)) == UnitsToInt(w.units)
    decreases |w.units|
  {
    if |w.units| > 0 {
      var n := |w.units|;
      var prefix := Word(w.units[..n - 1]);
      BinaryToIntMatchesUnits(prefix);
      BinaryToIntAppend(ToBinary(prefix), UnitToBinary(w.units[n - 1]));
      Pow2Sizes();
    }
  }

  /** `str_instruction_to_word`: four hex digits, one unit each. */
  method StrInstructionToWord(instruction: string) returns (r: Result<Word16>)
    ensures |instruction| != 4 ==> r == Err(LengthError)
    ensures |instruction| == 4 ==> (r.Ok? <==> forall i :: 0 <= i < 4 ==> IsHexDigit(instruction[i]))
    ensures |instruction| == 4 && r.Err? ==> r.error == FormatError
    ensures r.Ok? ==> forall i :: 0 <= i < 4 ==> HexValue(instruction[i]) == Some(r.value.units[i].value)
    ensures r.Ok? ==> WordToHex(r.value) == seq(4, i requires 0 <= i < 4 => ToUpper(instruction[i]))
  {
    if |instruction| != 4 {
      return Err(LengthError);
    }
    var units: seq<Unit> := [];
    for i := 0 to |instruction|
      invariant |units| == i
      invariant forall k :: 0 <= k < i ==> IsHexDigit(instruction[k])
      invariant forall k :: 0 <= k < i ==> HexValue(instruction[k]) == Some(units[k].value)
    {
      var u := UnitFromHex([instruction[i]]);
      if u.Err? {
        return Err(u.error);
      }
      units := units + [u.value];
    }
    return Ok(NewWord(units));
  }

  /** `binary_str_to_list`: '1' becomes true, '0' false, anything else fails. */
  method BinaryStrToList(s: string) returns (r: Result<seq<bool>>)
    ensures r.Ok? <==> forall i :: 0 <= i < |s| ==> s[i] == '0' || s[i] == '1'
    ensures r.Err? ==> r.error == FormatError
    ensures r.Ok? ==> |r.value| == |s| && forall i :: 0 <= i < |s| ==> r.value[i] == (s[i] == '1')
  {
    var ret: seq<bool> := [];
    for i := 0 to |s|
      invariant |ret| == i
      invariant forall k :: 0 <= k < i ==> s[k] == '0' || s[k] == '1'
      invariant forall k :: 0 <= k < i ==> ret[k] == (s[k] == '1')
    {
      var c := s[i];
      if c != '1' && c != '0' {
        return Err(FormatError);
      }
      ret := ret + [if c == '1' then true else false];
    }
    return Ok(ret);
  }

  /** The full-width word whose unsigned value is v. */
  function FromValue(v: nat): (w: Word16)
    requires v < WORD_VALUES
    ensures UnitsToInt(w.units) == v
  {
    var bits := IntToBinary(v, WORD_SIZE);
    var w := FromBinary(bits).value;
    PadFull(bits);
    Pow2Sizes();
    IntToBinaryRoundTrip(v, WORD_SIZE);
    BinaryToIntMatchesUnits(w);
    w
  }

  /** A full-width word is determined by its unsigned value. */
  lemma WordDeterminedByValue(w: Word16)
    ensures FromValue(WordValue(w)) == w
  {
    var bits := ToBinary(w);
    BinaryToIntMatchesUnits(w);
    BinaryToIntRoundTrip(bits);
    FromBinaryToBinary(w);
  }

  /** The word the adder produces: the sum modulo 2^WORD_SIZE. */
  function WordSum(a: Word16, b: Word16): (r: Word16)
    ensures WordValue(r) == (WordValue(a) + WordValue(b)) % WORD_VALUES
  {
    FromValue((WordValue(a) + WordValue(b)) % WORD_VALUES)
  }

  lemma WordSumCommutes(a: Word16, b: Word16)
    ensures WordSum(a, b) == WordSum(b, a)
  {
  }

  lemma ZeroWordValue()
    ensures WordValue(ZERO_WORD) == 0
  {
    var z := ZERO_UNIT;
    assert ZERO_WORD == NewWord([]);
    assert ZERO_WORD.units == seq(UNITS_PER_WORD, _ => ZERO_UNIT);
    assert ZERO_WORD.units == [z, z, z, z];
    assert [z, z, z, z][..3] == [z, z, z];
    assert [z, z, z][..2] == [z, z];
    assert [z, z][..1] == [z];
    assert UnitsToInt([z, z]) == 0;
    assert UnitsToInt([z, z, z]) == 0;
    assert UnitsToInt([z, z, z, z]) == 0;
  }

  /** 0xFFFF + 1 wraps round to 0x0000: the final carry is dropped. */
  lemma WordSumWraps(max: Word16, one: Word16)
    requires WordValue(max) == WORD_VALUES - 1 && WordValue(one) == 1
    ensures WordSum(max, one) == ZERO_WORD
  {
    var z := WordSum(max, one);
    ExactWrap(WordValue(max), WordValue(one), WordValue(z));
    ZeroWordValue();
    WordDeterminedByValue(z);
    WordDeterminedByValue(ZERO_WORD);
  }

  lemma ExactWrap(a: nat, b: nat, v: nat)
    requires a + b == WORD_VALUES && v == (a + b) % WORD_VALUES
    ensures v == 0
  {
  }

  /** Adding 1 and then 2^WORD_SIZE - 1 gives back the word. */
  lemma IncThenDecRestoresWord(w: Word16, one: Word16, allOnes: Word16)
    requires WordValue(one) == 1 && WordValue(allOnes) == WORD_VALUES - 1
    ensures WordSum(WordSum(w, one), allOnes) == w
  {
    var up := WordSum(w, one);
    var r := WordSum(up, allOnes);
    AddOneSubOne(WordValue(w), WordValue(up), WordValue(r));
    WordDeterminedByValue(r);
    WordDeterminedByValue(w);
  }

  lemma AddOneSubOne(v: nat, up: nat, r: nat)
    requires v < WORD_VALUES
    requires up == (v + 1) % WORD_VALUES && r == (up + (WORD_VALUES - 1)) % WORD_VALUES
    ensures r == v
  {
    if v + 1 < WORD_VALUES {
      assert up == v + 1;
    } else {
      assert up == 0;
    }
  }

  /** `add_words`: ripple-carry addition from the least significant bit up. */
  method AddWords(a: Word16, b: Word16) returns (w: Word16)
    ensures w == WordSum(a, b)
  {
    var aBits := ToBinary(a);
    var bBits := ToBinary(b);
    var aRev := Reverse(aBits);
    var bRev := Reverse(bBits);
    var res := new bool[WORD_SIZE](_ => false);
    var carry := false;
    for i := 0 to |aRev|
      invariant |aRev| == |bRev| == res.Length
      invariant RippleInvariant(res[..], aRev, bRev, i, carry)
    {
      ghost var before, carryIn := res[..], carry;
      var digitA := if aRev[i] then 1 else 0;
      var digitB := if bRev[i] then 1 else 0;
      var digitCarry := if carry then 1 else 0;
      var localSum := digitA + digitB + digitCarry;
      res[i] := if localSum % 2 == 1 then true else false;
      if localSum > 1 {
        carry := true;
      } else {
        carry := false;
      }
      RippleStep(before, res[..], aRev, bRev, i, carryIn, carry);
    }
    var ordered := Reverse(res[..]);
    AdderResult(a, b, res[..], carry);
    var r := WordFromBinary(ordered);
    w := r.value;
  }

  /** After i positions the low i result bits and the carry hold the low i bits' sum. */
  predicate RippleInvariant(res: seq<bool>, aRev: seq<bool>, bRev: seq<bool>, i: nat, carry: bool)
  {
    i <= |res| && i <= |aRev| && i <= |bRev| &&
    LsbToInt(res[..i]) + Bit(carry) * Pow2(i) == LsbToInt(aRev[..i]) + LsbToInt(bRev[..i])
  }

  /** One bit position of the ripple-carry loop keeps the running sum exact. */
  lemma RippleStep(before: seq<bool>, after: seq<bool>, aRev: seq<bool>, bRev: seq<bool>,
                   i: nat, carryIn: bool, carryOut: bool)
    requires i < |before| && i < |aRev| && i < |bRev|
    requires RippleInvariant(before, aRev, bRev, i, carryIn)
    requires after == before[i := (Bit(aRev[i]) + Bit(bRev[i]) + Bit(carryIn)) % 2 == 1]
    requires carryOut == (Bit(aRev[i]) + Bit(bRev[i]) + Bit(carryIn) > 1)
    ensures RippleInvariant(after, aRev, bRev, i + 1, carryOut)
  {
    var out := after[i];
    assert after[..i + 1] == before[..i] + [out];
    assert aRev[..i + 1][..i] == aRev[..i] && bRev[..i + 1][..i] == bRev[..i];
    assert Bit(out) + 2 * Bit(carryOut) == Bit(aRev[i]) + Bit(bRev[i]) + Bit(carryIn);
    AdderStep(Pow2(i), Bit(out), Bit(carryOut), Bit(aRev[i]), Bit(bRev[i]), Bit(carryIn));
  }

  /** The bits left by the loop, read most significant first, are the sum modulo 2^WORD_SIZE. */
  lemma AdderResult(a: Word16, b: Word16, res: seq<bool>, carry: bool)
    requires |res| == WORD_SIZE
    requires RippleInvariant(res, Reverse(ToBinary(a)), Reverse(ToBinary(b)), WORD_SIZE, carry)
    ensures FromBinary(Reverse(res)) == Ok(WordSum(a, b))
  {
    var ordered := Reverse(res);
    AdderValue(a, b, res, carry);
    WordSumIs(a, b, BinaryToInt(ordered));
    WordFromItsBits(ordered);
  }

  /** The loop's final invariant, read as a number: the low WORD_SIZE bits of the sum. */
  lemma AdderValue(a: Word16, b: Word16, res: seq<bool>, carry: bool)
    requires |res| == WORD_SIZE
    requires RippleInvariant(res, Reverse(ToBinary(a)), Reverse(ToBinary(b)), WORD_SIZE, carry)
    ensures BinaryToInt(Reverse(res)) == (WordValue(a) + WordValue(b)) % WORD_VALUES
  {
    var aRev, bRev := Reverse(ToBinary(a)), Reverse(ToBinary(b));
    assert |aRev| == |bRev| == WORD_SIZE;
    assert res[..WORD_SIZE] == res && aRev[..WORD_SIZE] == aRev && bRev[..WORD_SIZE] == bRev;
    var ordered := Reverse(res);
    ReverseReverse(res);
    LsbToIntReverse(ordered);
    LsbToIntReverse(ToBinary(a));
    LsbToIntReverse(ToBinary(b));
    BinaryToIntMatchesUnits(a);
    BinaryToIntMatchesUnits(b);
    Pow2Sizes();
    var sum := BinaryToInt(ordered);
    WrapSum(sum, Bit(carry), WordValue(a) + WordValue(b));
  }

  lemma WordSumIs(a: Word16, b: Word16, v: nat)
    requires v == (WordValue(a) + WordValue(b)) % WORD_VALUES
    ensures WordSum(a, b) == FromValue(v)
  {
  }

  lemma WrapSum(low: nat, high: nat, total: nat)
    requires low < WORD_VALUES && high <= 1 && low + high * WORD_VALUES == total
    ensures low == total % WORD_VALUES
  {
  }

  /** The word built from WORD_SIZE bits is the word with their value. */
  lemma WordFromItsBits(bits: seq<bool>)
    requires |bits| == WORD_SIZE
    ensures BinaryToInt(bits) < WORD_VALUES
    ensures FromBinary(bits) == Ok(FromValue(BinaryToInt(bits)))
  {
    Pow2Sizes();
    var w := FromBinary(bits).value;
    PadFull(bits);
    BinaryToIntMatchesUnits(w);
    WordDeterminedByValue(w);
  }

  /** One full-adder step, scaled by the weight p of the current bit. */
  lemma AdderStep(p: nat, out: nat, carryOut: nat, x: nat, y: nat, carryIn: nat)
    requires out + 2 * carryOut == x + y + carryIn
    ensures out * p + carryOut * (2 * p) == x * p + y * p + carryIn * p
  {
    calc {
      out * p + carryOut * (2 * p);
      (out + 2 * carryOut) * p;
      (x + y + carryIn) * p;
      x * p + y * p + carryIn * p;
    }
  }

  /** `binary_not`: every bit flipped. */
  function BinaryNot(w: Word16): (r: Word16)
    ensures forall i :: 0 <= i < WORD_SIZE ==> ToBinary(r)[i] == !ToBinary(w)[i]
  {
    var bits := ToBinary(w);
    var inv := seq(|bits|, i requires 0 <= i < |bits| => !bits[i]);
    FromFullWidth(inv);
    FromBinary(inv).value
  }

  lemma NotInvolution(w: Word16)
    ensures BinaryNot(BinaryNot(w)) == w
  {
    ToBinaryInjective(BinaryNot(BinaryNot(w)), w);
  }

  /** The complement of a word of value v has value 2^16 - 1 - v. */
  lemma NotValue(w: Word16)
    ensures WordValue(BinaryNot(w)) == WORD_VALUES - 1 - WordValue(w)
  {
    ComplementValue(ToBinary(BinaryNot(w)), ToBinary(w));
    BinaryToIntMatchesUnits(BinaryNot(w));
    BinaryToIntMatchesUnits(w);
    Pow2Sizes();
  }

  /** A word plus its complement is the all-ones word 0xFFFF, with no carry out. */
  lemma NotPlusSelf(w: Word16)
    ensures WordValue(WordSum(BinaryNot(w), w)) == WORD_VALUES - 1
  {
    NotValue(w);
  }

  /** `binary_and`: bitwise conjunction, position by position. */
  function BinaryAnd(a: Word16, b: Word16): (r: Word16)
    ensures forall i :: 0 <= i < WORD_SIZE ==> ToBinary(r)[i] == (ToBinary(a)[i] && ToBinary(b)[i])
  {
    var aBits, bBits := ToBinary(a), ToBinary(b);
    var res := seq(|aBits|, i requires 0 <= i < |aBits| => aBits[i] && bBits[i]);
    FromFullWidth(res);
    FromBinary(res).value
  }

  /** `binary_or`: bitwise disjunction, position by position. */
  function BinaryOr(a: Word16, b: Word16): (r: Word16)
    ensures forall i :: 0 <= i < WORD_SIZE ==> ToBinary(r)[i] == (ToBinary(a)[i] || ToBinary(b)[i])
  {
    var aBits, bBits := ToBinary(a), ToBinary(b);
    var res := seq(|aBits|, i requires 0 <= i < |aBits| => aBits[i] || bBits[i]);
    FromFullWidth(res);
    FromBinary(res).value
  }

  /** `binary_xor`: bitwise exclusive or, position by position. */
  function BinaryXor(a: Word16, b: Word16): (r: Word16)
    ensures forall i :: 0 <= i < WORD_SIZE ==> ToBinary(r)[i] == (ToBinary(a)[i] != ToBinary(b)[i])
  {
    var aBits, bBits := ToBinary(a), ToBinary(b);
    var res := seq(|aBits|, i requires 0 <= i < |aBits| => aBits[i] != bBits[i]);
    FromFullWidth(res);
    FromBinary(res).value
  }

  /** OR and XOR differ exactly where both bits are set, e.g. on a word with itself. */
  lemma OrDiffersFromXor(w: Word16)
    requires w != ZERO_WORD
    ensures BinaryOr(w, w) == w
    ensures BinaryXor(w, w) == ZERO_WORD
    ensures BinaryOr(w, w) != BinaryXor(w, w)
  {
    var bits := ToBinary(w);
    assert ToBinary(BinaryOr(w, w)) == bits;
    ToBinaryInjective(BinaryOr(w, w), w);
    ZeroWordRendering();
    assert ToBinary(BinaryXor(w, w)) == ToBinary(ZERO_WORD);
    ToBinaryInjective(BinaryXor(w, w), ZERO_WORD);
  }

  /** `bits[n:] + bits[0:n]` with Python's slice clamping: n past the end takes nothing. */
  function RotateLeft(bits: seq<bool>, n: nat): (r: seq<bool>)
    ensures |r| == |bits|
    ensures n < |bits| ==> forall i :: 0 <= i < |bits| ==> r[i] == bits[(i + n) % |bits|]
    ensures n >= |bits| ==> r == bits
  {
    var k := if n < |bits| then n else |bits|;
    var r := bits[k..] + bits[..k];
    if n < |bits| then
      assert forall i :: 0 <= i < |bits| ==> r[i] == bits[(i + n) % |bits|] by {
        forall i | 0 <= i < |bits|
          ensures r[i] == bits[(i + n) % |bits|]
        {
          WrapOnce(i + n, |bits|);
        }
      }
      r
    else
      assert r == bits;
      r
  }

  /** A value below twice the modulus wraps at most once. */
  lemma WrapOnce(x: nat, m: nat)
    requires 0 < m && x < 2 * m
    ensures x % m == if x < m then x else x - m
  {
    if x >= m {
      assert x == (x - m) + m;
    }
  }

  /** The bit-list part of `binary_circular_shift`. */
  function ShiftBits(bits: seq<bool>, n: nat, directionLeft: bool): (r: seq<bool>)
    requires |bits| == WORD_SIZE
    ensures |r| == WORD_SIZE
    ensures n >= WORD_SIZE ==> r == bits
  {
    var source := if directionLeft then bits else Reverse(bits);
    var rotated := RotateLeft(source, n);
    ReverseReverse(bits);
    if directionLeft then rotated else Reverse(rotated)
  }

  /** Below WORD_SIZE, bit i of a left shift is bit i + n, and of a right shift bit i - n, both modulo WORD_SIZE. */
  lemma ShiftBitsIndex(bits: seq<bool>, n: nat, directionLeft: bool)
    requires |bits| == WORD_SIZE && n < WORD_SIZE
    ensures directionLeft ==>
      forall i :: 0 <= i < WORD_SIZE ==> ShiftBits(bits, n, directionLeft)[i] == bits[(i + n) % WORD_SIZE]
    ensures !directionLeft ==>
      forall i :: 0 <= i < WORD_SIZE ==> ShiftBits(bits, n, directionLeft)[i] == bits[(i - n) % WORD_SIZE]
  {
    RightRotationIndex(bits, n);
  }

  lemma RightRotationIndex(bits: seq<bool>, n: nat)
    requires |bits| == WORD_SIZE
    ensures n < WORD_SIZE ==> forall i :: 0 <= i < WORD_SIZE ==>
      Reverse(RotateLeft(Reverse(bits), n))[i] == bits[(i - n) % WORD_SIZE]
  {
    if n >= WORD_SIZE {
      return;
    }
    var rotated := RotateLeft(Reverse(bits), n);
    forall i | 0 <= i < WORD_SIZE
      ensures Reverse(rotated)[i] == bits[(i - n) % WORD_SIZE]
    {
      var j := (WORD_SIZE - 1 - i + n) % WORD_SIZE;
      assert Reverse(rotated)[i] == rotated[WORD_SIZE - 1 - i];
      assert rotated[WORD_SIZE - 1 - i] == Reverse(bits)[j];
      assert Reverse(bits)[j] == bits[WORD_SIZE - 1 - j];
      RightIndex(i, n);
    }
  }

  /**
   * `binary_circular_shift`: left rotates by n; right reverses, rotates left
   * and reverses back. Shifts of WORD_SIZE or more leave the word unchanged.
   */
  function CircularShift(w: Word16, n: nat, directionLeft: bool): (r: Word16)
    ensures ToBinary(r) == ShiftBits(ToBinary(w), n, directionLeft)
    ensures n >= WORD_SIZE ==> r == w
  {
    var res := ShiftBits(ToBinary(w), n, directionLeft);
    PadFull(res);
    FromBinaryToBinary(w);
    FromBinary(res).value
  }

  lemma RightIndex(i: int, n: int)
    requires 0 <= i < WORD_SIZE && 0 <= n < WORD_SIZE
    ensures WORD_SIZE - 1 - (WORD_SIZE - 1 - i + n) % WORD_SIZE == (i - n) % WORD_SIZE
  {
    if i >= n {
      assert (WORD_SIZE - 1 - i + n) % WORD_SIZE == WORD_SIZE - 1 - i + n;
    } else {
      assert (WORD_SIZE - 1 - i + n) % WORD_SIZE == n - i - 1;
    }
  }

  lemma {:induction false} ShiftBitsLeftThenRight(bits: seq<bool>, n: nat)
    requires |bits| == WORD_SIZE
    ensures ShiftBits(ShiftBits(bits, n, true), n, false) == bits
  {
    if n < WORD_SIZE {
      var mid := ShiftBits(bits, n, true);
      var back := ShiftBits(mid, n, false);
      ShiftBitsIndex(bits, n, true);
      ShiftBitsIndex(mid, n, false);
      forall i | 0 <= i < WORD_SIZE
        ensures back[i] == bits[i]
      {
        var j := (i - n) % WORD_SIZE;
        assert back[i] == mid[j];
        RightIndexBack(i, n);
        assert mid[j] == bits[(j + n) % WORD_SIZE];
      }
    }
  }

  lemma {:induction false} ShiftBitsRightThenLeft(bits: seq<bool>, n: nat)
    requires |bits| == WORD_SIZE
    ensures ShiftBits(ShiftBits(bits, n, false), n, true) == bits
  {
    if n < WORD_SIZE {
      var mid := ShiftBits(bits, n, false);
      var back := ShiftBits(mid, n, true);
      ShiftBitsIndex(bits, n, false);
      ShiftBitsIndex(mid, n, true);
      forall i | 0 <= i < WORD_SIZE
        ensures back[i] == bits[i]
      {
        var j := (i + n) % WORD_SIZE;
        assert back[i] == mid[j];
        LeftIndexBack(i, n);
        assert mid[j] == bits[(j - n) % WORD_SIZE];
      }
    }
  }

  lemma RightIndexBack(i: int, n: int)
    requires 0 <= i < WORD_SIZE && 0 <= n < WORD_SIZE
    ensures 0 <= (i - n) % WORD_SIZE < WORD_SIZE
    ensures ((i - n) % WORD_SIZE + n) % WORD_SIZE == i
  {
    if i >= n {
      assert (i - n) % WORD_SIZE == i - n;
    } else {
      assert (i - n) % WORD_SIZE == i - n + WORD_SIZE;
    }
  }

  lemma LeftIndexBack(i: int, n: int)
    requires 0 <= i < WORD_SIZE && 0 <= n < WORD_SIZE
    ensures ((i + n) % WORD_SIZE - n) % WORD_SIZE == i
  {
    if i + n < WORD_SIZE {
      assert (i + n) % WORD_SIZE == i + n;
    } else {
      assert (i + n) % WORD_SIZE == i + n - WORD_SIZE;
    }
  }

  /** Rotating left and then right by the same amount is the identity. */
  lemma ShiftLeftThenRight(w: Word16, n: nat)
    ensures CircularShift(CircularShift(w, n, true), n, false) == w
  {
    ShiftBitsLeftThenRight(ToBinary(w), n);
    ToBinaryInjective(CircularShift(CircularShift(w, n, true), n, false), w);
  }

  /** Rotating right and then left by the same amount is the identity. */
  lemma ShiftRightThenLeft(w: Word16, n: nat)
    ensures CircularShift(CircularShift(w, n, false), n, true) == w
  {
    ShiftBitsRightThenLeft(ToBinary(w), n);
    ToBinaryInjective(CircularShift(CircularShift(w, n, false), n, true), w);
  }
}
