/**
 * Units (4-bit digits) and Words (ordered lists of Units), with their
 * binary and hexadecimal conversions.
 */
module Units {
  import opened Config
  import opened Failures
  import opened Bits

  /** Every value a Unit can hold once built by a conversion. */
  type Nibble = v: int | 0 <= v < UNIT_VALUES

  datatype Unit = Unit(value: Nibble)

  /** `Unit()`: the default value is 0. */
  const ZERO_UNIT: Unit := Unit(0)

  /**
   * `Unit(value)`: the range check rejects the top value 2^UNIT_SIZE - 1,
   * although the conversions below can produce it.
   */
  function NewUnit(value: int): (r: Result<Unit>)
    ensures r.Ok? <==> 0 <= value < UNIT_VALUES - 1
    ensures r.Ok? ==> r.value.value == value
    ensures r.Err? ==> r.error == RangeError
  {
    if value < 0 || value >= UNIT_VALUES - 1 then Err(RangeError) else Ok(Unit(value))
  }

  /** The largest nibble is refused by the constructor but produced by from_binary. */
  lemma NewUnitRejectsLargestNibble()
    ensures NewUnit(UNIT_VALUES - 1) == Err(RangeError)
    ensures UnitFromBinary([true, true, true, true]) == Ok(Unit(UNIT_VALUES - 1))
  {
    assert BinaryToInt([true, true, true, true]) == 15 by {
      assert [true, true, true, true][..3] == [true, true, true];
      assert [true, true, true][..2] == [true, true];
      assert [true, true][..1] == [true];
    }
  }

  /** The UNIT_SIZE bits of a Unit, most significant first. */
  function UnitToBinary(u: Unit): (bits: seq<bool>)
    ensures |bits| == UNIT_SIZE
    ensures BinaryToInt(bits) == u.value
  {
    Pow2Sizes();
    IntToBinaryRoundTrip(u.value, UNIT_SIZE);
    IntToBinary(u.value, UNIT_SIZE)
  }

  /** `Unit.from_binary`: exactly UNIT_SIZE bits, read as an unsigned number. */
  function UnitFromBinary(bits: seq<bool>): (r: Result<Unit>)
    ensures r.Ok? <==> |bits| == UNIT_SIZE
    ensures r.Err? ==> r.error == LengthError
    ensures r.Ok? ==> r.value.value == BinaryToInt(bits) && UnitToBinary(r.value) == bits
  {
    if |bits| != UNIT_SIZE then Err(LengthError)
    else
      Pow2Sizes();
      BinaryToIntRoundTrip(bits);
      Ok(Unit(BinaryToInt(bits)))
  }

  lemma UnitBinaryRoundTrip(u: Unit)
    ensures UnitFromBinary(UnitToBinary(u)) == Ok(u)
  {
  }

  const HEX_DIGITS: string := "0123456789ABCDEF"

  predicate IsHexDigit(c: char)
  {
    ('0' <= c <= '9') || ('a' <= c <= 'f') || ('A' <= c <= 'F')
  }

  /** The value of one hexadecimal digit, either case, as `int("0x" + c, 16)` reads it. */
  function HexValue(c: char): (r: Option<Nibble>)
    ensures r.Some? <==> IsHexDigit(c)
    ensures r.Some? ==> HEX_DIGITS[r.value] == ToUpper(c)
  {
    if '0' <= c <= '9' then Some(c as int - '0' as int)
    else if 'a' <= c <= 'f' then Some(c as int - 'a' as int + 10)
    else if 'A' <= c <= 'F' then Some(c as int - 'A' as int + 10)
    else None
  }

  /** Upper-cases the letters a-f and leaves every other character alone. */
  function ToUpper(c: char): char
  {
    if 'a' <= c <= 'f' then (c as int - 'a' as int + 'A' as int) as char else c
  }

  /** `Unit.to_hex`: one upper-case hex digit. */
  function UnitToHex(u: Unit): (s: string)
    ensures |s| == 1 && IsHexDigit(s[0]) && ToUpper(s[0]) == s[0]
    ensures HexValue(s[0]) == Some(u.value)
  {
    [HEX_DIGITS[u.value]]
  }

  /** `Unit.from_hex`: exactly one character, which must be a hex digit. */
  function UnitFromHex(d: string): (r: Result<Unit>)
    ensures |d| != 1 ==> r == Err(LengthError)
    ensures |d| == 1 ==> (r.Ok? <==> IsHexDigit(d[0]))
    ensures |d| == 1 && !IsHexDigit(d[0]) ==> r == Err(FormatError)
    ensures r.Ok? ==> UnitToHex(r.value) == [ToUpper(d[0])]
  {
    if |d| != 1 then Err(LengthError)
    else match HexValue(d[0])
      case None => Err(FormatError)
      case Some(v) => Ok(Unit(v))
  }

  lemma UnitHexRoundTrip(u: Unit)
    ensures UnitFromHex(UnitToHex(u)) == Ok(u)
  {
  }

  datatype Word = Word(units: seq<Unit>)

  /** A Word of the machine's width: WORD_SIZE / UNIT_SIZE units. */
  type Word16 = w: Word | |w.units| == UNITS_PER_WORD
    witness Word([ZERO_UNIT, ZERO_UNIT, ZERO_UNIT, ZERO_UNIT])

  /** `Word(units)`: an empty unit list stands for the all-zero word. */
  function NewWord(units: seq<Unit>): (w: Word)
    ensures |units| > 0 ==> w.units == units
    ensures |units| == 0 ==> |w.units| == UNITS_PER_WORD && forall i :: 0 <= i < |w.units| ==> w.units[i].value == 0
  {
    if |units| == 0 then Word(seq(UNITS_PER_WORD, _ => ZERO_UNIT)) else Word(units)
  }

  const ZERO_WORD: Word16 := NewWord([])

  /** `Word.to_binary`: the bits of every unit, in unit order. */
  function ToBinary(w: Word): (bits: seq<bool>)
    ensures |bits| == UNIT_SIZE * |w.units|
    decreases |w.units|
  {
    if |w.units| == 0 then []
    else ToBinary(Word(w.units[..|w.units| - 1])) + UnitToBinary(w.units[|w.units| - 1])
  }

  /** A full-width word's bits are the four nibbles' bits side by side. */
  lemma ToBinaryWord16(w: Word16)
    ensures ToBinary(w) == UnitToBinary(w.units[0]) + UnitToBinary(w.units[1])
                           + UnitToBinary(w.units[2]) + UnitToBinary(w.units[3])
  {
    var us := w.units;
    assert us[..3][..2] == us[..2];
    assert us[..2][..1] == us[..1];
    assert us[..1][..0] == [];
    assert ToBinary(Word(us[..1])) == UnitToBinary(us[0]);
    assert ToBinary(Word(us[..2])) == ToBinary(Word(us[..1])) + UnitToBinary(us[1]);
    assert ToBinary(Word(us[..3])) == ToBinary(Word(us[..2])) + UnitToBinary(us[2]);
    assert us[..4] == us;
  }

  /** `Word.to_hex`: one hex digit per unit, in unit order. */
  function WordToHex(w: Word): (s: string)
    ensures |s| == |w.units|
    ensures forall i :: 0 <= i < |s| ==> s[i] == UnitToHex(w.units[i])[0]
    decreases |w.units|
  {
    if |w.units| == 0 then ""
    else WordToHex(Word(w.units[..|w.units| - 1])) + UnitToHex(w.units[|w.units| - 1])
  }

  /** The default word reads as "0000" and as WORD_SIZE false bits. */
  lemma ZeroWordRendering()
    ensures WordToHex(ZERO_WORD) == "0000"
    ensures ToBinary(ZERO_WORD) == seq(WORD_SIZE, _ => false)
  {
    ToBinaryWord16(ZERO_WORD);
    assert UnitToBinary(ZERO_UNIT) == [false, false, false, false];
  }

  /** Left-pads a bit list with false up to WORD_SIZE bits. */
  function Pad(bits: seq<bool>): (p: seq<bool>)
    requires |bits| <= WORD_SIZE
    ensures |p| == WORD_SIZE
  {
    seq(WORD_SIZE - |bits|, _ => false) + bits
  }

  /** Padding keeps the list as its low bits, so it keeps the value. */
  lemma PadKeepsValue(bits: seq<bool>)
    requires |bits| <= WORD_SIZE
    ensures Pad(bits)[WORD_SIZE - |bits|..] == bits
    ensures BinaryToInt(Pad(bits)) == BinaryToInt(bits)
  {
    ZerosPrefixValue(WORD_SIZE - |bits|, bits);
  }

  /** A list that is already WORD_SIZE bits long is not padded. */
  lemma PadFull(bits: seq<bool>)
    requires |bits| == WORD_SIZE
    ensures Pad(bits) == bits
  {
    assert seq(WORD_SIZE - |bits|, _ => false) == [];
  }

  /** A list of exactly WORD_SIZE bits becomes a word with exactly those bits. */
  lemma FromFullWidth(bits: seq<bool>)
    requires |bits| == WORD_SIZE
    ensures FromBinary(bits).Ok? && ToBinary(FromBinary(bits).value) == bits
  {
    PadFull(bits);
  }

  /** Unit i of a WORD_SIZE-bit list. */
  function Chunk(p: seq<bool>, i: nat): Unit
    requires |p| == WORD_SIZE && i < UNITS_PER_WORD
  {
    UnitFromBinary(p[i * UNIT_SIZE .. (i + 1) * UNIT_SIZE]).value
  }

  lemma ChunkBits(p: seq<bool>, i: nat)
    requires |p| == WORD_SIZE && i < UNITS_PER_WORD
    ensures UnitToBinary(Chunk(p, i)) == p[i * UNIT_SIZE .. (i + 1) * UNIT_SIZE]
  {
  }

  lemma SplitInFour(p: seq<bool>)
    requires |p| == WORD_SIZE
    ensures p == p[0..4] + p[4..8] + p[8..12] + p[12..16]
  {
  }

  /** Splits WORD_SIZE bits into units; its bits are the input again. */
  function Chunks(p: seq<bool>): (w: Word16)
    requires |p| == WORD_SIZE
    ensures ToBinary(w) == p
  {
    var w := Word(seq(UNITS_PER_WORD, i requires 0 <= i < UNITS_PER_WORD => Chunk(p, i)));
    ToBinaryWord16(w);
    ChunkBits(p, 0);
    ChunkBits(p, 1);
    ChunkBits(p, 2);
    ChunkBits(p, 3);
    SplitInFour(p);
    w
  }

  /**
   * `Word.from_binary`: at most WORD_SIZE bits, left-padded with false; the
   * resulting word has exactly the padded bits.
   */
  function FromBinary(bits: seq<bool>): (r: Result<Word16>)
    ensures r.Ok? <==> |bits| <= WORD_SIZE
    ensures r.Err? ==> r.error == LengthError
    ensures r.Ok? ==> ToBinary(r.value) == Pad(bits)
  {
    if |bits| > WORD_SIZE then Err(LengthError) else Ok(Chunks(Pad(bits)))
  }

  /** Four 4-bit lists laid end to end are found again at offsets 0, 4, 8 and 12. */
  lemma QuarterSlices(a: seq<bool>, b: seq<bool>, c: seq<bool>, d: seq<bool>)
    requires |a| == UNIT_SIZE && |b| == UNIT_SIZE && |c| == UNIT_SIZE && |d| == UNIT_SIZE
    ensures (a + b + c + d)[0..4] == a && (a + b + c + d)[4..8] == b
    ensures (a + b + c + d)[8..12] == c && (a + b + c + d)[12..16] == d
  {
    var s := a + b + c + d;
    assert s == ((a + b) + c) + d;
    assert s[..12] == (a + b) + c;
    assert s[..8] == a + b;
  }

  /** Unit i of a word's bits is the word's unit i. */
  lemma ChunkOfWord(w: Word16, i: nat)
    requires i < UNITS_PER_WORD
    ensures Chunk(ToBinary(w), i) == w.units[i]
  {
    var bits := ToBinary(w);
    ToBinaryWord16(w);
    var u0, u1, u2, u3 := UnitToBinary(w.units[0]), UnitToBinary(w.units[1]),
                          UnitToBinary(w.units[2]), UnitToBinary(w.units[3]);
    QuarterSlices(u0, u1, u2, u3);
    if i == 0 {
      assert bits[0..4] == u0;
    } else if i == 1 {
      assert bits[4..8] == u1;
    } else if i == 2 {
      assert bits[8..12] == u2;
    } else {
      assert bits[12..16] == u3;
    }
    UnitBinaryRoundTrip(w.units[i]);
  }

  /** Every full-width word is rebuilt from its own bits. */
  lemma {:induction false} FromBinaryToBinary(w: Word16)
    ensures FromBinary(ToBinary(w)) == Ok(w)
  {
    var bits := ToBinary(w);
    PadFull(bits);
    var r := FromBinary(bits).value;
    forall i | 0 <= i < UNITS_PER_WORD
      ensures r.units[i] == w.units[i]
    {
      ChunkOfWord(w, i);
    }
    assert r.units == w.units;
  }

  /** Two full-width words with the same bits are the same word. */
  lemma ToBinaryInjective(v: Word16, w: Word16)
    requires ToBinary(v) == ToBinary(w)
    ensures v == w
  {
    FromBinaryToBinary(v);
    FromBinaryToBinary(w);
  }

  /** Appending the next chunk keeps the list a prefix of the word's chunks. */
  lemma ChunksGrow(p: seq<bool>, units: seq<Unit>, u: Unit)
    requires |p| == WORD_SIZE && |units| < UNITS_PER_WORD
    requires forall k :: 0 <= k < |units| ==> units[k] == Chunk(p, k)
    requires u == UnitFromBinary(p[|units| * UNIT_SIZE .. (|units| + 1) * UNIT_SIZE]).value
    ensures forall k :: 0 <= k < |units| + 1 ==> (units + [u])[k] == Chunk(p, k)
  {
  }

  /** The loop of `Word.from_binary`, building the unit list one chunk at a time. */
  method WordFromBinary(bits: seq<bool>) returns (r: Result<Word16>)
    ensures r == FromBinary(bits)
  {
    if |bits| > WORD_SIZE {
      return Err(LengthError);
    }
    var padded := bits;
    if |bits| < WORD_SIZE {
      padded := seq(WORD_SIZE - |bits|, _ => false) + bits;
    } else {
      PadFull(bits);
    }
    assert |padded| / UNIT_SIZE == UNITS_PER_WORD;
    var units: seq<Unit> := [];
    var i := 0;
    while i < |padded| / UNIT_SIZE
      invariant padded == Pad(bits)
      invariant 0 <= i <= UNITS_PER_WORD && |units| == i
      invariant forall k :: 0 <= k < i ==> units[k] == Chunk(padded, k)
    {
      var u := UnitFromBinary(padded[i * UNIT_SIZE .. (i + 1) * UNIT_SIZE]);
      ChunksGrow(padded, units, u.value);
      units := units + [u.value];
      i := i + 1;
    }
    assert units == Chunks(padded).units;
    return Ok(Word(units));
  }
}
