/** Machine geometry: a unit is a 4-bit nibble, a word is 16 bits. */
module Config {
  /** Number of bits in one Unit. */
  const UNIT_SIZE: nat := 4
  /** Number of bits in one Word. */
  const WORD_SIZE: nat := 16
  /** Number of Units in one Word. */
  const UNITS_PER_WORD: nat := 4

  /** The start-up check of the configuration: a word is a whole number of units. */
  lemma WordSizeIsWholeUnits()
    ensures WORD_SIZE % UNIT_SIZE == 0
    ensures UNITS_PER_WORD == WORD_SIZE / UNIT_SIZE
    ensures UNITS_PER_WORD * UNIT_SIZE == WORD_SIZE
  {
  }
  /** 2^UNIT_SIZE: the number of distinct nibble values. */
  const UNIT_VALUES: nat := 16
  /** 2^WORD_SIZE: the modulus of word arithmetic. */
  const WORD_VALUES: nat := 0x1_0000
}

/** The failures the emulator raises, and the carriers for them. */
module Failures {
  datatype Error =
    | RangeError         // a Unit value outside the accepted range
    | LengthError        // a bit list or string of the wrong length
    | FormatError        // a character that is not a hex or binary digit
    | UnsupportedOpcode  // an opcode missing from the instruction table
    | OperandCount       // a handler given other than 3 operands
    | InvalidOperand     // a ROT direction other than 0 or 1
    | NotCallable        // HALT's table entry cannot take handler arguments
    | FetchOutOfRange    // the driver fetched past the end of the program

  datatype Result<T> = Ok(value: T) | Err(error: Error)

  datatype Option<T> = None | Some(value: T)
}
