# scasm: a tiny 16-bit virtual CPU, in Dafny

This project models the core of *scasm*, a toy 16-bit processor written in
Python. A **unit** is a 4-bit nibble, a **word** is four units (16 bits,
most significant unit first). A program is a list of words; the first unit
of each word is an opcode and the other three are operands. The
**computer** keeps a register file and a sparse memory, both keyed by
integers and both reading as the zero word where nothing was written. It
decodes an instruction through its opcode table and runs one of twelve
handlers. Each handler checks that it got three operands and returns the
next program counter. LOAD and the register operations update one
register, STORE updates one memory cell, and JUMP changes nothing but the
program counter.
Arithmetic goes through a ripple-carry adder over the bit lists. INC adds
the word 1 and DEC adds the all-ones word, so both wrap modulo 2^16.

The Dafny modules follow the Python files:

- `config.dfy`: the sizes from `config.py`, plus the error, result and option types.
- `bits.dfy`: bit lists read as unsigned numbers, most significant bit first.
- `units.dfy`: `unit.py`.
- `utils.dfy`: `utils.py`.
- `machine.dfy`: `computer.py`, plus the driver loop of `app.py`.

Code that loops or updates state in place is modelled as methods. These
are the word-from-bits loop, the instruction and bit-string parsers, the
ripple-carry adder over an array, and the `Computer` class with its
register and memory maps. The word-from-bits loop and the adder are proved
equal to pure specification functions, and the properties are proved
about those functions. The two parsers carry their contracts directly:
which inputs fail, with which error, and what each output element is.
The handlers are specified by one pure function, `Step`. Every handler
method ensures that the new registers, memory and program counter are what
`Step` gives, or that it fails with `Step`'s error and changes nothing.

In a few places the code does something other than what its names
suggest. The model follows the code:

- Register 0 is an ordinary, writable register. The code seeds it with
  zero but never protects it.
- A rotation by 16 or more places leaves the word unchanged. One might
  expect a rotation by n modulo 16, but the code's slice clamping returns
  the bits as they were.
- The XOR instruction combines its sources with OR (`computer.py:143`).
- `Unit(15)` is rejected, because the range check is `value >= 2**4 - 1`.
  A unit can still hold 15 when it is built from bits or from a hex digit.

## Model

| member | source | states |
|---|---|---|
| Config.WordSizeIsWholeUnits | config.py:1-5 | the start-up check holds: WORD_SIZE is a multiple of UNIT_SIZE, and a word is WORD_SIZE / UNIT_SIZE = 4 units |
| Bits.BinaryToInt | utils.py:10-11 | the unsigned reading of a most-significant-first bit list; n bits read below 2^n |
| Bits.ComplementValue | utils.py:68-75 | a bit list and its bitwise complement read as v and 2^n - 1 - v |
| Bits.IntToBinaryRoundTrip | utils.py:10-11 | reading back the n-bit encoding of any v < 2^n gives v |
| Bits.BinaryToIntRoundTrip | utils.py:10-11 | every bit list is the encoding of its own value at its own length, so reading bits as a number loses nothing |
| Bits.BinaryToIntAppend | utils.py:10-11 | the value of a ++ b is value(a) * 2^len(b) + value(b) |
| Bits.ZerosValue | unit.py:60-61 | any number of false bits reads as 0 |
| Bits.OnesValue | computer.py:170-171 | k true bits read as 2^k - 1, so the DEC operand is 0xFFFF |
| Bits.LsbToIntReverse | utils.py:41-42 | reading the reversed list least-significant-first gives the same value as reading the list itself |
| Units.NewUnit | unit.py:9-13 | the constructor succeeds exactly for 0 <= value < 15 and keeps the value; anything else is a range error |
| Units.NewUnitRejectsLargestNibble | unit.py:9-13 | Unit(15) is refused, yet four true bits build a unit holding 15 |
| Units.UnitToBinary | unit.py:15-17 | exactly 4 bits whose value is the unit's value |
| Units.UnitFromBinary | unit.py:19-24 | succeeds exactly on 4 bits, else a length error; the unit's value is the bits' value and it converts back to the same bits |
| Units.UnitBinaryRoundTrip | unit.py:15-24 | from_binary(to_binary(u)) == u |
| Units.HexValue | unit.py:33 | a character has a hex value exactly when it is a hex digit of either case, and the value indexes the upper-case digit |
| Units.UnitToHex | unit.py:26-27 | one upper-case hex digit whose value is the unit's value |
| Units.UnitFromHex | unit.py:29-34 | a string that is not one character is a length error; one character succeeds exactly when it is a hex digit, else a format error; the unit renders as that digit in upper case |
| Units.UnitHexRoundTrip | unit.py:26-34 | from_hex(to_hex(u)) == u |
| Units.NewWord | unit.py:40-44 | given units are kept; no units gives four zero units |
| Units.ZeroWordRendering | unit.py:40-54 | the default word renders as "0000" and as 16 false bits |
| Units.WordToHex | unit.py:46-51 | one character per unit, each the unit's hex digit |
| Units.ToBinary | unit.py:53-54 | four bits per unit |
| Units.ToBinaryWord16 | unit.py:53-54 | a word's bits are its four units' bits concatenated in order |
| Units.Pad | unit.py:60-61 | left-pads a list of at most 16 bits with false up to exactly 16 |
| Units.PadKeepsValue | unit.py:60-61 | the input sits unchanged at the low end of the padded list, so padding keeps its value |
| Units.FromBinary | unit.py:56-73 | succeeds exactly for at most 16 bits, else a length error; the word's bits are the input left-padded with false to 16 |
| Units.FromBinaryToBinary | unit.py:53-73 | from_binary(to_binary(w)) == w for every 16-bit word |
| Units.ToBinaryInjective | unit.py:53-54 | two 16-bit words with the same bits are equal |
| Units.WordFromBinary | unit.py:56-73 | the padding and chunk-by-chunk loop returns exactly FromBinary(bits) |
| Utils.UnitsToInt | utils.py:7-8 | the value of n units is below 2^(4n) |
| Utils.UnitsToIntPair | utils.py:7-8 | an operand pair (hi, lo) names hi * 16 + lo |
| Utils.BinaryToIntMatchesUnits | utils.py:7-11 | binary_to_int of a word's bits equals units_to_int of its units |
| Utils.StrInstructionToWord | utils.py:13-23 | a string that is not 4 characters long is a length error; 4 characters succeed exactly when all are hex digits, else a format error; unit i holds digit i's value and the word renders as the upper-cased input |
| Utils.BinaryStrToList | utils.py:25-34 | succeeds exactly when every character is '0' or '1', else a format error; same length, with true exactly at the '1's |
| Utils.FromValue | utils.py:58-64 | the 16-bit word built from v < 2^16 has value v |
| Utils.WordDeterminedByValue | utils.py:58-64 | a 16-bit word is the word built from its own value |
| Utils.WordSum | utils.py:37-66 | the adder's result has value (a + b) mod 2^16 |
| Utils.AddWords | utils.py:37-66 | the ripple-carry loop over the reversed bits returns WordSum(a, b) |
| Utils.AdderResult | utils.py:61-64 | the bits left by the loop, reversed and rebuilt, are WordSum(a, b) |
| Utils.RippleStep | utils.py:47-59 | each bit position keeps the low result bits plus carry equal to the sum of the low input bits |
| Utils.WordSumCommutes | utils.py:37-66 | add_words(a, b) == add_words(b, a) |
| Utils.WordSumWraps | utils.py:61-64 | 0xFFFF + 1 wraps to 0x0000: the last carry is dropped |
| Utils.IncThenDecRestoresWord | computer.py:147-175 | adding 1 and then 0xFFFF gives back the word |
| Utils.BinaryNot | utils.py:68-75 | every bit of the result is the flipped input bit |
| Utils.NotValue | utils.py:68-75 | the complement of a word of value v has value 0xFFFF - v |
| Utils.NotPlusSelf | utils.py:37-75 | a word plus its complement is 0xFFFF, with no carry out |
| Utils.NotInvolution | utils.py:68-75 | not(not(w)) == w |
| Utils.BinaryAnd | utils.py:77-86 | bit i of the result is a[i] and b[i] |
| Utils.BinaryOr | utils.py:88-97 | bit i of the result is a[i] or b[i] |
| Utils.BinaryXor | utils.py:99-108 | bit i of the result is a[i] xor b[i] |
| Utils.OrDiffersFromXor | utils.py:88-108 | for a non-zero w, w or w == w while w xor w == 0, so the two helpers differ |
| Utils.RotateLeft | utils.py:116 | bits[n:] + bits[:n] has the same length; below the length, bit i is bits[(i + n) mod len]; at or past the length it is bits unchanged |
| Utils.ShiftBits | utils.py:110-119 | the bit-list part of the shift: 16 bits stay 16 bits, a left shift is bits[n:] + bits[:n], a right shift is the same on the reversed bits, reversed back, and 16 or more places return the bits unchanged |
| Utils.ShiftBitsIndex | utils.py:110-124 | below 16 places, bit i of a left shift is bit (i + n) mod 16 and of a right shift bit (i - n) mod 16 |
| Utils.CircularShift | utils.py:110-124 | the word's bits are the shifted bits; 16 or more places leave the word unchanged |
| Utils.ShiftLeftThenRight | utils.py:110-124 | rotating left and then right by the same n gives back the word |
| Utils.ShiftRightThenLeft | utils.py:110-124 | rotating right and then left by the same n gives back the word |
| Machine.TableOp | computer.py:207-221 | exactly the opcodes 4, 14 and 15 are missing from the table |
| Machine.Mnemonic | computer.py:207-221 | the table's name for each operation, HALT through JUMP |
| Machine.OpcodeOf | computer.py:207-221 | the table maps each operation's opcode back to it |
| Machine.Decode | computer.py:31-37 | succeeds exactly when the first unit's opcode is in the table, else an unsupported-opcode error; the name and operation are the table's, and the three remaining units are the operands |
| Machine.Lookup | computer.py:48-52 | a sparse map read with the zero word as default, as `dict.get(key, Word())` |
| Machine.DecodeOpcodeOf | computer.py:31-37 | an operation's opcode in front of three units decodes back to that operation and those operands |
| Machine.UnsetReadsZero | computer.py:48-49 | a register never written reads as the zero word: "0000", 16 false bits, value 0 |
| Machine.UnsetMemoryReadsZero | computer.py:51-52 | a memory cell never written reads as the zero word: "0000", value 0 |
| Machine.RegisterWriteReadBack | computer.py:43-49 | after a write to register n, n reads the new word, every other register reads as before, and memory is unchanged; register 0 included |
| Machine.IncrementConstants | computer.py:155-171 | the word INC adds has value 1 and the word DEC adds has value 0xFFFF |
| Machine.Step | computer.py:57-208 | the meaning of every instruction: HALT's entry cannot be called, other operand counts than three fail, and otherwise the handler's result |
| Machine.Handle | computer.py:57-204 | the twelve handlers on three operands: STORE writes memory, JUMP changes only the pc, ROT checks its direction, and the rest write their computed word into register ops[0] and return pc + 1 |
| Machine.Computed | computer.py:57-192 | the word each register-writing handler computes: memory at hi * 16 + lo, the adder's sum, a copy, NOT, AND, OR (for both OR and XOR), plus 1, plus 0xFFFF, or the rotation |
| Machine.StepChecksOperands | computer.py:57-204 | HALT's entry cannot be called; every other handler fails with an operand-count error unless given exactly three operands |
| Machine.StepFallsThrough | computer.py:57-192 | every handler but JUMP returns pc + 1 |
| Machine.StepWritesOnlyDestination | computer.py:57-192 | the register-writing handlers set register ops[0] to their computed word and change no other register and no memory |
| Machine.LoadReadsAddress | computer.py:57-65 | LOAD copies memory[hi * 16 + lo] into register ops[0] |
| Machine.StoreWritesAddress | computer.py:67-75 | STORE copies register ops[2] into memory[hi * 16 + lo], keeps the other cells and all registers |
| Machine.AddIAdds | computer.py:77-88 | ADDI leaves (r[ops[1]] + r[ops[2]]) mod 2^16 in register ops[0] |
| Machine.IncThenDecRestores | computer.py:147-175 | INC followed by DEC on the same register restores it, two instructions on |
| Machine.XorActsAsOr | computer.py:135-145 | the XOR instruction behaves exactly like OR |
| Machine.XorIsNotExclusive | computer.py:135-145 | XOR of a non-zero register with itself yields the register, where a true xor would give zero |
| Machine.RotDirection | computer.py:177-192 | ROT fails with an invalid-operand error exactly when the direction is not 0 or 1; direction 1 rotates left and 0 rotates right by ops[1] places |
| Machine.JumpBranches | computer.py:194-204 | JUMP changes nothing and goes to hi * 16 + lo exactly when register ops[0] differs from register 0, otherwise to pc + 1 |
| Machine.RegisterZeroIsWritable | computer.py:43-46 | MOVE into register 0 makes it read as the source register |
| Machine.DriveFuelMonotone | app.py:37-50 | a driver loop that stops within some fuel stops the same way, in the same state, with any more fuel |
| Machine.RunFuelMonotone | app.py:37-50 | the same for the program's fetch, decode and execute loop |
| Machine.Cycle | app.py:38-50 | one pass of the driver loop: a pc outside the program fails, a word that does not decode fails, opcode 0 halts at that pc, and otherwise the handler's error stops the run or its state and pc carry on |
| Machine.Drive | app.py:37-50 | the driver loop over any one-pass function, stopping when a pass stops or when the fuel runs out |
| Machine.RunFrom | app.py:37-50 | the driver loop of a program from a given state and pc, executing at most `fuel` instructions |
| Machine.RunStep | app.py:37-50 | a pass that continues hands the run on, one instruction of fuel less, from the new state and pc |
| Machine.RunStop | app.py:43-45 | a pass that stops ends the run in the state it stopped in |
| Machine.RunOut | app.py:37 | with no fuel left the run stops where it stands |
| Machine.InstructionSet | app.py:5-19 | the thirteen-word listing the driver runs, digit for digit |
| Machine.AppStart | app.py:22-32 | the driver's starting computer: the word x at 0x20 and at 0x21, register 0 zero |
| Machine.Cycle1120 | app.py:6 | in any program and state, word 1120 loads memory 0x20 into register 1 and moves to the next pc |
| Machine.Cycle1221 | app.py:7 | word 1221 loads memory 0x21 into register 2 and moves to the next pc |
| Machine.Cycle6220 | app.py:8 | word 6220 complements register 2 and moves to the next pc |
| Machine.Cycle3221 | app.py:9 | word 3221 adds register 1 into register 2 and moves to the next pc |
| Machine.HaltCycle | app.py:18 | word 0000 stops the run at its own pc without executing anything |
| Machine.LoadBoth | app.py:6-7 | the listing's two opening LOADs put x into registers 1 and 2 and hand on at pc 2 |
| Machine.OpeningRun | app.py:6-9 | four passes over 1120 1221 6220 3221 leave x in register 1 and not(x) + x in register 2, and the run goes on from pc 4 |
| Machine.InstructionSetOpening | app.py:5-50 | for any starting word x, the listing's first four instructions leave x in register 1 and 0xFFFF in register 2, with memory untouched, and the run goes on from pc 4 |
| Machine.AddRun | app.py:6-18 | any program 1120 1221 3221 0000 halts at pc 3 with x in register 1 and x + x in register 2 |
| Machine.AddProgramRun | app.py:37-50 | the four-word example made of the listing's words 1120, 1221, 3221 and 0000 halts at pc 3 with x + x in register 2, given four or more instructions of fuel |
| Machine.AddProgramExample | app.py:22-32 | with the word 4 at 0x20 and 0x21, that four-word example leaves 8 in register 2 and memory untouched |
| Machine.Computer.constructor | computer.py:22-29 | register 0 holds the zero word and memory is the given map |
| Machine.Computer.GetRegister | computer.py:48-49 | the register's word, or the zero word for a register never written |
| Machine.Computer.GetMemory | computer.py:51-52 | the cell's word, or the zero word for an address never written |
| Machine.Computer.SetRegister | computer.py:43-46 | the register is created if needed and holds the value; other registers and memory are unchanged |
| Machine.Computer.SetMemory | computer.py:54-55 | the cell holds the value; other cells and the registers are unchanged |
| Machine.Computer.Execute | computer.py:39-41 | the handler chosen by the operation leaves the state and next pc that Step gives, or fails as Step does and changes nothing |
| Machine.Computer.ExecLoad | computer.py:57-65 | agrees with Step for LOAD |
| Machine.Computer.ExecStore | computer.py:67-75 | agrees with Step for STORE |
| Machine.Computer.ExecAddI | computer.py:77-88 | agrees with Step for ADDI, through the ripple-carry adder |
| Machine.Computer.ExecMove | computer.py:90-98 | agrees with Step for MOVE |
| Machine.Computer.ExecNot | computer.py:100-109 | agrees with Step for NOT |
| Machine.Computer.ExecAnd | computer.py:111-121 | agrees with Step for AND |
| Machine.Computer.ExecOr | computer.py:123-133 | agrees with Step for OR |
| Machine.Computer.ExecXor | computer.py:135-145 | agrees with Step for XOR, which uses OR |
| Machine.Computer.ExecInc | computer.py:147-160 | agrees with Step for INC: the register plus from_binary([True]) |
| Machine.Computer.ExecDec | computer.py:162-175 | agrees with Step for DEC: the register plus sixteen true bits |
| Machine.Computer.ExecRot | computer.py:177-192 | agrees with Step for ROT, including the direction check |
| Machine.Computer.ExecJump | computer.py:194-204 | agrees with Step for JUMP: target n through pc = n - 1, then pc + 1 |
| Machine.Computer.Run | app.py:37-50 | the fetch, decode, halt-check and execute loop ends in the state and outcome of RunFrom with the same fuel |

## Left out

- Printing is not modelled: the trace line in `execute`, the "Halt" message, and the periodic register dump with its `input()` pause in `app.py`.
- `app.py`'s instruction and jump counters are not modelled.
- `app.py` parses each instruction string inside the loop. The model's driver takes the parsed words; `Utils.StrInstructionToWord` models the parsing.
- Machine.Computer.Run: bounded by a fuel count of executed instructions, because the source loop need not terminate. `RunFuelMonotone` shows that more fuel never changes a finished run.
- `Computer.registers` is a class attribute in the source, so every `Computer` instance shares one register dictionary. The default `init_memory={}` and `Word(units=[])` arguments are shared mutable objects too. The model gives each computer its own maps and treats those defaults as empty.
- `Register` objects are folded into the register map: a register is the word it holds.
- `Unit.from_binary`, `Unit.from_hex` and `Word.from_binary` overwrite the receiver in place. The model returns a new value instead; nothing in the core aliases a unit or word that is later overwritten.
- The adder, the bitwise helpers and the shift are modelled on 16-bit words only. In the source every word reaching them is 16 bits wide, since words are built by `from_binary` or from four hex digits.
- Utils.CircularShift: the shift count is a natural number. Python's negative-slice behaviour for n < 0 is not modelled, because ROT's count is a unit value and never negative.
- Units.UnitFromHex: Python's `int(..., 16)` also accepts some non-ASCII digit characters. The model accepts only 0-9, a-f and A-F.
- Exception message texts are not modelled; each raise becomes an `Error` value (range, length, format, unsupported opcode, operand count, invalid operand).
- HALT's table entry is a zero-argument lambda, so calling it as a handler raises a `TypeError`. The model gives `Err(NotCallable)`; the driver stops at opcode 0 before calling it.
- The check in `config.py` that WORD_SIZE is a multiple of UNIT_SIZE is a fixed fact here (`Config.WordSizeIsWholeUnits`), since both sizes are constants.
