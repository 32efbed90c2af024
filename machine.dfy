/**
 * The decode/execute engine: the instruction table, a register file and a
 * sparse memory that read as zero where unset, and the twelve handlers,
 * each of which changes one register or memory cell and returns the next
 * program counter.
 */
module Machine {
  import opened Config
  import opened Failures
  import opened Bits
  import opened Units
  import opened Utils

  datatype Op = Halt | Load | Store | AddI | Move | Not | And | Or | Xor | Inc | Dec | Rot | Jump

  /** The INSTRUCTIONS table, opcode to operation; 4, 14 and 15 are not listed. */
  function TableOp(opcode: int): (op: Option<Op>)
    ensures op.Some? <==> 0 <= opcode < UNIT_VALUES && opcode !in {4, 14, 15}
  {
    match opcode
    case 0 => Some(Halt)
    case 1 => Some(Load)
    case 2 => Some(Store)
    case 3 => Some(AddI)
    case 5 => Some(Move)
    case 6 => Some(Not)
    case 7 => Some(And)
    case 8 => Some(Or)
    case 9 => Some(Xor)
    case 10 => Some(Inc)
    case 11 => Some(Dec)
    case 12 => Some(Rot)
    case 13 => Some(Jump)
    case _ => None
  }

  /** The mnemonic the table lists beside each operation. */
  function Mnemonic(op: Op): string
  {
    match op
    case Halt => "HALT"
    case Load => "LOAD"
    case Store => "STORE"
    case AddI => "ADDI"
    case Move => "MOVE"
    case Not => "NOT"
    case And => "AND"
    case Or => "OR"
    case Xor => "XOR"
    case Inc => "INC"
    case Dec => "DEC"
    case Rot => "ROT"
    case Jump => "JUMP"
  }

  /** The opcode under which the table lists an operation. */
  function OpcodeOf(op: Op): (opcode: Nibble)
    ensures TableOp(opcode) == Some(op)
  {
    match op
    case Halt => 0
    case Load => 1
    case Store => 2
    case AddI => 3
    case Move => 5
    case Not => 6
    case And => 7
    case Or => 8
    case Xor => 9
    case Inc => 10
    case Dec => 11
    case Rot => 12
    case Jump => 13
  }

  datatype Decoded = Decoded(opcode: Nibble, name: string, op: Op, operands: seq<Unit>)

  /**
   * `decode`: the first unit is the opcode, which must be in the table; the
   * remaining units are the operands.
   */
  function Decode(instruction: Word16): (r: Result<Decoded>)
    ensures r.Ok? <==> instruction.units[0].value !in {4, 14, 15}
    ensures r.Err? ==> r.error == UnsupportedOpcode
    ensures r.Ok? ==> r.value.opcode == instruction.units[0].value
                      && TableOp(r.value.opcode) == Some(r.value.op)
                      && OpcodeOf(r.value.op) == r.value.opcode
                      && r.value.name == Mnemonic(r.value.op)
                      && r.value.operands == instruction.units[1..]
                      && |r.value.operands| == 3
  {
    var opcode := instruction.units[0].value;
    match TableOp(opcode)
    case None => Err(UnsupportedOpcode)
    case Some(op) => Ok(Decoded(opcode, Mnemonic(op), op, instruction.units[1..]))
  }

  /** Encoding an operation's opcode in front of three operands decodes back to it. */
  lemma DecodeOpcodeOf(op: Op, a: Unit, b: Unit, c: Unit)
    ensures Decode(Word([Unit(OpcodeOf(op)), a, b, c])).Ok?
    ensures Decode(Word([Unit(OpcodeOf(op)), a, b, c])).value.op == op
    ensures Decode(Word([Unit(OpcodeOf(op)), a, b, c])).value.operands == [a, b, c]
  {
  }

  /** A sparse map that reads as the zero word where unset. */
  function Lookup(m: map<int, Word16>, key: int): Word16
  {
    if key in m then m[key] else ZERO_WORD
  }

  /** The observable state of a computer: its registers and its memory. */
  datatype State = State(registers: map<int, Word16>, memory: map<int, Word16>) {
    function Reg(n: int): Word16 { Lookup(registers, n) }
    function Mem(address: int): Word16 { Lookup(memory, address) }
    function WithReg(n: int, value: Word16): State { this.(registers := registers[n := value]) }
    function WithMem(address: int, value: Word16): State { this.(memory := memory[address := value]) }
  }

  /** A register never written reads as the zero word. */
  lemma UnsetReadsZero(s: State, n: int)
    requires n !in s.registers
    ensures WordToHex(s.Reg(n)) == "0000"
    ensures ToBinary(s.Reg(n)) == seq(WORD_SIZE, _ => false)
    ensures WordValue(s.Reg(n)) == 0
  {
    ZeroWordRendering();
    ZeroWordValue();
  }

  /** A memory cell never written reads as the zero word. */
  lemma UnsetMemoryReadsZero(s: State, address: int)
    requires address !in s.memory
    ensures s.Mem(address) == ZERO_WORD
    ensures WordToHex(s.Mem(address)) == "0000"
    ensures WordValue(s.Mem(address)) == 0
  {
    ZeroWordRendering();
    ZeroWordValue();
  }

  /** A write to one register is read back there and nowhere else; register 0 included. */
  lemma RegisterWriteReadBack(s: State, n: int, value: Word16, m: int)
    ensures s.WithReg(n, value).Reg(n) == value
    ensures m != n ==> s.WithReg(n, value).Reg(m) == s.Reg(m)
    ensures s.WithReg(n, value).memory == s.memory
  {
  }

  /** The word INC adds: `from_binary([True])`. */
  const ONE: Word16 := FromBinary([true]).value
  /** `[True] * WORD_SIZE`. */
  function AllOnesBits(): seq<bool>
  {
    seq(WORD_SIZE, _ => true)
  }

  /** The word DEC adds: WORD_SIZE true bits, -1 in two's complement. */
  const ALL_ONES: Word16 := FromBinary(AllOnesBits()).value

  lemma IncrementConstants()
    ensures WordValue(ONE) == 1
    ensures WordValue(ALL_ONES) == WORD_VALUES - 1
  {
    ZerosPrefixValue(WORD_SIZE - 1, [true]);
    assert BinaryToInt([true]) == 1;
    BinaryToIntMatchesUnits(ONE);
    PadFull(AllOnesBits());
    OnesValue(WORD_SIZE);
    Pow2Sizes();
    BinaryToIntMatchesUnits(ALL_ONES);
  }

  /**
   * What one handler does: the state it leaves and the next program counter,
   * or the error it raises before changing anything.
   */
  function Step(s: State, op: Op, ops: seq<Unit>, pc: nat): Result<(State, nat)>
  {
    if op == Halt then Err(NotCallable)
    else if |ops| != 3 then Err(OperandCount)
    else Handle(s, op, ops[0], ops[1], ops[2], pc)
  }

  /** The handlers' effects, given their three operand units x, y and z. */
  function Handle(s: State, op: Op, x: Unit, y: Unit, z: Unit, pc: nat): Result<(State, nat)>
  {
    match op
    case Halt => Err(NotCallable)
    case Store => Ok((s.WithMem(UnitsToInt([x, y]), s.Reg(z.value)), pc + 1))
    case Jump =>
      if ToBinary(s.Reg(x.value)) != ToBinary(s.Reg(0)) then Ok((s, UnitsToInt([y, z])))
      else Ok((s, pc + 1))
    case Rot =>
      if z.value != 0 && z.value != 1 then Err(InvalidOperand)
      else Ok((s.WithReg(x.value, Computed(s, op, x, y, z)), pc + 1))
    case Load | AddI | Move | Not | And | Or | Xor | Inc | Dec =>
      Ok((s.WithReg(x.value, Computed(s, op, x, y, z)), pc + 1))
  }

  /** Every handler but HALT, STORE and JUMP stores its result in register x. */
  predicate WritesRegister(op: Op)
  {
    op !in {Halt, Store, Jump}
  }

  /** The word a register-writing handler stores in register x. */
  function Computed(s: State, op: Op, x: Unit, y: Unit, z: Unit): Word16
    requires WritesRegister(op)
  {
    match op
    case Load => s.Mem(UnitsToInt([y, z]))
    case AddI => WordSum(s.Reg(y.value), s.Reg(z.value))
    case Move => s.Reg(y.value)
    case Not => BinaryNot(s.Reg(y.value))
    case And => BinaryAnd(s.Reg(y.value), s.Reg(z.value))
    case Or => BinaryOr(s.Reg(y.value), s.Reg(z.value))
    // the XOR handler combines with OR, as the source does
    case Xor => BinaryOr(s.Reg(y.value), s.Reg(z.value))
    case Inc => WordSum(s.Reg(x.value), ONE)
    case Dec => WordSum(s.Reg(x.value), ALL_ONES)
    case Rot => CircularShift(s.Reg(x.value), y.value, z.value == 1)
  }

  /** A handler's observable effect agrees with what Step prescribes. */
  predicate Completes(before: State, after: State, next: Result<nat>, spec: Result<(State, nat)>)
  {
    match spec
    case Ok((s, pc)) => after == s && next == Ok(pc)
    case Err(e) => after == before && next == Err(e)
  }

  /** HALT's entry cannot be called; every other handler checks for exactly three operands. */
  lemma StepChecksOperands(s: State, op: Op, ops: seq<Unit>, pc: nat)
    ensures op == Halt ==> Step(s, op, ops, pc) == Err(NotCallable)
    ensures op != Halt && |ops| != 3 ==> Step(s, op, ops, pc) == Err(OperandCount)
  {
  }

  /** Every handler but JUMP moves on to the next instruction. */
  lemma StepFallsThrough(s: State, op: Op, ops: seq<Unit>, pc: nat)
    requires op != Jump && Step(s, op, ops, pc).Ok?
    ensures Step(s, op, ops, pc).value.1 == pc + 1
  {
  }

  /** The register-writing handlers change only register ops[0], and never memory. */
  lemma StepWritesOnlyDestination(s: State, op: Op, ops: seq<Unit>, pc: nat, n: int)
    requires WritesRegister(op) && Step(s, op, ops, pc).Ok?
    ensures Step(s, op, ops, pc).value.0 == s.WithReg(ops[0].value, Computed(s, op, ops[0], ops[1], ops[2]))
    ensures Step(s, op, ops, pc).value.0.memory == s.memory
    ensures n != ops[0].value ==> Step(s, op, ops, pc).value.0.Reg(n) == s.Reg(n)
  {
  }

  /** LOAD copies memory[hi * 16 + lo] into register ops[0]. */
  lemma LoadReadsAddress(s: State, ops: seq<Unit>, pc: nat)
    requires |ops| == 3
    ensures Step(s, Load, ops, pc).Ok?
    ensures Step(s, Load, ops, pc).value.0.Reg(ops[0].value)
            == s.Mem(ops[1].value * UNIT_VALUES + ops[2].value)
  {
    UnitsToIntPair(ops[1], ops[2]);
  }

  /** STORE copies register ops[2] into memory[hi * 16 + lo] and changes nothing else. */
  lemma StoreWritesAddress(s: State, ops: seq<Unit>, pc: nat, address: int)
    requires |ops| == 3
    ensures Step(s, Store, ops, pc).Ok?
    ensures var s' := Step(s, Store, ops, pc).value.0;
            s'.registers == s.registers
            && s'.Mem(ops[0].value * UNIT_VALUES + ops[1].value) == s.Reg(ops[2].value)
            && (address != ops[0].value * UNIT_VALUES + ops[1].value ==> s'.Mem(address) == s.Mem(address))
  {
    UnitsToIntPair(ops[0], ops[1]);
  }

  /** ADDI leaves in ops[0] the sum of registers ops[1] and ops[2] modulo 2^16. */
  lemma AddIAdds(s: State, ops: seq<Unit>, pc: nat)
    requires |ops| == 3
    ensures Step(s, AddI, ops, pc).Ok?
    ensures WordValue(Step(s, AddI, ops, pc).value.0.Reg(ops[0].value))
            == (WordValue(s.Reg(ops[1].value)) + WordValue(s.Reg(ops[2].value))) % WORD_VALUES
  {
  }

  /** INC followed by DEC on the same register restores it. */
  lemma IncThenDecRestores(s: State, ops: seq<Unit>, pc: nat)
    requires |ops| == 3
    ensures Step(s, Inc, ops, pc).Ok?
    ensures var (s1, pc1) := Step(s, Inc, ops, pc).value;
            Step(s1, Dec, ops, pc1).Ok?
            && Step(s1, Dec, ops, pc1).value.0.Reg(ops[0].value) == s.Reg(ops[0].value)
            && Step(s1, Dec, ops, pc1).value.1 == pc + 2
  {
    var x := ops[0].value;
    var w := s.Reg(x);
    var s1 := s.WithReg(x, WordSum(w, ONE));
    var pc1: nat, pc2: nat := pc + 1, pc + 2;
    assert Step(s, Inc, ops, pc) == Ok((s1, pc1));
    assert s1.Reg(x) == WordSum(w, ONE);
    var s2 := s1.WithReg(x, WordSum(WordSum(w, ONE), ALL_ONES));
    assert Step(s1, Dec, ops, pc1) == Ok((s2, pc2));
    IncrementConstants();
    IncThenDecRestoresWord(w, ONE, ALL_ONES);
  }

  /** The XOR instruction behaves exactly as the OR instruction. */
  lemma XorActsAsOr(s: State, ops: seq<Unit>, pc: nat)
    ensures Step(s, Xor, ops, pc) == Step(s, Or, ops, pc)
  {
    if |ops| == 3 {
      assert Computed(s, Xor, ops[0], ops[1], ops[2]) == Computed(s, Or, ops[0], ops[1], ops[2]);
    }
  }

  /** XOR of a non-zero register with itself leaves it unchanged, where an exclusive or would clear it. */
  lemma XorIsNotExclusive(s: State, r: Unit, d: Unit, pc: nat)
    requires s.Reg(r.value) != ZERO_WORD
    ensures Step(s, Xor, [d, r, r], pc).Ok?
    ensures Step(s, Xor, [d, r, r], pc).value.0.Reg(d.value) == s.Reg(r.value)
    ensures BinaryXor(s.Reg(r.value), s.Reg(r.value)) == ZERO_WORD
  {
    OrDiffersFromXor(s.Reg(r.value));
  }

  /** ROT needs direction 0 or 1; 1 rotates left and 0 rotates right by ops[1] places. */
  lemma RotDirection(s: State, ops: seq<Unit>, pc: nat)
    requires |ops| == 3
    ensures Step(s, Rot, ops, pc).Err? <==> ops[2].value !in {0, 1}
    ensures Step(s, Rot, ops, pc).Err? ==> Step(s, Rot, ops, pc).error == InvalidOperand
    ensures ops[2].value == 1 ==> Step(s, Rot, ops, pc).value.0.Reg(ops[0].value)
                                  == CircularShift(s.Reg(ops[0].value), ops[1].value, true)
    ensures ops[2].value == 0 ==> Step(s, Rot, ops, pc).value.0.Reg(ops[0].value)
                                  == CircularShift(s.Reg(ops[0].value), ops[1].value, false)
  {
    assert Step(s, Rot, ops, pc) == Handle(s, Rot, ops[0], ops[1], ops[2], pc);
  }

  /**
   * JUMP changes no register and no memory; it goes to hi * 16 + lo exactly
   * when register ops[0]'s bits differ from register 0's, else to pc + 1.
   */
  lemma JumpBranches(s: State, ops: seq<Unit>, pc: nat)
    requires |ops| == 3
    ensures Step(s, Jump, ops, pc).Ok?
    ensures Step(s, Jump, ops, pc).value.0 == s
    ensures Step(s, Jump, ops, pc).value.1
            == if s.Reg(ops[0].value) != s.Reg(0) then ops[1].value * UNIT_VALUES + ops[2].value else pc + 1
  {
    UnitsToIntPair(ops[1], ops[2]);
    if s.Reg(ops[0].value) != s.Reg(0) {
      if ToBinary(s.Reg(ops[0].value)) == ToBinary(s.Reg(0)) {
        ToBinaryInjective(s.Reg(ops[0].value), s.Reg(0));
      }
    }
  }

  /** Register 0 is an ordinary register: MOVE into it makes it read as the source. */
  lemma RegisterZeroIsWritable(s: State, src: Unit, pc: nat)
    ensures Step(s, Move, [Unit(0), src, ZERO_UNIT], pc).Ok?
    ensures Step(s, Move, [Unit(0), src, ZERO_UNIT], pc).value.0.Reg(0) == s.Reg(src.value)
  {
  }

  datatype RunOutcome = Halted(pc: nat) | Failed(error: Error) | OutOfFuel(pc: nat)

  /** What one pass of the driver loop leads to: a final outcome, or a new state and pc. */
  datatype Transition = Stop(outcome: RunOutcome) | Continue(state: State, pc: nat)

  /** One pass of the driver loop: fetch, decode, stop at opcode 0, otherwise execute. */
  function Cycle(s: State, program: seq<Word16>, pc: nat): Transition
  {
    if pc >= |program| then Stop(Failed(FetchOutOfRange))
    else match Decode(program[pc])
      case Err(e) => Stop(Failed(e))
      case Ok(d) =>
        if d.opcode == 0 then Stop(Halted(pc))
        else match Step(s, d.op, d.operands, pc)
          case Err(e) => Stop(Failed(e))
          case Ok((s', next)) => Continue(s', next)
  }

  /** The driver loop over any one-pass function, taking at most `fuel` passes. */
  function Drive(cycle: (State, nat) -> Transition, s: State, pc: nat, fuel: nat): (State, RunOutcome)
    decreases fuel
  {
    if fuel == 0 then (s, OutOfFuel(pc))
    else match cycle(s, pc)
      case Stop(outcome) => (s, outcome)
      case Continue(s', next) => Drive(cycle, s', next, fuel - 1)
  }

  /** A drive that stops within some fuel stops the same way with any more fuel. */
  lemma {:induction false} DriveFuelMonotone(cycle: (State, nat) -> Transition, s: State, pc: nat,
                                             fuel: nat, more: nat)
    requires !Drive(cycle, s, pc, fuel).1.OutOfFuel?
    ensures Drive(cycle, s, pc, fuel + more) == Drive(cycle, s, pc, fuel)
    decreases fuel
  {
    match cycle(s, pc)
    case Stop(_) =>
    case Continue(s', next) =>
      DriveFuelMonotone(cycle, s', next, fuel - 1, more);
  }

  /** The driver loop of the program, executing at most `fuel` instructions. */
  function RunFrom(s: State, program: seq<Word16>, pc: nat, fuel: nat): (State, RunOutcome)
  {
    Drive((st: State, p: nat) => Cycle(st, program, p), s, pc, fuel)
  }

  /** A run that stops within some fuel stops the same way with any more fuel. */
  lemma RunFuelMonotone(s: State, program: seq<Word16>, pc: nat, fuel: nat, more: nat)
    requires !RunFrom(s, program, pc, fuel).1.OutOfFuel?
    ensures RunFrom(s, program, pc, fuel + more) == RunFrom(s, program, pc, fuel)
  {
    DriveFuelMonotone((st: State, p: nat) => Cycle(st, program, p), s, pc, fuel, more);
  }

  /** A pass that continues hands the run on with one instruction less. */
  lemma RunStep(s: State, program: seq<Word16>, pc: nat, fuel: nat, s': State, next: nat)
    requires Cycle(s, program, pc) == Continue(s', next)
    ensures RunFrom(s, program, pc, fuel + 1) == RunFrom(s', program, next, fuel)
  {
  }

  /** With no fuel left the run stops where it stands. */
  lemma RunOut(s: State, program: seq<Word16>, pc: nat)
    ensures RunFrom(s, program, pc, 0) == (s, OutOfFuel(pc))
  {
  }

  /** A pass that stops ends the run there. */
  lemma RunStop(s: State, program: seq<Word16>, pc: nat, fuel: nat, outcome: RunOutcome)
    requires Cycle(s, program, pc) == Stop(outcome)
    ensures RunFrom(s, program, pc, fuel + 1) == (s, outcome)
  {
  }

  /** One instruction word from its four hex digits' values. */
  function Instruction(op: Nibble, x: Nibble, y: Nibble, z: Nibble): Word16
  {
    Word([Unit(op), Unit(x), Unit(y), Unit(z)])
  }

  /**
   * The listing the repository's driver runs: 1120 1221 6220 3221 A200 2222
   * C221 A200 5100 A100 D206 2231 0000.
   */
  function InstructionSet(): seq<Word16>
  {
    [Instruction(1, 1, 2, 0), Instruction(1, 2, 2, 1), Instruction(6, 2, 2, 0),
     Instruction(3, 2, 2, 1), Instruction(10, 2, 0, 0), Instruction(2, 2, 2, 2),
     Instruction(12, 2, 2, 1), Instruction(10, 2, 0, 0), Instruction(5, 1, 0, 0),
     Instruction(10, 1, 0, 0), Instruction(13, 2, 0, 6), Instruction(2, 2, 3, 1),
     Instruction(0, 0, 0, 0)]
  }

  /** The driver's starting computer: the word x at 0x20 and at 0x21, register 0 zero. */
  function AppStart(x: Word16): State
  {
    State(map[0 := ZERO_WORD], map[32 := x, 33 := x])
  }

  /** Word 1120, wherever it sits, loads memory 0x20 into register 1. */
  lemma Cycle1120(s: State, program: seq<Word16>, pc: nat)
    requires pc < |program| && program[pc] == Instruction(1, 1, 2, 0)
    ensures Cycle(s, program, pc) == Continue(s.WithReg(1, s.Mem(32)), pc + 1)
  {
    var next: nat := pc + 1;
    UnitsToIntPair(Unit(2), Unit(0));
    assert program[pc].units[1..] == [Unit(1), Unit(2), Unit(0)];
    assert Step(s, Load, [Unit(1), Unit(2), Unit(0)], pc) == Ok((s.WithReg(1, s.Mem(32)), next));
  }

  /** Word 1221, wherever it sits, loads memory 0x21 into register 2. */
  lemma Cycle1221(s: State, program: seq<Word16>, pc: nat)
    requires pc < |program| && program[pc] == Instruction(1, 2, 2, 1)
    ensures Cycle(s, program, pc) == Continue(s.WithReg(2, s.Mem(33)), pc + 1)
  {
    var next: nat := pc + 1;
    UnitsToIntPair(Unit(2), Unit(1));
    assert program[pc].units[1..] == [Unit(2), Unit(2), Unit(1)];
    assert Step(s, Load, [Unit(2), Unit(2), Unit(1)], pc) == Ok((s.WithReg(2, s.Mem(33)), next));
  }

  /** Word 6220, wherever it sits, complements register 2. */
  lemma Cycle6220(s: State, program: seq<Word16>, pc: nat)
    requires pc < |program| && program[pc] == Instruction(6, 2, 2, 0)
    ensures Cycle(s, program, pc) == Continue(s.WithReg(2, BinaryNot(s.Reg(2))), pc + 1)
  {
    var next: nat := pc + 1;
    assert program[pc].units[1..] == [Unit(2), Unit(2), Unit(0)];
    assert Step(s, Not, [Unit(2), Unit(2), Unit(0)], pc) == Ok((s.WithReg(2, BinaryNot(s.Reg(2))), next));
  }

  /** Word 3221, wherever it sits, adds register 1 into register 2. */
  lemma Cycle3221(s: State, program: seq<Word16>, pc: nat)
    requires pc < |program| && program[pc] == Instruction(3, 2, 2, 1)
    ensures Cycle(s, program, pc) == Continue(s.WithReg(2, WordSum(s.Reg(2), s.Reg(1))), pc + 1)
  {
    var next: nat := pc + 1;
    assert program[pc].units[1..] == [Unit(2), Unit(2), Unit(1)];
    assert Step(s, AddI, [Unit(2), Unit(2), Unit(1)], pc)
        == Ok((s.WithReg(2, WordSum(s.Reg(2), s.Reg(1))), next));
  }

  /** The two opening LOADs, 1120 and 1221, put x into registers 1 and 2. */
  lemma LoadBoth(x: Word16, program: seq<Word16>, fuel: nat)
    requires 2 <= |program|
    requires program[0] == Instruction(1, 1, 2, 0) && program[1] == Instruction(1, 2, 2, 1)
    ensures RunFrom(AppStart(x), program, 0, fuel + 2)
            == RunFrom(AppStart(x).WithReg(1, x).WithReg(2, x), program, 2, fuel)
  {
    var s0 := AppStart(x);
    var s1 := s0.WithReg(1, x);
    Cycle1120(s0, program, 0);
    RunStep(s0, program, 0, fuel + 1, s1, 1);
    Cycle1221(s1, program, 1);
    RunStep(s1, program, 1, fuel, s1.WithReg(2, x), 2);
  }

  /**
   * Four passes over any program opening with 1120 1221 6220 3221: load x
   * into registers 1 and 2, complement register 2, add register 1 into it,
   * and go on from pc 4 with whatever fuel is left.
   */
  lemma OpeningRun(x: Word16, program: seq<Word16>, fuel: nat)
    requires 4 <= |program|
    requires program[0] == Instruction(1, 1, 2, 0) && program[1] == Instruction(1, 2, 2, 1)
    requires program[2] == Instruction(6, 2, 2, 0) && program[3] == Instruction(3, 2, 2, 1)
    ensures RunFrom(AppStart(x), program, 0, fuel + 4)
            == RunFrom(AppStart(x).WithReg(1, x).WithReg(2, x).WithReg(2, BinaryNot(x))
                         .WithReg(2, WordSum(BinaryNot(x), x)), program, 4, fuel)
  {
    var s2 := AppStart(x).WithReg(1, x).WithReg(2, x);
    var s3 := s2.WithReg(2, BinaryNot(s2.Reg(2)));
    var s4 := s3.WithReg(2, WordSum(s3.Reg(2), s3.Reg(1)));
    LoadBoth(x, program, fuel + 2);
    Cycle6220(s2, program, 2);
    RunStep(s2, program, 2, fuel + 1, s3, 3);
    Cycle3221(s3, program, 3);
    RunStep(s3, program, 3, fuel, s4, 4);
    assert s2.Reg(2) == x;
    assert s3.Reg(2) == BinaryNot(x) && s3.Reg(1) == x;
  }

  /**
   * Whatever word x the driver starts with, its listing's first four passes
   * leave x in register 1, 0xFFFF in register 2 and memory untouched, and the
   * run goes on from pc 4.
   */
  lemma InstructionSetOpening(x: Word16, fuel: nat)
    ensures var s4 := AppStart(x).WithReg(1, x).WithReg(2, x).WithReg(2, BinaryNot(x))
                        .WithReg(2, WordSum(BinaryNot(x), x));
            RunFrom(AppStart(x), InstructionSet(), 0, fuel + 4) == RunFrom(s4, InstructionSet(), 4, fuel)
            && s4.Reg(1) == x && WordValue(s4.Reg(2)) == WORD_VALUES - 1
            && s4.memory == AppStart(x).memory
  {
    OpeningRun(x, InstructionSet(), fuel);
    NotPlusSelf(x);
  }

  /**
   * A four-instruction example assembled from the listing's own words: the
   * two LOADs, the ADDI, and the closing HALT, without the NOT.
   */
  function AddProgram(): seq<Word16>
  {
    var listing := InstructionSet();
    [listing[0], listing[1], listing[3], listing[12]]
  }

  /** Word 0000, wherever it sits, halts the run there without executing anything. */
  lemma HaltCycle(s: State, program: seq<Word16>, pc: nat)
    requires pc < |program| && program[pc] == Instruction(0, 0, 0, 0)
    ensures Cycle(s, program, pc) == Stop(Halted(pc))
  {
  }

  /** Any program 1120 1221 3221 0000 halts at pc 3 with x in register 1 and x + x in register 2. */
  lemma AddRun(x: Word16, program: seq<Word16>, fuel: nat)
    requires 4 <= |program|
    requires program[0] == Instruction(1, 1, 2, 0) && program[1] == Instruction(1, 2, 2, 1)
    requires program[2] == Instruction(3, 2, 2, 1) && program[3] == Instruction(0, 0, 0, 0)
    ensures RunFrom(AppStart(x), program, 0, fuel + 4)
            == (AppStart(x).WithReg(1, x).WithReg(2, x).WithReg(2, WordSum(x, x)), Halted(3))
  {
    var s2 := AppStart(x).WithReg(1, x).WithReg(2, x);
    var s3 := s2.WithReg(2, WordSum(s2.Reg(2), s2.Reg(1)));
    LoadBoth(x, program, fuel + 2);
    Cycle3221(s2, program, 2);
    RunStep(s2, program, 2, fuel + 1, s3, 3);
    HaltCycle(s3, program, 3);
    RunStop(s3, program, 3, fuel, Halted(3));
    assert s2.Reg(2) == x && s2.Reg(1) == x;
  }

  /**
   * Given at least four instructions of fuel, the example halts at its fourth
   * word with x in register 1 and x + x in register 2.
   */
  lemma AddProgramRun(x: Word16, fuel: nat)
    requires fuel >= 4
    ensures RunFrom(AppStart(x), AddProgram(), 0, fuel)
            == (AppStart(x).WithReg(1, x).WithReg(2, x).WithReg(2, WordSum(x, x)), Halted(3))
  {
    AddRun(x, AddProgram(), fuel - 4);
  }

  /** With 4 at both addresses, the example leaves 8 in register 2 and memory untouched. */
  lemma AddProgramExample(four: Word16)
    requires WordValue(four) == 4
    ensures var (final, outcome) := RunFrom(AppStart(four), AddProgram(), 0, 4);
            outcome == Halted(3) && final.Reg(1) == four && WordValue(final.Reg(2)) == 8
            && final.memory == AppStart(four).memory
  {
    AddProgramRun(four, 4);
    NoWrap(WordValue(four), WordValue(four));
  }

  lemma NoWrap(a: nat, b: nat)
    requires a + b < WORD_VALUES
    ensures (a + b) % WORD_VALUES == a + b
  {
  }

  class Computer {
    var registers: map<int, Word16>
    var memory: map<int, Word16>

    /** Register 0 is seeded with the zero word; memory starts as given. */
    constructor(initMemory: map<int, Word16>)
      ensures registers == map[0 := ZERO_WORD] && memory == initMemory
    {
      registers := map[0 := ZERO_WORD];
      memory := initMemory;
    }

    function Snapshot(): State
      reads this
    {
      State(registers, memory)
    }

    /** `get_register`: the zero word for a register never written. */
    function GetRegister(registerNum: int): Word16
      reads this
    {
      Lookup(registers, registerNum)
    }

    /** `get_memory`: the zero word for an address never written. */
    function GetMemory(address: int): Word16
      reads this
    {
      Lookup(memory, address)
    }

    /** `set_register`: creates the register if needed and stores the value. */
    method SetRegister(registerNum: int, value: Word16)
      modifies this
      ensures registers == old(registers)[registerNum := value] && memory == old(memory)
      ensures GetRegister(registerNum) == value
      ensures forall n :: n != registerNum ==> GetRegister(n) == old(GetRegister(n))
    {
      registers := registers[registerNum := value];
    }

    /** `set_memory`: stores the value at the address. */
    method SetMemory(address: int, value: Word16)
      modifies this
      ensures memory == old(memory)[address := value] && registers == old(registers)
      ensures GetMemory(address) == value
      ensures forall a :: a != address ==> GetMemory(a) == old(GetMemory(a))
    {
      memory := memory[address := value];
    }

    /** `execute`: runs the handler the table gives for the operation. */
    method Execute(op: Op, operands: seq<Unit>, pc: nat) returns (next: Result<nat>)
      modifies this
      ensures Completes(old(Snapshot()), Snapshot(), next, Step(old(Snapshot()), op, operands, pc))
    {
      match op
      case Halt => next := Err(NotCallable);
      case Load => next := ExecLoad(operands, pc);
      case Store => next := ExecStore(operands, pc);
      case AddI => next := ExecAddI(operands, pc);
      case Move => next := ExecMove(operands, pc);
      case Not => next := ExecNot(operands, pc);
      case And => next := ExecAnd(operands, pc);
      case Or => next := ExecOr(operands, pc);
      case Xor => next := ExecXor(operands, pc);
      case Inc => next := ExecInc(operands, pc);
      case Dec => next := ExecDec(operands, pc);
      case Rot => next := ExecRot(operands, pc);
      case Jump => next := ExecJump(operands, pc);
    }

    method ExecLoad(operands: seq<Unit>, pc: nat) returns (next: Result<nat>)
      modifies this
      ensures Completes(old(Snapshot()), Snapshot(), next, Step(old(Snapshot()), Load, operands, pc))
    {
      if |operands| != 3 {
        return Err(OperandCount);
      }
      var registerNum := operands[0].value;
      var memAddress := UnitsToInt(operands[1..]);
      assert operands[1..] == [operands[1], operands[2]];
      SetRegister(registerNum, GetMemory(memAddress));
      return Ok(pc + 1);
    }

    method ExecStore(operands: seq<Unit>, pc: nat) returns (next: Result<nat>)
      modifies this
      ensures Completes(old(Snapshot()), Snapshot(), next, Step(old(Snapshot()), Store, operands, pc))
    {
      if |operands| != 3 {
        return Err(OperandCount);
      }
      var memAddress := UnitsToInt(operands[0..2]);
      assert operands[0..2] == [operands[0], operands[1]];
      var registerNum := operands[2].value;
      SetMemory(memAddress, GetRegister(registerNum));
      return Ok(pc + 1);
    }

    method ExecAddI(operands: seq<Unit>, pc: nat) returns (next: Result<nat>)
      modifies this
      ensures Completes(old(Snapshot()), Snapshot(), next, Step(old(Snapshot()), AddI, operands, pc))
    {
      if |operands| != 3 {
        return Err(OperandCount);
      }
      var registerDest := operands[0].value;
      var registerSrcA := operands[1].value;
      var registerSrcB := operands[2].value;
      var sum := AddWords(GetRegister(registerSrcA), GetRegister(registerSrcB));
      SetRegister(registerDest, sum);
      return Ok(pc + 1);
    }

    method ExecMove(operands: seq<Unit>, pc: nat) returns (next: Result<nat>)
      modifies this
      ensures Completes(old(Snapshot()), Snapshot(), next, Step(old(Snapshot()), Move, operands, pc))
    {
      if |operands| != 3 {
        return Err(OperandCount);
      }
      var registerDest := operands[0].value;
      var registerSrc := operands[1].value;
      SetRegister(registerDest, GetRegister(registerSrc));
      return Ok(pc + 1);
    }

    method ExecNot(operands: seq<Unit>, pc: nat) returns (next: Result<nat>)
      modifies this
      ensures Completes(old(Snapshot()), Snapshot(), next, Step(old(Snapshot()), Not, operands, pc))
    {
      if |operands| != 3 {
        return Err(OperandCount);
      }
      var registerDest := operands[0].value;
      var registerSrc := operands[1].value;
      var inv := BinaryNot(GetRegister(registerSrc));
      SetRegister(registerDest, inv);
      return Ok(pc + 1);
    }

    method ExecAnd(operands: seq<Unit>, pc: nat) returns (next: Result<nat>)
      modifies this
      ensures Completes(old(Snapshot()), Snapshot(), next, Step(old(Snapshot()), And, operands, pc))
    {
      if |operands| != 3 {
        return Err(OperandCount);
      }
      var registerDest := operands[0].value;
      var registerSrcA := operands[1].value;
      var registerSrcB := operands[2].value;
      var andRes := BinaryAnd(GetRegister(registerSrcA), GetRegister(registerSrcB));
      SetRegister(registerDest, andRes);
      return Ok(pc + 1);
    }

    method ExecOr(operands: seq<Unit>, pc: nat) returns (next: Result<nat>)
      modifies this
      ensures Completes(old(Snapshot()), Snapshot(), next, Step(old(Snapshot()), Or, operands, pc))
    {
      if |operands| != 3 {
        return Err(OperandCount);
      }
      var registerDest := operands[0].value;
      var registerSrcA := operands[1].value;
      var registerSrcB := operands[2].value;
      var orRes := BinaryOr(GetRegister(registerSrcA), GetRegister(registerSrcB));
      SetRegister(registerDest, orRes);
      return Ok(pc + 1);
    }

    /** The XOR handler: it combines its sources with OR. */
    method ExecXor(operands: seq<Unit>, pc: nat) returns (next: Result<nat>)
      modifies this
      ensures Completes(old(Snapshot()), Snapshot(), next, Step(old(Snapshot()), Xor, operands, pc))
    {
      if |operands| != 3 {
        return Err(OperandCount);
      }
      var registerDest := operands[0].value;
      var registerSrcA := operands[1].value;
      var registerSrcB := operands[2].value;
      var xorRes := BinaryOr(GetRegister(registerSrcA), GetRegister(registerSrcB));
      SetRegister(registerDest, xorRes);
      return Ok(pc + 1);
    }

    method ExecInc(operands: seq<Unit>, pc: nat) returns (next: Result<nat>)
      modifies this
      ensures Completes(old(Snapshot()), Snapshot(), next, Step(old(Snapshot()), Inc, operands, pc))
    {
      if |operands| != 3 {
        return Err(OperandCount);
      }
      var register := operands[0].value;
      var a := GetRegister(register);
      var one := WordFromBinary([true]);
      var incRes := AddWords(a, one.value);
      SetRegister(register, incRes);
      return Ok(pc + 1);
    }

    method ExecDec(operands: seq<Unit>, pc: nat) returns (next: Result<nat>)
      modifies this
      ensures Completes(old(Snapshot()), Snapshot(), next, Step(old(Snapshot()), Dec, operands, pc))
    {
      if |operands| != 3 {
        return Err(OperandCount);
      }
      var register := operands[0].value;
      var a := GetRegister(register);
      var negativeOne := WordFromBinary(AllOnesBits());
      var decRes := AddWords(a, negativeOne.value);
      SetRegister(register, decRes);
      return Ok(pc + 1);
    }

    method ExecRot(operands: seq<Unit>, pc: nat) returns (next: Result<nat>)
      modifies this
      ensures Completes(old(Snapshot()), Snapshot(), next, Step(old(Snapshot()), Rot, operands, pc))
    {
      if |operands| != 3 {
        return Err(OperandCount);
      }
      ghost var spec := Handle(Snapshot(), Rot, operands[0], operands[1], operands[2], pc);
      var register := operands[0].value;
      var n := operands[1].value;
      var d := operands[2].value;
      if d != 0 && d != 1 {
        assert spec == Err(InvalidOperand);
        return Err(InvalidOperand);
      }
      var a := GetRegister(register);
      var rotRes := CircularShift(a, n, if d == 1 then true else false);
      assert spec == Ok((Snapshot().WithReg(register, rotRes), pc + 1));
      SetRegister(register, rotRes);
      return Ok(pc + 1);
    }

    method ExecJump(operands: seq<Unit>, pc: nat) returns (next: Result<nat>)
      modifies this
      ensures Completes(old(Snapshot()), Snapshot(), next, Step(old(Snapshot()), Jump, operands, pc))
    {
      if |operands| != 3 {
        return Err(OperandCount);
      }
      var register := operands[0].value;
      var n := UnitsToInt(operands[1..3]);
      assert operands[1..3] == [operands[1], operands[2]];
      var target: int := pc;
      if ToBinary(GetRegister(register)) != ToBinary(GetRegister(0)) {
        target := n as int - 1;
      }
      return Ok(target + 1);
    }

    /** The driver loop, bounded by `fuel` executed instructions. */
    method Run(program: seq<Word16>, fuel: nat) returns (outcome: RunOutcome)
      modifies this
      ensures (Snapshot(), outcome) == RunFrom(old(Snapshot()), program, 0, fuel)
    {
      var pc: nat := 0;
      var left := fuel;
      while left > 0
        invariant RunFrom(Snapshot(), program, pc, left) == RunFrom(old(Snapshot()), program, 0, fuel)
        decreases left
      {
        if pc >= |program| {
          return Failed(FetchOutOfRange);
        }
        var decoded := Decode(program[pc]);
        if decoded.Err? {
          return Failed(decoded.error);
        }
        if decoded.value.opcode == 0 {
          return Halted(pc);
        }
        var next := Execute(decoded.value.op, decoded.value.operands, pc);
        if next.Err? {
          return Failed(next.error);
        }
        pc := next.value;
        left := left - 1;
      }
      return OutOfFuel(pc);
    }
  }
}
