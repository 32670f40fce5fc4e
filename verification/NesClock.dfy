/** The cycle counter of kernel/src/nes6502.c: how many clocks an instruction
    takes, and what interrupts do to the count. */
module NesClock {
  import opened Words
  import opened NesStack

  datatype Mode = IMP | IMM | ZP0 | ZPX | ZPY | REL | ABS | ABX | ABY | IND | IZX | IZY

  datatype Operation =
    | ADC | AND | ASL | BCC | BCS | BEQ | BIT | BMI | BNE | BPL | BRK | BVC | BVS | CLC
    | CLD | CLI | CLV | CMP | CPX | CPY | DEC | DEX | DEY | EOR | INC | INX | INY | JMP
    | JSR | LDA | LDX | LDY | LSR | NOP | ORA | PHA | PHP | PLA | PLP | ROL | ROR | RTI
    | RTS | SBC | SEC | SED | SEI | STA | STX | STY | TAX | TAY | TSX | TXA | TXS | TYA
    | UDF

  datatype Instruction = Ins(op: Operation, mode: Mode, cycles: Byte)

  /** The result of the operation. */
  function OpExtra(op: Operation, opcode: Byte): Byte {
    match op
    case ADC | SBC | AND | CMP | CPX | CPY | EOR | LDA | LDX | LDY | ORA => 1
    case NOP =>
      if opcode == 0x1C || opcode == 0x3C || opcode == 0x5C
        || opcode == 0x7C || opcode == 0xDC || opcode == 0xFC then 1 else 0
    case _ => 0
  }

  predicate IsBranch(op: Operation) {
    op.BCC? || op.BCS? || op.BNE? || op.BEQ? || op.BVC? || op.BVS? || op.BPL? || op.BMI?
  }

  /** Room that a table entry leaves for extra cycles. */
  predicate Bounded(i: Instruction) {
    && 2 <= i.cycles <= 8
    && (i.cycles > 6 ==> OpExtra(i.op, 0) == 0)
    && (IsBranch(i.op) ==> i.cycles == 2)
    && (i.op.NOP? ==> i.mode.IMP?)
  }

  /** The instructions below 0x80, by the nibbles of the opcode. */
  function LowerEntry(high: int, low: int): Instruction {
    match high
    case 0 => (match low
      case 0 => Ins(BRK, IMM, 7) case 1 => Ins(ORA, IZX, 6) case 2 => Ins(UDF, IMP, 2) case 3 => Ins(UDF, IMP, 8)
      case 4 => Ins(NOP, IMP, 3) case 5 => Ins(ORA, ZP0, 3) case 6 => Ins(ASL, ZP0, 5) case 7 => Ins(UDF, IMP, 5)
      case 8 => Ins(PHP, IMP, 3) case 9 => Ins(ORA, IMM, 2) case 10 => Ins(ASL, IMP, 2) case 11 => Ins(UDF, IMP, 2)
      case 12 => Ins(NOP, IMP, 4) case 13 => Ins(ORA, ABS, 4) case 14 => Ins(ASL, ABS, 6) case _ => Ins(UDF, IMP, 6))
    case 1 => (match low
      case 0 => Ins(BPL, REL, 2) case 1 => Ins(ORA, IZY, 5) case 2 => Ins(UDF, IMP, 2) case 3 => Ins(UDF, IMP, 8)
      case 4 => Ins(NOP, IMP, 4) case 5 => Ins(ORA, ZPX, 4) case 6 => Ins(ASL, ZPX, 6) case 7 => Ins(UDF, IMP, 6)
      case 8 => Ins(CLC, IMP, 2) case 9 => Ins(ORA, ABY, 4) case 10 => Ins(NOP, IMP, 2) case 11 => Ins(UDF, IMP, 7)
      case 12 => Ins(NOP, IMP, 4) case 13 => Ins(ORA, ABX, 4) case 14 => Ins(ASL, ABX, 7) case _ => Ins(UDF, IMP, 7))
    case 2 => (match low
      case 0 => Ins(JSR, ABS, 6) case 1 => Ins(AND, IZX, 6) case 2 => Ins(UDF, IMP, 2) case 3 => Ins(UDF, IMP, 8)
      case 4 => Ins(BIT, ZP0, 3) case 5 => Ins(AND, ZP0, 3) case 6 => Ins(ROL, ZP0, 5) case 7 => Ins(UDF, IMP, 5)
      case 8 => Ins(PLP, IMP, 4) case 9 => Ins(AND, IMM, 2) case 10 => Ins(ROL, IMP, 2) case 11 => Ins(UDF, IMP, 2)
      case 12 => Ins(BIT, ABS, 4) case 13 => Ins(AND, ABS, 4) case 14 => Ins(ROL, ABS, 6) case _ => Ins(UDF, IMP, 6))
    case 3 => (match low
      case 0 => Ins(BMI, REL, 2) case 1 => Ins(AND, IZY, 5) case 2 => Ins(UDF, IMP, 2) case 3 => Ins(UDF, IMP, 8)
      case 4 => Ins(NOP, IMP, 4) case 5 => Ins(AND, ZPX, 4) case 6 => Ins(ROL, ZPX, 6) case 7 => Ins(UDF, IMP, 6)
      case 8 => Ins(SEC, IMP, 2) case 9 => Ins(AND, ABY, 4) case 10 => Ins(NOP, IMP, 2) case 11 => Ins(UDF, IMP, 7)
      case 12 => Ins(NOP, IMP, 4) case 13 => Ins(AND, ABX, 4) case 14 => Ins(ROL, ABX, 7) case _ => Ins(UDF, IMP, 7))
    case 4 => (match low
      case 0 => Ins(RTI, IMP, 6) case 1 => Ins(EOR, IZX, 6) case 2 => Ins(UDF, IMP, 2) case 3 => Ins(UDF, IMP, 8)
      case 4 => Ins(NOP, IMP, 3) case 5 => Ins(EOR, ZP0, 3) case 6 => Ins(LSR, ZP0, 5) case 7 => Ins(UDF, IMP, 5)
      case 8 => Ins(PHA, IMP, 3) case 9 => Ins(EOR, IMM, 2) case 10 => Ins(LSR, IMP, 2) case 11 => Ins(UDF, IMP, 2)
      case 12 => Ins(JMP, ABS, 3) case 13 => Ins(EOR, ABS, 4) case 14 => Ins(LSR, ABS, 6) case _ => Ins(UDF, IMP, 6))
    case 5 => (match low
      case 0 => Ins(BVC, REL, 2) case 1 => Ins(EOR, IZY, 5) case 2 => Ins(UDF, IMP, 2) case 3 => Ins(UDF, IMP, 8)
      case 4 => Ins(NOP, IMP, 4) case 5 => Ins(EOR, ZPX, 4) case 6 => Ins(LSR, ZPX, 6) case 7 => Ins(UDF, IMP, 6)
      case 8 => Ins(CLI, IMP, 2) case 9 => Ins(EOR, ABY, 4) case 10 => Ins(NOP, IMP, 2) case 11 => Ins(UDF, IMP, 7)
      case 12 => Ins(NOP, IMP, 4) case 13 => Ins(EOR, ABX, 4) case 14 => Ins(LSR, ABX, 7) case _ => Ins(UDF, IMP, 7))
    case 6 => (match low
      case 0 => Ins(RTS, IMP, 6) case 1 => Ins(ADC, IZX, 6) case 2 => Ins(UDF, IMP, 2) case 3 => Ins(UDF, IMP, 8)
      case 4 => Ins(NOP, IMP, 3) case 5 => Ins(ADC, ZP0, 3) case 6 => Ins(ROR, ZP0, 5) case 7 => Ins(UDF, IMP, 5)
      case 8 => Ins(PLA, IMP, 4) case 9 => Ins(ADC, IMM, 2) case 10 => Ins(ROR, IMP, 2) case 11 => Ins(UDF, IMP, 2)
      case 12 => Ins(JMP, IND, 5) case 13 => Ins(ADC, ABS, 4) case 14 => Ins(ROR, ABS, 6) case _ => Ins(UDF, IMP, 6))
    case _ => (match low
      case 0 => Ins(BVS, REL, 2) case 1 => Ins(ADC, IZY, 5) case 2 => Ins(UDF, IMP, 2) case 3 => Ins(UDF, IMP, 8)
      case 4 => Ins(NOP, IMP, 4) case 5 => Ins(ADC, ZPX, 4) case 6 => Ins(ROR, ZPX, 6) case 7 => Ins(UDF, IMP, 6)
      case 8 => Ins(SEI, IMP, 2) case 9 => Ins(ADC, ABY, 4) case 10 => Ins(NOP, IMP, 2) case 11 => Ins(UDF, IMP, 7)
      case 12 => Ins(NOP, IMP, 4) case 13 => Ins(ADC, ABX, 4) case 14 => Ins(ROR, ABX, 7) case _ => Ins(UDF, IMP, 7))
  }

  /** The instructions from 0x80 on. */
  function UpperEntry(high: int, low: int): Instruction {
    match high
    case 8 => (match low
      case 0 => Ins(NOP, IMP, 2) case 1 => Ins(STA, IZX, 6) case 2 => Ins(NOP, IMP, 2) case 3 => Ins(UDF, IMP, 6)
      case 4 => Ins(STY, ZP0, 3) case 5 => Ins(STA, ZP0, 3) case 6 => Ins(STX, ZP0, 3) case 7 => Ins(UDF, IMP, 3)
      case 8 => Ins(DEY, IMP, 2) case 9 => Ins(NOP, IMP, 2) case 10 => Ins(TXA, IMP, 2) case 11 => Ins(UDF, IMP, 2)
      case 12 => Ins(STY, ABS, 4) case 13 => Ins(STA, ABS, 4) case 14 => Ins(STX, ABS, 4) case _ => Ins(UDF, IMP, 4))
    case 9 => (match low
      case 0 => Ins(BCC, REL, 2) case 1 => Ins(STA, IZY, 6) case 2 => Ins(UDF, IMP, 2) case 3 => Ins(UDF, IMP, 6)
      case 4 => Ins(STY, ZPX, 4) case 5 => Ins(STA, ZPX, 4) case 6 => Ins(STX, ZPY, 4) case 7 => Ins(UDF, IMP, 4)
      case 8 => Ins(TYA, IMP, 2) case 9 => Ins(STA, ABY, 5) case 10 => Ins(TXS, IMP, 2) case 11 => Ins(UDF, IMP, 5)
      case 12 => Ins(NOP, IMP, 5) case 13 => Ins(STA, ABX, 5) case 14 => Ins(UDF, IMP, 5) case _ => Ins(UDF, IMP, 5))
    case 10 => (match low
      case 0 => Ins(LDY, IMM, 2) case 1 => Ins(LDA, IZX, 6) case 2 => Ins(LDX, IMM, 2) case 3 => Ins(UDF, IMP, 6)
      case 4 => Ins(LDY, ZP0, 3) case 5 => Ins(LDA, ZP0, 3) case 6 => Ins(LDX, ZP0, 3) case 7 => Ins(UDF, IMP, 3)
      case 8 => Ins(TAY, IMP, 2) case 9 => Ins(LDA, IMM, 2) case 10 => Ins(TAX, IMP, 2) case 11 => Ins(UDF, IMP, 2)
      case 12 => Ins(LDY, ABS, 4) case 13 => Ins(LDA, ABS, 4) case 14 => Ins(LDX, ABS, 4) case _ => Ins(UDF, IMP, 4))
    case 11 => (match low
      case 0 => Ins(BCS, REL, 2) case 1 => Ins(LDA, IZY, 5) case 2 => Ins(UDF, IMP, 2) case 3 => Ins(UDF, IMP, 5)
      case 4 => Ins(LDY, ZPX, 4) case 5 => Ins(LDA, ZPX, 4) case 6 => Ins(LDX, ZPY, 4) case 7 => Ins(UDF, IMP, 4)
      case 8 => Ins(CLV, IMP, 2) case 9 => Ins(LDA, ABY, 4) case 10 => Ins(TSX, IMP, 2) case 11 => Ins(UDF, IMP, 4)
      case 12 => Ins(LDY, ABX, 4) case 13 => Ins(LDA, ABX, 4) case 14 => Ins(LDX, ABY, 4) case _ => Ins(UDF, IMP, 4))
    case 12 => (match low
      case 0 => Ins(CPY, IMM, 2) case 1 => Ins(CMP, IZX, 6) case 2 => Ins(NOP, IMP, 2) case 3 => Ins(UDF, IMP, 8)
      case 4 => Ins(CPY, ZP0, 3) case 5 => Ins(CMP, ZP0, 3) case 6 => Ins(DEC, ZP0, 5) case 7 => Ins(UDF, IMP, 5)
      case 8 => Ins(INY, IMP, 2) case 9 => Ins(CMP, IMM, 2) case 10 => Ins(DEX, IMP, 2) case 11 => Ins(UDF, IMP, 2)
      case 12 => Ins(CPY, ABS, 4) case 13 => Ins(CMP, ABS, 4) case 14 => Ins(DEC, ABS, 6) case _ => Ins(UDF, IMP, 6))
    case 13 => (match low
      case 0 => Ins(BNE, REL, 2) case 1 => Ins(CMP, IZY, 5) case 2 => Ins(UDF, IMP, 2) case 3 => Ins(UDF, IMP, 8)
      case 4 => Ins(NOP, IMP, 4) case 5 => Ins(CMP, ZPX, 4) case 6 => Ins(DEC, ZPX, 6) case 7 => Ins(UDF, IMP, 6)
      case 8 => Ins(CLD, IMP, 2) case 9 => Ins(CMP, ABY, 4) case 10 => Ins(NOP, IMP, 2) case 11 => Ins(UDF, IMP, 7)
      case 12 => Ins(NOP, IMP, 4) case 13 => Ins(CMP, ABX, 4) case 14 => Ins(DEC, ABX, 7) case _ => Ins(UDF, IMP, 7))
    case 14 => (match low
      case 0 => Ins(CPX, IMM, 2) case 1 => Ins(SBC, IZX, 6) case 2 => Ins(NOP, IMP, 2) case 3 => Ins(UDF, IMP, 8)
      case 4 => Ins(CPX, ZP0, 3) case 5 => Ins(SBC, ZP0, 3) case 6 => Ins(INC, ZP0, 5) case 7 => Ins(UDF, IMP, 5)
      case 8 => Ins(INX, IMP, 2) case 9 => Ins(SBC, IMM, 2) case 10 => Ins(NOP, IMP, 2) case 11 => Ins(SBC, IMP, 2)
      case 12 => Ins(CPX, ABS, 4) case 13 => Ins(SBC, ABS, 4) case 14 => Ins(INC, ABS, 6) case _ => Ins(UDF, IMP, 6))
    case _ => (match low
      case 0 => Ins(BEQ, REL, 2) case 1 => Ins(SBC, IZY, 5) case 2 => Ins(UDF, IMP, 2) case 3 => Ins(UDF, IMP, 8)
      case 4 => Ins(NOP, IMP, 4) case 5 => Ins(SBC, ZPX, 4) case 6 => Ins(INC, ZPX, 6) case 7 => Ins(UDF, IMP, 6)
      case 8 => Ins(SED, IMP, 2) case 9 => Ins(SBC, ABY, 4) case 10 => Ins(NOP, IMP, 2) case 11 => Ins(UDF, IMP, 7)
      case 12 => Ins(NOP, IMP, 4) case 13 => Ins(SBC, ABX, 4) case 14 => Ins(INC, ABX, 7) case _ => Ins(UDF, IMP, 7))
  }

  /** The instruction table. */
  function Entry(high: int, low: int): Instruction {
    if high < 8 then LowerEntry(high, low) else UpperEntry(high, low)
  }

  function Decode(opcode: Byte): Instruction {
    Entry(opcode / 16, opcode % 16)
  }

  // ---------- one instruction ----------

  /** What an instruction finds when it is fetched: the base address its mode
      forms from `hi` and `lo`, the index register, the status, the PC after the
      operands, and the sign-extended branch offset. */
  datatype Fetch = Fetch(opcode: Byte, hi: Byte, lo: Byte, index: Byte, status: Byte, next: Addr, offset: Addr)

  function Add16(a: Addr, b: Addr): Addr {
    if a + b < 0x1_0000 then a + b else a + b - 0x1_0000
  }

  function Page(a: Addr): Byte {
    a / 256
  }

  /** The result of the addressing mode: 1 if the index carries into another page. */
  function ModeExtra(mode: Mode, f: Fetch): Byte {
    if (mode.ABX? || mode.ABY? || mode.IZY?) && Page(Add16(Join(f.hi, f.lo), f.index)) != f.hi then 1 else 0
  }

  predicate Taken(op: Operation, status: Byte) {
    match op
    case BCC => status % 2 == 0
    case BCS => status % 2 == 1
    case BNE => status / 2 % 2 == 0
    case BEQ => status / 2 % 2 == 1
    case BVC => status / 64 % 2 == 0
    case BVS => status / 64 % 2 == 1
    case BPL => status / 128 == 0
    case BMI => status / 128 == 1
    case _ => false
  }

  /** What a branch adds: 1 if taken, and 1 more into another page. */
  function BranchExtra(op: Operation, f: Fetch): Byte {
    if !Taken(op, f.status) then 0
    else if Page(Add16(f.next, f.offset)) != Page(f.next) then 2
    else 1
  }

  /** What a branch must do when the status bits are `b`, and `pc` and `added` are what
      it leaves: each of the eight goes on one bit being clear or set, and costs one
      clock more, or two when the pages differ. */
  predicate BranchesOn(op: Operation, b: Flags, f: Fetch, pc: Addr, added: int) {
    var target := (f.next + f.offset) % 0x1_0000;
    var cost := if target / 256 == f.next / 256 then 1 else 2;
    && (op.BCC? ==> if !b.c then pc == target && added == cost else pc == f.next && added == 0)
    && (op.BCS? ==> if b.c then pc == target && added == cost else pc == f.next && added == 0)
    && (op.BNE? ==> if !b.z then pc == target && added == cost else pc == f.next && added == 0)
    && (op.BEQ? ==> if b.z then pc == target && added == cost else pc == f.next && added == 0)
    && (op.BVC? ==> if !b.v then pc == target && added == cost else pc == f.next && added == 0)
    && (op.BVS? ==> if b.v then pc == target && added == cost else pc == f.next && added == 0)
    && (op.BPL? ==> if !b.n then pc == target && added == cost else pc == f.next && added == 0)
    && (op.BMI? ==> if b.n then pc == target && added == cost else pc == f.next && added == 0)
    && (!IsBranch(op) ==> pc == f.next && added == 0)
  }

  /** The PC behind an instruction that jumps only by branching. */
  function PcAfter(op: Operation, f: Fetch): Addr {
    if Taken(op, f.status) then Add16(f.next, f.offset) else f.next
  }

  lemma BranchFollowsBits(op: Operation, b: Flags, f: Fetch)
    requires f.status == Pack(b)
    ensures BranchesOn(op, b, f, PcAfter(op, f), BranchExtra(op, f))
  {
    hide Pack;
    StatusTests(b);
    Add16Wraps(f.next, f.offset);
  }

  lemma Add16Wraps(a: Addr, b: Addr)
    ensures Add16(a, b) == (a + b) % 0x1_0000
  {
  }

  /** The tests of the flags that branches look at. */
  lemma StatusTests(b: Flags)
    ensures var p: int := Pack(b);
      && (p % 2 == if b.c then 1 else 0) && (p / 2 % 2 == if b.z then 1 else 0)
      && (p / 64 % 2 == if b.v then 1 else 0) && (p / 128 == if b.n then 1 else 0)
  {
    FlagsRead(b);
  }

  /** How long an instruction should last. */
  function Lasts(i: Instruction, f: Fetch): nat {
    i.cycles + BranchExtra(i.op, f) + if ModeExtra(i.mode, f) == 1 && OpExtra(i.op, f.opcode) == 1 then 1 else 0
  }

  type Table = Byte -> Instruction

  ghost predicate TableOk(table: Table) {
    forall opcode: Byte :: Bounded(table(opcode))
  }

  function Duration(table: Table, f: Fetch): nat {
    Lasts(table(f.opcode), f)
  }

  /** The page changes exactly when the low byte and the index carry. */
  lemma CrossesOnCarry(f: Fetch, mode: Mode)
    requires mode.ABX? || mode.ABY? || mode.IZY?
    ensures ModeExtra(mode, f) == 1 <==> f.lo + f.index >= 256
  {
    var base: int := Join(f.hi, f.lo);
    assert base / 256 == f.hi;
  }

  lemma LowerBounded(high: int, low: int)
    ensures Bounded(LowerEntry(high, low))
  {
  }

  lemma UpperBounded(high: int, low: int)
    ensures Bounded(UpperEntry(high, low))
  {
  }

  /** The table of the code leaves room for every extra cycle. */
  lemma DecodeIsOk()
    ensures TableOk(Decode)
  {
    hide LowerEntry, UpperEntry, Bounded;
    forall opcode: Byte ensures Bounded(Decode(opcode)) {
      LowerBounded(opcode / 16, opcode % 16);
      UpperBounded(opcode / 16, opcode % 16);
    }
  }

  lemma DurationBounds(table: Table, f: Fetch)
    requires TableOk(table)
    ensures 2 <= Duration(table, f) <= 8
  {
    BoundedLasts(table(f.opcode), f);
  }

  lemma BoundedLasts(i: Instruction, f: Fetch)
    requires Bounded(i)
    ensures 2 <= Lasts(i, f) <= 8
  {
  }

  // ---------- what the table holds ----------

  datatype Kind = Load | Store | Shift | Other

  function KindOf(op: Operation): Kind {
    match op
    case ADC | SBC | AND | CMP | CPX | CPY | EOR | LDA | LDX | LDY | ORA | BIT => Load
    case STA | STX | STY => Store
    case ASL | LSR | ROL | ROR | INC | DEC => Shift
    case _ => Other
  }

  /** The clocks of an operation by what it does with memory and how it finds it: a load
      saves the clock of the carry, a store does not, and a shift takes two clocks more
      than a load. */
  function Expected(op: Operation, mode: Mode): int {
    match KindOf(op)
    case Load => (match mode
      case ZP0 => 3 case ZPX | ZPY | ABS | ABX | ABY => 4 case IZY => 5 case IZX => 6 case _ => 2)
    case Store => (match mode
      case ZP0 => 3 case ABX | ABY => 5 case IZX | IZY => 6 case _ => 4)
    case Shift => (match mode
      case IMP => 2 case ZP0 => 5 case ABX => 7 case _ => 6)
    case Other => (match op
      case PHA | PHP => 3 case PLA | PLP => 4 case JSR | RTS | RTI => 6 case BRK => 7
      case JMP => if mode.IND? then 5 else 3
      case _ => 2)
  }

  predicate IsExpected(i: Instruction) {
    && (i.op.NOP? || i.op.UDF? || i.cycles == Expected(i.op, i.mode))
    && (i.op.BIT? ==> i.mode.ZP0? || i.mode.ABS?)
  }

  lemma FirstQuarter(high: int, low: int)
    requires 0 <= high < 4
    ensures IsExpected(LowerEntry(high, low))
  {
  }

  lemma SecondQuarter(high: int, low: int)
    requires 4 <= high < 8
    ensures IsExpected(LowerEntry(high, low))
  {
  }

  lemma ThirdQuarter(high: int, low: int)
    requires 8 <= high < 12
    ensures IsExpected(UpperEntry(high, low))
  {
  }

  lemma LastQuarter(high: int, low: int)
    requires 12 <= high < 16
    ensures IsExpected(UpperEntry(high, low))
  {
  }

  /** Every instruction of the table takes the clocks that its operation and mode call
      for. The entries that stand for no documented instruction are exempt. */
  lemma TableIsTimed(opcode: Byte)
    ensures IsExpected(Decode(opcode))
  {
    hide LowerEntry, UpperEntry, IsExpected;
    var high := opcode / 16;
    if high < 4 {
      FirstQuarter(high, opcode % 16);
    } else if high < 8 {
      SecondQuarter(high, opcode % 16);
    } else if high < 12 {
      ThirdQuarter(high, opcode % 16);
    } else {
      LastQuarter(high, opcode % 16);
    }
  }

  /** The operations of opcodes 1, 5, 9 and so on, by the three highest bits, and their
      modes, by the next three. */
  function ColumnOp(a: nat): Operation {
    match a
    case 0 => ORA case 1 => AND case 2 => EOR case 3 => ADC case 4 => STA case 5 => LDA case 6 => CMP case _ => SBC
  }

  function ColumnMode(b: nat): Mode {
    match b
    case 0 => IZX case 1 => ZP0 case 2 => IMM case 3 => ABS case 4 => IZY case 5 => ZPX case 6 => ABY case _ => ABX
  }

  function BranchOp(a: nat): Operation {
    match a
    case 0 => BPL case 1 => BMI case 2 => BVC case 3 => BVS case 4 => BCC case 5 => BCS case 6 => BNE case _ => BEQ
  }

  lemma LowerColumn(a: nat, k: nat)
    requires a < 4 && k < 4
    ensures var i := LowerEntry(2 * a, 4 * k + 1); i.op == ColumnOp(a) && i.mode == ColumnMode(k)
    ensures var i := LowerEntry(2 * a + 1, 4 * k + 1); i.op == ColumnOp(a) && i.mode == ColumnMode(k + 4)
  {
  }

  lemma UpperColumn(a: nat, k: nat)
    requires 4 <= a < 8 && k < 4
    ensures var i := UpperEntry(2 * a, 4 * k + 1);
      !(a == 4 && k == 2) ==> i.op == ColumnOp(a) && i.mode == ColumnMode(k)
    ensures var i := UpperEntry(2 * a + 1, 4 * k + 1); i.op == ColumnOp(a) && i.mode == ColumnMode(k + 4)
  {
  }

  lemma BranchColumn(a: nat)
    requires a < 8
    ensures Entry(2 * a + 1, 0) == Ins(BranchOp(a), REL, 2)
  {
  }

  /** The opcode spells out operation and mode: three bits each in the column of loads,
      stores and arithmetic, where 0x89 would be a store to a constant, and three bits
      in the column of branches. */
  lemma OpcodesSpell(a: nat, b: nat)
    requires a < 8 && b < 8
    ensures !(a == 4 && b == 2) ==>
      Decode(32 * a + 4 * b + 1).op == ColumnOp(a) && Decode(32 * a + 4 * b + 1).mode == ColumnMode(b)
    ensures Decode(32 * a + 16).op == BranchOp(a) && Decode(32 * a + 16).mode == REL
  {
    hide LowerEntry, UpperEntry, ColumnOp, ColumnMode, BranchOp;
    var k := b % 4;
    var row := if b < 4 then 2 * a else 2 * a + 1;
    assert 32 * a + 4 * b + 1 == 16 * row + (4 * k + 1);
    if a < 4 { LowerColumn(a, k); } else { UpperColumn(a, k); }
    BranchColumn(a);
  }

  /** What an instruction of the table adds to its clocks: a load one for an index that
      carries into the next page, a branch what its flag and its target call for, and
      any other nothing. */
  lemma DurationIs(f: Fetch, b: Flags)
    requires f.status == Pack(b)
    ensures var i, d := Decode(f.opcode), Duration(Decode, f);
      && (IsBranch(i.op) ==> BranchesOn(i.op, b, f, PcAfter(i.op, f), d - 2))
      && (!IsBranch(i.op) ==>
            var indexed := i.mode.ABX? || i.mode.ABY? || i.mode.IZY?;
            d == i.cycles + if KindOf(i.op).Load? && indexed && f.lo + f.index >= 256 then 1 else 0)
  {
    hide Decode, Pack, BranchesOn, BranchExtra, PcAfter, Expected, ModeExtra;
    var i := Decode(f.opcode);
    TableIsTimed(f.opcode);
    DecodeIsOk();
    assert Bounded(i);
    BranchFollowsBits(i.op, b, f);
    if i.mode.ABX? || i.mode.ABY? || i.mode.IZY? { CrossesOnCarry(f, i.mode); } else { NoCross(f, i.mode); }
    if !IsBranch(i.op) { NoBranch(i.op, f); }
  }

  lemma NoCross(f: Fetch, mode: Mode)
    requires !mode.ABX? && !mode.ABY? && !mode.IZY?
    ensures ModeExtra(mode, f) == 0
  {
  }

  lemma NoBranch(op: Operation, f: Fetch)
    requires !IsBranch(op)
    ensures BranchExtra(op, f) == 0
  {
  }

  // ---------- the counter over a run ----------

  datatype Event = Tick(f: Fetch) | Irq(masked: bool) | Nmi | Reset

  /** The counter after an event; `f` is what a clock fetches if it is due. */
  function After(table: Table, cycles: int, e: Event): int {
    match e
    case Tick(f) => (if cycles == 0 then Duration(table, f) else cycles) - 1
    case Irq(masked) => if masked then cycles else 7
    case Nmi => 8
    case Reset => 8
  }

  function RunEvents(table: Table, cycles: int, es: seq<Event>): int
    decreases |es|
  {
    if es == [] then cycles else RunEvents(table, After(table, cycles, es[0]), es[1..])
  }

  /** In every run the counter stays within 0 and 8: the decrement never wraps. */
  lemma {:induction false} RunStaysLow(table: Table, cycles: int, es: seq<Event>)
    requires TableOk(table) && 0 <= cycles <= 8
    ensures 0 <= RunEvents(table, cycles, es) <= 8
    decreases |es|
  {
    if es == [] {
    } else {
      if es[0].Tick? { DurationBounds(table, es[0].f); }
      RunStaysLow(table, After(table, cycles, es[0]), es[1..]);
    }
  }

  /** `n` clocks without interrupt over a program whose `k`-th instruction finds
      `program(k)`: the counter, and the number of the next instruction to fetch. */
  function Clocks(table: Table, program: nat -> Fetch, cycles: int, k: nat, n: nat): (int, nat)
    decreases n
  {
    if n == 0 then (cycles, k)
    else Clocks(table, program, After(table, cycles, Tick(program(k))), if cycles == 0 then k + 1 else k, n - 1)
  }

  /** The clocks that the first `k` instructions take. */
  function StartOf(table: Table, program: nat -> Fetch, k: nat): int {
    if k == 0 then 0 else StartOf(table, program, k - 1) + Duration(table, program(k - 1))
  }

  lemma {:induction false} StartGrows(table: Table, program: nat -> Fetch, k: nat)
    requires TableOk(table)
    ensures 0 <= StartOf(table, program, k)
  {
    if k == 0 {
    } else {
      DurationBounds(table, program(k - 1));
      StartGrows(table, program, k - 1);
    }
  }

  lemma {:induction false} ClocksAdd(table: Table, program: nat -> Fetch, cycles: int, k: nat, m: nat, n: nat)
    ensures var (c', k') := Clocks(table, program, cycles, k, m);
      Clocks(table, program, cycles, k, m + n) == Clocks(table, program, c', k', n)
    decreases m
  {
    if m == 0 {
    } else {
      var k1 := if cycles == 0 then k + 1 else k;
      ClocksAdd(table, program, After(table, cycles, Tick(program(k))), k1, m - 1, n);
    }
  }

  lemma {:induction false} CountsDown(table: Table, program: nat -> Fetch, cycles: int, k: nat, n: nat)
    requires n <= cycles
    ensures Clocks(table, program, cycles, k, n) == (cycles - n, k)
    decreases n
  {
    if n == 0 {
    } else {
      CountsDown(table, program, cycles - 1, k, n - 1);
    }
  }

  lemma NoClocks(table: Table, program: nat -> Fetch, cycles: int, k: nat)
    ensures Clocks(table, program, cycles, k, 0) == (cycles, k)
  {
  }

  lemma OneInstruction(table: Table, program: nat -> Fetch, k: nat, n: nat)
    requires 0 < n <= Duration(table, program(k))
    ensures Clocks(table, program, 0, k, n) == (Duration(table, program(k)) - n, k + 1)
  {
    hide Duration;
    CountsDown(table, program, Duration(table, program(k)) - 1, k + 1, n - 1);
  }

  /** Every instruction lasts exactly as long as its table entry, its page crossing
      and its branch call for: instruction `k` is fetched by the clock that follows
      the durations of those before it, and is complete, with the next one still to
      come, after its own duration and no sooner. */
  lemma {:induction false} InstructionsAreTimed(table: Table, program: nat -> Fetch, k: nat, n: nat)
    requires TableOk(table) && 0 < n <= Duration(table, program(k))
    ensures 0 <= StartOf(table, program, k)
    ensures Clocks(table, program, 0, 0, StartOf(table, program, k)) == (0, k)
    ensures Clocks(table, program, 0, 0, StartOf(table, program, k) + n) == (Duration(table, program(k)) - n, k + 1)
    decreases k
  {
    hide TableOk, Duration, After, Clocks;
    StartGrows(table, program, k);
    if k == 0 {
      assert Clocks(table, program, 0, 0, 0) == (0, 0) by { NoClocks(table, program, 0, 0); }
    } else {
      DurationBounds(table, program(k - 1));
      InstructionsAreTimed(table, program, k - 1, Duration(table, program(k - 1)));
    }
    OneInstruction(table, program, k, n);
    ClocksAdd(table, program, 0, 0, StartOf(table, program, k), n);
  }

  /** What the clocks do to the counter is a run of events. */
  lemma {:induction false} ClocksAreEvents(table: Table, program: nat -> Fetch, cycles: int, k: nat, n: nat)
    returns (es: seq<Event>)
    ensures |es| == n && forall e :: e in es ==> e.Tick?
    ensures Clocks(table, program, cycles, k, n).0 == RunEvents(table, cycles, es)
    decreases n
  {
    if n == 0 {
      es := [];
    } else {
      var e := Tick(program(k));
      var rest := ClocksAreEvents(table, program, After(table, cycles, e), if cycles == 0 then k + 1 else k, n - 1);
      es := [e] + rest;
      assert es[1..] == rest;
    }
  }

  // ---------- the code ----------

  class Clock {
    const instructions: Table
    var cycles: Byte
    var pc: Addr

    constructor ()
      ensures cycles == 0 && TableOk(instructions)
    {
      instructions, cycles, pc := Decode, 0, 0;
      DecodeIsOk();
    }

    /** The eight branch instructions; any other operation adds nothing here. */
    method Branch(op: Operation, f: Fetch)
      requires pc == f.next && cycles <= 8
      modifies this
      ensures cycles == old(cycles) + BranchExtra(op, f)
      ensures forall b :: Pack(b) == f.status ==> BranchesOn(op, b, f, pc, cycles - old(cycles))
    {
      if Taken(op, f.status) {
        cycles := cycles + 1;
        var target := Add16(pc, f.offset);
        if Page(target) != Page(pc) { cycles := cycles + 1; }
        pc := target;
      }
      forall b | Pack(b) == f.status ensures BranchesOn(op, b, f, PcAfter(op, f), BranchExtra(op, f)) {
        BranchFollowsBits(op, b, f);
      }
    }

    /** The mode and the operation of a fetched instruction, and what they add. */
    method Execute(instruction: Instruction, f: Fetch)
      requires Bounded(instruction)
      modifies this
      ensures cycles as int == Lasts(instruction, f) && 2 <= cycles <= 8
    {
      BoundedLasts(instruction, f);
      cycles := instruction.cycles;
      var extra1 := ModeExtra(instruction.mode, f);
      pc := f.next;
      Branch(instruction.op, f);
      var extra2 := OpExtra(instruction.op, f.opcode);
      if extra1 == 1 && extra2 == 1 { cycles := cycles + 1; }
    }

    /** `nes_clock`. The counter is what the run predicts although it is a byte. */
    method NesClock(f: Fetch)
      requires TableOk(instructions) && cycles <= 8
      modifies this
      ensures cycles as int == After(instructions, old(cycles) as int, Tick(f)) && cycles <= 8
    {
      if cycles == 0 {
        Execute(instructions(f.opcode), f);
      }
      cycles := (cycles + 255) % 256;
    }

    /** `nes_irq`, `nes_nmirq` and `nes_reset`, as far as the counter goes. */
    method Interrupt(e: Event)
      requires !e.Tick?
      modifies `cycles
      ensures cycles as int == After(instructions, old(cycles) as int, e)
      ensures cycles == if e == Event.Irq(true) then old(cycles) else if e == Event.Irq(false) then 7 else 8
    {
      match e {
        case Irq(masked) => if !masked { cycles := 7; }
        case Nmi => cycles := 8;
        case Reset => cycles := 8;
      }
    }
  }
}
