/** The 6502 stack of kernel/src/nes6502.c over the mirrored RAM of
    kernel/src/nesbus.c: what the push and pull instructions do to memory, and
    the stack of frames that this amounts to. */
module NesStack {
  import opened Words

  type Addr = x: int | 0 <= x < 0x1_0000

  datatype Regs = Regs(a: Byte, x: Byte, y: Byte, p: Byte, pc: Addr)

  // ---------- status bits ----------

  datatype Flag = FlagZ | FlagI | FlagB | FlagU | FlagN

  function Bit(f: Flag): Byte {
    match f case FlagZ => 2 case FlagI => 4 case FlagB => 16 case FlagU => 32 case FlagN => 128
  }

  predicate HasFlag(p: Byte, f: Flag) {
    match f
    case FlagZ => p / 2 % 2 == 1
    case FlagI => p / 4 % 2 == 1
    case FlagB => p / 16 % 2 == 1
    case FlagU => p / 32 % 2 == 1
    case FlagN => p / 128 == 1
  }

  /** `nes_setflag`: clearing keeps the named bit only. */
  function SetFlag(p: Byte, f: Flag, on: bool): Byte {
    if on then (if HasFlag(p, f) then p else p + Bit(f))
    else (if HasFlag(p, f) then Bit(f) else 0)
  }

  /** The status after an interrupt entry has prepared it for pushing. */
  function EntryStatus(p: Byte): Byte {
    SetFlag(SetFlag(SetFlag(p, FlagB, false), FlagU, true), FlagI, true)
  }

  function BrkStatus(p: Byte): Byte {
    SetFlag(SetFlag(p, FlagI, true), FlagB, true)
  }

  /** The eight bits of the status, from the sign down to the carry. */
  datatype Flags = Flags(n: bool, v: bool, u: bool, b: bool, d: bool, i: bool, z: bool, c: bool)

  /** Four bits as a number: each weighs twice as much as the one below it. */
  function Nibble(b3: bool, b2: bool, b1: bool, b0: bool): (r: nat)
    ensures r < 16
  {
    (if b3 then 8 else 0) + (if b2 then 4 else 0) + (if b1 then 2 else 0) + (if b0 then 1 else 0)
  }

  function Pack(f: Flags): Byte {
    16 * Nibble(f.n, f.v, f.u, f.b) + Nibble(f.d, f.i, f.z, f.c)
  }

  lemma NibbleOf(l: nat) returns (b3: bool, b2: bool, b1: bool, b0: bool)
    requires l < 16
    ensures Nibble(b3, b2, b1, b0) == l
  {
    b3, b2, b1, b0 := l >= 8, l % 8 >= 4, l % 4 >= 2, l % 2 == 1;
  }

  /** Every status is made of eight bits. */
  lemma BitsOf(p: Byte) returns (f: Flags)
    ensures Pack(f) == p
  {
    hide Nibble;
    var n, v, u, b := NibbleOf(p / 16);
    var d, i, z, c := NibbleOf(p % 16);
    f := Flags(n, v, u, b, d, i, z, c);
  }

  lemma NibbleBits(b3: bool, b2: bool, b1: bool, b0: bool)
    ensures var l := Nibble(b3, b2, b1, b0);
      && (l % 2 == 1 <==> b0) && (l / 2 % 2 == 1 <==> b1) && (l / 4 % 2 == 1 <==> b2) && (l / 8 == 1 <==> b3)
  {
  }

  lemma UpperShifts(h: nat, l: nat)
    requires l < 16
    ensures var p := 16 * h + l; p / 16 == h && p / 32 == h / 2 && p / 64 == h / 4 && p / 128 == h / 8
  {
  }

  lemma LowerShifts(h: nat, l: nat)
    requires l < 16
    ensures var p := 16 * h + l; p % 2 == l % 2 && p / 2 % 2 == l / 2 % 2 && p / 4 % 2 == l / 4 % 2
  {
    var p := 16 * h + l;
    assert p / 2 == l / 2 + 2 * (4 * h) && p / 4 == l / 4 + 2 * (2 * h);
    Parity(l, 8 * h);
    Parity(l / 2, 4 * h);
    Parity(l / 4, 2 * h);
  }

  lemma Parity(x: int, k: int)
    ensures (x + 2 * k) % 2 == x % 2
  {
  }

  lemma UpperRead(f: Flags)
    ensures HasFlag(Pack(f), FlagB) <==> f.b
    ensures HasFlag(Pack(f), FlagU) <==> f.u
    ensures Pack(f) / 64 % 2 == 1 <==> f.v
    ensures HasFlag(Pack(f), FlagN) <==> f.n
  {
    hide Nibble;
    NibbleBits(f.n, f.v, f.u, f.b);
    UpperShifts(Nibble(f.n, f.v, f.u, f.b), Nibble(f.d, f.i, f.z, f.c));
  }

  lemma LowerRead(f: Flags)
    ensures Pack(f) % 2 == 1 <==> f.c
    ensures HasFlag(Pack(f), FlagZ) <==> f.z
    ensures HasFlag(Pack(f), FlagI) <==> f.i
  {
    hide Nibble;
    NibbleBits(f.d, f.i, f.z, f.c);
    LowerShifts(Nibble(f.n, f.v, f.u, f.b), Nibble(f.d, f.i, f.z, f.c));
  }

  /** The bits, read back. */
  lemma FlagsRead(f: Flags)
    ensures Pack(f) % 2 == 1 <==> f.c
    ensures HasFlag(Pack(f), FlagZ) <==> f.z
    ensures HasFlag(Pack(f), FlagI) <==> f.i
    ensures HasFlag(Pack(f), FlagB) <==> f.b
    ensures HasFlag(Pack(f), FlagU) <==> f.u
    ensures Pack(f) / 64 % 2 == 1 <==> f.v
    ensures HasFlag(Pack(f), FlagN) <==> f.n
  {
    hide Pack, HasFlag;
    UpperRead(f);
    LowerRead(f);
  }

  predicate Shows(f: Flags, flag: Flag) {
    match flag case FlagZ => f.z case FlagI => f.i case FlagB => f.b case FlagU => f.u case FlagN => f.n
  }

  /** `f` with one more flag set. */
  function With(f: Flags, flag: Flag): Flags {
    match flag
    case FlagZ => f.(z := true)
    case FlagI => f.(i := true)
    case FlagB => f.(b := true)
    case FlagU => f.(u := true)
    case FlagN => f.(n := true)
  }

  const NONE: Flags := Flags(false, false, false, false, false, false, false, false)

  /** No flag but the named one. */
  function Only(f: Flags, flag: Flag): Flags {
    if Shows(f, flag) then With(NONE, flag) else NONE
  }

  lemma LowerGains(f: Flags)
    ensures Pack(f.(z := true)) == Pack(f.(z := false)) + 2
    ensures Pack(f.(i := true)) == Pack(f.(i := false)) + 4
  {
    hide Nibble;
    NibbleGains(f.d, f.i, f.z, f.c);
  }

  lemma UpperGains(f: Flags)
    ensures Pack(f.(b := true)) == Pack(f.(b := false)) + 16
    ensures Pack(f.(u := true)) == Pack(f.(u := false)) + 32
  {
    hide Nibble;
    NibbleGains(f.n, f.v, f.u, f.b);
  }

  lemma SignGains(f: Flags)
    ensures Pack(f.(n := true)) == Pack(f.(n := false)) + 128
  {
    hide Nibble;
    NibbleGains(f.n, f.v, f.u, f.b);
  }

  lemma NibbleGains(b3: bool, b2: bool, b1: bool, b0: bool)
    ensures Nibble(true, b2, b1, b0) == Nibble(false, b2, b1, b0) + 8
    ensures Nibble(b3, true, b1, b0) == Nibble(b3, false, b1, b0) + 4
    ensures Nibble(b3, b2, true, b0) == Nibble(b3, b2, false, b0) + 2
    ensures Nibble(b3, b2, b1, true) == Nibble(b3, b2, b1, false) + 1
  {
  }

  lemma WithWeighs(f: Flags, flag: Flag)
    ensures Pack(With(f, flag)) == Pack(f) + if Shows(f, flag) then 0 else Bit(flag)
  {
    hide Pack;
    LowerGains(f);
    UpperGains(f);
    SignGains(f);
    match flag
    case FlagZ => assert f == f.(z := f.z);
    case FlagI => assert f == f.(i := f.i);
    case FlagB => assert f == f.(b := f.b);
    case FlagU => assert f == f.(u := f.u);
    case FlagN => assert f == f.(n := f.n);
  }

  lemma SetFlagBits(f: Flags, flag: Flag)
    ensures SetFlag(Pack(f), flag, true) == Pack(With(f, flag))
    ensures SetFlag(Pack(f), flag, false) == Pack(Only(f, flag))
  {
    hide HasFlag, Pack, With, Bit;
    FlagsRead(f);
    WithWeighs(f, flag);
    WithWeighs(NONE, flag);
    assert Pack(NONE) == 0 by { NoneIsZero(); }
  }

  lemma NoneIsZero()
    ensures Pack(NONE) == 0
  {
  }

  // ---------- the machine with its memory ----------

  datatype Cpu = Cpu(regs: Regs, sp: Byte, ram: seq<Byte>)

  /** RAM is 2 KiB, mirrored over the low addresses. */
  function RamIndex(addr: int): int {
    addr % 0x800
  }

  /** Two low addresses are one cell exactly when they lie whole mirrors apart. */
  lemma MirrorIff(a: Addr, b: Addr)
    requires a <= b <= 0x1FFF
    ensures 0 <= RamIndex(a) < 2048
    ensures RamIndex(a) == RamIndex(b) <==> b == a || b == a + 2048 || b == a + 4096 || b == a + 6144
  {
  }

  /** A page that the bus maps to RAM; its 256 cells are distinct under mirroring. */
  predicate StackPage(base: int) {
    0 <= base <= 0x1F00
  }

  function Cell(base: int, slot: int): (i: int)
    requires StackPage(base) && 0 <= slot < 256
    ensures 0 <= i < 0x800
  {
    RamIndex(base + slot)
  }

  /** The stack pointer `k` pushes below `sp`. */
  function Down(sp: Byte, k: nat): Byte
    requires k <= 256
  {
    if k <= sp then sp - k else sp - k + 256
  }

  function Push(base: int, c: Cpu, v: Byte): (c': Cpu)
    requires StackPage(base) && |c.ram| == 0x800
    ensures c'.regs == c.regs && |c'.ram| == 0x800
  {
    c.(ram := c.ram[Cell(base, c.sp) := v], sp := Down(c.sp, 1))
  }

  function Up(sp: Byte): Byte {
    if sp == 255 then 0 else sp + 1
  }

  function Top(base: int, c: Cpu): Byte
    requires StackPage(base) && |c.ram| == 0x800
  {
    c.ram[Cell(base, Up(c.sp))]
  }

  function Pop(c: Cpu): Cpu {
    c.(sp := Up(c.sp))
  }

  function Hi(pc: Addr): Byte { pc / 256 }
  function Lo(pc: Addr): Byte { pc % 256 }
  function Join(hi: Byte, lo: Byte): Addr { 256 * hi + lo }
  function Inc(pc: Addr): Addr { if pc == 0xFFFF then 0 else pc + 1 }
  function Dec(pc: Addr): Addr { if pc == 0 then 0xFFFF else pc - 1 }

  /** The stack operations; `Quiet` stands for any other instruction, which
      leaves SP and the stack page alone. Vectors are what the ROM holds. */
  datatype Op =
    | Jsr(target: Addr) | Rts
    | Pha | Pla | Php | Plp
    | Irq(vector: Addr) | Nmi(vector: Addr) | Brk(vector: Addr) | Rti
    | Quiet(regs: Regs, at: int, value: Byte)

  predicate Sane(base: int, op: Op)
    requires StackPage(base)
  {
    op.Quiet? ==> 0 <= op.at < 0x800 && forall slot :: 0 <= slot < 256 ==> Cell(base, slot) != op.at
  }

  function Entry(base: int, c: Cpu, vector: Addr): Cpu
    requires StackPage(base) && |c.ram| == 0x800
  {
    var p := EntryStatus(c.regs.p);
    var c1 := Push(base, Push(base, Push(base, c, Hi(c.regs.pc)), Lo(c.regs.pc)), p);
    c1.(regs := c.regs.(p := p, pc := vector))
  }

  /** An interrupt request while the I flag is set: `nes_irq` does nothing. */
  predicate Masked(r: Regs, op: Op) {
    op.Irq? && HasFlag(r.p, FlagI)
  }

  /** One operation of the code. */
  function Exec(base: int, c: Cpu, op: Op): (c': Cpu)
    requires StackPage(base) && |c.ram| == 0x800 && Sane(base, op)
    ensures |c'.ram| == 0x800
  {
    var r := c.regs;
    match op
    case Jsr(target) =>
      var ret := Dec(r.pc);
      Push(base, Push(base, c, Hi(ret)), Lo(ret)).(regs := r.(pc := target))
    case Rts =>
      var c1 := Pop(c);
      Pop(c1).(regs := r.(pc := Inc(Join(Top(base, c1), Top(base, c)))))
    case Pha => Push(base, c, r.a)
    case Pla => Pop(c).(regs := r.(a := Top(base, c), p := PlaStatus(r.p, Top(base, c))))
    case Php => Push(base, c, r.p).(regs := r.(p := SetFlag(SetFlag(r.p, FlagB, false), FlagU, false)))
    case Plp => Pop(c).(regs := r.(p := SetFlag(Top(base, c), FlagU, true)))
    case Irq(vector) => if Masked(r, op) then c else Entry(base, c, vector)
    case Nmi(vector) => Entry(base, c, vector)
    case Brk(vector) =>
      var p := BrkStatus(r.p);
      var pc := Inc(r.pc);
      Push(base, Push(base, Push(base, c, Hi(pc)), Lo(pc)), p).(regs := r.(p := SetFlag(p, FlagB, false), pc := vector))
    case Rti =>
      var c1 := Pop(c);
      var c2 := Pop(c1);
      var p := SetFlag(SetFlag(Top(base, c), FlagB, true), FlagU, true);
      Pop(c2).(regs := r.(p := p, pc := Join(Top(base, c2), Top(base, c1))))
    case Quiet(regs, at, value) => c.(regs := regs, ram := c.ram[at := value])
  }

  /** Z and N after a pull into A. */
  function PlaStatus(p: Byte, a: Byte): Byte {
    SetFlag(SetFlag(p, FlagZ, a == 0), FlagN, a >= 128)
  }

  /** The status that interrupts and BRK push, bit by bit. Clearing a flag costs all
      the others, so an interrupt keeps only B of what it interrupts, and BRK ends
      without the I it has set. */
  lemma EntryBits(f: Flags)
    ensures EntryStatus(Pack(f)) == Pack(Flags(false, false, true, f.b, false, true, false, false))
    ensures BrkStatus(Pack(f)) == Pack(f.(i := true, b := true))
    ensures SetFlag(BrkStatus(Pack(f)), FlagB, false) == Pack(NONE.(b := true))
  {
    hide SetFlag, Pack;
    SetFlagBits(f, FlagB);
    SetFlagBits(Only(f, FlagB), FlagU);
    SetFlagBits(With(Only(f, FlagB), FlagU), FlagI);
    SetFlagBits(f, FlagI);
    SetFlagBits(With(f, FlagI), FlagB);
    SetFlagBits(With(With(f, FlagI), FlagB), FlagB);
  }

  /** PHP leaves no flag at all; PLP and RTI add U, and B and U, to what they pull. */
  lemma PullBits(f: Flags)
    ensures SetFlag(SetFlag(Pack(f), FlagB, false), FlagU, false) == Pack(NONE)
    ensures SetFlag(Pack(f), FlagU, true) == Pack(f.(u := true))
    ensures SetFlag(SetFlag(Pack(f), FlagB, true), FlagU, true) == Pack(f.(b := true, u := true))
  {
    hide SetFlag, Pack;
    SetFlagBits(f, FlagB);
    SetFlagBits(f, FlagU);
    SetFlagBits(Only(f, FlagB), FlagU);
    SetFlagBits(With(f, FlagB), FlagU);
  }

  /** After a pull into A: N alone, if it was set, for a zero; N, and Z if it was set,
      for a negative byte; and nothing for any other. */
  lemma PlaBits(f: Flags, a: Byte)
    ensures PlaStatus(Pack(f), a) ==
      Pack(if a == 0 then NONE.(n := f.n) else if a >= 128 then NONE.(n := true, z := f.z) else NONE)
  {
    hide SetFlag, Pack;
    SetFlagBits(f, FlagZ);
    SetFlagBits(With(f, FlagZ), FlagN);
    SetFlagBits(Only(f, FlagZ), FlagN);
  }

  /** The byte of RAM `k` below SP, or above it for negative `k`: SP wraps within its
      256 bytes and the bus folds addresses into 2 KiB. */
  function At(base: int, sp: Byte, k: int): int
    requires -256 <= k <= 256
  {
    (base + (sp + 256 - k) % 256) % 2048
  }

  lemma DownIs(sp: Byte)
    ensures Down(sp, 1) == (sp + 255) % 256
    ensures Down(Down(sp, 1), 1) == (sp + 254) % 256
    ensures Down(Down(Down(sp, 1), 1), 1) == (sp + 253) % 256
  {
  }

  lemma CellIsAt(base: int, sp: Byte)
    requires StackPage(base)
    ensures Cell(base, sp) == At(base, sp, 0)
    ensures Cell(base, Down(sp, 1)) == At(base, sp, 1)
    ensures Cell(base, Down(Down(sp, 1), 1)) == At(base, sp, 2)
  {
    hide Down;
    DownIs(sp);
  }

  lemma CellAboveIsAt(base: int, sp: Byte)
    requires StackPage(base)
    ensures Cell(base, Up(sp)) == At(base, sp, -1)
    ensures Cell(base, Up(Up(sp))) == At(base, sp, -2)
    ensures Cell(base, Up(Up(Up(sp)))) == At(base, sp, -3)
    ensures Up(sp) == (sp + 1) % 256 && Up(Up(sp)) == (sp + 2) % 256 && Up(Up(Up(sp))) == (sp + 3) % 256
  {
  }

  lemma StepsWrap(pc: Addr)
    ensures Dec(pc) == (pc + 0xFFFF) % 0x1_0000 && Inc(pc) == (pc + 1) % 0x1_0000
  {
  }

  /** PHA and PHP store one byte at SP. PHP ends with no flag set. */
  lemma ByteLayout(base: int, c: Cpu, op: Op, f: Flags)
    requires StackPage(base) && |c.ram| == 0x800 && c.regs.p == Pack(f) && (op.Pha? || op.Php?)
    ensures var c', r := Exec(base, c, op), c.regs;
      && c'.ram == c.ram[At(base, c.sp, 0) := if op.Pha? then r.a else r.p]
      && c'.sp == (c.sp + 255) % 256 && c'.regs == if op.Php? then r.(p := Pack(NONE)) else r
  {
    hide Cell, At, Down, SetFlag, Pack;
    CellIsAt(base, c.sp);
    DownIs(c.sp);
    PullBits(f);
  }

  /** JSR stores the address of its own last byte, high byte first, and jumps. */
  lemma JsrLayout(base: int, c: Cpu, target: Addr)
    requires StackPage(base) && |c.ram| == 0x800
    ensures var c', ret := Exec(base, c, Jsr(target)), (c.regs.pc + 0xFFFF) % 0x1_0000;
      && c'.ram == c.ram[At(base, c.sp, 0) := ret / 256][At(base, c.sp, 1) := ret % 256]
      && c'.sp == (c.sp + 254) % 256 && c'.regs == c.regs.(pc := target)
  {
    hide Cell, At, Down, Dec;
    CellIsAt(base, c.sp);
    DownIs(c.sp);
    StepsWrap(c.regs.pc);
  }

  lemma PushThree(base: int, c: Cpu, x: Byte, y: Byte, z: Byte)
    requires StackPage(base) && |c.ram| == 0x800
    ensures var c' := Push(base, Push(base, Push(base, c, x), y), z);
      && c'.ram == c.ram[At(base, c.sp, 0) := x][At(base, c.sp, 1) := y][At(base, c.sp, 2) := z]
      && c'.sp == (c.sp + 253) % 256 && c'.regs == c.regs
  {
    hide Cell, At, Down;
    CellIsAt(base, c.sp);
    DownIs(c.sp);
  }

  /** An interrupt stores the PC, high byte first, and the status it goes on with: U and
      I set, B as it was, and every other flag lost. */
  lemma EntryLayout(base: int, c: Cpu, op: Op, f: Flags)
    requires StackPage(base) && |c.ram| == 0x800 && c.regs.p == Pack(f) && (op.Nmi? || (op.Irq? && !f.i))
    ensures var c', r, p := Exec(base, c, op), c.regs, Pack(NONE.(u := true, i := true, b := f.b));
      && c'.ram == c.ram[At(base, c.sp, 0) := r.pc / 256][At(base, c.sp, 1) := r.pc % 256][At(base, c.sp, 2) := p]
      && c'.sp == (c.sp + 253) % 256 && c'.regs == r.(pc := op.vector, p := p)
  {
    hide Push, At, SetFlag, EntryStatus, HasFlag, Pack;
    FlagsRead(f);
    EntryBits(f);
    PushThree(base, c, Hi(c.regs.pc), Lo(c.regs.pc), EntryStatus(c.regs.p));
  }

  /** BRK stores the PC one further on and its status with B and I set, and goes on with
      B alone. */
  lemma BrkLayout(base: int, c: Cpu, vector: Addr, f: Flags)
    requires StackPage(base) && |c.ram| == 0x800 && c.regs.p == Pack(f)
    ensures var c', ret := Exec(base, c, Brk(vector)), (c.regs.pc + 1) % 0x1_0000;
      var p := Pack(f.(i := true, b := true));
      && c'.ram == c.ram[At(base, c.sp, 0) := ret / 256][At(base, c.sp, 1) := ret % 256][At(base, c.sp, 2) := p]
      && c'.sp == (c.sp + 253) % 256 && c'.regs == c.regs.(pc := vector, p := Pack(NONE.(b := true)))
  {
    hide Push, At, SetFlag, BrkStatus, Pack, Inc;
    EntryBits(f);
    StepsWrap(c.regs.pc);
    PushThree(base, c, Hi(Inc(c.regs.pc)), Lo(Inc(c.regs.pc)), BrkStatus(c.regs.p));
  }

  /** What the pulling operations take from RAM, which they leave alone. RTS goes to the
      byte behind the address that JSR saved; PLA keeps N at most for a zero, Z at most
      beside the N of a negative byte, and no flag for another. `f` is the status that
      the operation starts from, its own or the one it pulls. */
  lemma PullLayout(base: int, c: Cpu, op: Op, f: Flags)
    requires StackPage(base) && |c.ram| == 0x800 && (op.Rts? || op.Pla? || op.Plp? || op.Rti?)
    requires Pack(f) == if op.Plp? || op.Rti? then c.ram[At(base, c.sp, -1)] else c.regs.p
    ensures var c', r := Exec(base, c, op), c.regs;
      var b1: int, b2: int, b3: int := c.ram[At(base, c.sp, -1)], c.ram[At(base, c.sp, -2)], c.ram[At(base, c.sp, -3)];
      && c'.ram == c.ram && c'.sp == (c.sp + if op.Rts? then 2 else if op.Rti? then 3 else 1) % 256
      && (op.Rts? ==> c'.regs == r.(pc := (256 * b2 + b1 + 1) % 0x1_0000))
      && (op.Rti? ==> c'.regs == r.(pc := 256 * b3 + b2, p := Pack(f.(b := true, u := true))))
      && (op.Plp? ==> c'.regs == r.(p := Pack(f.(u := true))))
      && (op.Pla? ==> c'.regs == r.(a := b1, p := Pack(
           if b1 == 0 then NONE.(n := f.n) else if b1 >= 128 then NONE.(n := true, z := f.z) else NONE)))
  {
    hide Cell, At, Up, SetFlag, PlaStatus, Pack;
    CellAboveIsAt(base, c.sp);
    PullBits(f);
    PlaBits(f, c.ram[At(base, c.sp, -1)]);
  }

  /** Once an interrupt is taken, no further request is until the program allows it
      again; behind BRK, which loses the I flag, every request is. */
  lemma RequestsAreMasked(base: int, c: Cpu, op: Op, vector: Addr)
    requires StackPage(base) && |c.ram| == 0x800 && (op.Irq? || op.Nmi? || op.Brk?)
    ensures var c' := Exec(base, c, op); var c'' := Exec(base, c', Irq(vector));
      && (!op.Brk? ==> c'' == c')
      && (op.Brk? ==> c''.regs.pc == vector && c''.sp == (c'.sp + 253) % 256)
  {
    hide Push, SetFlag, HasFlag, Pack, EntryStatus, BrkStatus;
    var f := BitsOf(c.regs.p);
    EntryBits(f);
    FlagsRead(f);
    FlagsRead(NONE.(u := true, i := true, b := f.b));
    FlagsRead(NONE.(b := true));
    var c' := Exec(base, c, op);
    if op.Brk? { EntryLayout(base, c', Irq(vector), NONE.(b := true)); }
  }

  // ---------- the stack of frames ----------

  /** What a push leaves: a return address, a register, or an interrupted program. */
  datatype Frame = Ret(pc: Addr) | Acc(a: Byte) | Status(p: Byte) | Interrupted(pc: Addr, p: Byte)

  function FrameBytes(f: Frame): seq<Byte> {
    match f
    case Ret(pc) => [Hi(Dec(pc)), Lo(Dec(pc))]
    case Acc(a) => [a]
    case Status(p) => [p]
    case Interrupted(pc, p) => [Hi(pc), Lo(pc), p]
  }

  function Bytes(fs: seq<Frame>): seq<Byte> {
    if fs == [] then [] else Bytes(fs[..|fs| - 1]) + FrameBytes(fs[|fs| - 1])
  }

  /** The frame that an operation pushes. */
  function Pushed(r: Regs, op: Op): Frame
    requires Opens(op)
  {
    match op
    case Jsr(_) => Ret(r.pc)
    case Pha => Acc(r.a)
    case Php => Status(r.p)
    case Brk(_) => Interrupted(Inc(r.pc), BrkStatus(r.p))
    case _ => Interrupted(r.pc, EntryStatus(r.p))
  }

  predicate Opens(op: Op) {
    op.Jsr? || op.Pha? || op.Php? || op.Irq? || op.Nmi? || op.Brk?
  }

  /** The frame that an operation needs on top. */
  predicate Closes(op: Op, f: Frame) {
    match op
    case Rts => f.Ret?
    case Pla => f.Acc?
    case Plp => f.Status?
    case Rti => f.Interrupted?
    case _ => false
  }

  /** The operation pulls what a matching one pushed, and the stack never holds
      more than the page. */
  predicate Allowed(r: Regs, fs: seq<Frame>, op: Op) {
    if op.Quiet? || Masked(r, op) then true
    else if Opens(op) then |Bytes(fs + [Pushed(r, op)])| <= 256
    else fs != [] && Closes(op, fs[|fs| - 1])
  }

  /** The registers after an operation of the frame machine. */
  function RegsAfter(r: Regs, fs: seq<Frame>, op: Op): Regs
    requires Allowed(r, fs, op)
  {
    match op
    case Jsr(target) => r.(pc := target)
    case Pha => r
    case Php => r.(p := SetFlag(SetFlag(r.p, FlagB, false), FlagU, false))
    case Irq(vector) => if Masked(r, op) then r else r.(p := EntryStatus(r.p), pc := vector)
    case Nmi(vector) => r.(p := EntryStatus(r.p), pc := vector)
    case Brk(vector) => r.(p := SetFlag(BrkStatus(r.p), FlagB, false), pc := vector)
    case Rts => r.(pc := fs[|fs| - 1].pc)
    case Pla => r.(a := fs[|fs| - 1].a, p := PlaStatus(r.p, fs[|fs| - 1].a))
    case Plp => r.(p := SetFlag(fs[|fs| - 1].p, FlagU, true))
    case Rti =>
      var f := fs[|fs| - 1];
      r.(p := SetFlag(SetFlag(f.p, FlagB, true), FlagU, true), pc := f.pc)
    case Quiet(regs, _, _) => regs
  }

  function FramesAfter(r: Regs, fs: seq<Frame>, op: Op): seq<Frame>
    requires Allowed(r, fs, op)
  {
    if op.Quiet? || Masked(r, op) then fs
    else if Opens(op) then fs + [Pushed(r, op)]
    else fs[..|fs| - 1]
  }

  // ---------- refinement ----------

  /** Memory holds `bytes`, pushed in order since SP was `sp0`. */
  ghost predicate Holds(base: int, sp0: Byte, c: Cpu, bytes: seq<Byte>) {
    && StackPage(base) && |c.ram| == 0x800 && |bytes| <= 256
    && c.sp == Down(sp0, |bytes|)
    && forall i :: 0 <= i < |bytes| ==> c.ram[Cell(base, Down(sp0, i))] == bytes[i]
  }

  lemma CellsDistinct(base: int, s: int, t: int)
    requires StackPage(base) && 0 <= s < 256 && 0 <= t < 256 && s != t
    ensures Cell(base, s) != Cell(base, t)
  {
  }

  lemma PushHolds(base: int, sp0: Byte, c: Cpu, bytes: seq<Byte>, v: Byte)
    requires Holds(base, sp0, c, bytes) && |bytes| < 256
    ensures Holds(base, sp0, Push(base, c, v), bytes + [v])
  {
    forall i | 0 <= i < |bytes| ensures Cell(base, Down(sp0, i)) != Cell(base, c.sp) {
      CellsDistinct(base, Down(sp0, i), c.sp);
    }
  }

  lemma PopHolds(base: int, sp0: Byte, c: Cpu, bytes: seq<Byte>)
    requires Holds(base, sp0, c, bytes) && bytes != []
    ensures Top(base, c) == bytes[|bytes| - 1]
    ensures Holds(base, sp0, Pop(c), bytes[..|bytes| - 1])
  {
    assert Up(c.sp) == Down(sp0, |bytes| - 1);
  }

  /** The registers agree and memory holds the frames. */
  ghost predicate Refines(base: int, sp0: Byte, c: Cpu, r: Regs, fs: seq<Frame>) {
    c.regs == r && Holds(base, sp0, c, Bytes(fs))
  }

  lemma JoinSplit(pc: Addr)
    ensures Join(Hi(pc), Lo(pc)) == pc && Inc(Dec(pc)) == pc
  {
  }

  lemma BytesAppend(fs: seq<Frame>, f: Frame)
    ensures Bytes(fs + [f]) == Bytes(fs) + FrameBytes(f)
  {
    assert (fs + [f])[..|fs|] == fs;
  }

  /** The pushes that leave a frame. */
  function PushAll(base: int, c: Cpu, bytes: seq<Byte>): (c': Cpu)
    requires StackPage(base) && |c.ram| == 0x800
    ensures |c'.ram| == 0x800
    decreases |bytes|
  {
    if bytes == [] then c else PushAll(base, Push(base, c, bytes[0]), bytes[1..])
  }

  lemma {:induction false} PushAllHolds(base: int, sp0: Byte, c: Cpu, s: seq<Byte>, bytes: seq<Byte>)
    requires Holds(base, sp0, c, s) && |s| + |bytes| <= 256
    ensures Holds(base, sp0, PushAll(base, c, bytes), s + bytes)
    decreases |bytes|
  {
    if bytes == [] {
      assert s + bytes == s;
    } else {
      PushHolds(base, sp0, c, s, bytes[0]);
      PushAllHolds(base, sp0, Push(base, c, bytes[0]), s + [bytes[0]], bytes[1..]);
      assert s + [bytes[0]] + bytes[1..] == s + bytes;
    }
  }

  lemma PushAllOne(base: int, c: Cpu, x: Byte)
    requires StackPage(base) && |c.ram| == 0x800
    ensures PushAll(base, c, [x]) == Push(base, c, x)
  {
  }

  lemma PushAllTwo(base: int, c: Cpu, x: Byte, y: Byte)
    requires StackPage(base) && |c.ram| == 0x800
    ensures PushAll(base, c, [x, y]) == Push(base, Push(base, c, x), y)
  {
    assert [x, y][1..] == [y];
    PushAllOne(base, Push(base, c, x), y);
  }

  lemma PushAllThree(base: int, c: Cpu, x: Byte, y: Byte, z: Byte)
    requires StackPage(base) && |c.ram| == 0x800
    ensures PushAll(base, c, [x, y, z]) == Push(base, Push(base, Push(base, c, x), y), z)
  {
    assert [x, y, z][1..] == [y, z];
    PushAllTwo(base, Push(base, c, x), y, z);
  }

  /** An operation that opens a frame pushes the frame's bytes. */
  lemma ExecPushes(base: int, c: Cpu, fs: seq<Frame>, op: Op)
    requires StackPage(base) && |c.ram| == 0x800 && Opens(op) && !Masked(c.regs, op) && Allowed(c.regs, fs, op)
    ensures var c' := Exec(base, c, op);
      c' == PushAll(base, c, FrameBytes(Pushed(c.regs, op))).(regs := c'.regs) && c'.regs == RegsAfter(c.regs, fs, op)
  {
    hide Push, PushAll, Bytes, SetFlag, HasFlag, Hi, Lo, Dec, Inc;
    match Pushed(c.regs, op)
    case Ret(pc) => PushAllTwo(base, c, Hi(Dec(pc)), Lo(Dec(pc)));
    case Acc(v) => PushAllOne(base, c, v);
    case Status(v) => PushAllOne(base, c, v);
    case Interrupted(pc, p) => PushAllThree(base, c, Hi(pc), Lo(pc), p);
  }

  /** The registers are no part of the stack. */
  lemma HoldsAnyRegs(base: int, sp0: Byte, c: Cpu, r: Regs, s: seq<Byte>)
    requires Holds(base, sp0, c, s)
    ensures Holds(base, sp0, c.(regs := r), s)
  {
  }

  lemma PushFrame(base: int, sp0: Byte, c: Cpu, fs: seq<Frame>, op: Op)
    requires Refines(base, sp0, c, c.regs, fs) && Opens(op) && !Masked(c.regs, op)
    requires Allowed(c.regs, fs, op)
    ensures Refines(base, sp0, Exec(base, c, op), RegsAfter(c.regs, fs, op), FramesAfter(c.regs, fs, op))
  {
    hide Exec, Bytes, Pushed, FrameBytes, PushAll, Cell, Down, RegsAfter;
    ExecPushes(base, c, fs, op);
    var f := Pushed(c.regs, op);
    BytesAppend(fs, f);
    PushAllHolds(base, sp0, c, Bytes(fs), FrameBytes(f));
    var pushed := PushAll(base, c, FrameBytes(f));
    HoldsAnyRegs(base, sp0, pushed, RegsAfter(c.regs, fs, op), Bytes(fs) + FrameBytes(f));
  }

  lemma PopTwo(base: int, sp0: Byte, c: Cpu, s: seq<Byte>, x: Byte, y: Byte)
    requires Holds(base, sp0, c, s + [x, y])
    ensures Top(base, c) == y && Top(base, Pop(c)) == x && Holds(base, sp0, Pop(Pop(c)), s)
  {
    PopHolds(base, sp0, c, s + [x, y]);
    assert (s + [x, y])[..|s| + 1] == s + [x];
    PopHolds(base, sp0, Pop(c), s + [x]);
    assert (s + [x])[..|s|] == s;
  }

  lemma PopThree(base: int, sp0: Byte, c: Cpu, s: seq<Byte>, x: Byte, y: Byte, z: Byte)
    requires Holds(base, sp0, c, s + [x, y, z])
    ensures Top(base, c) == z && Top(base, Pop(c)) == y && Top(base, Pop(Pop(c))) == x
    ensures Holds(base, sp0, Pop(Pop(Pop(c))), s)
  {
    PopHolds(base, sp0, c, s + [x, y, z]);
    assert (s + [x, y, z])[..|s| + 2] == s + [x, y];
    PopTwo(base, sp0, Pop(c), s, x, y);
  }

  lemma PopFrame(base: int, sp0: Byte, c: Cpu, fs: seq<Frame>, op: Op)
    requires Refines(base, sp0, c, c.regs, fs) && fs != [] && Closes(op, fs[|fs| - 1])
    ensures Refines(base, sp0, Exec(base, c, op), RegsAfter(c.regs, fs, op), fs[..|fs| - 1])
  {
    var f := fs[|fs| - 1];
    var s := Bytes(fs[..|fs| - 1]);
    match f
    case Ret(pc) =>
      PopTwo(base, sp0, c, s, Hi(Dec(pc)), Lo(Dec(pc)));
      JoinSplit(Dec(pc));
      JoinSplit(pc);
    case Interrupted(pc, p) =>
      PopThree(base, sp0, c, s, Hi(pc), Lo(pc), p);
      JoinSplit(pc);
    case Acc(v) => PopOne(base, sp0, c, s, v);
    case Status(v) => PopOne(base, sp0, c, s, v);
  }

  lemma PopOne(base: int, sp0: Byte, c: Cpu, s: seq<Byte>, v: Byte)
    requires Holds(base, sp0, c, s + [v])
    ensures Top(base, c) == v && Holds(base, sp0, Pop(c), s)
  {
    PopHolds(base, sp0, c, s + [v]);
    assert (s + [v])[..|s|] == s;
  }

  lemma QuietHolds(base: int, sp0: Byte, c: Cpu, bytes: seq<Byte>, op: Op)
    requires Holds(base, sp0, c, bytes) && op.Quiet? && Sane(base, op)
    ensures Holds(base, sp0, Exec(base, c, op), bytes)
  {
  }

  /** One operation of the code does to its 2 KiB of memory what the frame
      machine does to its frames, wherever SP stands and wherever it wraps. */
  lemma StepRefines(base: int, sp0: Byte, c: Cpu, fs: seq<Frame>, op: Op)
    requires Refines(base, sp0, c, c.regs, fs) && Sane(base, op) && Allowed(c.regs, fs, op)
    ensures Refines(base, sp0, Exec(base, c, op), RegsAfter(c.regs, fs, op), FramesAfter(c.regs, fs, op))
  {
    if op.Quiet? {
      QuietHolds(base, sp0, c, Bytes(fs), op);
    } else if !Masked(c.regs, op) {
      if Opens(op) { PushFrame(base, sp0, c, fs, op); } else { PopFrame(base, sp0, c, fs, op); }
    }
  }

  // ---------- runs ----------

  ghost predicate AllowedRun(base: int, r: Regs, fs: seq<Frame>, ops: seq<Op>)
    requires StackPage(base)
    decreases |ops|
  {
    ops == [] ||
    (Sane(base, ops[0]) && Allowed(r, fs, ops[0])
     && AllowedRun(base, RegsAfter(r, fs, ops[0]), FramesAfter(r, fs, ops[0]), ops[1..]))
  }

  /** Where the frame machine ends. */
  ghost function RunFrames(base: int, r: Regs, fs: seq<Frame>, ops: seq<Op>): (Regs, seq<Frame>)
    requires StackPage(base) && AllowedRun(base, r, fs, ops)
    decreases |ops|
  {
    if ops == [] then (r, fs)
    else RunFrames(base, RegsAfter(r, fs, ops[0]), FramesAfter(r, fs, ops[0]), ops[1..])
  }

  /** Where the code ends. */
  ghost function Run(base: int, c: Cpu, ops: seq<Op>): Cpu
    requires StackPage(base) && |c.ram| == 0x800 && forall op :: op in ops ==> Sane(base, op)
    decreases |ops|
  {
    if ops == [] then c else Run(base, Exec(base, c, ops[0]), ops[1..])
  }

  lemma {:induction false} RunIsSane(base: int, r: Regs, fs: seq<Frame>, ops: seq<Op>)
    requires StackPage(base) && AllowedRun(base, r, fs, ops)
    ensures forall op :: op in ops ==> Sane(base, op)
    decreases |ops|
  {
    if ops == [] {
    } else {
      RunIsSane(base, RegsAfter(r, fs, ops[0]), FramesAfter(r, fs, ops[0]), ops[1..]);
    }
  }

  /** Every run that keeps the stack discipline refines the frame machine. */
  lemma {:induction false} RunRefines(base: int, sp0: Byte, c: Cpu, fs: seq<Frame>, ops: seq<Op>)
    requires Refines(base, sp0, c, c.regs, fs) && AllowedRun(base, c.regs, fs, ops)
    ensures forall op :: op in ops ==> Sane(base, op)
    ensures var (r', fs') := RunFrames(base, c.regs, fs, ops); Refines(base, sp0, Run(base, c, ops), r', fs')
    decreases |ops|
  {
    RunIsSane(base, c.regs, fs, ops);
    if ops == [] {
    } else {
      StepRefines(base, sp0, c, fs, ops[0]);
      RunRefines(base, sp0, Exec(base, c, ops[0]), FramesAfter(c.regs, fs, ops[0]), ops[1..]);
    }
  }

  // ---------- well-nested programs ----------

  /** Calls, pushes and interrupts with their bodies. Each may nest further and
      is closed by the matching return or pull. */
  datatype Nest = Done | Plain(op: Op, rest: Nest) | Bracket(open: Op, body: Nest, rest: Nest)

  /** The operation that undoes `open`. */
  function Matching(open: Op): Op {
    match open
    case Jsr(_) => Rts
    case Pha => Pla
    case Php => Plp
    case _ => Rti
  }

  ghost predicate WellNested(base: int, n: Nest)
    requires StackPage(base)
  {
    match n
    case Done => true
    case Plain(op, rest) => op.Quiet? && Sane(base, op) && WellNested(base, rest)
    case Bracket(open, body, rest) => Opens(open) && WellNested(base, body) && WellNested(base, rest)
  }

  function FrameSize(open: Op): nat {
    match open case Jsr(_) => 2 case Pha => 1 case Php => 1 case _ => 3
  }

  /** The deepest the stack gets, in bytes. */
  function Depth(n: Nest): nat {
    match n
    case Done => 0
    case Plain(_, rest) => Depth(rest)
    case Bracket(open, body, rest) =>
      var d := FrameSize(open) + Depth(body);
      if d >= Depth(rest) then d else Depth(rest)
  }

  /** The code running the program. A masked interrupt request runs no handler. */
  ghost function RunNest(base: int, c: Cpu, n: Nest): (c': Cpu)
    requires StackPage(base) && |c.ram| == 0x800 && WellNested(base, n)
    ensures |c'.ram| == 0x800
    decreases n, 0
  {
    match n
    case Done => c
    case Plain(op, rest) => RunNest(base, Exec(base, c, op), rest)
    case Bracket(open, body, rest) => RunNest(base, RunBracket(base, c, open, body), rest)
  }

  ghost function RunBracket(base: int, c: Cpu, open: Op, body: Nest): (c': Cpu)
    requires StackPage(base) && |c.ram| == 0x800 && Opens(open) && WellNested(base, body)
    ensures |c'.ram| == 0x800
    decreases body, 1
  {
    if Masked(c.regs, open) then c
    else Exec(base, RunNest(base, Exec(base, c, open), body), Matching(open))
  }

  /** The registers that a bracket restores from the stack. */
  ghost predicate Restored(r: Regs, r': Regs, open: Op) {
    match open
    case Pha => r'.a == r.a
    case Php => r'.p == SetFlag(r.p, FlagU, true)
    case Brk(_) => r'.pc == Inc(r.pc)
    case _ => r'.pc == r.pc
  }

  lemma {:induction false} BracketReturns(base: int, sp0: Byte, c: Cpu, fs: seq<Frame>, open: Op, body: Nest)
    requires Refines(base, sp0, c, c.regs, fs) && Opens(open) && WellNested(base, body)
    requires |Bytes(fs)| + FrameSize(open) + Depth(body) <= 256
    ensures var c' := RunBracket(base, c, open, body);
      Refines(base, sp0, c', c'.regs, fs) && Restored(c.regs, c'.regs, open)
    decreases body, 1
  {
    hide Exec, Bytes, SetFlag, Cell;
    if !Masked(c.regs, open) {
      var f := Pushed(c.regs, open);
      BytesAppend(fs, f);
      StepRefines(base, sp0, c, fs, open);
      var c1 := Exec(base, c, open);
      NestReturns(base, sp0, c1, fs + [f], body);
      var c2 := RunNest(base, c1, body);
      PopFrame(base, sp0, c2, fs + [f], Matching(open));
      assert (fs + [f])[..|fs|] == fs;
    }
  }

  lemma {:induction false} NestReturns(base: int, sp0: Byte, c: Cpu, fs: seq<Frame>, n: Nest)
    requires Refines(base, sp0, c, c.regs, fs) && WellNested(base, n) && |Bytes(fs)| + Depth(n) <= 256
    ensures var c' := RunNest(base, c, n); Refines(base, sp0, c', c'.regs, fs)
    decreases n, 0
  {
    match n
    case Done =>
    case Plain(op, rest) =>
      StepRefines(base, sp0, c, fs, op);
      NestReturns(base, sp0, Exec(base, c, op), fs, rest);
    case Bracket(open, body, rest) =>
      BracketReturns(base, sp0, c, fs, open, body);
      NestReturns(base, sp0, RunBracket(base, c, open, body), fs, rest);
  }

  /** From any machine state: a call, push or interrupt whose body is well nested
      and at most 256 bytes deep leaves SP where it was and restores what it
      saved, across wrap of SP and of the 16-bit PC. */
  lemma CallReturns(base: int, c: Cpu, open: Op, body: Nest)
    requires StackPage(base) && |c.ram| == 0x800 && Opens(open) && WellNested(base, body)
    requires FrameSize(open) + Depth(body) <= 256
    ensures var c' := RunBracket(base, c, open, body);
      c'.sp == c.sp && Restored(c.regs, c'.regs, open)
  {
    BracketReturns(base, c.sp, c, [], open, body);
  }
}
