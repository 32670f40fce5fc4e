/** The bus of kernel/src/nesbus.c and the stack instructions of
    kernel/src/nes6502.c, which update the shared registers and RAM in place. */
module NesCpu {
  import opened Words
  import opened NesStack

  class Machine {
    const ram: array<Byte>
    const stackBase: int
    const device: Addr -> Byte    // what reads outside RAM yield
    var a: Byte
    var x: Byte
    var y: Byte
    var p: Byte
    var sp: Byte
    var pc: Addr

    ghost predicate Valid() {
      ram.Length == 0x800 && StackPage(stackBase)
    }

    ghost function View(): (c: Cpu)
      requires Valid()
      reads this, ram
      ensures |c.ram| == 0x800
    {
      Cpu(Regs(a, x, y, p, pc), sp, ram[..])
    }

    constructor (base: int, outside: Addr -> Byte)
      requires StackPage(base)
      ensures Valid() && fresh(ram) && stackBase == base && device == outside
    {
      ram := new Byte[0x800];
      stackBase, device := base, outside;
      a, x, y, p, sp, pc := 0, 0, 0, 0, 0, 0;
    }

    /** `nes_cpu_write`: RAM is mirrored four times; other addresses are devices. */
    method CpuWrite(addr: Addr, data: Byte)
      requires Valid()
      modifies ram
      ensures View() == if addr <= 0x1FFF
        then old(View()).(ram := old(View()).ram[RamIndex(addr) := data]) else old(View())
    {
      if addr <= 0x1FFF { ram[addr % 0x800] := data; }
    }

    method CpuRead(addr: Addr) returns (data: Byte)
      requires Valid()
      ensures data == if addr <= 0x1FFF then View().ram[RamIndex(addr)] else device(addr)
    {
      if addr <= 0x1FFF { data := ram[addr % 0x800]; } else { data := device(addr); }
    }

    method SetFlagBit(flag: Flag, on: bool)
      requires Valid()
      modifies `p
      ensures p == SetFlag(old(p), flag, on)
    {
      if on {
        if !HasFlag(p, flag) { p := p + Bit(flag); }
      } else {
        p := if HasFlag(p, flag) then Bit(flag) else 0;
      }
    }

    method PushByte(v: Byte)
      requires Valid()
      modifies `sp, ram
      ensures View() == Push(stackBase, old(View()), v)
    {
      CpuWrite(stackBase + sp, v);
      sp := if sp == 0 then 255 else sp - 1;
    }

    method PullByte() returns (v: Byte)
      requires Valid()
      modifies `sp
      ensures v == Top(stackBase, old(View())) && View() == Pop(old(View()))
    {
      sp := if sp == 255 then 0 else sp + 1;
      v := CpuRead(stackBase + sp);
    }

    method ReadVector(addr: Addr) returns (v: Addr)
      requires Valid() && 0x2000 <= addr < 0xFFFF
      ensures v == Vector(addr)
    {
      var lo := CpuRead(addr);
      var hi := CpuRead(addr + 1);
      v := Join(hi, lo);
    }

    function Vector(addr: Addr): Addr
      requires addr < 0xFFFF
    {
      Join(device(addr + 1), device(addr))
    }

    method Jsr(target: Addr)
      requires Valid()
      modifies this, ram
      ensures View() == Exec(stackBase, old(View()), Op.Jsr(target))
    {
      pc := Dec(pc);
      PushByte(Hi(pc));
      PushByte(Lo(pc));
      pc := target;
    }

    method Rts()
      requires Valid()
      modifies this
      ensures View() == Exec(stackBase, old(View()), Op.Rts)
    {
      var lo := PullByte();
      var hi := PullByte();
      pc := Join(hi, lo);
      pc := Inc(pc);
    }

    method Pha()
      requires Valid()
      modifies this, ram
      ensures View() == Exec(stackBase, old(View()), Op.Pha)
    {
      PushByte(a);
    }

    method Pla()
      requires Valid()
      modifies this
      ensures View() == Exec(stackBase, old(View()), Op.Pla)
    {
      a := PullByte();
      SetFlagBit(FlagZ, a == 0);
      SetFlagBit(FlagN, a >= 128);
    }

    method Php()
      requires Valid()
      modifies this, ram
      ensures View() == Exec(stackBase, old(View()), Op.Php)
    {
      PushByte(p);
      SetFlagBit(FlagB, false);
      SetFlagBit(FlagU, false);
    }

    method Plp()
      requires Valid()
      modifies this
      ensures View() == Exec(stackBase, old(View()), Op.Plp)
    {
      p := PullByte();
      SetFlagBit(FlagU, true);
    }

    /** What both interrupt entries do once they are taken. */
    method Enter(vector: Addr)
      requires Valid() && 0x2000 <= vector < 0xFFFF
      modifies this, ram
      ensures View() == Entry(stackBase, old(View()), Vector(vector))
    {
      PushByte(Hi(pc));
      PushByte(Lo(pc));
      SetFlagBit(FlagB, false);
      SetFlagBit(FlagU, true);
      SetFlagBit(FlagI, true);
      PushByte(p);
      pc := ReadVector(vector);
    }

    /** `nes_irq`: nothing happens while the I flag is set. */
    method Irq()
      requires Valid()
      modifies this, ram
      ensures View() == Exec(stackBase, old(View()), Op.Irq(Vector(0xFFFE)))
      ensures old(p) / 4 % 2 == 0 ==> pc as int == device(0xFFFE) as int + 256 * device(0xFFFF)
    {
      if !HasFlag(p, FlagI) { Enter(0xFFFE); }
    }

    /** `nes_nmirq`. */
    method Nmi()
      requires Valid()
      modifies this, ram
      ensures View() == Exec(stackBase, old(View()), Op.Nmi(Vector(0xFFFA)))
      ensures pc as int == device(0xFFFA) as int + 256 * device(0xFFFB)
    {
      Enter(0xFFFA);
    }

    method Brk()
      requires Valid()
      modifies this, ram
      ensures View() == Exec(stackBase, old(View()), Op.Brk(Vector(0xFFFE)))
      ensures pc as int == device(0xFFFE) as int + 256 * device(0xFFFF)
    {
      pc := Inc(pc);
      SetFlagBit(FlagI, true);
      PushByte(Hi(pc));
      PushByte(Lo(pc));
      SetFlagBit(FlagB, true);
      PushByte(p);
      SetFlagBit(FlagB, false);
      pc := ReadVector(0xFFFE);
    }

    method Rti()
      requires Valid()
      modifies this
      ensures View() == Exec(stackBase, old(View()), Op.Rti)
    {
      p := PullByte();
      SetFlagBit(FlagB, true);
      SetFlagBit(FlagU, true);
      var lo := PullByte();
      var hi := PullByte();
      pc := Join(hi, lo);
    }
  }
}
