/**
 * The stack of the newer engine: `push16` and `pop16`, the handlers built
 * on them (PUSH, POP, PUSHF, POPF), and the round trips they complete.
 */
module Stack {
  import opened Utils
  import opened Machine
  import opened Addressing
  import opened Operations


  /**
   * The state after `push16(value)`: SP two lower (modulo 2^16), the low
   * byte of the value at SS:SP and the high byte at SS:SP + 1.
   */
  function PushView(v: View, value: Word): (v': View)
    requires Wf(v)
    ensures Wf(v')
  {
    var sp := ToU16(v.regs[SP] as int - 2);
    v.(regs := v.regs[SP := sp], mem := Write16(v.mem, v.regs[SS], sp, value))
  }

  /** The word `pop16` returns: high byte from SS:SP + 1, low byte from SS:SP. */
  function Top(v: View): Word
    requires Wf(v)
  {
    Read16(v.mem, v.regs[SS], v.regs[SP])
  }

  /** The state after `pop16`: SP two higher (modulo 2^16), nothing else changed. */
  function PopView(v: View): (v': View)
    requires Wf(v)
    ensures Wf(v')
  {
    v.(regs := v.regs[SP := ToU16(v.regs[SP] as int + 2)])
  }

  /** push16: SP is lowered by two and the word stored little-endian at SS:SP. */
  method Push16(cpu: Cpu, value: Word)
    requires cpu.Valid()
    modifies cpu`reg16, cpu.mem
    ensures cpu.Valid()
    ensures cpu.Now() == PushView(old(cpu.Now()), value)
  {
    cpu.Put16(SP, cpu.reg16[SP] as int - 2);
    WriteMem8(cpu, cpu.reg16[SS], cpu.reg16[SP], value % 0x100);
    WriteMem8(cpu, cpu.reg16[SS], cpu.reg16[SP] as int + 1, value / 0x100);
  }

  /** pop16: the word at SS:SP is returned and SP raised by two. */
  method Pop16(cpu: Cpu) returns (value: Word)
    requires cpu.Valid()
    modifies cpu`reg16
    ensures cpu.Valid()
    ensures value == Top(old(cpu.Now()))
    ensures cpu.Now() == PopView(old(cpu.Now()))
  {
    var ss: int, sp: int := cpu.reg16[SS], cpu.reg16[SP];
    value := Join(cpu.mem[Phys(ss, sp + 1)], cpu.mem[Phys(ss, sp)]);
    cpu.Put16(SP, sp + 2);
  }

  /** A word pushed is the word popped next, and the pop puts SP back where it was. */
  lemma PushPop(v: View, x: Word)
    requires Wf(v)
    ensures Top(PushView(v, x)) == x
    ensures PopView(PushView(v, x)).regs == v.regs
  {
    var w := PushView(v, x);
    Write16Read16(v.mem, v.regs[SS], w.regs[SP], x);
    assert w.regs[SP := ToU16(w.regs[SP] as int + 2)] == v.regs;
  }

  /** Two pushes come back in the opposite order, and two pops restore SP. */
  lemma PushTwicePopTwice(v: View, x: Word, y: Word)
    requires Wf(v)
    ensures var w := PushView(PushView(v, x), y);
      && Top(w) == y
      && Top(PopView(w)) == x
      && PopView(PopView(w)).regs == v.regs
  {
    var u := PushView(v, x);
    var w := PushView(u, y);
    PushPop(u, y);
    PushPop(v, x);
    PushKeepsTop(u, y);
    assert PopView(w).regs == u.regs;
  }

  /** A push leaves the word that was on top in place: it is the top again after one pop. */
  lemma PushKeepsTop(u: View, y: Word)
    requires Wf(u)
    ensures Read16(PushView(u, y).mem, u.regs[SS], u.regs[SP]) == Top(u)
  {
    var ss: int, a: int := u.regs[SS], u.regs[SP];
    var b: int := ToU16(a - 2);
    StackCellsApart(ss, a);
    var m := Write16(u.mem, ss, b, y);
    assert m[Phys(ss, a)] == u.mem[Phys(ss, a)];
    assert m[Phys(ss, a + 1)] == u.mem[Phys(ss, a + 1)];
  }

  /** The two cells a push writes below SP = a are neither of the two cells at a and a + 1. */
  lemma StackCellsApart(ss: int, a: Word)
    ensures var b := ToU16(a - 2);
      && Phys(ss, b) != Phys(ss, a) && Phys(ss, b) != Phys(ss, a + 1)
      && Phys(ss, b + 1) != Phys(ss, a) && Phys(ss, b + 1) != Phys(ss, a + 1)
  {
    var b: int := ToU16(a - 2);
    if a >= 2 {
      PhysDistinct(ss, a, b);
      PhysDistinct(ss, a + 1, b);
      PhysDistinct(ss, a, b + 1);
      PhysDistinct(ss, a + 1, b + 1);
    } else {
      PhysDistinct(ss, b, a);
      PhysDistinct(ss, b, a + 1);
      PhysDistinct(ss, b + 1, a);
      PhysDistinct(ss, b + 1, a + 1);
    }
  }

  /** push: the operand is read and pushed. */
  method Push(cpu: Cpu, dst: Operand)
    requires cpu.Valid() && DataOperand(dst)
    modifies cpu`reg16, cpu`addrIPInc, cpu`addrSeg, cpu.mem
    ensures cpu.Valid()
    ensures var v := old(cpu.Now()); cpu.Now() == PushView(v, Datum(v, dst, v.regs[CS]))
    ensures cpu.addrIPInc == IncOf(dst, cpu.opcode, None, old(cpu.addrIPInc))
    ensures cpu.addrSeg == SegOf(dst, cpu.opcode, None, old(cpu.addrSeg))
  {
    var segment := cpu.reg16[CS];
    var x := ReadDatum(cpu, dst, segment);
    Push16(cpu, x);
  }

  /** pop: a word is popped and then written through the operand. */
  method Pop(cpu: Cpu, dst: Operand) returns (res: Outcome<int>)
    requires cpu.Valid()
    modifies cpu`reg16, cpu`addrIPInc, cpu`addrSeg, cpu.mem
    ensures cpu.Valid()
    ensures var v := old(cpu.Now()); var x := Top(v);
      && Written(PopView(v), dst, v.regs[CS], x, res, cpu.reg16, cpu.mem[..])
      && cpu.addrIPInc == IncOf(dst, v.opcode, Some(x), old(cpu.addrIPInc))
      && cpu.addrSeg == SegOf(dst, v.opcode, Some(x), old(cpu.addrSeg))
  {
    var segment := cpu.reg16[CS];
    var x := Pop16(cpu);
    res := Write(cpu, dst, segment, x);
  }

  /** pushf: the flags word is pushed. */
  method Pushf(cpu: Cpu)
    requires cpu.Valid()
    modifies cpu`reg16, cpu.mem
    ensures cpu.Valid()
    ensures cpu.Now() == PushView(old(cpu.Now()), FlagsWord(cpu.flags))
  {
    Push16(cpu, FlagsWord(cpu.flags));
  }

  /** popf: the flags word is replaced by a popped word. */
  method Popf(cpu: Cpu)
    requires cpu.Valid()
    modifies cpu`reg16, cpu`flags
    ensures cpu.Valid()
    ensures cpu.flags == WordFlags(Top(old(cpu.Now())))
    ensures cpu.Now() == PopView(old(cpu.Now()))
  {
    var x := Pop16(cpu);
    cpu.flags := WordFlags(x);
  }

  /** PUSHF followed by POPF restores every flag and SP. */
  lemma PushfPopf(v: View, f: Flags)
    requires Wf(v)
    ensures var w := PushView(v, FlagsWord(f));
      WordFlags(Top(w)) == f && PopView(w).regs == v.regs
  {
    PushPop(v, FlagsWord(f));
    FlagsWordRoundTrip(f, 0);
  }
}
