/**
 * Control transfer in the newer engine: the conditional jumps, the LOOP
 * family, CALL, JMP, RET and RETF.
 */
module Branches {
  import opened Utils
  import opened Machine
  import opened Addressing
  import opened FlagRules
  import opened Operations
  import opened Stack


  /** The conditions the conditional-jump handlers test, one per handler. */
  datatype Condition =
    | Above | Below | BelowOrEqual | CxZero | Greater | GreaterOrEqual | Less | LessOrEqual
    | NotBelow | NotOverflow | NotSign | NotZero | Overflow | ParityEven | ParityOdd | Sign | Zero

  /** The condition each handler is documented to test. */
  predicate Holds(c: Condition, flags: Flags, cx: Word)
  {
    match c
    case Above => !IsSet(flags, CF) && !IsSet(flags, ZF)
    case Below => IsSet(flags, CF)
    case BelowOrEqual => IsSet(flags, CF) || IsSet(flags, ZF)
    case CxZero => cx == 0
    case Greater => IsSet(flags, SF) == IsSet(flags, OF) && !IsSet(flags, ZF)
    case GreaterOrEqual => IsSet(flags, SF) == IsSet(flags, OF)
    case Less => IsSet(flags, SF) != IsSet(flags, OF)
    case LessOrEqual => IsSet(flags, SF) != IsSet(flags, OF) || IsSet(flags, ZF)
    case NotBelow => !IsSet(flags, CF)
    case NotOverflow => !IsSet(flags, OF)
    case NotSign => !IsSet(flags, SF)
    case NotZero => !IsSet(flags, ZF)
    case Overflow => IsSet(flags, OF)
    case ParityEven => IsSet(flags, PF)
    case ParityOdd => !IsSet(flags, PF)
    case Sign => IsSet(flags, SF)
    case Zero => IsSet(flags, ZF)
  }

  /** `(flags & mask) >> position`: one flag as the number 0 or 1. */
  function FlagValue(flags: Flags, b: FlagBit): Bit
  {
    if IsSet(flags, b) then 1 else 0
  }

  /** A comparison used as an operand of `^`, which turns `true` into 1 and `false` into 0. */
  function Numeric(b: bool): Bit
  {
    if b then 1 else 0
  }

  /** `x ^ y` on two bits. */
  function Xor(x: Bit, y: Bit): Bit
  {
    (x + y) % 2
  }

  /**
   * The expression each handler evaluates.  JavaScript binds `===`, `>` and
   * `<` tighter than `^`, and `^` tighter than `||`, so the signed
   * conditions read `sf ^ (of === 0)` and the like; the handlers without a
   * compound expression test their documented condition.
   */
  predicate TakenAsWritten(c: Condition, flags: Flags, cx: Word)
  {
    var sf, of := FlagValue(flags, SF), FlagValue(flags, OF);
    match c
    case Above => !IsSet(flags, ZF) || !IsSet(flags, CF)
    case Greater => Xor(sf, Numeric(of == 0)) != 0 || !IsSet(flags, ZF)
    case GreaterOrEqual => Xor(sf, Numeric(of == 0)) != 0
    case Less => Xor(sf, Numeric(of == 1)) != 0
    case LessOrEqual => Xor(sf, Numeric(of > 0)) != 0 || IsSet(flags, ZF)
    case _ => Holds(c, flags, cx)
  }

  /** Despite the precedence, JGE, JL and JLE test what they document; JA and JG do not. */
  lemma ConditionsAsWritten(flags: Flags, cx: Word)
    ensures forall c: Condition :: c != Above && c != Greater ==> (TakenAsWritten(c, flags, cx) <==> Holds(c, flags, cx))
    ensures TakenAsWritten(Above, flags, cx) <==> !(IsSet(flags, CF) && IsSet(flags, ZF))
    ensures TakenAsWritten(Greater, flags, cx) <==> IsSet(flags, SF) == IsSet(flags, OF) || !IsSet(flags, ZF)
  {
  }

  /** The unsigned and signed order of `d` and `s` agree with the sign and overflow flags of `d - s`. */
  lemma LessMeaning(size: Size, d: int, s: int)
    requires Fits(size, d) && Fits(size, s)
    ensures var r := Wrap(size, d - s);
      ((r >= SignWeight(size)) != !(-SignWeight(size) <= Signed(size, d) - Signed(size, s) < SignWeight(size)))
      <==> Signed(size, d) < Signed(size, s)
  {
    WrapBorrow(size, d, s, 0);
    assert d - s - 0 == d - s;
    SignedValue(size, d);
    SignedValue(size, s);
  }

  /**
   * After CMP of two operands of the instruction's size, each conditional
   * jump tests the relation its mnemonic names: above/below on the unsigned
   * values, greater/less on the two's-complement values.
   */
  lemma CompareJumps(flags: Flags, size: Size, d: int, s: int, cx: Word)
    requires Fits(size, d) && Fits(size, s)
    ensures var f := SubFlags(flags, size, d, s, Wrap(size, d - s));
      var sd, ss := Signed(size, d), Signed(size, s);
      && (Holds(Above, f, cx) <==> d > s)
      && (Holds(NotBelow, f, cx) <==> d >= s)
      && (Holds(Below, f, cx) <==> d < s)
      && (Holds(BelowOrEqual, f, cx) <==> d <= s)
      && (Holds(Zero, f, cx) <==> d == s)
      && (Holds(NotZero, f, cx) <==> d != s)
      && (Holds(Greater, f, cx) <==> sd > ss)
      && (Holds(GreaterOrEqual, f, cx) <==> sd >= ss)
      && (Holds(Less, f, cx) <==> sd < ss)
      && (Holds(LessOrEqual, f, cx) <==> sd <= ss)
  {
    SubFlagsMeaning(flags, size, d, s);
    LessMeaning(size, d, s);
    SignedValue(size, d);
    SignedValue(size, s);
  }

  /** As written, JG jumps after comparing two equal operands. */
  lemma GreaterAsWrittenJumpsOnEqual()
    ensures var f := SubFlags(NO_FLAGS, W, 5, 5, Wrap(W, 5 - 5));
      TakenAsWritten(Greater, f, 0) && !Holds(Greater, f, 0)
  {
    CompareJumps(NO_FLAGS, W, 5, 5, 0);
    ConditionsAsWritten(SubFlags(NO_FLAGS, W, 5, 5, Wrap(W, 5 - 5)), 0);
  }

  /** As written, JA jumps after comparing 1 with 2, although 1 is below 2. */
  lemma AboveAsWrittenJumpsWhenBelow()
    ensures var f := SubFlags(NO_FLAGS, W, 1, 2, Wrap(W, 1 - 2));
      TakenAsWritten(Above, f, 0) && !Holds(Above, f, 0)
  {
    CompareJumps(NO_FLAGS, W, 1, 2, 0);
  }

  /**
   * ja, jb, jbe, jcxz, jg, jge, jl, jle, jnb, jno, jns, jnz, jo, jpe, jpo,
   * js, jz: the relative target is read, and IP becomes the target exactly
   * when the documented condition holds; the result says whether it did.
   */
  method ConditionalJump(cpu: Cpu, dst: Operand, c: Condition) returns (taken: bool)
    requires cpu.Valid() && (dst == Jb || dst == Jv)
    modifies cpu`reg16, cpu`ip, cpu`addrIPInc, cpu`addrSeg, cpu.mem
    ensures cpu.Valid()
    ensures var v := old(cpu.Now());
      && taken == Holds(c, cpu.flags, v.regs[CX])
      && cpu.ip == (if taken then ToU16(Target(v, dst)) else v.ip)
    ensures cpu.reg16 == old(cpu.reg16) && cpu.mem[..] == old(cpu.mem[..])
    ensures cpu.addrIPInc == IncOf(dst, cpu.opcode, None, old(cpu.addrIPInc))
    ensures cpu.addrSeg == old(cpu.addrSeg)
  {
    ghost var v := cpu.Now();
    var segment := cpu.reg16[CS];
    var offset := Read(cpu, dst, segment);
    var f := cpu.flags;
    match c {
      case Above => taken := !IsSet(f, CF) && !IsSet(f, ZF);
      case Below => taken := IsSet(f, CF);
      case BelowOrEqual => taken := IsSet(f, ZF) || IsSet(f, CF);
      case CxZero => taken := cpu.reg16[CX] == 0;
      case Greater => taken := IsSet(f, SF) == IsSet(f, OF) && !IsSet(f, ZF);
      case GreaterOrEqual => taken := IsSet(f, SF) == IsSet(f, OF);
      case Less => taken := IsSet(f, SF) != IsSet(f, OF);
      case LessOrEqual => taken := IsSet(f, SF) != IsSet(f, OF) || IsSet(f, ZF);
      case NotBelow => taken := !IsSet(f, CF);
      case NotOverflow => taken := !IsSet(f, OF);
      case NotSign => taken := !IsSet(f, SF);
      case NotZero => taken := !IsSet(f, ZF);
      case Overflow => taken := IsSet(f, OF);
      case ParityEven => taken := IsSet(f, PF);
      case ParityOdd => taken := !IsSet(f, PF);
      case Sign => taken := IsSet(f, SF);
      case Zero => taken := IsSet(f, ZF);
    }
    if taken {
      cpu.ip := ToU16(offset.n);
    }
  }

  // ------------------------------------------------------------ LOOP, LOOPZ, LOOPNZ

  /** The three loop handlers: `loop`, `loopz` and `loopnz`. */
  datatype LoopKind = Plain | WhileZero | WhileNotZero

  /** Whether a loop handler jumps, given CX after its decrement. */
  predicate LoopTaken(k: LoopKind, cx: Word, flags: Flags)
  {
    cx != 0 &&
    match k
    case Plain => true
    case WhileZero => IsSet(flags, ZF)
    case WhileNotZero => !IsSet(flags, ZF)
  }

  /**
   * loop, loopz, loopnz: CX is decremented by one (modulo 2^16) before the
   * target is read, and IP becomes the target exactly when the new CX is not
   * zero and, for LOOPZ and LOOPNZ, ZF is set or clear respectively.
   */
  method Loop(cpu: Cpu, dst: Operand, k: LoopKind) returns (taken: bool)
    requires cpu.Valid() && (dst == Jb || dst == Jv)
    modifies cpu`reg16, cpu`ip, cpu`addrIPInc, cpu`addrSeg, cpu.mem
    ensures cpu.Valid()
    ensures var v := old(cpu.Now()); var cx := ToU16(v.regs[CX] as int - 1);
      && cpu.reg16 == v.regs[CX := cx]
      && taken == LoopTaken(k, cx, cpu.flags)
      && cpu.ip == (if taken then ToU16(Target(v, dst)) else v.ip)
    ensures cpu.mem[..] == old(cpu.mem[..])
    ensures cpu.addrIPInc == IncOf(dst, cpu.opcode, None, old(cpu.addrIPInc))
    ensures cpu.addrSeg == old(cpu.addrSeg)
  {
    ghost var v := cpu.Now();
    cpu.Put16(CX, cpu.reg16[CX] as int - 1);
    var segment := cpu.reg16[CS];
    var operand := Read(cpu, dst, segment);
    assert Result(v, dst, segment, None) == Result(v.(regs := cpu.reg16), dst, segment, None);
    var zf := IsSet(cpu.flags, ZF);
    match k {
      case Plain => taken := cpu.reg16[CX] != 0;
      case WhileZero => taken := cpu.reg16[CX] != 0 && zf;
      case WhileNotZero => taken := cpu.reg16[CX] != 0 && !zf;
    }
    if taken {
      cpu.ip := ToU16(operand.n);
    }
  }

  /** How many times in a row LOOP jumps back when it is reached with CX = cx and no other code changes CX. */
  function Repeats(cx: Word): nat
    decreases if cx == 0 then 0x1_0000 else cx
  {
    var next := ToU16(cx - 1);
    if next == 0 then 0 else 1 + Repeats(next)
  }

  /** A LOOP reached with CX = n, for n at least 1, jumps back n - 1 times, so its body runs n times. */
  lemma {:induction false} RepeatsCount(cx: Word)
    requires cx > 0
    ensures Repeats(cx) == cx - 1
  {
    if cx > 1 {
      RepeatsCount(cx - 1);
    }
  }

  /**
   * The count of the loop handlers: with CX = 0 the decrement wraps and the
   * body runs 65536 times; LOOP jumps back exactly while that count is positive.
   */
  lemma RepeatsFromZero(cx: Word, flags: Flags)
    ensures cx == 0 ==> Repeats(cx) == 0xFFFF
    ensures Repeats(cx) > 0 <==> LoopTaken(Plain, ToU16(cx - 1), flags)
  {
    var next := ToU16(cx - 1);
    if next > 0 {
      RepeatsCount(next);
    }
  }


  /** Whether a CALL or JMP opcode moves IP only, moves CS and IP, or does nothing. */
  datatype Transfer = NearTransfer | FarTransfer | NoTransfer

  /** call: 0xE8 and 0xFF /2 are near, 0x9A and 0xFF /3 far; any other opcode falls through the switch. */
  function CallTransfer(op: Opcode): Transfer
  {
    if op.opcodeByte == 0x9A then FarTransfer
    else if op.opcodeByte == 0xE8 then NearTransfer
    else if op.opcodeByte == 0xFF && op.reg == 2 then NearTransfer
    else if op.opcodeByte == 0xFF && op.reg == 3 then FarTransfer
    else NoTransfer
  }

  /** jmp: 0xE9, 0xEB and 0xFF /4 are near, 0xEA and 0xFF /5 far; any other opcode falls through the switch. */
  function JumpTransfer(op: Opcode): Transfer
  {
    if op.opcodeByte == 0xE9 || op.opcodeByte == 0xEB then NearTransfer
    else if op.opcodeByte == 0xEA then FarTransfer
    else if op.opcodeByte == 0xFF && op.reg == 4 then NearTransfer
    else if op.opcodeByte == 0xFF && op.reg == 5 then FarTransfer
    else NoTransfer
  }

  /** The operands the opcode table pairs with each kind of transfer. */
  predicate Suits(t: Transfer, dst: Operand)
  {
    match t
    case NearTransfer => dst == Jb || dst == Jv || dst == Ev
    case FarTransfer => dst == Ap || dst == Mp
    case NoTransfer => true
  }

  /** The [segment, offset] pair a far operand reads. */
  function Pointer(v: View, dst: Operand): (p: Val)
    requires Wf(v) && (dst == Ap || dst == Mp)
    ensures p.Far?
  {
    var r := Result(v, dst, v.regs[CS], None);
    if r.Ok? && r.value.Far? then r.value else Far(0, 0)
  }

  /** The state after loading CS and IP from a far pointer (`oper[0]`, `oper[1]`). */
  function Load(v: View, p: Val): View
    requires Wf(v) && p.Far?
  {
    v.(regs := v.regs[CS := ToU16(p.segment)], ip := ToU16(p.offset))
  }

  /**
   * The state after `call`: a near call pushes IP and jumps to the operand;
   * a far call pushes CS, then IP, and loads both from the pointer.
   */
  function Called(v: View, dst: Operand): View
    requires Wf(v) && Suits(CallTransfer(v.opcode), dst)
  {
    match CallTransfer(v.opcode)
    case NearTransfer => PushView(v, v.ip).(ip := ToU16(Target(v, dst)))
    case FarTransfer => Load(PushView(PushView(v, v.regs[CS]), v.ip), Pointer(v, dst))
    case NoTransfer => v
  }

  /** The state after `jmp`: IP, or CS and IP, loaded from the operand. */
  function Jumped(v: View, dst: Operand): View
    requires Wf(v) && Suits(JumpTransfer(v.opcode), dst)
  {
    match JumpTransfer(v.opcode)
    case NearTransfer => v.(ip := ToU16(Target(v, dst)))
    case FarTransfer => Load(v, Pointer(v, dst))
    case NoTransfer => v
  }

  /** The immediate of a RET or RETF with an operand: the word after the opcode. */
  function Immediate(v: View): Word
    requires Wf(v)
  {
    Read16(v.mem, v.regs[CS], v.ip + v.instIPInc)
  }

  /** The immediate is what reading the `Iw` operand yields. */
  lemma ImmediateOperand(v: View)
    requires Wf(v)
    ensures Datum(v, Iw, v.regs[CS]) == Immediate(v)
  {
  }

  /**
   * RET as the 8086 defines it: IP is popped and, for 0xC2, the immediate
   * is then added to SP to discard the callee's parameters.
   */
  function Returned(v: View): View
    requires Wf(v)
  {
    var w := PopView(v);
    if v.opcode.opcodeByte == 0xC2 then w.(ip := Top(v), regs := w.regs[SP := ToU16(w.regs[SP] as int + Immediate(v))])
    else if v.opcode.opcodeByte == 0xC3 then w.(ip := Top(v))
    else v
  }

  /** `ret` as written: for 0xC2 the immediate is added to the popped IP and SP is left alone. */
  function ReturnedAsWritten(v: View): View
    requires Wf(v)
  {
    var w := PopView(v);
    if v.opcode.opcodeByte == 0xC2 then w.(ip := ToU16(Top(v) + Immediate(v)))
    else if v.opcode.opcodeByte == 0xC3 then w.(ip := Top(v))
    else v
  }

  /** The state after `pop16` into IP and then `pop16` into CS. */
  function FarPopped(v: View): View
    requires Wf(v)
  {
    var w := PopView(PopView(v));
    w.(ip := Top(v), regs := w.regs[CS := Top(PopView(v))])
  }

  /**
   * RETF as the 8086 defines it: IP then CS are popped and, for 0xCA, the
   * immediate is then added to SP.
   */
  function FarReturned(v: View): View
    requires Wf(v)
  {
    var back := FarPopped(v);
    if v.opcode.opcodeByte == 0xCA then back.(regs := back.regs[SP := ToU16(back.regs[SP] as int + Immediate(v))])
    else if v.opcode.opcodeByte == 0xCB then back
    else v
  }

  /** `retf` as written: for 0xCA the immediate is added to the popped IP and SP is left alone. */
  function FarReturnedAsWritten(v: View): View
    requires Wf(v)
  {
    var back := FarPopped(v);
    if v.opcode.opcodeByte == 0xCA then back.(ip := ToU16(Top(v) + Immediate(v)))
    else if v.opcode.opcodeByte == 0xCB then back
    else v
  }

  /** The near half of `call`: IP pushed, then loaded with the target. */
  method CallNear(cpu: Cpu, target: int)
    requires cpu.Valid()
    modifies cpu`reg16, cpu`ip, cpu.mem
    ensures cpu.Valid()
    ensures cpu.Now() == PushView(old(cpu.Now()), old(cpu.ip)).(ip := ToU16(target))
  {
    Push16(cpu, cpu.ip);
    cpu.ip := ToU16(target);
  }

  /** The far half of `call`: CS, then IP, pushed and both loaded from the pointer. */
  method CallFar(cpu: Cpu, p: Val)
    requires cpu.Valid() && p.Far?
    modifies cpu`reg16, cpu`ip, cpu.mem
    ensures cpu.Valid()
    ensures cpu.Now() == Load(PushView(PushView(old(cpu.Now()), old(cpu.reg16[CS])), old(cpu.ip)), p)
  {
    Push16(cpu, cpu.reg16[CS]);
    Push16(cpu, cpu.ip);
    cpu.Put16(CS, p.segment);
    cpu.ip := ToU16(p.offset);
  }

  /** call: the operand is read, then the return address pushed and the target loaded. */
  method Call(cpu: Cpu, dst: Operand)
    requires cpu.Valid() && Suits(CallTransfer(cpu.opcode), dst)
    modifies cpu`reg16, cpu`ip, cpu`addrIPInc, cpu`addrSeg, cpu.mem
    ensures cpu.Valid()
    ensures cpu.Now() == Called(old(cpu.Now()), dst)
    ensures cpu.addrIPInc == IncOf(dst, cpu.opcode, None, old(cpu.addrIPInc))
    ensures cpu.addrSeg == SegOf(dst, cpu.opcode, None, old(cpu.addrSeg))
  {
    ghost var v := cpu.Now();
    var segment := cpu.reg16[CS];
    var oper := Read(cpu, dst, segment);
    assert cpu.Now() == v;
    match CallTransfer(cpu.opcode) {
      case FarTransfer => CallFar(cpu, oper);
      case NearTransfer => CallNear(cpu, oper.n);
      case NoTransfer =>
    }
  }

  /** jmp: the operand is read and IP, or CS and IP, loaded from it; the handler always reports a jump. */
  method Jmp(cpu: Cpu, dst: Operand) returns (taken: bool)
    requires cpu.Valid() && Suits(JumpTransfer(cpu.opcode), dst)
    modifies cpu`reg16, cpu`ip, cpu`addrIPInc, cpu`addrSeg, cpu.mem
    ensures cpu.Valid()
    ensures cpu.Now() == Jumped(old(cpu.Now()), dst)
    ensures taken
    ensures cpu.addrIPInc == IncOf(dst, cpu.opcode, None, old(cpu.addrIPInc))
    ensures cpu.addrSeg == SegOf(dst, cpu.opcode, None, old(cpu.addrSeg))
  {
    ghost var v := cpu.Now();
    var segment := cpu.reg16[CS];
    var oper := Read(cpu, dst, segment);
    assert cpu.Now() == v;
    match JumpTransfer(cpu.opcode) {
      case NearTransfer =>
        cpu.ip := ToU16(oper.n);
      case FarTransfer =>
        cpu.Put16(CS, oper.segment);
        cpu.ip := ToU16(oper.offset);
      case NoTransfer =>
    }
    taken := true;
  }

  /** ret: IP is popped; for 0xC2 the immediate is read and added to SP. */
  method Ret(cpu: Cpu)
    requires cpu.Valid()
    modifies cpu`reg16, cpu`ip, cpu`addrIPInc, cpu`addrSeg, cpu.mem
    ensures cpu.Valid()
    ensures cpu.Now() == Returned(old(cpu.Now()))
    ensures cpu.addrIPInc == if cpu.opcode.opcodeByte == 0xC2 then old(cpu.addrIPInc) + 2 else old(cpu.addrIPInc)
    ensures cpu.addrSeg == old(cpu.addrSeg)
  {
    ghost var v := cpu.Now();
    if cpu.opcode.opcodeByte == 0xC2 {
      var segment := cpu.reg16[CS];
      var size := PopIp(cpu, segment);
      cpu.Put16(SP, cpu.reg16[SP] as int + size);
    } else if cpu.opcode.opcodeByte == 0xC3 {
      var ip := Pop16(cpu);
      cpu.ip := ip;
    }
  }

  /** `IP = pop16()`, with the immediate of RET 0xC2 or RETF 0xCA read after the pop. */
  method PopIp(cpu: Cpu, segment: int) returns (size: Word)
    requires cpu.Valid() && segment == cpu.reg16[CS]
    modifies cpu`reg16, cpu`ip, cpu`addrIPInc, cpu`addrSeg, cpu.mem
    ensures cpu.Valid()
    ensures var v := old(cpu.Now()); cpu.Now() == PopView(v).(ip := Top(v)) && size == Immediate(v)
    ensures cpu.addrIPInc == old(cpu.addrIPInc) + 2 && cpu.addrSeg == old(cpu.addrSeg)
  {
    ghost var v := cpu.Now();
    var ip := Pop16(cpu);
    ImmediateOperand(cpu.Now());
    size := ReadDatum(cpu, Iw, segment);
    cpu.ip := ip;
  }

  /** `CS = pop16()`. */
  method PopCs(cpu: Cpu)
    requires cpu.Valid()
    modifies cpu`reg16
    ensures cpu.Valid()
    ensures var w := PopView(old(cpu.Now())); cpu.Now() == w.(regs := w.regs[CS := Top(old(cpu.Now()))])
  {
    var cs := Pop16(cpu);
    cpu.Put16(CS, cs);
  }

  /** IP then CS popped: the part of retf that both opcodes share. */
  method PopFar(cpu: Cpu)
    requires cpu.Valid()
    modifies cpu`reg16, cpu`ip
    ensures cpu.Valid()
    ensures cpu.Now() == FarPopped(old(cpu.Now()))
  {
    var ip := Pop16(cpu);
    cpu.ip := ip;
    PopCs(cpu);
  }

  /** retf imm16 (0xCA): IP and CS popped, then the immediate added to SP. */
  method RetfImmediate(cpu: Cpu)
    requires cpu.Valid()
    modifies cpu`reg16, cpu`ip, cpu`addrIPInc, cpu`addrSeg, cpu.mem
    ensures cpu.Valid()
    ensures var back := FarPopped(old(cpu.Now()));
      cpu.Now() == back.(regs := back.regs[SP := ToU16(back.regs[SP] as int + Immediate(old(cpu.Now())))])
    ensures cpu.addrIPInc == old(cpu.addrIPInc) + 2 && cpu.addrSeg == old(cpu.addrSeg)
  {
    ghost var v := cpu.Now();
    var segment := cpu.reg16[CS];
    var size := PopIp(cpu, segment);
    PopCs(cpu);
    assert cpu.Now() == FarPopped(v);
    cpu.Put16(SP, cpu.reg16[SP] as int + size);
  }

  /** retf: IP then CS are popped; for 0xCA the immediate is read and added to SP. */
  method Retf(cpu: Cpu)
    requires cpu.Valid()
    modifies cpu`reg16, cpu`ip, cpu`addrIPInc, cpu`addrSeg, cpu.mem
    ensures cpu.Valid()
    ensures cpu.Now() == FarReturned(old(cpu.Now()))
    ensures cpu.addrIPInc == if cpu.opcode.opcodeByte == 0xCA then old(cpu.addrIPInc) + 2 else old(cpu.addrIPInc)
    ensures cpu.addrSeg == old(cpu.addrSeg)
  {
    if cpu.opcode.opcodeByte == 0xCA {
      RetfImmediate(cpu);
    } else if cpu.opcode.opcodeByte == 0xCB {
      PopFar(cpu);
    }
  }

  /** A near CALL followed by RET (0xC3) comes back to the return address with every register as before. */
  lemma CallRet(v: View, dst: Operand, ret: Opcode)
    requires Wf(v) && CallTransfer(v.opcode) == NearTransfer && Suits(NearTransfer, dst)
    requires ret.opcodeByte == 0xC3
    ensures var back := Returned(Called(v, dst).(opcode := ret));
      back.ip == v.ip && back.regs == v.regs
  {
    var w := PushView(v, v.ip);
    PushPop(v, v.ip);
    var c := w.(ip := ToU16(Target(v, dst)), opcode := ret);
    assert Called(v, dst).(opcode := ret) == c;
    assert Top(c) == Top(w);
    assert Returned(c) == PopView(w).(ip := Top(w), opcode := ret);
  }

  /** A far CALL followed by RETF (0xCB) comes back to the caller's CS:IP with every register as before. */
  lemma CallRetf(v: View, dst: Operand, ret: Opcode)
    requires Wf(v) && CallTransfer(v.opcode) == FarTransfer && Suits(FarTransfer, dst)
    requires ret.opcodeByte == 0xCB
    ensures var back := FarReturned(Called(v, dst).(opcode := ret));
      back.ip == v.ip && back.regs == v.regs
  {
    var w := PushView(PushView(v, v.regs[CS]), v.ip);
    PushTwicePopTwice(v, v.regs[CS], v.ip);
    var c := Load(w, Pointer(v, dst)).(opcode := ret);
    assert Called(v, dst).(opcode := ret) == c;
    RetfAfterLoad(w, Pointer(v, dst), ret);
    assert v.regs[CS := v.regs[CS]] == v.regs;
  }

  /**
   * A near CALL followed by RET n (0xC2) comes back to the caller's IP and
   * releases the n bytes of parameters: SP ends n above where it was before
   * the CALL, and every other register is as before. The CALL is the state
   * `CallNear` leaves: IP pushed, then any target loaded.
   */
  lemma CallRetReleases(v: View, target: Word, ret: Opcode)
    requires Wf(v) && ret.opcodeByte == 0xC2
    ensures var c := PushView(v, v.ip).(ip := target, opcode := ret);
      var back := Returned(c);
      back.ip == v.ip && back.regs == v.regs[SP := ToU16(v.regs[SP] as int + Immediate(c))]
  {
    var c := PushView(v, v.ip).(ip := target, opcode := ret);
    ReturnAddressOnTop(v, c);
    RetPopsThenReleases(c, v.regs, v.ip);
  }

  /** Once IP is pushed, the return address is on top and popping it restores the registers, whatever IP and opcode follow. */
  lemma ReturnAddressOnTop(v: View, c: View)
    requires Wf(v) && c.regs == PushView(v, v.ip).regs && c.mem == PushView(v, v.ip).mem
    ensures Wf(c) && Top(c) == v.ip && PopView(c).regs == v.regs
  {
    PushPop(v, v.ip);
  }

  /** RET n (0xC2) pops IP and then adds n to SP. */
  lemma RetPopsThenReleases(c: View, regs: map<Reg16, Word>, ip: Word)
    requires Wf(c) && c.opcode.opcodeByte == 0xC2
    requires Top(c) == ip && PopView(c).regs == regs
    ensures Returned(c).ip == ip
    ensures Returned(c).regs == regs[SP := ToU16(regs[SP] as int + Immediate(c))]
  {
  }

  /**
   * RETF n (0xCA) pops IP, then CS, and releases the four bytes of the return
   * address and the n bytes of parameters; the other registers and memory are
   * unchanged.
   */
  lemma FarReturnReleases(v: View)
    requires Wf(v) && v.opcode.opcodeByte == 0xCA
    ensures var back := FarReturned(v);
      && back.ip == Top(v)
      && back.regs == v.regs[CS := Top(PopView(v))][SP := ToU16(v.regs[SP] as int + 4 + Immediate(v))]
      && back.mem == v.mem
  {
    var back := FarPopped(v);
    FarPoppedStack(v);
    ToU16Add(v.regs[SP] as int + 4, Immediate(v));
    assert back.regs == v.regs[CS := Top(PopView(v))][SP := ToU16(v.regs[SP] as int + 4)];
  }

  /**
   * A far CALL through Ap (0x9A) takes IP from the word at IP + 1 and CS from
   * the word at IP + 3, the 8086 layout; the engine's own Ap would put the
   * word at IP + 1 into CS.
   */
  lemma FarCallThroughAp(v: View)
    requires Wf(v) && v.opcode.opcodeByte == 0x9A
    ensures var c, cs := Called(v, Ap), v.regs[CS];
      && c.ip == Read16(v.mem, cs, v.ip + 1)
      && c.regs[CS] == Read16(v.mem, cs, v.ip + 3)
      && ApAsWritten(v).segment == Read16(v.mem, cs, v.ip + 1)
  {
    ApCallLoads(v);
  }

  /** CALL 0x9A loads IP from the word at IP + 1 and CS from the word at IP + 3. */
  lemma ApCallLoads(v: View)
    requires Wf(v) && v.opcode.opcodeByte == 0x9A
    ensures var cs := v.regs[CS];
      && Called(v, Ap).ip == Read16(v.mem, cs, v.ip + 1)
      && Called(v, Ap).regs[CS] == Read16(v.mem, cs, v.ip + 3)
  {
    var cs := v.regs[CS];
    var o, sg := Read16(v.mem, cs, v.ip + 1), Read16(v.mem, cs, v.ip + 3);
    ApPointer(v);
    FarCallLoads(v, Ap);
    DivUnique(o, 0x1_0000, 0, o);
    DivUnique(sg, 0x1_0000, 0, sg);
  }

  /** Ap yields the segment from the word at IP + 3 and the offset from the word at IP + 1. */
  lemma ApPointer(v: View)
    requires Wf(v)
    ensures var cs := v.regs[CS];
      Pointer(v, Ap) == Far(Read16(v.mem, cs, v.ip + 3), Read16(v.mem, cs, v.ip + 1))
  {
  }

  /** A far call loads IP and CS from the pointer's offset and segment. */
  lemma FarCallLoads(v: View, dst: Operand)
    requires Wf(v) && CallTransfer(v.opcode) == FarTransfer && Suits(FarTransfer, dst)
    ensures Called(v, dst).ip == ToU16(Pointer(v, dst).offset)
    ensures Called(v, dst).regs[CS] == ToU16(Pointer(v, dst).segment)
  {
  }

  /** RETF (0xCB) after CS:IP were loaded pops the same two words as it would have before, into IP and CS. */
  lemma RetfAfterLoad(w: View, p: Val, ret: Opcode)
    requires Wf(w) && p.Far? && ret.opcodeByte == 0xCB
    ensures var back := FarReturned(Load(w, p).(opcode := ret));
      && back.ip == Top(w)
      && back.regs == PopView(PopView(w)).regs[CS := Top(PopView(w))]
  {
    var c := Load(w, p).(opcode := ret);
    LoadKeepsStack(w, p, ret);
    assert FarReturned(c) == FarPopped(c);
  }

  /** Loading CS:IP leaves the stack as it was: the same words are popped, and only CS differs. */
  lemma LoadKeepsStack(w: View, p: Val, op: Opcode)
    requires Wf(w) && p.Far?
    ensures var c := Load(w, p).(opcode := op);
      && Top(c) == Top(w)
      && Top(PopView(c)) == Top(PopView(w))
      && PopView(PopView(c)).regs == PopView(PopView(w)).regs[CS := ToU16(p.segment)]
  {
  }

  /** RET with an immediate pops the right IP and releases the parameters; as written it lands past the return address whenever the immediate is not zero. */
  lemma ReturnAsWrittenMissesTarget(v: View)
    requires Wf(v) && v.opcode.opcodeByte == 0xC2 && Immediate(v) != 0
    ensures Returned(v).ip == Top(v)
    ensures Returned(v).regs[SP] == ToU16(v.regs[SP] as int + 2 + Immediate(v))
    ensures ReturnedAsWritten(v).ip != Top(v)
    ensures ReturnedAsWritten(v).regs[SP] == ToU16(v.regs[SP] as int + 2)
  {
    ToU16Add(v.regs[SP] as int + 2, Immediate(v));
    ToU16Moves(Top(v), Immediate(v));
  }

  /** The same for RETF with an immediate. */
  lemma FarReturnAsWrittenMissesTarget(v: View)
    requires Wf(v) && v.opcode.opcodeByte == 0xCA && Immediate(v) != 0
    ensures FarReturned(v).ip == Top(v)
    ensures FarReturned(v).regs[CS] == Top(PopView(v))
    ensures FarReturned(v).regs[SP] == ToU16(v.regs[SP] as int + 4 + Immediate(v))
    ensures FarReturnedAsWritten(v).ip != Top(v)
    ensures FarReturnedAsWritten(v).regs[SP] == ToU16(v.regs[SP] as int + 4)
  {
    var back := FarPopped(v);
    FarPoppedStack(v);
    ToU16Add(v.regs[SP] as int + 4, Immediate(v));
    ToU16Moves(Top(v), Immediate(v));
    assert FarReturned(v) == back.(regs := back.regs[SP := ToU16(back.regs[SP] as int + Immediate(v))]);
    assert FarReturnedAsWritten(v) == back.(ip := ToU16(Top(v) + Immediate(v)));
  }

  /** Popping IP and CS takes the two words on top and moves SP up by four. */
  lemma FarPoppedStack(v: View)
    requires Wf(v)
    ensures FarPopped(v).ip == Top(v)
    ensures FarPopped(v).regs[CS] == Top(PopView(v))
    ensures FarPopped(v).regs[SP] == ToU16(v.regs[SP] as int + 4)
  {
    ToU16Add(v.regs[SP] as int + 2, 2);
  }
}
