/**
 * Properties of the older engine's instruction cases: what each one
 * leaves in the registers, memory and IP, how the cases pair up (INC and
 * DEC, PUSH and POP, CALL and RET, a store and a load), and, for each case
 * repaired in the model, an input on which the case as written goes wrong.
 */
module LegacyProps {
  import opened Utils
  import Addressing
  import Branches
  import opened Bitwise
  import opened LegacyDecode
  import opened LegacyFlags
  import opened LegacyState
  import opened LegacyAlu
  import opened LegacyExec

  // ---------------------------------------------------------------- INC, DEC

  /**
   * INC leaves `(x + 1) & 0xFFFF` in the register, so 0xFFFF becomes 0;
   * DEC leaves `(x - 1) & 0xFFFF`, so 0 becomes 0xFFFF.  No other register
   * changes and IP moves by one.
   */
  lemma IncDec(s: State, r: Three, up: bool)
    requires 0 <= RegValue(s.regs, 1, r) < 0x1_0000
    ensures var x, s' := RegValue(s.regs, 1, r), Stepped(s, r, up);
      && RegValue(s'.regs, 1, r) == (if up then ToU16(x + 1) else ToU16(x - 1))
      && (up && x == 0xFFFF ==> RegValue(s'.regs, 1, r) == 0)
      && (!up && x == 0 ==> RegValue(s'.regs, 1, r) == 0xFFFF)
      && (forall w2: Bit, r2: Three :: !Overlaps(1, r, w2, r2) ==> RegValue(s'.regs, w2, r2) == RegValue(s.regs, w2, r2))
      && s'.ip == s.ip + 1
  {
    var x := RegValue(s.regs, 1, r);
    assert Stepped(s, r, up).regs == StepRegs(s.regs, r, up);
    StepRegsValue(s.regs, r, up);
    StepResultWraps(x, up);
  }

  /**
   * INC and DEC never touch CF, and ZF tells whether the word they leave
   * in the register is zero.
   */
  lemma IncDecFlags(s: State, r: Three, up: bool)
    requires 0 <= RegValue(s.regs, 1, r) < 0x1_0000
    ensures var s' := Stepped(s, r, up);
      && s'.flags[CF] == s.flags[CF]
      && (s'.flags[ZF] <==> RegValue(s'.regs, 1, r) == 0)
  {
    var x, s' := RegValue(s.regs, 1, r), Stepped(s, r, up);
    var result := StepResult(x, up);
    var kind := if up then AddOp else SubOp;
    assert s'.flags == FlagsAfter(s.flags, x, 1, result, STEP_FLAGS, WordSize, kind);
    FlagsAfterKeepsOthers(s.flags, x, 1, result, STEP_FLAGS, WordSize, kind);
    ZeroAndSign(s.flags, x, 1, result, STEP_FLAGS, WordSize, kind);
    assert s'.regs == StepRegs(s.regs, r, up);
    StepRegsValue(s.regs, r, up);
  }

  /**
   * The register INC or DEC writes reads back as the stepped value; no
   * register that does not share storage with it changes.
   */
  lemma StepRegsValue(regs: Regs, r: Three, up: bool)
    requires 0 <= RegValue(regs, 1, r) < 0x1_0000
    ensures RegValue(StepRegs(regs, r, up), 1, r) == StepResult(RegValue(regs, 1, r), up)
    ensures forall w2: Bit, r2: Three :: !Overlaps(1, r, w2, r2) ==>
      RegValue(StepRegs(regs, r, up), w2, r2) == RegValue(regs, w2, r2)
  {
    var result := StepResult(RegValue(regs, 1, r), up);
    StepResultWraps(RegValue(regs, 1, r), up);
    RegRoundTrip(regs, 1, r, result);
    DivUnique(result, 0x1_0000, 0, result);
  }

  /**
   * On a 16-bit value, DEC's `+ 0x10000` correction below zero is the
   * 16-bit wrap-around, so the stepped value is a word: 0xFFFF steps up to
   * 0 and 0 steps down to 0xFFFF.
   */
  lemma StepResultWraps(x: int, up: bool)
    requires 0 <= x < 0x1_0000
    ensures StepResult(x, up) == if up then ToU16(x + 1) else ToU16(x - 1)
    ensures 0 <= StepResult(x, up) < 0x1_0000
    ensures up && x == 0xFFFF ==> StepResult(x, up) == 0
    ensures !up && x == 0 ==> StepResult(x, up) == 0xFFFF
  {
    if !up && x == 0 {
      assert ToU16(-1) == 0xFFFF;
    }
  }

  /** Stepping a 16-bit value one way and then the other gives it back. */
  lemma StepResultInverse(x: int, up: bool)
    requires 0 <= x < 0x1_0000
    ensures StepResult(StepResult(x, up), !up) == x
  {
    StepResultWraps(x, up);
    if up && x == 0xFFFF {
      assert StepResult(x, up) == 0;
    }
  }

  /** DEC undoes INC on a register holding a 16-bit value, and INC undoes DEC. */
  lemma IncThenDec(s: State, r: Three, up: bool)
    requires 0 <= RegValue(s.regs, 1, r) < 0x1_0000
    ensures RegValue(Stepped(Stepped(s, r, up), r, !up).regs, 1, r) == RegValue(s.regs, 1, r)
  {
    var x := RegValue(s.regs, 1, r);
    var s1 := Stepped(s, r, up);
    assert s1.regs == StepRegs(s.regs, r, up);
    StepRegsValue(s.regs, r, up);
    StepResultWraps(x, up);
    assert Stepped(s1, r, !up).regs == StepRegs(s1.regs, r, !up);
    StepRegsValue(s1.regs, r, !up);
    StepResultInverse(x, up);
  }

  // --------------------------------------------------------------------- MOV

  /**
   * MOV reg, r/m puts the operand, masked to the width, in the register and
   * changes no other register and no memory; MOV r/m, reg puts the register
   * in the operand (a register, or the cells at the operand's address) and
   * changes no register for a memory operand.  Both move IP past the
   * ModR/M byte and the displacement.
   */
  lemma MovMoves(s: State, op: Decoded)
    requires Wf(s) && s.tempIP == 0
    ensures var s' := MovFromRm(s, op);
      && RegValue(s'.regs, op.w, op.reg) == Masked(op.w, RmValue(s, op))
      && (forall w2: Bit, r2: Three :: !Overlaps(op.w, op.reg, w2, r2) ==> RegValue(s'.regs, w2, r2) == RegValue(s.regs, w2, r2))
      && s'.mem == s.mem && s'.ip == s.ip + 2 + RmCount(op)
    ensures var s' := MovToRm(s, op);
      && (op.mod == 3 ==> RegValue(s'.regs, op.w, op.rm) == Masked(op.w, RegValue(s.regs, op.w, op.reg)))
      && (op.mod != 3 ==> Datum(s', op.w, RmAddress(s, op)) == Masked(op.w, RegValue(s.regs, op.w, op.reg))
                          && s'.regs == s.regs)
      && s'.ip == s.ip + 2 + RmCount(op)
  {
    RegRoundTrip(s.regs, op.w, op.reg, RmValue(s, op));
    RmRoundTrip(s, op, RegValue(s.regs, op.w, op.reg));
    if op.mod == 3 {
      RegRoundTrip(s.regs, op.w, op.rm, RegValue(s.regs, op.w, op.reg));
    }
  }

  /**
   * As written, MOV Sreg, r/m16 (0x8E) and MOV r/m16, Sreg (0x8C) change no
   * register, no segment register and no memory.  The repaired 0x8E loads
   * the segment register reg selects from the operand (DS with reg 3), and
   * the repaired 0x8C with a register operand copies that segment register
   * into it.
   */
  lemma MovSegmentFinding(s: State, op: Decoded)
    requires Wf(s) && (op.opcodeByte == 0x8C || op.opcodeByte == 0x8E) && op.w == 0
    ensures var s' := MovSegmentAsWritten(s, op); s'.regs == s.regs && s'.segs == s.segs && s'.mem == s.mem
    ensures op.opcodeByte == 0x8E ==>
      SegValue(MovSegment(s, op).segs, op.reg % 4) == ToU16(RmValue(s, op.(w := 1)))
    ensures op.opcodeByte == 0x8C && op.mod == 3 ==>
      RegValue(MovSegment(s, op).regs, 1, op.rm) == SegValue(s.segs, op.reg % 4)
  {
    var wide := op.(w := 1);
    if op.opcodeByte == 0x8C && op.mod == 3 {
      RegRoundTrip(s.regs, 1, op.rm, SegValue(s.segs, op.reg % 4));
    }
  }

  /**
   * As written, MOV [addr], AX (0xA3) with AX = 0x1234 leaves 0x0034 in
   * the word at the address; the repaired store leaves AX there, and MOV
   * AX, [addr] reads it back.
   */
  lemma StoreAccFinding(s: State)
    requires Wf(s) && s.regs.ah == 0x12 && s.regs.al == 0x34
    ensures PeekWord(StoreAccAsWritten(s, 1), s.segs.cs, DirectAddress(s)) == 0x0034
    ensures PeekWord(StoreAcc(s, 1), s.segs.cs, DirectAddress(s)) == 0x1234
  {
    var seg: int, a: int := Chosen(s, s.segs.cs), DirectAddress(s);
    PhysNext(seg, a);
    var m := Addressing.Write8(s.mem, seg, a, s.regs.al);
    var m2 := Addressing.Write8(m, seg, a + 1, HighByte(s.regs.ah));
    assert Addressing.Read8(m2, seg, a) == 0x34;
    assert Addressing.Read8(m2, seg, a + 1) == 0;
    assert StoreAccAsWritten(s, 1).mem == m2;
    assert PeekWord(StoreAccAsWritten(s, 1), s.segs.cs, a) == Addressing.Read16(m2, seg, a);
    StoreThenLoad(s, 1);
    assert RegValue(s.regs, 1, 0) == 0x1234;
  }

  /**
   * The repaired MOV [addr], AL/AX stores the accumulator at the address;
   * reading it back with MOV AL/AX, [addr] from the same address restores
   * the accumulator.
   */
  lemma StoreThenLoad(s: State, w: Bit)
    requires Wf(s)
    ensures Datum(StoreAcc(s, w), w, DirectAddress(s)) == RegValue(s.regs, w, 0)
  {
    var seg: int, a: int := Chosen(s, s.segs.cs), DirectAddress(s);
    var s' := StoreAcc(s, w);
    assert Chosen(s', s.segs.cs) == seg;
    if w == 1 {
      Addressing.Write16Read16(s.mem, seg, a, RegValue(s.regs, 1, 0));
      DivUnique(RegValue(s.regs, 1, 0), 0x1_0000, 0, RegValue(s.regs, 1, 0));
      assert Datum(s', w, a) == Addressing.Read16(s'.mem, seg, a);
    } else {
      DivUnique(s.regs.al, 0x100, 0, s.regs.al);
      assert RegValue(s.regs, 0, 0) == s.regs.al;
      assert Datum(s', w, a) == Addressing.Read8(s'.mem, seg, a);
    }
  }

  /**
   * MOV reg, imm loads the immediate that follows the opcode into the
   * register and moves IP past it; no other register changes.
   */
  lemma MovImmLoads(s: State, b: Byte)
    requires Wf(s) && 0xB0 <= b <= 0xBF
    ensures var w: Bit, s' := if b < 0xB8 then 0 else 1, MovImm(s, b);
      && RegValue(s'.regs, w, b % 8) == Datum(s, w, s.ip + 1)
      && (forall w2: Bit, r2: Three :: !Overlaps(w, b % 8, w2, r2) ==> RegValue(s'.regs, w2, r2) == RegValue(s.regs, w2, r2))
      && s'.ip == s.ip + 2 + w
  {
    var w: Bit := if b < 0xB8 then 0 else 1;
    var v := Datum(s, w, s.ip + 1);
    assert MovImm(s, b).regs == WithReg(s.regs, w, b % 8, v);
    RegRoundTrip(s.regs, w, b % 8, v);
    if w == 0 {
      DivUnique(v, 0x100, 0, v);
    } else {
      DivUnique(v, 0x1_0000, 0, v);
    }
  }

  /**
   * As written, MOV r/m8, imm8 (0xC6) with a byte displacement takes its
   * immediate from IP+4, one byte past the instruction, and with a direct
   * address from IP+3, inside the address; the repaired case reads IP+3 and
   * IP+4, right after the displacement, and stores that byte.
   */
  lemma MovRmImmFinding(s: State, op: Decoded)
    requires Wf(s) && op.w == 0 && op.mod != 3
    ensures op.mod == 1 ==> Datum(s, 0, s.ip + RmIncIP(op) + 2) == Peek(s, s.segs.cs, s.ip + 4)
    ensures op.mod == 0 && op.rm == 6 ==> Datum(s, 0, s.ip + RmIncIP(op) + 2) == Peek(s, s.segs.cs, s.ip + 3)
    ensures Datum(MovRmImm(s, op), 0, RmAddress(s, op)) == Peek(s, s.segs.cs, s.ip + 2 + RmCount(op))
    ensures MovRmImm(s, op).ip == s.ip + s.tempIP + 3 + RmCount(op)
  {
    var v := Peek(s, s.segs.cs, s.ip + 2 + RmCount(op));
    assert v == Datum(s, 0, s.ip + RmCount(op) + 2);
    var s1 := WithRm(s, op, v);
    assert MovRmImm(s, op) == s1.(ip := s.ip + s1.tempIP + 3);
    RmRoundTrip(s, op, v);
    DivUnique(v, 0x100, 0, v);
    assert Datum(s1, 0, RmAddress(s, op)) == v;
  }

  // -------------------------------------------------------------------- XCHG

  /**
   * As written, XCHG BX, [BX] (0x87, mod 0, rm 7, reg 3) first loads BX
   * with the word y at [BX] and then writes the old BX at [y] instead of
   * at the old [BX]; and XCHG reg, [disp16] moves IP by 6 although the
   * instruction is 4 bytes long.
   */
  lemma XchgFinding(s: State, op: Decoded)
    requires Wf(s) && s.tempIP == 0 && op.w == 1 && op.mod == 0
    ensures op.rm == 7 && op.reg == 3 ==>
      var y := PeekWord(s, s.segs.cs, BX(s.regs));
      XchgRmAsWritten(s, op).mem == Addressing.Write16(s.mem, Chosen(s, s.segs.cs), y, BX(s.regs))
    ensures op.rm == 6 ==> XchgRmAsWritten(s, op).ip == s.ip + 6
  {
    var x := RegValue(s.regs, 1, op.reg);
    var s1 := AfterRmRead(s, op).(regs := WithReg(s.regs, 1, op.reg, RmValue(s, op)));
    var s2 := WithRm(s1, op, x);
    assert XchgRmAsWritten(s, op) == s2.(ip := s.ip + s2.tempIP + 2);
    if op.rm == 7 && op.reg == 3 {
      var y := PeekWord(s, s.segs.cs, BX(s.regs));
      assert RmAddress(s, op) == BX(s.regs);
      assert RmValue(s, op) == y;
      RegRoundTrip(s.regs, 1, 3, y);
      DivUnique(y, 0x1_0000, 0, y);
      assert BX(s1.regs) == RegValue(s1.regs, 1, 3) == y;
      assert RmAddress(s1, op) == Base(s1.regs, 7, PeekWord(s1, s1.segs.cs, s1.ip + 2)) == y;
      assert s2.mem == Addressing.Write16(s.mem, Chosen(s, s.segs.cs), y, x);
    }
    if op.rm == 6 {
      assert s2.tempIP == 4;
    }
  }

  /**
   * The repaired XCHG reg, r/m exchanges the two operands (each masked to
   * the width): the register receives the operand's value and the operand,
   * at the address it had before the exchange, receives the register's;
   * IP moves past the ModR/M byte and the displacement.
   */
  lemma XchgSwaps(s: State, op: Decoded)
    requires Wf(s) && s.tempIP == 0
    requires op.mod == 3 ==> !Overlaps(op.w, op.reg, op.w, op.rm)
    ensures var s', x, y := XchgRm(s, op), RegValue(s.regs, op.w, op.reg), RmValue(s, op);
      && RegValue(s'.regs, op.w, op.reg) == Masked(op.w, y)
      && (op.mod == 3 ==> RegValue(s'.regs, op.w, op.rm) == Masked(op.w, x))
      && (op.mod != 3 ==> Datum(s', op.w, RmAddress(s, op)) == Masked(op.w, x))
      && s'.ip == s.ip + 2 + RmCount(op)
  {
    var x, y := RegValue(s.regs, op.w, op.reg), RmValue(s, op);
    var s1 := WithRm(s, op, x);
    RmRoundTrip(s, op, x);
    RegRoundTrip(s1.regs, op.w, op.reg, y);
    if op.mod == 3 {
      RegRoundTrip(s.regs, op.w, op.rm, x);
    }
  }

  /**
   * XCHG AX, reg16 exchanges AX and the register (the value AX receives
   * masked to 16 bits) and changes no other register.
   */
  lemma XchgAxSwaps(s: State, r: Three)
    requires 0 < r
    ensures var s', ax, v := XchgAx(s, r), RegValue(s.regs, 1, 0), RegValue(s.regs, 1, r);
      && RegValue(s'.regs, 1, 0) == ToU16(v) && RegValue(s'.regs, 1, r) == ax
      && (forall r2: Three :: r2 != 0 && r2 != r ==> RegValue(s'.regs, 1, r2) == RegValue(s.regs, 1, r2))
      && s'.ip == s.ip + 1
  {
    var ax, v := RegValue(s.regs, 1, 0), RegValue(s.regs, 1, r);
    var r1 := WithReg(s.regs, 1, 0, v);
    RegRoundTrip(s.regs, 1, 0, v);
    RegRoundTrip(r1, 1, r, ax);
    DivUnique(ax, 0x1_0000, 0, ax);
  }

  /** The eight word registers determine the register file. */
  lemma WordsDetermine(a: Regs, b: Regs)
    requires forall r: Three :: RegValue(a, 1, r) == RegValue(b, 1, r)
    ensures a == b
  {
    assert RegValue(a, 1, 0) == RegValue(b, 1, 0);
    assert RegValue(a, 1, 1) == RegValue(b, 1, 1);
    assert RegValue(a, 1, 2) == RegValue(b, 1, 2);
    assert RegValue(a, 1, 3) == RegValue(b, 1, 3);
    assert RegValue(a, 1, 4) == RegValue(b, 1, 4);
    assert RegValue(a, 1, 5) == RegValue(b, 1, 5);
    assert RegValue(a, 1, 6) == RegValue(b, 1, 6);
    assert RegValue(a, 1, 7) == RegValue(b, 1, 7);
    SplitJoin(a.ah, a.al);
    SplitJoin(b.ah, b.al);
    SplitJoin(a.ch, a.cl);
    SplitJoin(b.ch, b.cl);
    SplitJoin(a.dh, a.dl);
    SplitJoin(b.dh, b.dl);
    SplitJoin(a.bh, a.bl);
    SplitJoin(b.bh, b.bl);
  }

  /** XCHG AX, reg16 twice restores the registers when the register held a 16-bit value. */
  lemma XchgAxTwice(s: State, r: Three)
    requires 0 < r && 0 <= RegValue(s.regs, 1, r) < 0x1_0000
    ensures XchgAx(XchgAx(s, r), r).regs == s.regs
  {
    var s1 := XchgAx(s, r);
    XchgAxSwaps(s, r);
    XchgAxSwaps(s1, r);
    DivUnique(RegValue(s.regs, 1, r), 0x1_0000, 0, RegValue(s.regs, 1, r));
    WordsDetermine(XchgAx(s1, r).regs, s.regs);
  }

  // ------------------------------------------------------- PUSH, POP, CALL, RET

  /** Writing a register with the value it holds changes nothing, for a 16-bit value. */
  lemma WithSameReg(r: Regs, w: Bit, reg: Three)
    requires 0 <= RegValue(r, w, reg) < 0x1_0000
    ensures WithReg(r, w, reg, RegValue(r, w, reg)) == r
  {
    var r' := WithReg(r, w, reg, RegValue(r, w, reg));
    RegRoundTrip(r, w, reg, RegValue(r, w, reg));
    DivUnique(RegValue(r, w, reg), 0x1_0000, 0, RegValue(r, w, reg));
    if w == 0 {
      DivUnique(RegValue(r, 0, reg), 0x100, 0, RegValue(r, 0, reg));
      assert RegValue(r', 1, reg % 4) == RegValue(r, 1, reg % 4) by {
        SplitJoin(r.ah, r.al);
        SplitJoin(r.ch, r.cl);
        SplitJoin(r.dh, r.dl);
        SplitJoin(r.bh, r.bl);
      }
    }
    WordsDetermine(r', r);
  }

  /**
   * PUSH reg16 leaves the register's word on top of the stack, with SP two
   * lower; POP of the same register right after restores every register
   * (PUSH SP then POP SP included) when the register held a 16-bit value.
   */
  lemma PushPopRegister(s: State, r: Three)
    requires Wf(s)
    ensures Top(PushReg(s, r)) == ToU16(RegValue(s.regs, 1, r))
    ensures PushReg(s, r).regs.sp == s.regs.sp - 2
    ensures 0 <= RegValue(s.regs, 1, r) < 0x1_0000 ==> PopReg(PushReg(s, r), r).regs == s.regs
  {
    var v := RegValue(s.regs, 1, r);
    PushThenPop(s, v);
    var p := PushReg(s, r);
    assert Top(p) == Top(Pushed(s, v));
    assert Popped(p).regs == Popped(Pushed(s, v)).regs;
    if 0 <= v < 0x1_0000 {
      DivUnique(v, 0x1_0000, 0, v);
      WithSameReg(s.regs, 1, r);
    }
  }

  /**
   * PUSH of a segment register followed by POP of the same one (ES, SS,
   * DS) restores the segment registers and every other register.
   */
  lemma PushPopSegment(s: State, i: Two)
    requires Wf(s) && i != 1
    ensures PopSeg(PushSeg(s, i), i).segs == s.segs
    ensures PopSeg(PushSeg(s, i), i).regs == s.regs
  {
    var v := SegValue(s.segs, i);
    PushThenPop(s, v);
    var p := PushSeg(s, i);
    assert Top(p) == Top(Pushed(s, v));
    assert Popped(p).regs == Popped(Pushed(s, v)).regs;
    DivUnique(v, 0x1_0000, 0, v);
    var g := WithSeg(s.segs, i, v);
    assert SegValue(g, 0) == SegValue(s.segs, 0) && SegValue(g, 1) == SegValue(s.segs, 1);
    assert SegValue(g, 2) == SegValue(s.segs, 2) && SegValue(g, 3) == SegValue(s.segs, 3);
  }

  /**
   * CALL rel16 pushes the address of the next instruction and RET pops it:
   * a RET right after a CALL resumes at IP+3 (masked to 16 bits) with every
   * register as before.
   */
  lemma CallThenRet(s: State)
    requires Wf(s)
    ensures Ret(CallNear(s)).ip == ToU16(s.ip + 3)
    ensures Ret(CallNear(s)).regs == s.regs
  {
    PushThenPop(s, s.ip + 3);
    var c := CallNear(s);
    assert Top(c) == Top(Pushed(s, s.ip + 3));
    assert Popped(c).regs == Popped(Pushed(s, s.ip + 3)).regs;
  }

  // ------------------------------------------------------------- flag setters

  /**
   * CLC, STC, CLI, STI, CLD and STD set their flag for the odd opcode and
   * clear it for the even one; every other flag, the registers and memory
   * stay as they were, and IP moves by one.
   */
  lemma FlagOpSets(s: State, b: Byte)
    requires 0xF8 <= b <= 0xFD
    ensures var s' := FlagOp(s, b);
      && s'.flags[FlagOf(b)] == (b % 2 == 1)
      && (forall k: FlagBit :: k != FlagOf(b) ==> s'.flags[k] == s.flags[k])
      && s'.regs == s.regs && s'.mem == s.mem && s'.ip == s.ip + 1
  {
  }

  /** After STC, JB (0x72) jumps and JNB (0x73) does not; after CLC the reverse. */
  lemma CarryThenJump(s: State)
    requires Wf(s)
    ensures var t := FlagOp(s, 0xF9); JccStep(t, 0x72) == Jumped(t) && JccStep(t, 0x73).ip == t.ip + 2
    ensures var t := FlagOp(s, 0xF8); JccStep(t, 0x73) == Jumped(t) && JccStep(t, 0x72).ip == t.ip + 2
  {
    FlagOpSets(s, 0xF9);
    FlagOpSets(s, 0xF8);
  }

  // ---------------------------------------------------------------- jumps

  /** A comparison used as a number, ANDed with an even mask, is zero. */
  lemma TruthUnderEvenMask(b: bool, m: Word)
    requires m % 2 == 0
    ensures JsAnd(Num(b), m) == 0
  {
    JsOnWords(Num(b), m);
    if b && m != 0 {
      assert BitAnd(1, m) == 2 * BitAnd(0, m / 2);
    }
  }

  /**
   * As written, JL, JGE, JLE and JG (0x7C-0x7F) never jump, whatever the
   * flags: every test they combine ANDs a comparison result (0 or 1) with
   * an even mask.  The repaired jumps do jump: JL and JLE with SF set and OF
   * clear, JGE and JG with all flags clear.
   */
  lemma SignedJumpsFinding(s: State, b: Byte)
    requires Wf(s) && 0x7C <= b <= 0x7F
    ensures !JumpsAsWritten(b, s.flags)
    ensures JccAsWritten(s, b) == s.(ip := s.ip + 2)
    ensures (b == 0x7C || b == 0x7E) && s.flags == NO_FLAGS[SF := true] ==> JccStep(s, b) == Jumped(s)
    ensures (b == 0x7D || b == 0x7F) && s.flags == NO_FLAGS ==> JccStep(s, b) == Jumped(s)
  {
    var w := FlagsWord(s.flags);
    TruthUnderEvenMask(0 == w, SF_MASK);
    TruthUnderEvenMask(0 == w, OF_MASK);
    TruthUnderEvenMask(0 == w, ZF_MASK);
    TruthUnderEvenMask(1 <= w, SF_MASK);
    TruthUnderEvenMask(1 <= w, OF_MASK);
    TruthUnderEvenMask(1 <= w, ZF_MASK);
  }

  /**
   * The conditional jumps come in complementary pairs: for an even opcode
   * 0x70-0x7E, exactly one of it and the next opcode jumps.
   */
  lemma JccComplementary(s: State, b: Byte)
    requires Wf(s) && 0x70 <= b <= 0x7E && b % 2 == 0
    ensures Branches.Holds(LegacyCondition(b), s.flags, 0) != Branches.Holds(LegacyCondition(b + 1), s.flags, 0)
    ensures JccStep(s, b) == Jumped(s) || JccStep(s, b + 1) == Jumped(s)
    ensures JccStep(s, b).ip == s.ip + 2 || JccStep(s, b + 1).ip == s.ip + 2
  {
  }

  // ---------------------------------------------------------------- cycles

  /** HLT at CS:IP ends the run without error, whether or not errors halt. */
  lemma HltHalts(s: State, breakOnError: bool)
    requires Wf(s) && s.mem[Phys(s.segs.cs, s.ip)] == 0xF4
    ensures Cycle(s, breakOnError) == Halted(false)
  {
    FetchPrefix(s, 0);
  }

  /**
   * The two-byte escape (0x0F), POP r/m (0x8F), RET imm16 (0xC2), INT3
   * (0xCC) and GRP5 (0xFF) have no modelled effect: the switch halts with
   * an error when errors halt and otherwise returns the state unchanged.
   */
  lemma UnsupportedExecute(s: State, op: Decoded, breakOnError: bool)
    requires Wf(s) && op.opcodeByte in {0x0F, 0x8F, 0xC2, 0xCC, 0xFF}
    ensures Execute(s, op, breakOnError) == if breakOnError then Halted(true) else Running(s)
  {
    assert !Handled(op.opcodeByte) && !LeftOut(op.opcodeByte);
  }

  /**
   * Such an opcode at CS:IP, without prefix, halts the run with an error
   * when errors halt; otherwise the cycle changes no register, flag, memory
   * cell or IP.
   */
  lemma UnsupportedStalls(s: State)
    requires Wf(s) && s.mem[Phys(s.segs.cs, s.ip)] in {0x0F, 0x8F, 0xC2, 0xCC, 0xFF}
    ensures Cycle(s, true) == Halted(true)
    ensures Cycle(s, false) == Running(Fetched(s))
    ensures var f := Fetched(s); f.ip == s.ip && f.regs == s.regs && f.flags == s.flags && f.mem == s.mem
  {
    FetchPrefix(s, 0);
    UnsupportedExecute(Fetched(s), FetchedOp(s), true);
    UnsupportedExecute(Fetched(s), FetchedOp(s), false);
  }

  /**
   * A segment prefix followed by a second one: the second is no case of the
   * switch, so the cycle halts with an error when errors halt and otherwise
   * ends with IP one past the first prefix and nothing else changed.
   */
  lemma DoublePrefix(s: State)
    requires Wf(s) && s.mem[Phys(s.segs.cs, s.ip)] == 0x26 && s.mem[Phys(s.segs.es, s.ip + 1)] == 0x2E
    ensures Cycle(s, true) == Halted(true)
    ensures var o := Cycle(s, false);
      o.Running? && o.next.ip == s.ip + 1 && o.next.regs == s.regs && o.next.mem == s.mem
  {
    FetchPrefix(s, 0);
  }

  /**
   * An ALU instruction 0x00-0x3D (low three bits below 6) at CS:IP,
   * without prefix, moves IP by its length: opcode, ModR/M byte and
   * displacement, or opcode and immediate.
   */
  lemma AluCycleLength(s: State, breakOnError: bool)
    requires Wf(s)
    requires var b := s.mem[Phys(s.segs.cs, s.ip)]; b < 0x40 && b % 8 < 6 && PrefixOverride(b).None?
    ensures var o, b := Cycle(s, breakOnError), s.mem[Phys(s.segs.cs, s.ip)];
      o.Running? && o.next.ip == s.ip + AluLength(b, FetchedOp(s))
  {
    FetchPrefix(s, 0);
    var op := FetchedOp(s);
    AluTableShape(op.opcodeByte);
    AluAdvancesByLength(Fetched(s), op);
  }

  /**
   * XOR reg16, reg16 with the same register on both sides (0x33, mod 3)
   * clears it: the register holds 0, ZF is set and CF is clear.
   */
  lemma XorSelfClears(s: State, op: Decoded)
    requires Wf(s) && op == Decode(0x33, op.addressingByte) && op.mod == 3 && op.reg == op.rm
    requires 0 <= RegValue(s.regs, 1, op.reg) < 0x1_0000
    ensures var s' := AluStep(s, op, AluTable(0x33).value);
      RegValue(s'.regs, 1, op.reg) == 0 && s'.flags[ZF] && !s'.flags[CF]
  {
    var c := AluCase(RegRm, Differ, false, false, ToReg, WordSize, OrOp, LOGIC_FLAGS, PastOperand(2), NoRecount, true, false);
    XorCase();
    var x := RegValue(s.regs, 1, op.reg);
    assert First(s, op, RegRm) == x && Second(s, op, RegRm) == x;
    XorSelfZero(s.flags, x);
    AluStepParts(s, op, c);
    RegRoundTrip(s.regs, 1, op.reg, 0);
    ZeroAndSign(s.flags, x, x, 0, LOGIC_FLAGS, WordSize, OrOp);
    CarryMeaning(s.flags, x, x, 0, LOGIC_FLAGS, WordSize, OrOp);
  }

  /** XOR r16, r/m16 in the repaired table. */
  lemma XorCase()
    ensures AluTable(0x33) == Some(AluCase(RegRm, Differ, false, false, ToReg, WordSize, OrOp, LOGIC_FLAGS, PastOperand(2), NoRecount, true, false))
  {
  }

  /** A word XORed with itself is zero. */
  lemma XorSelfZero(flags: Flags, x: Word)
    ensures AluResult(AluCase(RegRm, Differ, false, false, ToReg, WordSize, OrOp, LOGIC_FLAGS, PastOperand(2), NoRecount, true, false), flags, 1, x, x) == 0
  {
    assert JsXor(x, x) == 0 by {
      JsOnWords(x, x);
      SelfOperations(x);
    }
  }
}
