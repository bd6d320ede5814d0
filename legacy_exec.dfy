/**
 * The remaining cases of the older engine's `emulateCycle` switch: INC and
 * DEC, the MOV family, XCHG, PUSH and POP, CALL and RET, the short and
 * conditional jumps, the flag instructions, and the dispatch itself.  Where
 * a case does not do what the instruction set defines, the case as written
 * and the repaired one are both given; the dispatch runs the repaired one.
 */
module LegacyExec {
  import opened Utils
  import Addressing
  import Branches
  import opened Bitwise
  import opened LegacyDecode
  import opened LegacyFlags
  import opened LegacyState
  import opened LegacyAlu

  // ---------------------------------------------------------------- INC, DEC

  /**
   * INC reg16 (0x40-0x47, `up`) and DEC reg16 (0x48-0x4F): INC stores
   * `(x + 1) & 0xFFFF`, DEC stores `x - 1`, raised by 0x10000 when it went
   * below zero; both set ZF, SF, OF, PF and AF from that result with the
   * "add" or "sub" rules and move IP by one.
   */
  function Stepped(s: State, r: Three, up: bool): State
  {
    var x := RegValue(s.regs, 1, r);
    var result := StepResult(x, up);
    s.(regs := StepRegs(s.regs, r, up),
       flags := FlagsAfter(s.flags, x, 1, result, STEP_FLAGS, WordSize, if up then AddOp else SubOp),
       ip := s.ip + 1)
  }

  /** The value INC (`up`) or DEC leaves in a register that held `x`. */
  function StepResult(x: int, up: bool): int
  {
    if up then ToU16(x + 1) else if x - 1 < 0 then 0x1_0000 + x - 1 else x - 1
  }

  /** The registers after INC (`up`) or DEC of register pair or word `r`. */
  function StepRegs(regs: Regs, r: Three, up: bool): Regs
  {
    WithReg(regs, 1, r, StepResult(RegValue(regs, 1, r), up))
  }

  // --------------------------------------------------------------------- MOV

  /** MOV r/m, reg (0x88, 0x89). */
  function MovToRm(s: State, op: Decoded): (s': State)
    requires Wf(s)
    ensures Wf(s')
  {
    var s1 := WithRm(s, op, RegValue(s.regs, op.w, op.reg));
    s1.(ip := s.ip + s1.tempIP + 2)
  }

  /** MOV reg, r/m (0x8A, 0x8B). */
  function MovFromRm(s: State, op: Decoded): (s': State)
    requires Wf(s)
    ensures Wf(s')
  {
    var s1 := AfterRmRead(s, op);
    s1.(regs := WithReg(s.regs, op.w, op.reg, RmValue(s, op)), ip := s.ip + s1.tempIP + 2)
  }

  /**
   * The segment register a reg field of 0-3 names in MOV Sreg: ES, CS, SS,
   * DS; PUSH and POP of a segment register use the same numbering in bits
   * 4-3 of their opcode.
   */
  function SegValue(g: Segs, i: Two): Word
  {
    [g.es, g.cs, g.ss, g.ds][i]
  }

  function WithSeg(g: Segs, i: Two, v: Word): (g': Segs)
    ensures SegValue(g', i) == v
    ensures forall j: Two :: j != i ==> SegValue(g', j) == SegValue(g, j)
  {
    if i == 0 then g.(es := v) else if i == 1 then g.(cs := v) else if i == 2 then g.(ss := v) else g.(ds := v)
  }

  /**
   * MOV r/m16, Sreg (0x8C) and MOV Sreg, r/m16 (0x8E) as written: both
   * read the general register that reg selects (with w = 0, a byte
   * register) and write it back unchanged; no segment register is touched.
   */
  function MovSegmentAsWritten(s: State, op: Decoded): State
  {
    s.(regs := WithReg(s.regs, op.w, op.reg, RegValue(s.regs, op.w, op.reg)), ip := s.ip + s.tempIP + 2)
  }

  /**
   * MOV r/m16, Sreg (0x8C) stores the segment register that reg selects in
   * the word operand; MOV Sreg, r/m16 (0x8E) loads it from there.
   */
  function MovSegment(s: State, op: Decoded): (s': State)
    requires Wf(s)
    ensures Wf(s')
  {
    var wide := op.(w := 1);
    if op.opcodeByte == 0x8C then
      var s1 := WithRm(s, wide, SegValue(s.segs, op.reg % 4));
      s1.(ip := s.ip + s1.tempIP + 2)
    else
      var s1 := AfterRmRead(s, wide);
      s1.(segs := WithSeg(s.segs, op.reg % 4, ToU16(RmValue(s, wide))), ip := s.ip + s1.tempIP + 2)
  }

  /** The offset word at CS:IP+1 of MOV AL/AX, moffs and MOV moffs, AL/AX. */
  function DirectAddress(s: State): Word
    requires Wf(s)
  {
    PeekWord(s, s.segs.cs, s.ip + 1)
  }

  /** MOV AL, [addr] (0xA0) and MOV AX, [addr] (0xA1). */
  function LoadAcc(s: State, w: Bit): (s': State)
    requires Wf(s)
    ensures Wf(s')
  {
    s.(regs := WithReg(s.regs, w, 0, Datum(s, w, DirectAddress(s))), ip := s.ip + 3)
  }

  /**
   * MOV [addr], AL (0xA2) and MOV [addr], AX (0xA3) as written: the word
   * form stores AL and then `(AH >> 8) & 0xFF` in the next cell.
   */
  function StoreAccAsWritten(s: State, w: Bit): (s': State)
    requires Wf(s)
    ensures Wf(s')
  {
    var seg, a := Chosen(s, s.segs.cs), DirectAddress(s);
    var m := Addressing.Write8(s.mem, seg, a, s.regs.al);
    s.(mem := if w == 0 then m else Addressing.Write8(m, seg, a + 1, HighByte(s.regs.ah)), ip := s.ip + 3)
  }

  /** MOV [addr], AL and MOV [addr], AX storing AL and AH. */
  function StoreAcc(s: State, w: Bit): (s': State)
    requires Wf(s)
    ensures Wf(s')
  {
    var seg, a := Chosen(s, s.segs.cs), DirectAddress(s);
    s.(mem := if w == 0 then Addressing.Write8(s.mem, seg, a, s.regs.al)
              else Addressing.Write16(s.mem, seg, a, RegValue(s.regs, 1, 0)),
       ip := s.ip + 3)
  }

  /**
   * MOV reg8, imm8 (0xB0-0xB7) and MOV reg16, imm16 (0xB8-0xBF): the
   * immediate at CS:IP+1 into the register bits 2-0 select; IP moves past
   * the immediate.
   */
  function MovImm(s: State, b: Byte): (s': State)
    requires Wf(s) && 0xB0 <= b <= 0xBF
    ensures Wf(s')
  {
    var w: Bit := if b < 0xB8 then 0 else 1;
    s.(regs := WithReg(s.regs, w, b % 8, Datum(s, w, s.ip + 1)), ip := s.ip + 2 + w)
  }

  /**
   * MOV r/m, imm (0xC6, 0xC7) as written: the immediate is read at
   * IP+_getRMIncIP+2, the operand is written, and IP moves by `_tempIP`
   * plus 3 (byte) or 4 (word).
   */
  function MovRmImmAsWritten(s: State, op: Decoded): (s': State)
    requires Wf(s)
    ensures Wf(s')
  {
    var s1 := WithRm(s, op, Datum(s, op.w, s.ip + RmIncIP(op) + 2));
    s1.(ip := s.ip + s1.tempIP + 3 + op.w)
  }

  /** MOV r/m, imm with the immediate read right after the displacement. */
  function MovRmImm(s: State, op: Decoded): (s': State)
    requires Wf(s)
    ensures Wf(s')
  {
    var s1 := WithRm(s, op, Datum(s, op.w, s.ip + RmCount(op) + 2));
    s1.(ip := s.ip + s1.tempIP + 3 + op.w)
  }

  // -------------------------------------------------------------------- XCHG

  /**
   * XCHG reg, r/m (0x86, 0x87) as written: the register receives the
   * operand, then the operand is written with the register's old value
   * (its address formed from the registers as they now are), and IP moves
   * past both operand accesses' counts.
   */
  function XchgRmAsWritten(s: State, op: Decoded): (s': State)
    requires Wf(s)
    ensures Wf(s')
  {
    var x, y := RegValue(s.regs, op.w, op.reg), RmValue(s, op);
    var s1 := AfterRmRead(s, op).(regs := WithReg(s.regs, op.w, op.reg, y));
    var s2 := WithRm(s1, op, x);
    s2.(ip := s.ip + s2.tempIP + 2)
  }

  /** XCHG reg, r/m writing the operand at its original address and counting the displacement once. */
  function XchgRm(s: State, op: Decoded): (s': State)
    requires Wf(s)
    ensures Wf(s')
  {
    var x, y := RegValue(s.regs, op.w, op.reg), RmValue(s, op);
    var s1 := WithRm(s, op, x);
    s1.(regs := WithReg(s1.regs, op.w, op.reg, y), ip := s.ip + s1.tempIP + 2)
  }

  /** XCHG AX, reg16 (0x91-0x97). */
  function XchgAx(s: State, r: Three): State
  {
    var ax, v := RegValue(s.regs, 1, 0), RegValue(s.regs, 1, r);
    s.(regs := WithReg(WithReg(s.regs, 1, 0, v), 1, r, ax), ip := s.ip + 1)
  }

  // ------------------------------------------------------------ PUSH and POP

  /** PUSH reg16 (0x50-0x57); PUSH SP pushes the value SP had before. */
  function PushReg(s: State, r: Three): (s': State)
    requires Wf(s)
    ensures Wf(s')
  {
    Pushed(s, RegValue(s.regs, 1, r)).(ip := s.ip + 1)
  }

  /** PUSH ES, CS, SS, DS (0x06, 0x0E, 0x16, 0x1E). */
  function PushSeg(s: State, i: Two): (s': State)
    requires Wf(s)
    ensures Wf(s')
  {
    Pushed(s, SegValue(s.segs, i)).(ip := s.ip + 1)
  }

  /** POP reg16 (0x58-0x5F); for POP SP the popped word replaces the incremented SP. */
  function PopReg(s: State, r: Three): (s': State)
    requires Wf(s)
    ensures Wf(s')
  {
    var p := Popped(s);
    p.(regs := WithReg(p.regs, 1, r, Top(s)), ip := s.ip + 1)
  }

  /** POP ES, SS, DS (0x07, 0x17, 0x1F). */
  function PopSeg(s: State, i: Two): (s': State)
    requires Wf(s)
    ensures Wf(s')
  {
    var p := Popped(s);
    p.(segs := WithSeg(p.segs, i, Top(s)), ip := s.ip + 1)
  }

  // ----------------------------------------------------------- CALL and RET

  /**
   * CALL rel16 (0xE8): push IP+3, then read the word at CS:IP+1 as a
   * two's-complement offset and add it and 3 to IP.
   */
  function CallNear(s: State): (s': State)
    requires Wf(s)
    ensures Wf(s')
  {
    var p := Pushed(s, s.ip + 3);
    p.(ip := s.ip + Signed16(PeekWord(p, p.segs.cs, s.ip + 1)) + 3)
  }

  /** RET (0xC3): IP becomes the popped word. */
  function Ret(s: State): (s': State)
    requires Wf(s)
    ensures Wf(s')
  {
    Popped(s).(ip := Top(s))
  }

  // ------------------------------------------------------------ flag setters

  /** The flag CLC/STC (0xF8, 0xF9), CLI/STI (0xFA, 0xFB) or CLD/STD (0xFC, 0xFD) acts on. */
  function FlagOf(b: Byte): FlagBit
    requires 0xF8 <= b <= 0xFD
  {
    if b < 0xFA then CF else if b < 0xFC then IF else DF
  }

  /** `_regFlags &= ~MASK` for the even opcodes, `_regFlags |= MASK` for the odd ones. */
  function FlagOp(s: State, b: Byte): State
    requires 0xF8 <= b <= 0xFD
  {
    s.(flags := s.flags[FlagOf(b) := b % 2 == 1], ip := s.ip + 1)
  }

  // ----------------------------------------------------------------- jumps

  /** The condition each of 0x70-0x7F is named after. */
  function LegacyCondition(b: Byte): Branches.Condition
    requires 0x70 <= b <= 0x7F
  {
    [Branches.Overflow, Branches.NotOverflow, Branches.Below, Branches.NotBelow,
     Branches.Zero, Branches.NotZero, Branches.BelowOrEqual, Branches.Above,
     Branches.Sign, Branches.NotSign, Branches.ParityEven, Branches.ParityOdd,
     Branches.Less, Branches.GreaterOrEqual, Branches.LessOrEqual, Branches.Greater][b - 0x70]
  }

  const SF_MASK := 0x80
  const ZF_MASK := 0x40
  const OF_MASK := 0x800

  /** A JavaScript comparison used as a number: 1 for true, 0 for false. */
  function Num(b: bool): int
  {
    if b then 1 else 0
  }

  /**
   * Whether 0x70-0x7F jumps, as written.  The tests of 0x70-0x7B are
   * `1 <= (flags & MASK)` and `0 === (flags & MASK)`, which read one flag.
   * In 0x7C-0x7F the unparenthesised `0 === flags & MASK` and
   * `1 <= flags & MASK` group as `(0 === flags) & MASK` and
   * `(1 <= flags) & MASK`; only the ZF test of 0x7F is parenthesised.
   */
  predicate JumpsAsWritten(b: Byte, f: Flags)
    requires 0x70 <= b <= 0x7F
  {
    var w := FlagsWord(f);
    var zero := (m: int) => JsAnd(Num(0 == w), m) != 0;
    var one := (m: int) => JsAnd(Num(1 <= w), m) != 0;
    if b < 0x7C then Branches.Holds(LegacyCondition(b), f, 0)
    else if b == 0x7C then (zero(SF_MASK) && one(OF_MASK)) || (one(SF_MASK) && zero(OF_MASK))
    else if b == 0x7D then (one(SF_MASK) || zero(OF_MASK)) && (zero(SF_MASK) || one(OF_MASK))
    else if b == 0x7E then one(ZF_MASK) || ((zero(SF_MASK) && one(OF_MASK)) || (one(SF_MASK) && zero(OF_MASK)))
    else !IsSet(f, ZF) && ((one(SF_MASK) || zero(OF_MASK)) && (zero(SF_MASK) || one(OF_MASK)))
  }

  /** Jcc (0x70-0x7F) as written: `_shortJump` when the test holds, otherwise IP += 2. */
  function JccAsWritten(s: State, b: Byte): State
    requires Wf(s) && 0x70 <= b <= 0x7F
  {
    if JumpsAsWritten(b, s.flags) then Jumped(s) else s.(ip := s.ip + 2)
  }

  /** Jcc jumping exactly when its named condition holds. */
  function JccStep(s: State, b: Byte): State
    requires Wf(s) && 0x70 <= b <= 0x7F
  {
    if Branches.Holds(LegacyCondition(b), s.flags, 0) then Jumped(s) else s.(ip := s.ip + 2)
  }

  // ---------------------------------------------------------------- dispatch

  /**
   * What a cycle ends in: the next state, a halt (`error` false only for
   * HLT), or a case this model does not cover.
   */
  datatype Outcome = Running(next: State) | Halted(error: bool) | Unmodelled

  /** The cases whose behaviour is left out: GRP4, INT, LODS, STOS and OUT. */
  predicate LeftOut(b: Byte)
  {
    b in {0xFE, 0xCD, 0xAC, 0xAD, 0xAA, 0xAB, 0xE6, 0xE7, 0xEE, 0xEF}
  }

  /** The opcode bytes with a handler in the switch of `emulateCycle`. */
  predicate Handled(b: Byte)
  {
    || AluTable(b).Some? || 0x80 <= b <= 0x83 || 0x40 <= b <= 0x5F
    || b in {0x06, 0x0E, 0x16, 0x1E, 0x07, 0x17, 0x1F}
    || 0x70 <= b <= 0x7F || 0x86 <= b <= 0x8C || b == 0x8E || 0x90 <= b <= 0x97
    || 0xA0 <= b <= 0xA3 || 0xB0 <= b <= 0xBF
    || b in {0xC3, 0xC6, 0xC7, 0xE8, 0xEB, 0xF4} || 0xF8 <= b <= 0xFD
  }

  /**
   * The switch of `emulateCycle` on the fetched opcode byte.  The cases
   * left out report so; the two-byte escape, POP r/m, RET imm16, GRP5,
   * INT3, the invalid opcodes and every byte without a case halt with an
   * error when `breakOnError` is set and otherwise change nothing, IP
   * included.
   */
  function Execute(s: State, op: Decoded, breakOnError: bool): Outcome
    requires Wf(s)
  {
    var b := op.opcodeByte;
    if Handled(b) then Handle(s, op)
    else if LeftOut(b) then Unmodelled
    else if breakOnError then Halted(true)
    else Running(s)
  }

  /** The handlers themselves.  HLT halts without error. */
  function Handle(s: State, op: Decoded): Outcome
    requires Wf(s) && Handled(op.opcodeByte)
  {
    var b := op.opcodeByte;
    if AluTable(b).Some? then Running(AluStep(s, op, AluTable(b).value))
    else if 0x80 <= b <= 0x83 then Running(AluStep(s, op, Grp1(b, op.reg)))
    else if 0x40 <= b <= 0x4F then Running(Stepped(s, b % 8, b < 0x48))
    else if 0x50 <= b <= 0x57 then Running(PushReg(s, b % 8))
    else if 0x58 <= b <= 0x5F then Running(PopReg(s, b % 8))
    else if b == 0x06 || b == 0x0E || b == 0x16 || b == 0x1E then Running(PushSeg(s, b / 8))
    else if b == 0x07 || b == 0x17 || b == 0x1F then Running(PopSeg(s, b / 8))
    else if 0x70 <= b <= 0x7F then Running(JccStep(s, b))
    else if b == 0x86 || b == 0x87 then Running(XchgRm(s, op))
    else if b == 0x88 || b == 0x89 then Running(MovToRm(s, op))
    else if b == 0x8A || b == 0x8B then Running(MovFromRm(s, op))
    else if b == 0x8C || b == 0x8E then Running(MovSegment(s, op))
    else if b == 0x90 then Running(s.(ip := s.ip + 1))
    else if 0x91 <= b <= 0x97 then Running(XchgAx(s, b % 8))
    else if b == 0xA0 || b == 0xA1 then Running(LoadAcc(s, b % 2))
    else if b == 0xA2 || b == 0xA3 then Running(StoreAcc(s, b % 2))
    else if 0xB0 <= b <= 0xBF then Running(MovImm(s, b))
    else if b == 0xC3 then Running(Ret(s))
    else if b == 0xC6 || b == 0xC7 then Running(MovRmImm(s, op))
    else if b == 0xE8 then Running(CallNear(s))
    else if b == 0xEB then Running(Jumped(s))
    else if b == 0xF4 then Halted(false)
    else Running(FlagOp(s, b))
  }

  /** One `emulateCycle`: prefix handling and fetch, then the switch. */
  function Cycle(s: State, breakOnError: bool): Outcome
    requires Wf(s)
  {
    Execute(Fetched(s), FetchedOp(s), breakOnError)
  }
}
