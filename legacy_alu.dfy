/**
 * The arithmetic and logic handlers of the older engine: ADD, OR, ADC,
 * SBB, AND, SUB, XOR and CMP in their six encodings (0x00-0x3D) and the
 * immediate group 0x80-0x83.  Every handler follows one pattern: fetch
 * `valDst` and `valSrc`, combine them, store the masked result, call
 * `_setFlags`, move IP.  An `AluCase` records the choices one handler makes
 * and `AluStep` is the pattern; `AluTableAsWritten` and `Grp1AsWritten`
 * give the choices as the handlers make them, `AluTable` and `Grp1` the
 * repaired ones the cycle runs.
 */
module LegacyAlu {
  import opened Utils
  import opened Bitwise
  import opened LegacyDecode
  import opened LegacyFlags
  import opened LegacyState
  import FlagRules

  /** Where a handler takes `valDst` and `valSrc` from. */
  datatype Operands =
    | RmReg                    // valDst the r/m operand, valSrc the reg field
    | RegRm                    // valDst the reg field, valSrc the r/m operand
    | AccImm(afterRm: bool)    // valDst AL or AX, valSrc the immediate at IP+1, or at IP+1+_getRMIncIP
    | RmImm(at: nat, immWord: bool, signExtend: bool, count: nat, exact: bool)
                               // valDst the r/m operand, valSrc the immediate at IP+_getRMIncIP+at
                               // (IP+at past the displacement when exact), sign-extended when asked;
                               // `_tempIP += count`

  /** How `valDst` and `valSrc` are combined: `+`, `-`, `&`, `||`, `|`, `^`. */
  datatype Combine = Plus | Minus | Both | Either | Union | Differ

  /** Where the masked result goes. */
  datatype Dest = ToRm | ToReg | ToAcc | Nowhere

  /** `IP += _tempIP + k` or `IP += k`. */
  datatype Advance = PastOperand(k: nat) | Fixed(k: nat)

  /**
   * The correction of `_tempIP` after the store: none; `-2` when mod is 0
   * and rm is 6; `-2` whenever the operand has a displacement; or minus the
   * displacement length, which undoes the second count of a read followed
   * by a write.
   */
  datatype Recount = NoRecount | DirectOnly | AnyDisplacement | Exact

  /**
   * The choices of one handler.  `borrow` marks the repaired SBB, whose CF
   * and AF also count the borrow taken in from CF; no handler as written
   * does.
   */
  datatype AluCase = AluCase(operands: Operands, combine: Combine, carryIn: bool, wrap: bool, dest: Dest,
                             size: Width, kind: Operation, toSet: set<FlagBit>, advance: Advance,
                             recount: Recount, premask: bool, borrow: bool)

  // ------------------------------------------------------------- the pattern

  /** `valDst`. */
  function First(s: State, op: Decoded, o: Operands): int
    requires Wf(s)
  {
    match o
    case RmReg => RmValue(s, op)
    case RegRm => RegValue(s.regs, op.w, op.reg)
    case AccImm(_) => RegValue(s.regs, op.w, 0)
    case RmImm(_, _, _, _, _) => RmValue(s, op)
  }

  /** `valSrc`. */
  function Second(s: State, op: Decoded, o: Operands): int
    requires Wf(s)
  {
    match o
    case RmReg => RegValue(s.regs, op.w, op.reg)
    case RegRm => RmValue(s, op)
    case AccImm(afterRm) => Datum(s, op.w, s.ip + 1 + (if afterRm then RmIncIP(op) else 0))
    case RmImm(at, immWord, signExtend, _, exact) =>
      var v := Datum(s, if immWord then 1 else 0, s.ip + (if exact then RmCount(op) else RmIncIP(op)) + at);
      if signExtend then SignExtend(v) else v
  }

  /** What fetching the operands adds to `_tempIP`. */
  function ReadCount(op: Decoded, o: Operands): nat
  {
    match o
    case RmReg => RmCount(op)
    case RegRm => RmCount(op)
    case AccImm(_) => 0
    case RmImm(_, _, _, count, _) => RmCount(op) + count
  }

  /** `valDst op valSrc`; `x || y` is `x` unless `x` is zero. */
  function Combined(c: Combine, x: int, y: int): int
  {
    match c
    case Plus => x + y
    case Minus => x - y
    case Both => JsAnd(x, y)
    case Either => if x != 0 then x else y
    case Union => JsOr(x, y)
    case Differ => JsXor(x, y)
  }

  /**
   * `valResult`: the combination, plus one (ADC) or minus one (SBB) when CF
   * is set, then, for the subtractions that wrap, `0xFF + 1 + r` or
   * `0xFFFF + 1 + r` when it went below zero; the OR and XOR handlers
   * mask it to the operand width before `_setFlags` sees it.
   */
  function AluResult(c: AluCase, flags: Flags, w: Bit, x: int, y: int): int
  {
    var r := Combined(c.combine, x, y);
    var carried := if c.carryIn && IsSet(flags, CF) then (if c.combine == Minus then r - 1 else r + 1) else r;
    var wrapped := if c.wrap && carried < 0 then (if w == 0 then 0x100 else 0x1_0000) + carried else carried;
    if c.premask then Masked(w, wrapped) else wrapped
  }

  /** The store of the masked result. */
  function Stored(s: State, op: Decoded, d: Dest, value: int): (s': State)
    requires Wf(s)
    ensures Wf(s')
    ensures s'.ip == s.ip && s'.segs == s.segs && s'.flags == s.flags && s'.over == s.over
    ensures s'.tempIP == s.tempIP + (if d == ToRm then RmCount(op) else 0)
    ensures d != ToRm ==> s'.mem == s.mem
  {
    match d
    case ToRm => WithRm(s, op, value)
    case ToReg => s.(regs := WithReg(s.regs, op.w, op.reg, value))
    case ToAcc => s.(regs := WithReg(s.regs, op.w, 0, value))
    case Nowhere => s
  }

  /** How much the correction after the store takes off `_tempIP`. */
  function Correction(r: Recount, op: Decoded): nat
  {
    match r
    case NoRecount => 0
    case DirectOnly => if op.mod == 0 && op.rm == 6 then 2 else 0
    case AnyDisplacement => if RmCount(op) > 0 then 2 else 0
    case Exact => RmCount(op)
  }

  function Advanced(s: State, a: Advance): State
  {
    match a
    case PastOperand(k) => s.(ip := s.ip + s.tempIP + k)
    case Fixed(k) => s.(ip := s.ip + k)
  }

  /**
   * One ALU handler: read both operands (counting displacement bytes),
   * combine, store `valResult` masked to the operand width, correct
   * `_tempIP`, set the flags from the unmasked `valResult`, move IP.
   */
  function AluStep(s: State, op: Decoded, c: AluCase): (s': State)
    requires Wf(s)
    ensures Wf(s')
  {
    var x, y := First(s, op, c.operands), Second(s, op, c.operands);
    var result := AluResult(c, s.flags, op.w, x, y);
    var s1 := Stored(s, op, c.dest, Masked(op.w, result));
    var s2 := s1.(tempIP := s1.tempIP + ReadCount(op, c.operands) - Correction(c.recount, op));
    Advanced(s2.(flags := AluFlags(c, s.flags, x, y, result)), c.advance)
  }

  /**
   * The flags after the handler: `_setFlags` with the case's rules and,
   * for the repaired SBB entered with CF set, CF and AF recomputed with the
   * borrow added to `valSrc`.
   */
  function AluFlags(c: AluCase, flags: Flags, x: int, y: int, result: int): Flags
  {
    var f := FlagsAfter(flags, x, y, result, c.toSet, c.size, c.kind);
    if c.borrow && IsSet(flags, CF) then
      var f1 := if CF in c.toSet then FlagRules.Assign(f, CF, x < y + 1) else f;
      if AF in c.toSet then FlagRules.Assign(f1, AF, x % 0x10 < y % 0x10 + 1) else f1
    else f
  }

  /** What `AluStep` leaves in each part of the state. */
  lemma AluStepParts(s: State, op: Decoded, c: AluCase)
    requires Wf(s)
    ensures var x, y := First(s, op, c.operands), Second(s, op, c.operands);
      var result := AluResult(c, s.flags, op.w, x, y);
      var st := Stored(s, op, c.dest, Masked(op.w, result));
      var s' := AluStep(s, op, c);
      var t := st.tempIP + ReadCount(op, c.operands) - Correction(c.recount, op);
      && s'.regs == st.regs && s'.mem == st.mem && s'.tempIP == t && s'.segs == s.segs && s'.over == s.over
      && s'.flags == AluFlags(c, s.flags, x, y, result)
      && s'.ip == s.ip + (if c.advance.PastOperand? then t else 0) + c.advance.k
  {
  }

  // ----------------------------------------------------------------- tables

  /**
   * The family chosen by bits 5-3 of the opcode byte, as its handlers
   * write it: ADD, OR (with `||` and the "or" flag rules), ADC, SBB, AND,
   * SUB, XOR, CMP.  All but CMP store; all pass "add" to `_setFlags`
   * except OR and XOR ("or") and CMP ("sub").
   */
  function FamilyAsWritten(f: Three): AluCase
  {
    var add := AluCase(RmReg, Plus, false, false, ToRm, ByteSize, AddOp, ARITH_FLAGS, PastOperand(2), NoRecount, false, false);
    [ add,
      add.(combine := Either, kind := OrOp, toSet := LOGIC_FLAGS, premask := true),
      add.(carryIn := true),
      add.(combine := Minus, carryIn := true, wrap := true),
      add.(combine := Both),
      add.(combine := Minus, wrap := true),
      add.(combine := Differ, kind := OrOp, toSet := LOGIC_FLAGS, premask := true),
      add.(combine := Minus, kind := SubOp, dest := Nowhere)
    ][f]
  }

  /**
   * The handlers 0x00-0x3D as written.  The G,E forms of ADD (0x03), ADC,
   * SBB, AND (0x23) and SUB (0x2B) store to the r/m operand; OR 0x0A/0x0B
   * share the code of 0x08/0x09; CMP 0x3B passes size "b"; the immediate
   * forms of ADC and SBB (0x14, 0x15, 0x1C, 0x1D) read an r/m operand from
   * the immediate byte and store there; the accumulator forms move IP by
   * differing amounts; SUB 0x29 corrects `_tempIP` for a direct address.
   * XOR 0x35, which assigns a 16-bit result to AL, is not part of the table.
   */
  function AluTableAsWritten(b: Byte): Option<AluCase>
  {
    if b >= 0x40 || b % 8 >= 6 || b == 0x35 then None
    else
      var f: Three, form := b / 8, b % 8;
      var c := FamilyAsWritten(f).(size := if b % 2 == 0 || b == 0x3B then ByteSize else WordSize);
      if form < 2 then
        Some(c.(recount := if b == 0x29 then DirectOnly else NoRecount))
      else if form < 4 then
        if f == 1 then Some(c)
        else Some(c.(operands := RegRm,
                     dest := if f == 7 then Nowhere
                             else if b == 0x02 || b == 0x22 || b == 0x2A || b == 0x32 || b == 0x33 then ToReg
                             else ToRm))
      else
        var carrying := f == 2 || f == 3;
        Some(c.(operands := AccImm(carrying),
                dest := if f == 7 then Nowhere else if carrying then ToRm else ToAcc,
                premask := c.premask && b != 0x0D,
                advance := if carrying || b == 0x05 || b == 0x25 || b == 0x34 then PastOperand(1)
                           else if b == 0x24 then Fixed(1)
                           else Fixed(if b % 2 == 0 then 2 else 3)))
  }

  /**
   * The repairs: `|` instead of `||`, the subtraction rules of `_setFlags`
   * for every subtraction, and the borrow-in counted by SBB's CF and AF.
   */
  function Repaired(c: AluCase): AluCase
  {
    c.(combine := if c.combine == Either then Union else c.combine,
       kind := if c.combine == Minus then SubOp else c.kind,
       borrow := c.combine == Minus && c.carryIn)
  }

  /**
   * The handlers 0x00-0x3D with the repairs above: E,G forms
   * store to r/m with the displacement counted once, G,E forms store to the
   * register, accumulator forms take the immediate at IP+1 into AL or AX and
   * move IP by 2 or 3.
   */
  function AluTable(b: Byte): Option<AluCase>
  {
    if b >= 0x40 || b % 8 >= 6 then None
    else
      var f: Three, form := b / 8, b % 8;
      var c := Repaired(FamilyAsWritten(f)).(size := if b % 2 == 0 then ByteSize else WordSize);
      if form < 2 then
        Some(c.(recount := if f == 7 then NoRecount else Exact))
      else if form < 4 then
        Some(c.(operands := RegRm, dest := if f == 7 then Nowhere else ToReg))
      else
        Some(c.(operands := AccImm(false), dest := if f == 7 then Nowhere else ToAcc,
                advance := Fixed(if b % 2 == 0 then 2 else 3)))
  }

  /**
   * The group 0x80-0x83 as written: valDst the r/m operand; 0x80 reads its
   * byte immediate at IP+_getRMIncIP+3, 0x81 a word and 0x82 a byte at
   * IP+_getRMIncIP+2, 0x83 a byte there, sign-extended; the reg field picks
   * ADD, OR (`||`), ADC, SBB ("sub"), AND, SUB ("add"), XOR ("or") or CMP;
   * every flag of ARITH_FLAGS is set; each storing case takes 2 off
   * `_tempIP` when the operand has a displacement.
   */
  function Grp1AsWritten(b: Byte, reg: Three): AluCase
    requires 0x80 <= b <= 0x83
  {
    var imm := if b == 0x80 then RmImm(3, false, false, 1, false)
               else if b == 0x81 then RmImm(2, true, false, 2, false)
               else if b == 0x82 then RmImm(2, false, false, 1, false)
               else RmImm(2, false, true, 1, false);
    var add := AluCase(imm, Plus, false, false, ToRm, if b % 2 == 0 then ByteSize else WordSize, AddOp,
                       ARITH_FLAGS, PastOperand(2), AnyDisplacement, false, false);
    [ add,
      add.(combine := Either),
      add.(carryIn := true),
      add.(combine := Minus, carryIn := true, wrap := true, kind := SubOp),
      add.(combine := Both),
      add.(combine := Minus, wrap := true),
      add.(combine := Differ, kind := OrOp),
      add.(combine := Minus, kind := SubOp, dest := Nowhere, recount := NoRecount)
    ][reg]
  }

  /**
   * The group as the instruction set defines it: `|` for OR, the
   * subtraction flag rules for SUB, the immediate right after the
   * displacement (a byte for 0x80, 0x82 and 0x83, a word for 0x81), and the
   * displacement counted once.
   */
  function Grp1(b: Byte, reg: Three): AluCase
    requires 0x80 <= b <= 0x83
  {
    var c := Repaired(Grp1AsWritten(b, reg));
    c.(operands := RmImm(2, b == 0x81, b == 0x83, if b == 0x81 then 2 else 1, true),
       recount := if reg == 7 then NoRecount else Exact)
  }

  /** The length of an ALU instruction: opcode, ModR/M and displacement, or opcode and immediate. */
  function AluLength(b: Byte, op: Decoded): nat
  {
    if b % 8 < 4 then 2 + RmCount(op) else if b % 2 == 0 then 2 else 3
  }

  // ---------------------------------------------------------------- lemmas

  /**
   * The repaired table defines every ALU opcode of 0x00-0x3F whose low
   * three bits are below 6: E,G forms read r/m first and store there (CMP
   * stores nothing), G,E forms store in the register, accumulator forms in
   * AL or AX; the width follows bit 0; subtractions use the "sub" flag
   * rules.
   */
  lemma AluTableShape(b: Byte)
    requires b < 0x40 && b % 8 < 6
    ensures AluTable(b).Some?
    ensures var c := AluTable(b).value;
      && (c.size == ByteSize <==> b % 2 == 0)
      && (b / 8 == 7 <==> c.dest == Nowhere)
      && (b % 8 < 2 ==> c.operands == RmReg && (b / 8 != 7 ==> c.dest == ToRm && c.recount == Exact))
      && (b % 8 >= 2 || b / 8 == 7 ==> c.recount == NoRecount)
      && (2 <= b % 8 < 4 ==> c.operands == RegRm && (b / 8 != 7 ==> c.dest == ToReg))
      && (b % 8 >= 4 ==> c.operands == AccImm(false) && (b / 8 != 7 ==> c.dest == ToAcc))
      && (b % 8 < 4 ==> c.advance == PastOperand(2))
      && (b % 8 >= 4 ==> c.advance == Fixed(if b % 2 == 0 then 2 else 3))
      && (c.combine == Minus <==> b / 8 == 3 || b / 8 == 5 || b / 8 == 7)
      && (c.combine == Minus ==> c.kind == SubOp && c.toSet == ARITH_FLAGS)
      && c.combine != Either
  {
  }

  /**
   * With the repaired table, every ALU instruction starting a cycle moves IP
   * by exactly its own length.
   */
  lemma AluAdvancesByLength(s: State, op: Decoded)
    requires Wf(s) && s.tempIP == 0
    requires op.opcodeByte < 0x40 && op.opcodeByte % 8 < 6
    ensures AluStep(s, op, AluTable(op.opcodeByte).value).ip == s.ip + AluLength(op.opcodeByte, op)
  {
    var b := op.opcodeByte;
    AluTableShape(b);
    AluStepParts(s, op, AluTable(b).value);
  }

  /**
   * As written, ADD [disp16], reg (0x01 with mod 0, rm 6) counts the two
   * displacement bytes once on the read and once on the write and moves IP
   * by 6, two more than the instruction's length.
   */
  lemma DoubleCountAsWritten(s: State, op: Decoded)
    requires Wf(s) && s.tempIP == 0
    requires op.opcodeByte == 0x01 && op.mod == 0 && op.rm == 6
    ensures AluStep(s, op, AluTableAsWritten(0x01).value).ip == s.ip + 6
    ensures AluLength(0x01, op) == 4
  {
    var c := AluTableAsWritten(0x01).value;
    assert c == AluCase(RmReg, Plus, false, false, ToRm, WordSize, AddOp, ARITH_FLAGS, PastOperand(2), NoRecount, false, false);
    AluStepParts(s, op, c);
  }

  /**
   * As written, the G,E form ADD reg16, r/m16 (0x03) with a register
   * operand stores the sum in the r/m register and leaves the reg register
   * alone.
   */
  lemma AddRegFormAsWritten(s: State, op: Decoded)
    requires Wf(s)
    requires op.opcodeByte == 0x03 && op.w == 1 && op.mod == 3 && op.reg != op.rm
    ensures var sum := ToU16(RegValue(s.regs, 1, op.reg) + RegValue(s.regs, 1, op.rm));
      var wrong := AluStep(s, op, AluTableAsWritten(0x03).value);
      RegValue(wrong.regs, 1, op.rm) == sum && RegValue(wrong.regs, 1, op.reg) == RegValue(s.regs, 1, op.reg)
  {
    var x, y := RegValue(s.regs, 1, op.reg), RegValue(s.regs, 1, op.rm);
    var c := AluTableAsWritten(0x03).value;
    assert AluStep(s, op, c).regs == WithReg(s.regs, 1, op.rm, ToU16(x + y)) by {
      assert c == AluCase(RegRm, Plus, false, false, ToRm, WordSize, AddOp, ARITH_FLAGS, PastOperand(2), NoRecount, false, false);
      RegisterSum(s, op, c);
    }
    DivUnique(ToU16(x + y), 0x1_0000, 0, ToU16(x + y));
    RegRoundTrip(s.regs, 1, op.rm, ToU16(x + y));
  }

  /** With the repaired table the reg register receives the sum and the r/m register is untouched. */
  lemma AddRegFormRepaired(s: State, op: Decoded)
    requires Wf(s)
    requires op.opcodeByte == 0x03 && op.w == 1 && op.mod == 3 && op.reg != op.rm
    ensures var sum := ToU16(RegValue(s.regs, 1, op.reg) + RegValue(s.regs, 1, op.rm));
      var right := AluStep(s, op, AluTable(0x03).value);
      RegValue(right.regs, 1, op.reg) == sum && RegValue(right.regs, 1, op.rm) == RegValue(s.regs, 1, op.rm)
  {
    var x, y := RegValue(s.regs, 1, op.reg), RegValue(s.regs, 1, op.rm);
    var c := AluTable(0x03).value;
    assert AluStep(s, op, c).regs == WithReg(s.regs, 1, op.reg, ToU16(x + y)) by {
      AddRegEntry();
      RegisterSum(s, op, c);
    }
    DivUnique(ToU16(x + y), 0x1_0000, 0, ToU16(x + y));
    RegRoundTrip(s.regs, 1, op.reg, ToU16(x + y));
  }

  /** The repaired entry of ADD r16, r/m16 adds the r/m operand into the reg register. */
  lemma AddRegEntry()
    ensures var c := AluTable(0x03).value;
      c.operands == RegRm && c.combine == Plus && !c.carryIn && !c.wrap && !c.premask && c.dest == ToReg
  {
  }

  /** The registers after a word-sized register-to-register addition. */
  lemma RegisterSum(s: State, op: Decoded, c: AluCase)
    requires Wf(s) && op.w == 1 && op.mod == 3
    requires c.operands == RegRm && c.combine == Plus && !c.carryIn && !c.wrap && !c.premask && (c.dest == ToRm || c.dest == ToReg)
    ensures var v := ToU16(RegValue(s.regs, 1, op.reg) + RegValue(s.regs, 1, op.rm));
      AluStep(s, op, c).regs == WithReg(s.regs, 1, if c.dest == ToRm then op.rm else op.reg, v)
  {
    var x, y := RegValue(s.regs, 1, op.reg), RegValue(s.regs, 1, op.rm);
    assert AluResult(c, s.flags, 1, x, y) == x + y;
    AluStepParts(s, op, c);
  }

  /**
   * As written, OR AL, imm8 (0x0C) with AL = 1 and the immediate 2 leaves
   * AL at 1, the value of `1 || 2`; with the repaired table AL becomes 3.
   */
  lemma OrAsWritten(s: State, op: Decoded)
    requires Wf(s)
    requires op.opcodeByte == 0x0C && op.w == 0
    requires s.regs.al == 1 && Peek(s, s.segs.cs, s.ip + 1) == 2
    ensures AluStep(s, op, AluTableAsWritten(0x0C).value).regs.al == 1
    ensures AluStep(s, op, AluTable(0x0C).value).regs.al == 3
  {
    var wrong, right := AluTableAsWritten(0x0C).value, AluTable(0x0C).value;
    assert wrong == AluCase(AccImm(false), Either, false, false, ToAcc, ByteSize, OrOp, LOGIC_FLAGS, Fixed(2), NoRecount, true, false);
    assert right == AluCase(AccImm(false), Union, false, false, ToAcc, ByteSize, OrOp, LOGIC_FLAGS, Fixed(2), NoRecount, true, false);
    assert First(s, op, AccImm(false)) == 1 && Second(s, op, AccImm(false)) == 2;
    assert BitOr(1, 2) == 3;
    JsOnWords(1, 2);
    assert AluResult(wrong, s.flags, 0, 1, 2) == 1 && AluResult(right, s.flags, 0, 1, 2) == 3;
    AluStepParts(s, op, wrong);
    AluStepParts(s, op, right);
  }
  /**
   * With the repaired table OR and XOR act bit by bit: on two operands of
   * the instruction's width each binary digit of the stored result is the
   * OR (XOR) of the operands' digits, and the result is zero only when both
   * operands are (OR) or when they are equal (XOR).
   */
  lemma LogicBitwise(x: Word, y: Word, i: nat)
    ensures Combined(Repaired(FamilyAsWritten(1)).combine, x, y) == BitOr(x, y)
    ensures Combined(Repaired(FamilyAsWritten(6)).combine, x, y) == BitXor(x, y)
    ensures Digit(BitOr(x, y), i) == (if Digit(x, i) == 1 || Digit(y, i) == 1 then 1 else 0)
    ensures Digit(BitXor(x, y), i) == (if Digit(x, i) != Digit(y, i) then 1 else 0)
    ensures BitOr(x, y) == 0 <==> x == 0 && y == 0
    ensures x == y ==> BitXor(x, y) == 0
  {
    JsOnWords(x, y);
    OrDigits(x, y, i);
    XorDigits(x, y, i);
    OrAndBounds(x, y);
    SelfOperations(x);
  }

  /**
   * As written, SUB passes "add" to `_setFlags`, so SUB AL, 1 with AL = 0
   * (0x2C) leaves CF clear although it borrows; with the repaired table CF
   * is set.
   */
  lemma SubCarryAsWritten(s: State, op: Decoded)
    requires Wf(s)
    requires op.opcodeByte == 0x2C && op.w == 0
    requires s.regs.al == 0 && Peek(s, s.segs.cs, s.ip + 1) == 1
    ensures !AluStep(s, op, AluTableAsWritten(0x2C).value).flags[CF]
    ensures AluStep(s, op, AluTable(0x2C).value).flags[CF]
  {
    var wrong, right := AluTableAsWritten(0x2C).value, AluTable(0x2C).value;
    assert wrong == AluCase(AccImm(false), Minus, false, true, ToAcc, ByteSize, AddOp, ARITH_FLAGS, Fixed(2), NoRecount, false, false);
    assert right == wrong.(kind := SubOp);
    assert First(s, op, AccImm(false)) == 0 && Second(s, op, AccImm(false)) == 1;
    assert AluResult(wrong, s.flags, 0, 0, 1) == 0xFF && AluResult(right, s.flags, 0, 0, 1) == 0xFF;
    AluStepParts(s, op, wrong);
    AluStepParts(s, op, right);
    CarryMeaning(s.flags, 0, 1, 0xFF, ARITH_FLAGS, ByteSize, AddOp);
    CarryMeaning(s.flags, 0, 1, 0xFF, ARITH_FLAGS, ByteSize, SubOp);
  }

  /**
   * With the repaired table every SUB and CMP sets CF exactly when the
   * first operand is below the second, that is, when the subtraction
   * borrows; SBB sets it exactly when the first operand is below the second
   * plus the borrow taken in from CF.
   */
  lemma SubtractionCarry(s: State, op: Decoded)
    requires Wf(s)
    requires var b := op.opcodeByte; b < 0x40 && b % 8 < 6 && (b / 8 == 3 || b / 8 == 5 || b / 8 == 7)
    ensures var c := AluTable(op.opcodeByte).value;
      var borrowIn := if op.opcodeByte / 8 == 3 && s.flags[CF] then 1 else 0;
      AluStep(s, op, c).flags[CF] <==> First(s, op, c.operands) < Second(s, op, c.operands) + borrowIn
  {
    var c := AluTable(op.opcodeByte).value;
    AluTableShape(op.opcodeByte);
    assert c.borrow <==> op.opcodeByte / 8 == 3;
    var x, y := First(s, op, c.operands), Second(s, op, c.operands);
    AluStepParts(s, op, c);
    CarryMeaning(s.flags, x, y, AluResult(c, s.flags, op.w, x, y), c.toSet, c.size, SubOp);
  }

  /**
   * As written, SBB reg8, r/m8 (0x1A) with equal operands and CF set wraps
   * to 0xFF but, passing "add" to `_setFlags`, leaves CF clear; with the
   * repaired table the borrow sets CF.
   */
  lemma SbbCarryAsWritten(s: State, op: Decoded)
    requires Wf(s)
    requires op.opcodeByte == 0x1A && op.w == 0 && op.mod == 3
    requires s.flags[CF] && RegValue(s.regs, 0, op.reg) == RegValue(s.regs, 0, op.rm)
    ensures !AluStep(s, op, AluTableAsWritten(0x1A).value).flags[CF]
    ensures AluStep(s, op, AluTable(0x1A).value).flags[CF]
  {
    var wrong, right := AluTableAsWritten(0x1A).value, AluTable(0x1A).value;
    assert wrong == AluCase(RegRm, Minus, true, true, ToRm, ByteSize, AddOp, ARITH_FLAGS, PastOperand(2), NoRecount, false, false);
    assert right == wrong.(dest := ToReg, kind := SubOp, borrow := true);
    var x := RegValue(s.regs, 0, op.reg);
    assert First(s, op, RegRm) == x && Second(s, op, RegRm) == x;
    assert AluResult(wrong, s.flags, 0, x, x) == 0xFF;
    AluStepParts(s, op, wrong);
    AluStepParts(s, op, right);
    CarryMeaning(s.flags, x, x, 0xFF, ARITH_FLAGS, ByteSize, AddOp);
  }

  /** Adding the range before masking, or masking twice, changes nothing. */
  lemma MaskedWrap(w: Bit, r: int)
    ensures Masked(w, (if w == 0 then 0x100 else 0x1_0000) + r) == Masked(w, r)
    ensures Masked(w, Masked(w, r)) == Masked(w, r)
  {
    if w == 0 {
      DivUnique(ToU8(r), 0x100, 0, ToU8(r));
    } else {
      DivUnique(ToU16(r), 0x1_0000, 0, ToU16(r));
    }
  }

  /**
   * With the repaired table the value every ALU instruction stores is its
   * operation reduced to the operand width: ADD `x + y`, ADC `x + y + CF`,
   * SBB `x - y - CF`, SUB and CMP `x - y`, and AND, OR and XOR bit by bit.
   */
  lemma AluTableValues(b: Byte, w: Bit, flags: Flags, x: Word, y: Word)
    requires b < 0x40 && b % 8 < 6
    ensures var v := Masked(w, AluResult(AluTable(b).value, flags, w, x, y));
      var cf := if flags[CF] then 1 else 0;
      && (b / 8 == 0 ==> v == Masked(w, x + y))
      && (b / 8 == 1 ==> v == Masked(w, BitOr(x, y)))
      && (b / 8 == 2 ==> v == Masked(w, x + y + cf))
      && (b / 8 == 3 ==> v == Masked(w, x - y - cf))
      && (b / 8 == 4 ==> v == Masked(w, BitAnd(x, y)))
      && (b / 8 == 5 || b / 8 == 7 ==> v == Masked(w, x - y))
      && (b / 8 == 6 ==> v == Masked(w, BitXor(x, y)))
  {
    AluTableEntry(b);
    EntryValue(AluTable(b).value, b / 8, w, flags, x, y);
  }

  /** The stored value of an entry with the combination, carry, wrap and mask of family `f`. */
  lemma EntryValue(c: AluCase, f: Three, w: Bit, flags: Flags, x: Word, y: Word)
    requires c.combine == (if f == 0 || f == 2 then Plus else if f == 1 then Union else if f == 4 then Both
                           else if f == 6 then Differ else Minus)
    requires (c.carryIn <==> f == 2 || f == 3) && (c.wrap <==> f == 3 || f == 5) && (c.premask <==> f == 1 || f == 6)
    ensures var v := Masked(w, AluResult(c, flags, w, x, y));
      var cf := if flags[CF] then 1 else 0;
      && (f == 0 ==> v == Masked(w, x + y))
      && (f == 1 ==> v == Masked(w, BitOr(x, y)))
      && (f == 2 ==> v == Masked(w, x + y + cf))
      && (f == 3 ==> v == Masked(w, x - y - cf))
      && (f == 4 ==> v == Masked(w, BitAnd(x, y)))
      && (f == 5 || f == 7 ==> v == Masked(w, x - y))
      && (f == 6 ==> v == Masked(w, BitXor(x, y)))
  {
    var cf := if flags[CF] then 1 else 0;
    var r := AluResult(c, flags, w, x, y);
    if f == 0 || f == 2 {
      assert r == x + y + (if f == 2 then cf else 0);
    } else if f == 4 {
      JsOnWords(x, y);
      assert r == BitAnd(x, y);
    } else if f == 1 || f == 6 {
      JsOnWords(x, y);
      var u := if f == 1 then BitOr(x, y) else BitXor(x, y);
      assert r == Masked(w, u);
      MaskedWrap(w, u);
    } else if f == 7 {
      assert r == x - y;
    } else {
      var d := x - y - (if f == 3 then cf else 0);
      assert r == if d < 0 then (if w == 0 then 0x100 else 0x1_0000) + d else d;
      MaskedWrap(w, d);
    }
  }

  /** The combination, carry, wrap and mask of each family in the repaired table. */
  lemma AluTableEntry(b: Byte)
    requires b < 0x40 && b % 8 < 6
    ensures var c, f := AluTable(b).value, b / 8;
      && c.combine == (if f == 0 || f == 2 then Plus else if f == 1 then Union else if f == 4 then Both
                       else if f == 6 then Differ else Minus)
      && (c.carryIn <==> f == 2 || f == 3)
      && (c.wrap <==> f == 3 || f == 5)
      && (c.premask <==> f == 1 || f == 6)
  {
  }

  /**
   * Where one ALU handler puts its result: the destination the case names
   * (the reg register, the accumulator, or the r/m register or memory
   * operand) reads back as `valResult` masked to the operand width; the
   * other registers and the segment registers keep their values, and CMP
   * stores nothing.
   */
  lemma AluStoresResult(s: State, op: Decoded, c: AluCase)
    requires Wf(s)
    ensures var v := Masked(op.w, AluResult(c, s.flags, op.w, First(s, op, c.operands), Second(s, op, c.operands)));
      var s' := AluStep(s, op, c);
      && s'.segs == s.segs
      && (c.dest == ToReg ==> RegValue(s'.regs, op.w, op.reg) == v && s'.mem == s.mem)
      && (c.dest == ToReg ==> forall w2: Bit, r2: Three :: !Overlaps(op.w, op.reg, w2, r2) ==>
            RegValue(s'.regs, w2, r2) == RegValue(s.regs, w2, r2))
      && (c.dest == ToAcc ==> RegValue(s'.regs, op.w, 0) == v && s'.mem == s.mem)
      && (c.dest == ToAcc ==> forall w2: Bit, r2: Three :: !Overlaps(op.w, 0, w2, r2) ==>
            RegValue(s'.regs, w2, r2) == RegValue(s.regs, w2, r2))
      && (c.dest == ToRm && op.mod == 3 ==> RegValue(s'.regs, op.w, op.rm) == v && s'.mem == s.mem)
      && (c.dest == ToRm && op.mod == 3 ==> forall w2: Bit, r2: Three :: !Overlaps(op.w, op.rm, w2, r2) ==>
            RegValue(s'.regs, w2, r2) == RegValue(s.regs, w2, r2))
      && (c.dest == ToRm && op.mod != 3 ==> Datum(s', op.w, RmAddress(s, op)) == v && s'.regs == s.regs)
      && (c.dest == ToRm && op.mod != 3 ==> forall a | 0 <= a < MemSize
            && a != Phys(Chosen(s, s.segs.cs), RmAddress(s, op))
            && a != Phys(Chosen(s, s.segs.cs), RmAddress(s, op) + 1) :: s'.mem[a] == s.mem[a])
      && (c.dest == Nowhere ==> s'.regs == s.regs && s'.mem == s.mem)
  {
    var x, y := First(s, op, c.operands), Second(s, op, c.operands);
    var r := AluResult(c, s.flags, op.w, x, y);
    var v := Masked(op.w, r);
    AluStepParts(s, op, c);
    MaskedWrap(op.w, r);
    match c.dest
    case ToReg => RegRoundTrip(s.regs, op.w, op.reg, v);
    case ToAcc => RegRoundTrip(s.regs, op.w, 0, v);
    case ToRm =>
      if op.mod == 3 {
        RegRoundTrip(s.regs, op.w, op.rm, v);
      }
      RmRoundTrip(s, op, v);
    case Nowhere =>
  }

  /**
   * With the repaired group every instruction 0x80-0x83 starting a cycle
   * moves IP past opcode, ModR/M byte, displacement and immediate, and the
   * immediate of 0x83 is the sign-extended byte right after the
   * displacement.
   */
  lemma Grp1AdvancesByLength(s: State, op: Decoded)
    requires Wf(s) && s.tempIP == 0
    requires 0x80 <= op.opcodeByte <= 0x83
    ensures var b := op.opcodeByte;
      AluStep(s, op, Grp1(b, op.reg)).ip == s.ip + 2 + RmCount(op) + (if b == 0x81 then 2 else 1)
  {
    var b := op.opcodeByte;
    var c := Grp1(b, op.reg);
    Grp1Shape(b, op.reg);
    assert ReadCount(op, c.operands) == RmCount(op) + (if b == 0x81 then 2 else 1);
    AluStepParts(s, op, c);
  }

  /** The immediate of the repaired 0x83 is the sign-extended byte right after the displacement. */
  lemma Grp1SignedImmediate(s: State, op: Decoded)
    requires Wf(s)
    ensures Signed16(Second(s, op, Grp1(0x83, op.reg).operands)) == Signed8(Peek(s, s.segs.cs, s.ip + 2 + RmCount(op)))
  {
  }

  /** Where every group case stores, and how it moves IP. */
  lemma Grp1Shape(b: Byte, reg: Three)
    requires 0x80 <= b <= 0x83
    ensures Grp1AsWritten(b, reg).dest == (if reg == 7 then Nowhere else ToRm)
    ensures Grp1AsWritten(b, reg).advance == PastOperand(2)
  {
  }

  /**
   * As written, 0x80 with a register operand takes its immediate from IP+3,
   * one byte past the instruction, where the repaired group reads IP+2;
   * and ADD r/m16, imm8 (0x83, the byte sign-extended) with a byte
   * displacement moves IP by 3 although the instruction is 4 bytes long.
   */
  lemma Grp1AsWrittenOffsets(s: State, op: Decoded)
    requires Wf(s) && s.tempIP == 0
    ensures op.opcodeByte == 0x80 && op.mod == 3 ==>
      && Second(s, op, Grp1AsWritten(0x80, op.reg).operands) == Peek(s, s.segs.cs, s.ip + 3)
      && Second(s, op, Grp1(0x80, op.reg).operands) == Peek(s, s.segs.cs, s.ip + 2)
    ensures op.opcodeByte == 0x83 && op.mod == 1 && op.reg == 0 ==>
      AluStep(s, op, Grp1AsWritten(0x83, 0)).ip == s.ip + 3
  {
    if op.opcodeByte == 0x83 && op.mod == 1 && op.reg == 0 {
      var c := Grp1AsWritten(0x83, 0);
      assert c == AluCase(RmImm(2, false, true, 1, false), Plus, false, false, ToRm, WordSize, AddOp,
                          ARITH_FLAGS, PastOperand(2), AnyDisplacement, false, false);
      AluStepParts(s, op, c);
    }
  }
}
