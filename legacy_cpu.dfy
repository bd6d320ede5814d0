/**
 * The older engine as the object it is: the byte registers, SP, BP, SI, DI,
 * the segment registers, IP, the flags, the override flags and `_tempIP`
 * are fields the handlers assign, and memory is a byte array written in
 * place.  Each method is proved to leave the object in the state that the
 * function of the same name in LegacyState, LegacyAlu or LegacyExec
 * describes, so every property proved about those functions holds of the
 * object.
 */
module LegacyCpu {
  import opened Utils
  import Addressing
  import Branches
  import opened Bitwise
  import opened LegacyDecode
  import opened FlagRules
  import opened LegacyFlags
  import opened LegacyState
  import opened LegacyAlu
  import opened LegacyExec

  /** How `emulateCycle` ends: the next cycle may run, the CPU halts (with or without an error), or a left-out case ran. */
  datatype Status = Continue | Halt(error: bool) | NotModelled

  class Cpu8086 {
    var regs: Regs
    var segs: Segs
    var ip: int
    var flags: Flags
    const memory: array<Byte>
    var over: Overrides
    var tempIP: int

    ghost predicate Valid()
    {
      memory.Length == MemSize
    }

    /** The object as a value. */
    function Now(): (s: State)
      reads this, memory
      requires Valid()
      ensures Wf(s)
    {
      State(regs, segs, ip, flags, memory[..], over, tempIP)
    }

    constructor (init: State)
      requires Wf(init)
      ensures Valid() && fresh(memory)
      ensures Now() == init
    {
      regs, segs, ip, flags := init.regs, init.segs, init.ip, init.flags;
      over, tempIP := init.over, init.tempIP;
      memory := new Byte[MemSize](i requires 0 <= i < MemSize => init.mem[i]);
      new;
      assert memory[..] == init.mem;
    }

    // ------------------------------------------------------------ memory

    /** `segment2absolute`: a set override replaces the segment passed in. */
    method Segment2Absolute(segment: int, offset: int) returns (a: int)
      requires Valid()
      ensures a == Effective(segs, over, segment) * 16 + offset
      ensures !Overridden(over) ==> a == segment * 16 + offset
    {
      var seg := segment;
      if over.cs {
        seg := segs.cs;
      } else if over.ds {
        seg := segs.ds;
      } else if over.es {
        seg := segs.es;
      } else if over.ss {
        seg := segs.ss;
      }
      a := seg * 16 + offset;
    }

    /** `this._memoryV[this.segment2absolute(segment, offset)]`. */
    method ReadByte(segment: int, offset: int) returns (v: Byte)
      requires Valid()
      ensures v == Addressing.Read8(memory[..], Effective(segs, over, segment), offset)
      ensures Now() == old(Now())
    {
      var a := Segment2Absolute(segment, offset);
      v := memory[a % MemSize];
    }

    /** `(m[a + 1] << 8) | m[a]`. */
    method ReadWord(segment: int, offset: int) returns (v: Word)
      requires Valid()
      ensures v == Addressing.Read16(memory[..], Effective(segs, over, segment), offset)
      ensures Now() == old(Now())
    {
      var hi: int := ReadByte(segment, offset + 1);
      var lo: int := ReadByte(segment, offset);
      v := hi * 0x100 + lo;
    }

    /** A byte (w = 0) or a word (w = 1) at CS:offset. */
    method ReadDatum(w: Bit, offset: int) returns (v: Word)
      requires Valid()
      ensures v == if w == 0 then Addressing.Read8(memory[..], Effective(segs, over, segs.cs), offset)
                   else Addressing.Read16(memory[..], Effective(segs, over, segs.cs), offset)
      ensures Now() == old(Now())
    {
      if w == 0 {
        v := ReadByte(segs.cs, offset);
      } else {
        v := ReadWord(segs.cs, offset);
      }
    }

    /** A store into the Uint8Array memory, which keeps `value & 0xFF`. */
    method WriteByte(segment: int, offset: int, value: int)
      requires Valid()
      modifies memory
      ensures memory[..] == Addressing.Write8(old(memory[..]), Effective(segs, over, segment), offset, value)
    {
      var a := Segment2Absolute(segment, offset);
      memory[a % MemSize] := ToU8(value);
    }

    /** `value & 0xFF` at offset, `(value >> 8) & 0xFF` at offset + 1. */
    method WriteWord(segment: int, offset: int, value: int)
      requires Valid()
      modifies memory
      ensures memory[..] == Addressing.Write16(old(memory[..]), Effective(segs, over, segment), offset, value)
    {
      WriteByte(segment, offset, value);
      WriteByte(segment, offset + 1, value / 0x100);
    }


    // --------------------------------------------------------- ModR/M operand

    /**
     * The offset of a memory operand, as `_getRMValueForOp` and
     * `_setRMValueForOp` form it: the direct address or the displacement is
     * read at CS:IP+2 and its length added to `_tempIP`.
     */
    method OperandAddress(op: Decoded) returns (addr: int)
      requires Valid() && op.mod != 3
      modifies this`tempIP
      ensures addr == RmAddress(old(Now()), op)
      ensures Now() == old(Now()).(tempIP := old(tempIP) + RmCount(op))
    {
      if op.mod == 0 {
        var six := 0;
        if op.rm == 6 {
          six := ReadWord(segs.cs, ip + 2);
          tempIP := tempIP + 2;
        }
        addr := Base(regs, op.rm, six);
      } else {
        var disp: int;
        if op.mod == 1 {
          disp := ReadByte(segs.cs, ip + 2);
          tempIP := tempIP + 1;
        } else {
          disp := ReadWord(segs.cs, ip + 2);
          tempIP := tempIP + 2;
        }
        addr := Base(regs, op.rm, regs.bp) + disp;
      }
    }

    /** `_getRMValueForOp`: the register rm selects (mod 3) or the operand at CS:address. */
    method GetRMValueForOp(op: Decoded) returns (v: int)
      requires Valid()
      modifies this`tempIP
      ensures v == RmValue(old(Now()), op)
      ensures Now() == AfterRmRead(old(Now()), op)
    {
      if op.mod == 3 {
        v := RegValue(regs, op.w, op.rm);
      } else {
        var addr := OperandAddress(op);
        v := ReadDatum(op.w, addr);
      }
    }

    /** `_setRMValueForOp`: the register rm selects, or the operand at CS:address. */
    method SetRMValueForOp(op: Decoded, value: int)
      requires Valid()
      modifies this`regs, this`tempIP, memory
      ensures Now() == WithRm(old(Now()), op, value)
    {
      if op.mod == 3 {
        regs := WithReg(regs, op.w, op.rm, value);
      } else {
        var addr := OperandAddress(op);
        if op.w == 0 {
          WriteByte(segs.cs, addr, value);
        } else {
          WriteWord(segs.cs, addr, value);
        }
      }
    }

    // ----------------------------------------------------------------- stack

    /** `_push`. */
    method Push(value: int)
      requires Valid()
      modifies this`regs, memory
      ensures Now() == Pushed(old(Now()), value)
    {
      ghost var s := Now();
      regs := regs.(sp := regs.sp - 2);
      WriteByte(segs.ss, regs.sp, value);
      WriteByte(segs.ss, regs.sp + 1, value / 0x100);
      assert memory[..] == Addressing.Write16(s.mem, Chosen(s, s.segs.ss), s.regs.sp - 2, value);
    }

    /** `_pop`: read the word at SS:SP, zero both cells, SP up by two. */
    method Pop() returns (value: Word)
      requires Valid()
      modifies this`regs, memory
      ensures value == Top(old(Now()))
      ensures Now() == Popped(old(Now()))
    {
      ghost var s := Now();
      value := ReadWord(segs.ss, regs.sp);
      assert value == Top(s);
      WriteByte(segs.ss, regs.sp, 0);
      WriteByte(segs.ss, regs.sp + 1, 0);
      assert memory[..] == Addressing.Write16(s.mem, Chosen(s, s.segs.ss), s.regs.sp, 0);
      regs := regs.(sp := regs.sp + 2);
    }

    /**
     * `_shortJump`: the byte at CS:IP+1 read as two's complement through
     * `(offset ^ 0xFF) + 1`, and IP moved past the two-byte instruction.
     */
    method ShortJump()
      requires Valid()
      modifies this`ip
      ensures Now() == Jumped(old(Now()))
    {
      ghost var s := Now();
      var offset: int := ReadByte(segs.cs, ip + 1);
      assert offset == Peek(s, s.segs.cs, s.ip + 1);
      var negative := offset / 0x80 == 1;
      if negative {
        ComplementPlusOne(offset);
        offset := (-1 * (offset / 0x80)) * (JsXor(offset, 0xFF) + 1);
      }
      ip := ip + (offset + 2);
    }

    // ----------------------------------------------------------------- flags

    /**
     * `_setFlags`: each flag named in `toSet` set or cleared by its rule, in
     * the order CF, PF, AF, ZF, SF, TF, IF, DF, OF.
     */
    method SetFlags(op1: int, op2: int, result: int, toSet: set<FlagBit>, size: Width, kind: Operation)
      modifies this`flags
      ensures flags == FlagsAfter(old(flags), op1, op2, result, toSet, size, kind)
    {
      SetResultFlags(op1, op2, result, toSet, size, kind);
      if TF in toSet {
        flags := Assign(flags, TF, true);
      }
      if IF in toSet {
        flags := Assign(flags, IF, true);
      }
      if DF in toSet {
        flags := Assign(flags, DF, true);
      }
      if OF in toSet {
        SetOverflow(op1, op2, result, size);
      }
    }

    /** CF, PF (counting the ones of the result), AF, ZF and SF. */
    method SetResultFlags(op1: int, op2: int, result: int, toSet: set<FlagBit>, size: Width, kind: Operation)
      modifies this`flags
      ensures flags == ResultFlags(old(flags), op1, op2, result, toSet, size, kind)
    {
      SetCarry(op1, op2, result, toSet, size, kind);
      SetParity(result, toSet);
      SetAux(op1, op2, result, toSet, kind);
      if ZF in toSet {
        flags := Assign(flags, ZF, result == 0);
      }
      SetSign(result, toSet, size);
    }

    /** CF: for "sub" whether op1 < op2, otherwise whether the result exceeds the width. */
    method SetCarry(op1: int, op2: int, result: int, toSet: set<FlagBit>, size: Width, kind: Operation)
      modifies this`flags
      ensures flags == if CF in toSet then Assign(old(flags), CF, CarryRule(kind, size, op1, op2, result)) else old(flags)
    {
      if CF in toSet {
        if kind == SubOp {
          flags := Assign(flags, CF, op1 < op2);
        } else if size == ByteSize {
          flags := Assign(flags, CF, result > 0xFF);
        } else {
          flags := Assign(flags, CF, result > 0xFFFF);
        }
      }
    }

    /** PF: an even count of one bits in the result. */
    method SetParity(result: int, toSet: set<FlagBit>)
      modifies this`flags
      ensures flags == if PF in toSet then Assign(old(flags), PF, ParityRule(result)) else old(flags)
    {
      if PF in toSet {
        var count := CountOnes(result);
        flags := Assign(flags, PF, count % 2 == 0);
      }
    }

    /** AF: a borrow out of the low nibble for "sub", a low nibble above 0x0F otherwise. */
    method SetAux(op1: int, op2: int, result: int, toSet: set<FlagBit>, kind: Operation)
      modifies this`flags
      ensures flags == if AF in toSet then Assign(old(flags), AF, AuxRule(kind, op1, op2, result)) else old(flags)
    {
      if AF in toSet {
        if kind == SubOp {
          flags := Assign(flags, AF, op1 % 0x10 < op2 % 0x10);
        } else {
          flags := Assign(flags, AF, result % 0x10 > 0x0F);
        }
      }
    }

    /** SF: the top bit of the result truncated to the width. */
    method SetSign(result: int, toSet: set<FlagBit>, size: Width)
      modifies this`flags
      ensures flags == if SF in toSet then Assign(old(flags), SF, SignRule(size, result)) else old(flags)
    {
      if SF in toSet {
        if size == ByteSize {
          flags := Assign(flags, SF, ToU8(result) / 0x80 == 1);
        } else {
          flags := Assign(flags, SF, ToU16(result) / 0x8000 == 1);
        }
      }
    }

    /** The OF step of `_setFlags`: the operands' and the result's top bits, reached with `>> shift`. */
    method SetOverflow(op1: int, op2: int, result: int, size: Width)
      modifies this`flags
      ensures flags == Assign(old(flags), OF, OverflowRule(size, op1, op2, result))
    {
      var shift := if size == WordSize then 15 else 7;
      flags := Assign(flags, OF, (Shr(op1, shift) == 1 && Shr(op2, shift) == 1 && Shr(result, shift) == 0)
                                 || (Shr(op1, shift) == 0 && Shr(op2, shift) == 0 && Shr(result, shift) == 1));
    }
 
    // ----------------------------------------------------------------- cycle

    /**
     * `emulateCycle`: clear `_tempIP` and the overrides, fetch the byte at
     * CS:IP, take a prefix byte (setting its override and stepping IP),
     * decode the opcode and the byte after it, and run the handler.
     */
    method EmulateCycle(breakOnError: bool) returns (status: Status)
      requires Valid()
      modifies this, memory
      ensures match Cycle(old(Now()), breakOnError)
        case Running(n) => status == Continue && Now() == n
        case Halted(e) => status == Halt(e)
        case Unmodelled => status == NotModelled
    {
      var op := FetchOpcode();
      status := Dispatch(op, breakOnError);
    }

    /** The fetch at the start of `emulateCycle`. */
    method FetchOpcode() returns (op: Decoded)
      requires Valid()
      modifies this`tempIP, this`over, this`ip
      ensures Now() == Fetched(old(Now()))
      ensures op == FetchedOp(old(Now()))
    {
      tempIP := 0;
      over := NO_OVERRIDES;
      var b := ReadByte(segs.cs, ip);
      if b == 0x26 {
        over := over.(es := true);
        ip := ip + 1;
        b := ReadByte(segs.cs, ip);
      } else if b == 0x36 {
        over := over.(ss := true);
        ip := ip + 1;
        b := ReadByte(segs.cs, ip);
      } else if b == 0x2E {
        over := over.(cs := true);
        ip := ip + 1;
        b := ReadByte(segs.cs, ip);
      } else if b == 0x3E {
        over := over.(ds := true);
        ip := ip + 1;
        b := ReadByte(segs.cs, ip);
      }
      var a := ReadByte(segs.cs, ip + 1);
      op := Decode(b, a);
    }

    /** The switch of `emulateCycle` on the opcode byte. */
    method Dispatch(op: Decoded, breakOnError: bool) returns (status: Status)
      requires Valid()
      modifies this, memory
      ensures match Execute(old(Now()), op, breakOnError)
        case Running(n) => status == Continue && Now() == n
        case Halted(e) => status == Halt(e)
        case Unmodelled => status == NotModelled
    {
      var b := op.opcodeByte;
      status := Continue;
      if Handled(b) {
        status := RunHandler(op);
      } else if LeftOut(b) {
        status := NotModelled;
      } else if breakOnError {
        status := Halt(true);
      }
    }

    /** The cases of the switch that have a handler. */
    method RunHandler(op: Decoded) returns (status: Status)
      requires Valid() && Handled(op.opcodeByte)
      modifies this, memory
      ensures match Handle(old(Now()), op)
        case Running(n) => status == Continue && Now() == n
        case Halted(e) => status == Halt(e)
        case Unmodelled => status == NotModelled
    {
      var b := op.opcodeByte;
      var alu := AluTable(b);
      status := Continue;
      if alu.Some? {
        Alu(op, alu.value);
      } else if 0x80 <= b <= 0x83 {
        Alu(op, Grp1(b, op.reg));
      } else if 0x40 <= b <= 0x4F {
        IncDec(b % 8, b < 0x48);
      } else if 0x50 <= b <= 0x57 {
        PushRegister(b % 8);
      } else if 0x58 <= b <= 0x5F {
        PopRegister(b % 8);
      } else if b == 0x06 || b == 0x0E || b == 0x16 || b == 0x1E {
        PushSegment(b / 8);
      } else if b == 0x07 || b == 0x17 || b == 0x1F {
        PopSegment(b / 8);
      } else if 0x70 <= b <= 0x7F {
        JumpIf(b);
      } else if b == 0x86 || b == 0x87 {
        Exchange(op);
      } else if b == 0x88 || b == 0x89 {
        MoveToRm(op);
      } else if b == 0x8A || b == 0x8B {
        MoveFromRm(op);
      } else if b == 0x8C || b == 0x8E {
        MoveSegment(op);
      } else if b == 0x90 {
        ip := ip + 1;
      } else if 0x91 <= b <= 0x97 {
        ExchangeAx(b % 8);
      } else if b == 0xA0 || b == 0xA1 {
        LoadAccumulator(b % 2);
      } else if b == 0xA2 || b == 0xA3 {
        StoreAccumulator(b % 2);
      } else if 0xB0 <= b <= 0xBF {
        LoadImmediate(b);
      } else if b == 0xC3 {
        Return();
      } else if b == 0xC6 || b == 0xC7 {
        StoreImmediate(op);
      } else if b == 0xE8 {
        Call();
      } else if b == 0xEB {
        ShortJump();
      } else if b == 0xF4 {
        status := Halt(false);
      } else {
        SetOrClear(b);
      }
    }

    // -------------------------------------------------------------- handlers

    /**
     * One ALU handler: valDst and valSrc read (the operand accessors count
     * displacement bytes, an immediate adds its own length), valResult
     * stored masked to the width, `_tempIP` corrected, `_setFlags` on the
     * unmasked valResult, IP moved.
     */
    method Alu(op: Decoded, c: AluCase)
      requires Valid()
      modifies this, memory
      ensures Now() == AluStep(old(Now()), op, c)
    {
      ghost var s := Now();
      var x, y := ReadOperands(op, c.operands);
      Finish(s, op, c, x, y);
    }

    /** Everything after the operand reads: store, correction, `_setFlags`, IP. */
    method Finish(ghost s: State, op: Decoded, c: AluCase, x: int, y: int)
      requires Valid() && Wf(s)
      requires x == First(s, op, c.operands) && y == Second(s, op, c.operands)
      requires Now() == s.(tempIP := s.tempIP + ReadCount(op, c.operands))
      modifies this, memory
      ensures Now() == AluStep(s, op, c)
    {
      var result := AluResult(c, flags, op.w, x, y);
      StoreCorrected(s, op, c, Masked(op.w, result));
      AluFlagsAndAdvance(c, x, y, result);
    }

    /** The store of valResult and the `_tempIP` correction after it. */
    method StoreCorrected(ghost s: State, op: Decoded, c: AluCase, value: Word)
      requires Valid() && Wf(s)
      requires Now() == s.(tempIP := s.tempIP + ReadCount(op, c.operands))
      modifies this`regs, this`tempIP, memory
      ensures var st := Stored(s, op, c.dest, value);
        Now() == st.(tempIP := st.tempIP + ReadCount(op, c.operands) - Correction(c.recount, op))
    {
      StoredShifted(s, op, c.dest, value, ReadCount(op, c.operands));
      ghost var st := Stored(s, op, c.dest, value);
      Store(op, c.dest, value);
      assert Now() == st.(tempIP := st.tempIP + ReadCount(op, c.operands));
      tempIP := tempIP - Correction(c.recount, op);
    }

    /** `_setFlags` on the unmasked valResult, then the move of IP. */
    method SetFlagsAndAdvance(x: int, y: int, result: int, toSet: set<FlagBit>, size: Width, kind: Operation, advance: Advance)
      requires Valid()
      modifies this`flags, this`ip
      ensures Now() == Advanced(old(Now()).(flags := FlagsAfter(old(flags), x, y, result, toSet, size, kind)), advance)
    {
      SetFlags(x, y, result, toSet, size, kind);
      MoveIP(advance);
    }

    /** `_setFlags` on the unmasked valResult, the borrow-in of the repaired SBB, then the move of IP. */
    method AluFlagsAndAdvance(c: AluCase, x: int, y: int, result: int)
      requires Valid()
      modifies this`flags, this`ip
      ensures Now() == Advanced(old(Now()).(flags := AluFlags(c, old(flags), x, y, result)), c.advance)
    {
      var borrowed := c.borrow && IsSet(flags, CF);
      SetFlags(x, y, result, c.toSet, c.size, c.kind);
      if borrowed {
        if CF in c.toSet {
          flags := Assign(flags, CF, x < y + 1);
        }
        if AF in c.toSet {
          flags := Assign(flags, AF, x % 0x10 < y % 0x10 + 1);
        }
      }
      MoveIP(c.advance);
    }

    /** The move of IP that ends a handler: past the operands read, or by a fixed length. */
    method MoveIP(advance: Advance)
      requires Valid()
      modifies this`ip
      ensures Now() == Advanced(old(Now()), advance)
    {
      match advance {
        case PastOperand(k) => ip := ip + tempIP + k;
        case Fixed(k) => ip := ip + k;
      }
    }

    /** valDst and valSrc of an ALU handler. */
    method ReadOperands(op: Decoded, o: Operands) returns (x: int, y: int)
      requires Valid()
      modifies this`tempIP
      ensures x == First(old(Now()), op, o) && y == Second(old(Now()), op, o)
      ensures tempIP == old(tempIP) + ReadCount(op, o)
    {
      match o {
        case RmReg =>
          x := GetRMValueForOp(op);
          y := RegValue(regs, op.w, op.reg);
        case RegRm =>
          x := RegValue(regs, op.w, op.reg);
          y := GetRMValueForOp(op);
        case AccImm(_) =>
          x, y := ReadAccImm(op, o);
        case RmImm(_, _, _, _, _) =>
          x, y := ReadRmImm(op, o);
      }
    }

    /** valDst and valSrc of the accumulator-immediate forms. */
    method ReadAccImm(op: Decoded, o: Operands) returns (x: int, y: int)
      requires Valid() && o.AccImm?
      ensures x == First(old(Now()), op, o) && y == Second(old(Now()), op, o)
      ensures tempIP == old(tempIP) + ReadCount(op, o)
    {
      x := RegValue(regs, op.w, 0);
      y := ReadDatum(op.w, ip + 1 + (if o.afterRm then RmIncIP(op) else 0));
    }

    /** valDst and valSrc of the r/m-immediate forms of the group. */
    method ReadRmImm(op: Decoded, o: Operands) returns (x: int, y: int)
      requires Valid() && o.RmImm?
      modifies this`tempIP
      ensures x == First(old(Now()), op, o) && y == Second(old(Now()), op, o)
      ensures tempIP == old(tempIP) + ReadCount(op, o)
    {
      x := GetRMValueForOp(op);
      var v := ReadDatum(if o.immWord then 1 else 0, ip + (if o.exact then RmCount(op) else RmIncIP(op)) + o.at);
      y := if o.signExtend then SignExtend(v) else v;
      tempIP := tempIP + o.count;
    }

    /** Where an ALU handler puts its masked valResult. */
    method Store(op: Decoded, d: Dest, value: Word)
      requires Valid()
      modifies this`regs, this`tempIP, memory
      ensures Now() == Stored(old(Now()), op, d, value)
    {
      match d {
        case ToRm => SetRMValueForOp(op, value);
        case ToReg => regs := WithReg(regs, op.w, op.reg, value);
        case ToAcc => regs := WithReg(regs, op.w, 0, value);
        case Nowhere =>
      }
    }

    /** INC reg16 (0x40-0x47) and DEC reg16 (0x48-0x4F). */
    method IncDec(r: Three, up: bool)
      requires Valid()
      modifies this
      ensures Now() == Stepped(old(Now()), r, up)
    {
      var x := RegValue(regs, 1, r);
      var result: int;
      if up {
        result := ToU16(x + 1);
      } else {
        result := x - 1;
        if result < 0 {
          result := 0x1_0000 + result;
        }
      }
      StoreStep(r, up, x, result);
    }

    /** The end of INC and DEC: the register, the flags and IP. */
    method StoreStep(r: Three, up: bool, x: int, result: int)
      requires Valid() && x == RegValue(regs, 1, r)
      requires result == StepResult(x, up)
      modifies this
      ensures Now() == Stepped(old(Now()), r, up)
    {
      regs := WithReg(regs, 1, r, result);
      SetFlagsAndAdvance(x, 1, result, STEP_FLAGS, WordSize, if up then AddOp else SubOp, Fixed(1));
    }

    method PushRegister(r: Three)
      requires Valid()
      modifies this, memory
      ensures Now() == PushReg(old(Now()), r)
    {
      Push(RegValue(regs, 1, r));
      ip := ip + 1;
    }

    method PopRegister(r: Three)
      requires Valid()
      modifies this, memory
      ensures Now() == PopReg(old(Now()), r)
    {
      var v := Pop();
      regs := WithReg(regs, 1, r, v);
      ip := ip + 1;
    }

    method PushSegment(i: Two)
      requires Valid()
      modifies this, memory
      ensures Now() == PushSeg(old(Now()), i)
    {
      Push(SegValue(segs, i));
      ip := ip + 1;
    }

    method PopSegment(i: Two)
      requires Valid()
      modifies this, memory
      ensures Now() == PopSeg(old(Now()), i)
    {
      var v := Pop();
      segs := WithSeg(segs, i, v);
      ip := ip + 1;
    }

    /** CALL rel16: push IP+3, then add the word at CS:IP+1, read as two's complement, and 3. */
    method Call()
      requires Valid()
      modifies this, memory
      ensures Now() == CallNear(old(Now()))
    {
      ghost var s := Now();
      Push(ip + 3);
      ghost var p := Now();
      var w := ReadWord(segs.cs, ip + 1);
      assert w == PeekWord(p, p.segs.cs, s.ip + 1);
      var offset := if w / 0x8000 == 1 then (-1 * (w / 0x8000)) * (JsXor(w, 0xFFFF) + 1) else w;
      CallOffset(w);
      ip := ip + (offset + 3);
    }

    method Return()
      requires Valid()
      modifies this, memory
      ensures Now() == Ret(old(Now()))
    {
      ip := Pop();
    }

    /** Jcc: `_shortJump` when the condition holds, otherwise past the two bytes. */
    method JumpIf(b: Byte)
      requires Valid() && 0x70 <= b <= 0x7F
      modifies this
      ensures Now() == JccStep(old(Now()), b)
    {
      if Branches.Holds(LegacyCondition(b), flags, 0) {
        ShortJump();
      } else {
        ip := ip + 2;
      }
    }

    /** CLC, STC, CLI, STI, CLD, STD. */
    method SetOrClear(b: Byte)
      requires Valid() && 0xF8 <= b <= 0xFD
      modifies this
      ensures Now() == FlagOp(old(Now()), b)
    {
      flags := flags[FlagOf(b) := b % 2 == 1];
      ip := ip + 1;
    }

    /** XCHG AX, reg16 (0x91-0x97). */
    method ExchangeAx(r: Three)
      requires Valid()
      modifies this
      ensures Now() == XchgAx(old(Now()), r)
    {
      var ax, v := RegValue(regs, 1, 0), RegValue(regs, 1, r);
      regs := WithReg(regs, 1, 0, v);
      regs := WithReg(regs, 1, r, ax);
      ip := ip + 1;
    }

    /** XCHG reg, r/m (0x86, 0x87). */
    method Exchange(op: Decoded)
      requires Valid()
      modifies this, memory
      ensures Now() == XchgRm(old(Now()), op)
    {
      WithRmShifted(Now(), op, RegValue(regs, op.w, op.reg), RmCount(op));
      var x := RegValue(regs, op.w, op.reg);
      var y := GetRMValueForOp(op);
      SetRMValueForOp(op, x);
      tempIP := tempIP - RmCount(op);
      regs := WithReg(regs, op.w, op.reg, y);
      ip := ip + tempIP + 2;
    }

    /** MOV r/m, reg (0x88, 0x89). */
    method MoveToRm(op: Decoded)
      requires Valid()
      modifies this, memory
      ensures Now() == MovToRm(old(Now()), op)
    {
      SetRMValueForOp(op, RegValue(regs, op.w, op.reg));
      ip := ip + tempIP + 2;
    }

    /** MOV reg, r/m (0x8A, 0x8B). */
    method MoveFromRm(op: Decoded)
      requires Valid()
      modifies this
      ensures Now() == MovFromRm(old(Now()), op)
    {
      var v := GetRMValueForOp(op);
      regs := WithReg(regs, op.w, op.reg, v);
      ip := ip + tempIP + 2;
    }

    /** MOV r/m16, Sreg (0x8C) and MOV Sreg, r/m16 (0x8E). */
    method MoveSegment(op: Decoded)
      requires Valid()
      modifies this, memory
      ensures Now() == MovSegment(old(Now()), op)
    {
      var wide := op.(w := 1);
      if op.opcodeByte == 0x8C {
        SetRMValueForOp(wide, SegValue(segs, op.reg % 4));
      } else {
        var v := GetRMValueForOp(wide);
        segs := WithSeg(segs, op.reg % 4, ToU16(v));
      }
      ip := ip + tempIP + 2;
    }

    /** MOV AL/AX, [addr] (0xA0, 0xA1). */
    method LoadAccumulator(w: Bit)
      requires Valid()
      modifies this
      ensures Now() == LoadAcc(old(Now()), w)
    {
      ghost var s := Now();
      var a := ReadWord(segs.cs, ip + 1);
      assert a == DirectAddress(s);
      var v := ReadDatum(w, a);
      assert v == Datum(s, w, a);
      regs := WithReg(regs, w, 0, v);
      ip := ip + 3;
    }

    /** MOV [addr], AL/AX (0xA2, 0xA3). */
    method StoreAccumulator(w: Bit)
      requires Valid()
      modifies this, memory
      ensures Now() == StoreAcc(old(Now()), w)
    {
      ghost var s := Now();
      var a := ReadWord(segs.cs, ip + 1);
      assert a == DirectAddress(s);
      if w == 0 {
        WriteByte(segs.cs, a, regs.al);
        assert memory[..] == Addressing.Write8(s.mem, Chosen(s, s.segs.cs), a, s.regs.al);
      } else {
        WriteWord(segs.cs, a, RegValue(regs, 1, 0));
        assert memory[..] == Addressing.Write16(s.mem, Chosen(s, s.segs.cs), a, RegValue(s.regs, 1, 0));
      }
      ip := ip + 3;
    }

    /** MOV reg, imm (0xB0-0xBF). */
    method LoadImmediate(b: Byte)
      requires Valid() && 0xB0 <= b <= 0xBF
      modifies this
      ensures Now() == MovImm(old(Now()), b)
    {
      var w: Bit := if b < 0xB8 then 0 else 1;
      ghost var s := Now();
      var v := ReadDatum(w, ip + 1);
      assert v == Datum(s, w, s.ip + 1);
      regs := WithReg(regs, w, b % 8, v);
      ip := ip + 2 + w;
    }

    /** MOV r/m, imm (0xC6, 0xC7). */
    method StoreImmediate(op: Decoded)
      requires Valid()
      modifies this, memory
      ensures Now() == MovRmImm(old(Now()), op)
    {
      var v := ReadDatum(op.w, ip + RmCount(op) + 2);
      StoreImmediateValue(op, v);
    }

    /** The end of MOV r/m, imm: the operand written, IP moved past the immediate. */
    method StoreImmediateValue(op: Decoded, v: int)
      requires Valid() && v == Datum(Now(), op.w, ip + RmCount(op) + 2)
      modifies this, memory
      ensures Now() == MovRmImm(old(Now()), op)
    {
      SetRMValueForOp(op, v);
      ip := ip + tempIP + 3 + op.w;
    }
  }

  /** The relative target of CALL, decoded as `emulateCycle` does, is the word read as two's complement. */
  lemma CallOffset(w: Word)
    ensures (if w / 0x8000 == 1 then (-1 * (w / 0x8000)) * (JsXor(w, 0xFFFF) + 1) else w) == Signed16(w)
  {
    ComplementPlusOne(w);
  }

  /**
   * A store made after the operand reads moved `_tempIP` on by `k` is the
   * store made before them, with `_tempIP` moved on by `k`.
   */
  lemma StoredShifted(s: State, op: Decoded, d: Dest, value: int, k: int)
    requires Wf(s)
    ensures Stored(s.(tempIP := s.tempIP + k), op, d, value) == Stored(s, op, d, value).(tempIP := Stored(s, op, d, value).tempIP + k)
  {
    if d == ToRm {
      WithRmShifted(s, op, value, k);
    }
  }

  /** The same for `_setRMValueForOp`, whose address does not depend on `_tempIP`. */
  lemma WithRmShifted(s: State, op: Decoded, value: int, k: int)
    requires Wf(s)
    ensures WithRm(s.(tempIP := s.tempIP + k), op, value) == WithRm(s, op, value).(tempIP := WithRm(s, op, value).tempIP + k)
  {
    var t := s.(tempIP := s.tempIP + k);
    if op.mod != 3 {
      assert Chosen(t, t.segs.cs) == Chosen(s, s.segs.cs);
      assert PeekWord(t, t.segs.cs, t.ip + 2) == PeekWord(s, s.segs.cs, s.ip + 2);
      assert Displacement(t, op) == Displacement(s, op);
      assert RmAddress(t, op) == RmAddress(s, op);
    }
  }
}
