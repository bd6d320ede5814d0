/**
 * The arithmetic handlers of the newer engine (CMP, SUB, SBB, DEC, NEG) and
 * the flag handlers LAHF and SAHF.  A handler resolves its operands through
 * the addressing modes (the `Access` dispatcher of module `Addressing`),
 * computes, updates the flags bit by bit, and writes back through the same
 * operand.
 *
 * Every handler is a method on the processor state whose postcondition ties
 * the new state to spec functions of the old one; the spec functions carry
 * the arithmetic meaning (borrow, signed overflow, the flags kept) as lemmas.
 */
module Operations {
  import opened Utils
  import opened Machine
  import opened Addressing
  import opened FlagRules

  // ------------------------------------------------------------ operands as the handlers use them

  /** Operands whose read yields a number below 0x10000. */
  predicate DataOperand(op: Operand)
  {
    match op
    case Imm1 | Imm3 | RegW(_) | RegB(_) | Eb | Ev | Ew | Gb | Gv | Ib | Iv | Iw => true
    case _ => false
  }

  /** The number that reading a data operand yields. */
  function Datum(v: View, op: Operand, segment: int): (x: Word)
    requires Wf(v) && DataOperand(op)
    ensures Result(v, op, segment, None) == Ok(Num(x))
  {
    Result(v, op, segment, None).value.n
  }

  /** The number that reading a near branch operand (relative, or a word from a register or memory) yields. */
  function Target(v: View, op: Operand): int
    requires Wf(v) && (op == Jb || op == Jv || op == Ev)
  {
    Result(v, op, v.regs[CS], None).value.n
  }

  /** `dst(segment)` or `dst(segment, null)`: a read never fails and stores nothing. */
  method Read(cpu: Cpu, op: Operand, segment: int) returns (val: Val)
    requires cpu.Valid()
    modifies cpu`reg16, cpu`addrIPInc, cpu`addrSeg, cpu.mem
    ensures cpu.Valid()
    ensures Result(old(cpu.Now()), op, segment, None) == Ok(val)
    ensures cpu.reg16 == old(cpu.reg16) && cpu.mem[..] == old(cpu.mem[..])
    ensures cpu.addrIPInc == IncOf(op, cpu.opcode, None, old(cpu.addrIPInc))
    ensures cpu.addrSeg == SegOf(op, cpu.opcode, None, old(cpu.addrSeg))
  {
    var r := Access(cpu, op, segment, None);
    val := r.value;
  }

  /** What writing `x` through `op` returns and stores, seen from view `v`. */
  ghost predicate Written(v: View, op: Operand, segment: int, x: int, res: Outcome<int>,
                          regs: map<Reg16, Word>, mem: seq<Byte>)
    requires Wf(v)
  {
    var r := Result(v, op, segment, Some(x));
    && res == (if r.Fail? then Fail(r.fault) else Ok(x))
    && Stored(v, StoreOf(v, op, segment, Some(x)), regs, mem)
  }

  /** `dst(segment, x)`: the write either fails with the operand's exception or stores `x`. */
  method Write(cpu: Cpu, op: Operand, segment: int, x: int) returns (res: Outcome<int>)
    requires cpu.Valid()
    modifies cpu`reg16, cpu`addrIPInc, cpu`addrSeg, cpu.mem
    ensures cpu.Valid()
    ensures Written(old(cpu.Now()), op, segment, x, res, cpu.reg16, cpu.mem[..])
    ensures cpu.addrIPInc == IncOf(op, cpu.opcode, Some(x), old(cpu.addrIPInc))
    ensures cpu.addrSeg == SegOf(op, cpu.opcode, Some(x), old(cpu.addrSeg))
  {
    var r := Access(cpu, op, segment, Some(x));
    res := if r.Fail? then Fail(r.fault) else Ok(x);
  }

  // ------------------------------------------------------------ CMP, SUB, SBB, DEC, NEG

  /** The source after the handlers' sign extension, applied for word-sized instructions. */
  function Extended(size: Size, s: Word): Word
  {
    if size == W || size == V then SignExtend(s) else s
  }

  /** `flags & FLAG_CF_MASK`, the borrow-in of SBB. */
  function BorrowIn(flags: Flags): int
  {
    if IsSet(flags, CF) then 1 else 0
  }

  /** The flags SBB is documented to leave: CF is the borrow of `d - s - c`, the rest as `flagSub`. */
  function SbbFlags(flags: Flags, size: Size, d: int, s: int, c: int, result: int): Flags
  {
    Assign(SubFlags(flags, size, d, s, result), CF, CarryOn(size, d, s + c))
  }

  /** The flags `sbb` leaves as written: `flagSub(d, s, result)`, which ignores the borrow-in. */
  function SbbFlagsAsWritten(flags: Flags, size: Size, d: int, s: int, result: int): Flags
  {
    SubFlags(flags, size, d, s, result)
  }

  /** The flags DEC is documented to leave: those of `flagSub(d, 1, result)` with CF kept. */
  function DecFlags(flags: Flags, size: Size, d: int): Flags
  {
    Assign(SubFlags(flags, size, d, 1, Wrap(size, d - 1)), CF, IsSet(flags, CF))
  }

  /** The flags `dec` leaves as written: `flagSub(d, 1, result)`, CF included. */
  function DecFlagsAsWritten(flags: Flags, size: Size, d: int): Flags
  {
    SubFlags(flags, size, d, 1, Wrap(size, d - 1))
  }

  /** The value `neg` writes, including its special case for the most negative operand. */
  function NegResult(size: Size, d: int): int
  {
    if size == B && d == 0x80 then 0x80
    else if d == 0x8000 then 0x8000
    else Wrap(size, 0 - d)
  }

  /** The flags `neg` leaves: `flagSub(0, d, result)`, then OF forced on for the most negative operand. */
  function NegFlags(flags: Flags, size: Size, d: int): Flags
  {
    var f := SubFlags(flags, size, 0, d, Wrap(size, 0 - d));
    if (size == B && d == 0x80) || d == 0x8000 then Assign(f, OF, true) else f
  }

  /** `dst(segment, null)` on a data operand. */
  method ReadDatum(cpu: Cpu, op: Operand, segment: int) returns (x: Word)
    requires cpu.Valid() && DataOperand(op)
    modifies cpu`reg16, cpu`addrIPInc, cpu`addrSeg, cpu.mem
    ensures cpu.Valid()
    ensures x == Datum(old(cpu.Now()), op, segment)
    ensures cpu.reg16 == old(cpu.reg16) && cpu.mem[..] == old(cpu.mem[..])
    ensures cpu.addrIPInc == IncOf(op, cpu.opcode, None, old(cpu.addrIPInc))
    ensures cpu.addrSeg == SegOf(op, cpu.opcode, None, old(cpu.addrSeg))
  {
    ghost var v := cpu.Now();
    var val := Read(cpu, op, segment);
    assert val == Num(Datum(v, op, segment));
    x := val.n;
  }

  /**
   * `d = dst(segment, null)`, `s = src(segment, null)`, and the source
   * sign-extended when the instruction is word-sized.
   */
  method Operands(cpu: Cpu, dst: Operand, src: Operand, segment: int) returns (d: Word, s: Word)
    requires cpu.Valid() && DataOperand(dst) && DataOperand(src)
    modifies cpu`reg16, cpu`addrIPInc, cpu`addrSeg, cpu.mem
    ensures cpu.Valid()
    ensures d == Datum(old(cpu.Now()), dst, segment)
    ensures s == Extended(cpu.opcode.addrSize, Datum(old(cpu.Now()), src, segment))
    ensures cpu.reg16 == old(cpu.reg16) && cpu.mem[..] == old(cpu.mem[..])
    ensures cpu.addrIPInc == IncOf(src, cpu.opcode, None, IncOf(dst, cpu.opcode, None, old(cpu.addrIPInc)))
    ensures cpu.addrSeg == SegOf(src, cpu.opcode, None, SegOf(dst, cpu.opcode, None, old(cpu.addrSeg)))
  {
    ghost var v := cpu.Now();
    d := ReadDatum(cpu, dst, segment);
    assert cpu.Now() == v;
    s := ReadDatum(cpu, src, segment);
    if cpu.opcode.addrSize == W || cpu.opcode.addrSize == V {
      s := SignExtend(s);
    }
  }

  /** The handlers' correction of a negative result: `0xFF + 1 + result` for bytes, `0xFFFF + 1 + result` for words. */
  method Wrapped(size: Size, x: int) returns (r: int)
    ensures r == Wrap(size, x)
  {
    r := x;
    if r < 0 {
      if size == B {
        r := 0xFF + 1 + r;
      } else {
        r := 0xFFFF + 1 + r;
      }
    }
  }

  /**
   * SBB's arithmetic: the borrow-in `c` taken from CF, `d - s - c` wrapped,
   * `flagSub(d, s, result)`, then CF from the borrow of `d - s - c`.
   */
  method SubtractBorrow(cpu: Cpu, d: Word, s: Word) returns (result: int)
    modifies cpu`flags
    ensures var c := BorrowIn(old(cpu.flags)); var size := cpu.opcode.addrSize;
      && result == Wrap(size, d - s - c)
      && cpu.flags == SbbFlags(old(cpu.flags), size, d, s, c, result)
  {
    var c := if IsSet(cpu.flags, CF) then 1 else 0;
    result := d as int - s - c;
    result := Wrapped(cpu.opcode.addrSize, result);
    FlagSub(cpu, d, s, result);
    cpu.flags := Assign(cpu.flags, CF, CarryOn(cpu.opcode.addrSize, d, s + c));
  }

  /** DEC's flag update: `flagSub(d, 1, result)` with CF put back as it was. */
  method DecrementFlags(cpu: Cpu, d: int, result: int)
    requires result == Wrap(cpu.opcode.addrSize, d - 1)
    modifies cpu`flags
    ensures cpu.flags == DecFlags(old(cpu.flags), cpu.opcode.addrSize, d)
  {
    var carry := IsSet(cpu.flags, CF);
    FlagSub(cpu, d, 1, result);
    cpu.flags := Assign(cpu.flags, CF, carry);
  }

  /** NEG's flag update: `flagSub(0, d, result)`, then the special case of the most negative operand. */
  method NegateFlags(cpu: Cpu, d: int, result: int) returns (r: int)
    requires result == Wrap(cpu.opcode.addrSize, 0 - d)
    modifies cpu`flags
    ensures cpu.flags == NegFlags(old(cpu.flags), cpu.opcode.addrSize, d)
    ensures r == NegResult(cpu.opcode.addrSize, d)
  {
    r := result;
    FlagSub(cpu, 0, d, result);
    if cpu.opcode.addrSize == B && d == 0x80 {
      r := 0x80;
      cpu.flags := Assign(cpu.flags, OF, true);
    } else if d == 0x8000 {
      r := 0x8000;
      cpu.flags := Assign(cpu.flags, OF, true);
    }
  }

  /** cmp: the flags of `dst - src`; nothing is written back. */
  method Cmp(cpu: Cpu, dst: Operand, src: Operand) returns (result: int)
    requires cpu.Valid() && DataOperand(dst) && DataOperand(src)
    modifies cpu`reg16, cpu`flags, cpu`addrIPInc, cpu`addrSeg, cpu.mem
    ensures cpu.Valid()
    ensures var v := old(cpu.Now()); var size := v.opcode.addrSize; var seg := v.regs[CS];
      var d := Datum(v, dst, seg); var s := Extended(size, Datum(v, src, seg));
      && result == Wrap(size, d - s)
      && cpu.flags == SubFlags(old(cpu.flags), size, d, s, result)
    ensures cpu.reg16 == old(cpu.reg16) && cpu.mem[..] == old(cpu.mem[..])
    ensures cpu.addrIPInc == IncOf(src, cpu.opcode, None, IncOf(dst, cpu.opcode, None, old(cpu.addrIPInc)))
    ensures cpu.addrSeg == SegOf(src, cpu.opcode, None, SegOf(dst, cpu.opcode, None, old(cpu.addrSeg)))
  {
    ghost var v := cpu.Now();
    var segment := cpu.reg16[CS];
    var d, s := Operands(cpu, dst, src, segment);
    result := d as int - s;
    result := Wrapped(cpu.opcode.addrSize, result);
    FlagSub(cpu, d, s, result);
  }

  /** sub: `dst - src` wrapped to the operand size, flagged by `flagSub` and written back to `dst`. */
  method Sub(cpu: Cpu, dst: Operand, src: Operand) returns (res: Outcome<int>)
    requires cpu.Valid() && DataOperand(dst) && DataOperand(src)
    modifies cpu`reg16, cpu`flags, cpu`addrIPInc, cpu`addrSeg, cpu.mem
    ensures cpu.Valid()
    ensures var v := old(cpu.Now()); var size := v.opcode.addrSize; var seg := v.regs[CS];
      var d := Datum(v, dst, seg); var s := Extended(size, Datum(v, src, seg)); var r := Wrap(size, d - s);
      && cpu.flags == SubFlags(old(cpu.flags), size, d, s, r)
      && Written(v, dst, seg, r, res, cpu.reg16, cpu.mem[..])
      && cpu.addrIPInc == IncOf(dst, v.opcode, Some(r), IncOf(src, v.opcode, None, IncOf(dst, v.opcode, None, old(cpu.addrIPInc))))
      && cpu.addrSeg == SegOf(dst, v.opcode, Some(r), SegOf(src, v.opcode, None, SegOf(dst, v.opcode, None, old(cpu.addrSeg))))
  {
    ghost var v := cpu.Now();
    var segment := cpu.reg16[CS];
    var d, s := Operands(cpu, dst, src, segment);
    var result := d as int - s;
    result := Wrapped(cpu.opcode.addrSize, result);
    FlagSub(cpu, d, s, result);
    assert cpu.Now() == v;
    res := Write(cpu, dst, segment, result);
  }

  /** sbb: `dst - src - CF` wrapped and written back; CF is the borrow of the whole subtraction. */
  method Sbb(cpu: Cpu, dst: Operand, src: Operand) returns (res: Outcome<int>)
    requires cpu.Valid() && DataOperand(dst) && DataOperand(src)
    modifies cpu`reg16, cpu`flags, cpu`addrIPInc, cpu`addrSeg, cpu.mem
    ensures cpu.Valid()
    ensures var v := old(cpu.Now()); var size := v.opcode.addrSize; var seg := v.regs[CS];
      var d := Datum(v, dst, seg); var s := Extended(size, Datum(v, src, seg));
      var c := BorrowIn(old(cpu.flags)); var r := Wrap(size, d - s - c);
      && cpu.flags == SbbFlags(old(cpu.flags), size, d, s, c, r)
      && Written(v, dst, seg, r, res, cpu.reg16, cpu.mem[..])
      && cpu.addrIPInc == IncOf(dst, v.opcode, Some(r), IncOf(src, v.opcode, None, IncOf(dst, v.opcode, None, old(cpu.addrIPInc))))
      && cpu.addrSeg == SegOf(dst, v.opcode, Some(r), SegOf(src, v.opcode, None, SegOf(dst, v.opcode, None, old(cpu.addrSeg))))
  {
    ghost var v := cpu.Now();
    var segment := cpu.reg16[CS];
    var d, s := Operands(cpu, dst, src, segment);
    var result := SubtractBorrow(cpu, d, s);
    assert cpu.Now() == v;
    res := Write(cpu, dst, segment, result);
  }

  /** dec: `dst - 1` wrapped and written back; CF is left as it was. */
  method Dec(cpu: Cpu, dst: Operand) returns (res: Outcome<int>)
    requires cpu.Valid() && DataOperand(dst)
    modifies cpu`reg16, cpu`flags, cpu`addrIPInc, cpu`addrSeg, cpu.mem
    ensures cpu.Valid()
    ensures var v := old(cpu.Now()); var size := v.opcode.addrSize; var seg := v.regs[CS];
      var d := Datum(v, dst, seg); var r := Wrap(size, d - 1);
      && cpu.flags == DecFlags(old(cpu.flags), size, d)
      && Written(v, dst, seg, r, res, cpu.reg16, cpu.mem[..])
      && cpu.addrIPInc == IncOf(dst, v.opcode, Some(r), IncOf(dst, v.opcode, None, old(cpu.addrIPInc)))
      && cpu.addrSeg == SegOf(dst, v.opcode, Some(r), SegOf(dst, v.opcode, None, old(cpu.addrSeg)))
  {
    ghost var v := cpu.Now();
    var segment := cpu.reg16[CS];
    var d := ReadDatum(cpu, dst, segment);
    var s := 1;
    var result := d as int - s;
    result := Wrapped(cpu.opcode.addrSize, result);
    DecrementFlags(cpu, d, result);
    assert cpu.Now() == v;
    res := Write(cpu, dst, segment, result);
  }

  /** neg: `0 - dst` wrapped, flagged by `flagSub(0, d, result)` and written back. */
  method Neg(cpu: Cpu, dst: Operand) returns (res: Outcome<int>)
    requires cpu.Valid() && DataOperand(dst)
    modifies cpu`reg16, cpu`flags, cpu`addrIPInc, cpu`addrSeg, cpu.mem
    ensures cpu.Valid()
    ensures var v := old(cpu.Now()); var size := v.opcode.addrSize; var seg := v.regs[CS];
      var d := Datum(v, dst, seg); var r := NegResult(size, d);
      && cpu.flags == NegFlags(old(cpu.flags), size, d)
      && Written(v, dst, seg, r, res, cpu.reg16, cpu.mem[..])
      && cpu.addrIPInc == IncOf(dst, v.opcode, Some(r), IncOf(dst, v.opcode, None, old(cpu.addrIPInc)))
      && cpu.addrSeg == SegOf(dst, v.opcode, Some(r), SegOf(dst, v.opcode, None, old(cpu.addrSeg)))
  {
    ghost var v := cpu.Now();
    var segment := cpu.reg16[CS];
    var d := ReadDatum(cpu, dst, segment);
    var result := 0 - d as int;
    result := Wrapped(cpu.opcode.addrSize, result);
    result := NegateFlags(cpu, d, result);
    assert cpu.Now() == v;
    res := Write(cpu, dst, segment, result);
  }

  // ------------------------------------------------------------ what SBB, DEC and NEG leave

  /**
   * SBB subtracts the borrow-in as well: CF is the unsigned borrow of
   * `d - s - c`, ZF says the wrapped result is zero, OF is the signed
   * overflow of `d - s - c`, and the flags outside the arithmetic group are kept.
   */
  lemma SbbMeaning(flags: Flags, size: Size, d: int, s: int, c: int)
    requires Fits(size, d) && Fits(size, s) && 0 <= c <= 1
    ensures var r := Wrap(size, d - s - c); var f := SbbFlags(flags, size, d, s, c, r);
      && r == (d - s - c) % Modulus(size)
      && (IsSet(f, CF) <==> d < s + c)
      && (IsSet(f, ZF) <==> r == 0)
      && (IsSet(f, SF) <==> r >= SignWeight(size))
      && (IsSet(f, OF) <==> !(-SignWeight(size) <= Signed(size, d) - Signed(size, s) - c < SignWeight(size)))
      && (IsSet(f, AF) <==> d % 16 < s % 16 + c)
      && KeepsOthers(f, flags)
  {
    var r := Wrap(size, d - s - c);
    DifferenceMeaning(size, d, s, c);
    SetArithBits(flags, CarryOn(size, d, s), OverflowOn(size, d, s, r), AuxOn(d, s, r),
                 ParityOn(r), SignOn(size, r, true), r == 0);
  }

  /** As written, `0 - 0 - CF` with CF set wraps to 0xFF yet leaves CF clear: the borrow is lost. */
  lemma SbbAsWrittenDropsBorrow()
    ensures var carry := Assign(NO_FLAGS, CF, true);
      && !IsSet(SbbFlagsAsWritten(carry, B, 0, 0, Wrap(B, 0 - 0 - 1)), CF)
      && IsSet(SbbFlags(carry, B, 0, 0, 1, Wrap(B, 0 - 0 - 1)), CF)
  {
    SbbMeaning(Assign(NO_FLAGS, CF, true), B, 0, 0, 1);
  }

  /**
   * DEC: the result is `d - 1` wrapped, ZF says `d` was 1, OF says `d` was
   * the most negative value, AF says the low nibble borrowed, and CF, like
   * every flag outside the arithmetic group, is kept.
   */
  lemma DecMeaning(flags: Flags, size: Size, d: int)
    requires Fits(size, d)
    ensures var r := Wrap(size, d - 1); var f := DecFlags(flags, size, d);
      && r == (d - 1) % Modulus(size)
      && (IsSet(f, CF) <==> IsSet(flags, CF))
      && (IsSet(f, ZF) <==> d == 1)
      && (IsSet(f, SF) <==> r >= SignWeight(size))
      && (IsSet(f, OF) <==> d == SignWeight(size))
      && (IsSet(f, AF) <==> d % 16 == 0)
      && KeepsOthers(f, flags)
  {
    DecrementMeaning(size, d);
  }

  /** The flag rules of `flagSub(d, 1, result)`, read arithmetically. */
  lemma DecrementMeaning(size: Size, d: int)
    requires Fits(size, d)
    ensures var r := Wrap(size, d - 1);
      && r == (d - 1) % Modulus(size)
      && (r == 0 <==> d == 1)
      && (SignOn(size, r, true) <==> r >= SignWeight(size))
      && (OverflowOn(size, d, 1, r) <==> d == SignWeight(size))
      && (AuxOn(d, 1, r) <==> d % 16 == 0)
  {
    var r := Wrap(size, d - 1);
    WrapIsModular(size, d - 1);
    SignMeaning(size, r);
    DecrementOverflow(size, d);
    DecrementAux(size, d);
  }

  /** Decrementing overflows exactly at the most negative operand. */
  lemma DecrementOverflow(size: Size, d: int)
    requires Fits(size, d)
    ensures OverflowOn(size, d, 1, Wrap(size, d - 1)) <==> d == SignWeight(size)
  {
    OverflowMeaning(size, d, 1, 0);
    assert Wrap(size, d - 1 - 0) == Wrap(size, d - 1);
    SignedValue(size, d);
    assert Signed(size, 1) == 1;
  }

  /** Decrementing borrows out of the low nibble exactly when that nibble is zero. */
  lemma DecrementAux(size: Size, d: int)
    requires Fits(size, d)
    ensures AuxOn(d, 1, Wrap(size, d - 1)) <==> d % 16 == 0
  {
    AuxMeaning(size, d, 1, 0);
    assert Wrap(size, d - 1 - 0) == Wrap(size, d - 1);
  }

  /** As written, decrementing zero sets CF, although the instruction is documented to keep it. */
  lemma DecAsWrittenSetsCarry()
    ensures IsSet(DecFlagsAsWritten(NO_FLAGS, B, 0), CF)
    ensures !IsSet(DecFlags(NO_FLAGS, B, 0), CF)
  {
    assert CarryOn(B, 0, 1);
  }

  /**
   * NEG: the result is the two's-complement negation, CF is set unless the
   * operand is zero, OF is set exactly for the most negative operand, and
   * the flags outside the arithmetic group are kept.
   */
  lemma NegMeaning(flags: Flags, size: Size, d: int)
    requires Fits(size, d)
    ensures var r := NegResult(size, d); var f := NegFlags(flags, size, d);
      && r == (0 - d) % Modulus(size)
      && (IsSet(f, CF) <==> d != 0)
      && (IsSet(f, ZF) <==> d == 0)
      && (IsSet(f, SF) <==> r >= SignWeight(size))
      && (IsSet(f, OF) <==> d == SignWeight(size))
      && KeepsOthers(f, flags)
  {
    NegationMeaning(size, d);
  }

  /** The flag rules of `flagSub(0, d, result)`, read arithmetically; the special cases of `neg` change nothing. */
  lemma NegationMeaning(size: Size, d: int)
    requires Fits(size, d)
    ensures var r := Wrap(size, 0 - d);
      && NegResult(size, d) == r == (0 - d) % Modulus(size)
      && (CarryOn(size, 0, d) <==> d != 0)
      && (r == 0 <==> d == 0)
      && (SignOn(size, r, true) <==> r >= SignWeight(size))
      && (OverflowOn(size, 0, d, r) || (size == B && d == 0x80) || d == 0x8000 <==> d == SignWeight(size))
  {
    assert 0 - d - 0 == 0 - d && d + 0 == d;
    DifferenceMeaning(size, 0, d, 0);
    SignedValue(size, d);
  }

  // ------------------------------------------------------------ LAHF and SAHF

  /** Bit positions that the mask `0b11010111` keeps: CF, bit 1, PF, AF, ZF and SF. */
  predicate InLahfMask(i: int)
  {
    i == 0 || i == 1 || i == 2 || i == 4 || i == 6 || i == 7
  }

  /** Flag positions SAHF is documented to load from AH: CF, PF, AF, ZF and SF. */
  predicate InSahfMask(i: int)
  {
    i == 0 || i == 2 || i == 4 || i == 6 || i == 7
  }

  /** `FLAGS & 0b11010111`, the byte LAHF stores into AH. */
  function LahfByte(f: Flags): Byte
  {
    Pow2Values();
    Pack(seq(8, i requires 0 <= i < 8 => InLahfMask(i) && f[i]))
  }

  /**
   * LAHF puts SF, ZF, AF, PF and CF at bits 7, 6, 4, 2 and 0 of AH, clears
   * bits 5 and 3, and copies bit 1 of FLAGS.
   */
  lemma LahfLayout(f: Flags)
    ensures var ah := LahfByte(f);
      && (BitAt(ah, 0x80) == 1 <==> IsSet(f, SF))
      && (BitAt(ah, 0x40) == 1 <==> IsSet(f, ZF))
      && BitAt(ah, 0x20) == 0
      && (BitAt(ah, 0x10) == 1 <==> IsSet(f, AF))
      && BitAt(ah, 0x08) == 0
      && (BitAt(ah, 0x04) == 1 <==> IsSet(f, PF))
      && (BitAt(ah, 0x02) == 1 <==> f[1])
      && (BitAt(ah, 0x01) == 1 <==> IsSet(f, CF))
  {
    var bits := seq(8, i requires 0 <= i < 8 => InLahfMask(i) && f[i]);
    var ah := LahfByte(f);
    UnpackPack(bits);
    Pow2Values();
    assert Unpack(ah, 8) == bits;
    UnpackBit(ah, 8, 7);
    UnpackBit(ah, 8, 6);
    UnpackBit(ah, 8, 5);
    UnpackBit(ah, 8, 4);
    UnpackBit(ah, 8, 3);
    UnpackBit(ah, 8, 2);
    UnpackBit(ah, 8, 1);
    UnpackBit(ah, 8, 0);
  }

  /** SAHF as documented: bits 7, 6, 4, 2 and 0 of AH replace SF, ZF, AF, PF and CF. */
  function SahfFlags(f: Flags, ah: Byte): Flags
  {
    var bits := Unpack(ah, 8);
    seq(16, i requires 0 <= i < 16 => if InSahfMask(i) then bits[i] else f[i])
  }

  /** `sahf` as written: `FLAGS |= AH & 0b11010111`, which can set flags but never clear them. */
  function SahfFlagsAsWritten(f: Flags, ah: Byte): Flags
  {
    var bits := Unpack(ah, 8);
    seq(16, i requires 0 <= i < 16 => f[i] || (InLahfMask(i) && bits[i]))
  }

  /** SAHF loads SF, ZF, AF, PF and CF from bits 7, 6, 4, 2 and 0 of AH; OF, DF, IF, TF and the rest are kept. */
  lemma SahfLayout(f: Flags, ah: Byte)
    ensures var f' := SahfFlags(f, ah);
      && (IsSet(f', SF) <==> BitAt(ah, 0x80) == 1)
      && (IsSet(f', ZF) <==> BitAt(ah, 0x40) == 1)
      && (IsSet(f', AF) <==> BitAt(ah, 0x10) == 1)
      && (IsSet(f', PF) <==> BitAt(ah, 0x04) == 1)
      && (IsSet(f', CF) <==> BitAt(ah, 0x01) == 1)
      && (forall i: FlagBit :: !InSahfMask(i) ==> f'[i] == f[i])
  {
    Pow2Values();
    UnpackBit(ah, 8, 7);
    UnpackBit(ah, 8, 6);
    UnpackBit(ah, 8, 4);
    UnpackBit(ah, 8, 2);
    UnpackBit(ah, 8, 0);
  }

  /** LAHF then SAHF leaves FLAGS as it was. */
  lemma LahfSahf(f: Flags)
    ensures SahfFlags(f, LahfByte(f)) == f
  {
    var bits := seq(8, i requires 0 <= i < 8 => InLahfMask(i) && f[i]);
    UnpackPack(bits);
    var f' := SahfFlags(f, LahfByte(f));
    forall i | 0 <= i < 16
      ensures f'[i] == f[i]
    {
      if InSahfMask(i) {
        assert f'[i] == bits[i];
      }
    }
  }

  /** SAHF then LAHF gives back the five flag bits of AH. */
  lemma SahfLahf(f: Flags, ah: Byte)
    ensures var back := LahfByte(SahfFlags(f, ah));
      && BitAt(back, 0x80) == BitAt(ah, 0x80)
      && BitAt(back, 0x40) == BitAt(ah, 0x40)
      && BitAt(back, 0x10) == BitAt(ah, 0x10)
      && BitAt(back, 0x04) == BitAt(ah, 0x04)
      && BitAt(back, 0x01) == BitAt(ah, 0x01)
  {
    LahfLayout(SahfFlags(f, ah));
    SahfLayout(f, ah);
  }

  /** As written, SAHF never clears a flag: with CF set and AH = 0, CF stays set although AH says clear. */
  lemma SahfAsWrittenKeepsCarry(f: Flags, ah: Byte)
    ensures forall i | 0 <= i < 16 :: f[i] ==> SahfFlagsAsWritten(f, ah)[i]
    ensures var g := Assign(NO_FLAGS, CF, true);
      IsSet(SahfFlagsAsWritten(g, 0), CF) && !IsSet(SahfFlags(g, 0), CF)
  {
    var g := Assign(NO_FLAGS, CF, true);
    assert Unpack(0, 8)[0] == false;
  }

  /** lahf: AH gets `FLAGS & 0b11010111`. */
  method Lahf(cpu: Cpu)
    requires cpu.Valid()
    modifies cpu`reg16
    ensures cpu.Valid()
    ensures cpu.reg16 == SetHalf(old(cpu.reg16), AH, LahfByte(cpu.flags))
    ensures cpu.Get8(AH) == LahfByte(cpu.flags)
  {
    cpu.Put8(AH, LahfByte(cpu.flags));
  }

  /** sahf, as documented: SF, ZF, AF, PF and CF are replaced by the bits of AH. */
  method Sahf(cpu: Cpu)
    requires cpu.Valid()
    modifies cpu`flags
    ensures cpu.flags == SahfFlags(old(cpu.flags), cpu.Get8(AH))
  {
    cpu.flags := SahfFlags(cpu.flags, cpu.Get8(AH));
  }
}
