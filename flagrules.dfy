/**
 * The flag engine of the newer engine: `flagSub` and the helpers it calls,
 * which set or clear one bit of the flags word at a time, and lemmas that
 * read each rule arithmetically (unsigned borrow, signed overflow, borrow
 * out of the low nibble, sign, parity).
 */
module FlagRules {
  import opened Utils
  import opened Machine
  import opened Parity


  /** The flags word with flag `b` set (`|= mask`) or cleared (`&= ~mask`). */
  function Assign(flags: Flags, b: FlagBit, on: bool): Flags
  {
    flags[b := on]
  }

  /** The flags that `flagSub` assigns: CF, PF, AF, ZF, SF and OF. */
  predicate Arithmetic(b: FlagBit)
  {
    b == CF || b == PF || b == AF || b == ZF || b == SF || b == OF
  }

  /** Every bit outside the arithmetic group is as in `flags`. */
  ghost predicate KeepsOthers(f: Flags, flags: Flags)
  {
    forall b: FlagBit :: !Arithmetic(b) ==> f[b] == flags[b]
  }

  /** Weight of the sign bit of an operand of the given size. */
  function SignWeight(size: Size): (m: int)
    ensures m > 0
  {
    if size == B then 0x80 else 0x8000
  }

  /** `(v1 - v2) & (size === b ? 0xFF00 : 0xFFFF0000)` is non-zero. */
  predicate CarryOn(size: Size, v1: int, v2: int)
  {
    var x := v1 - v2;
    if size == B then (x / 0x100) % 0x100 != 0 else (x / 0x1_0000) % 0x1_0000 != 0
  }

  /** `(result ^ v1) & (v1 ^ v2)` has the sign bit set. */
  predicate OverflowOn(size: Size, v1: int, v2: int, result: int)
  {
    var m := SignWeight(size);
    BitAt(result, m) != BitAt(v1, m) && BitAt(v1, m) != BitAt(v2, m)
  }

  /** `(v1 ^ v2 ^ result) & 0x10` is non-zero. */
  predicate AuxOn(v1: int, v2: int, result: int)
  {
    (BitAt(v1, 0x10) + BitAt(v2, 0x10) + BitAt(result, 0x10)) % 2 == 1
  }

  /** `PARITY[result & 0xFF]` is truthy. */
  predicate ParityOn(result: int)
  {
    ParityOf(ToU8(result)) == 1
  }

  /**
   * The sign rule: for two's-complement results, bit 7 of a byte result or
   * bit 15 of the result; otherwise whether the result is negative.
   */
  predicate SignOn(size: Size, result: int, twosComplement: bool)
  {
    if twosComplement then (size == B && BitAt(ToU8(result), 0x80) == 1) || BitAt(ToU16(result), 0x8000) == 1
    else result < 0
  }

  /**
   * The flags word after assigning, in this order, CF, OF, AF, PF, SF and ZF
   * (the order in which `flagSub` and the helpers it calls touch them).
   */
  function SetArith(flags: Flags, c: bool, o: bool, a: bool, p: bool, s: bool, z: bool): Flags
  {
    Assign(Assign(Assign(Assign(Assign(Assign(flags, CF, c), OF, o), AF, a), PF, p), SF, s), ZF, z)
  }

  /** Each of the six assignments decides its own flag; every other bit is kept. */
  lemma SetArithBits(flags: Flags, c: bool, o: bool, a: bool, p: bool, s: bool, z: bool)
    ensures var f := SetArith(flags, c, o, a, p, s, z);
      && (IsSet(f, CF) <==> c) && (IsSet(f, OF) <==> o) && (IsSet(f, AF) <==> a)
      && (IsSet(f, PF) <==> p) && (IsSet(f, SF) <==> s) && (IsSet(f, ZF) <==> z)
      && KeepsOthers(f, flags)
  {
  }

  /** The flags after `flagSub(v1, v2, result)`. */
  function SubFlags(flags: Flags, size: Size, v1: int, v2: int, result: int): Flags
  {
    SetArith(flags, CarryOn(size, v1, v2), OverflowOn(size, v1, v2, result), AuxOn(v1, v2, result),
             ParityOn(result), SignOn(size, result, true), result == 0)
  }

  // ------------------------------------------------------------ what the flags mean

  /** Number of values of an operand of the given size. */
  function Modulus(size: Size): int
  {
    if size == B then 0x100 else 0x1_0000
  }

  /** `x` is an unsigned operand of the given size. */
  predicate Fits(size: Size, x: int)
  {
    0 <= x < Modulus(size)
  }

  /** Two's-complement value of an operand of the given size. */
  function Signed(size: Size, x: int): int
    requires Fits(size, x)
  {
    if size == B then Signed8(x) else Signed16(x)
  }

  /** The underflow rule of the subtracting handlers: a negative difference gets `0xFF + 1` or `0xFFFF + 1` added. */
  function Wrap(size: Size, x: int): int
  {
    if x < 0 then Modulus(size) + x else x
  }

  /** For a difference of two operands, the underflow rule is reduction modulo the operand range. */
  lemma WrapIsModular(size: Size, x: int)
    requires -Modulus(size) < x < Modulus(size)
    ensures Wrap(size, x) == x % Modulus(size)
    ensures Fits(size, Wrap(size, x))
  {
  }

  /** With a borrow-in `c`, the code's carry rule on `d` and `s + c` is an unsigned borrow. */
  lemma CarryMeaning(size: Size, d: int, s: int, c: int)
    requires Fits(size, d) && Fits(size, s) && 0 <= c <= 1
    ensures CarryOn(size, d, s + c) <==> d < s + c
  {
    var x := d - (s + c);
    if size == B {
      if x < 0 {
        assert x / 0x100 == -1;
      } else {
        assert x / 0x100 == 0;
      }
    } else {
      if x < 0 {
        assert x / 0x1_0000 == -1;
      } else {
        assert x / 0x1_0000 == 0;
      }
    }
  }

  /** The sign bit of an operand is set exactly when it is at least half the range. */
  lemma SignBit(size: Size, x: int)
    requires Fits(size, x)
    ensures BitAt(x, SignWeight(size)) == if x >= SignWeight(size) then 1 else 0
  {
  }

  lemma SignedValue(size: Size, x: int)
    requires Fits(size, x)
    ensures Signed(size, x) == if x >= SignWeight(size) then x - Modulus(size) else x
  {
  }

  /** The wrapped difference `d - s - c` of two operands is again an operand. */
  lemma WrapBorrow(size: Size, d: int, s: int, c: int)
    requires Fits(size, d) && Fits(size, s) && 0 <= c <= 1
    ensures Wrap(size, d - s - c) == (d - s - c) % Modulus(size)
    ensures Fits(size, Wrap(size, d - s - c))
  {
  }

  /** The code's overflow rule is signed overflow of `d - s - c`, for a borrow-in `c` of 0 or 1. */
  lemma OverflowMeaning(size: Size, d: int, s: int, c: int)
    requires Fits(size, d) && Fits(size, s) && 0 <= c <= 1
    ensures var r := Wrap(size, d - s - c);
      OverflowOn(size, d, s, r) <==> !(-SignWeight(size) <= Signed(size, d) - Signed(size, s) - c < SignWeight(size))
  {
    var r := Wrap(size, d - s - c);
    WrapBorrow(size, d, s, c);
    SignBit(size, d);
    SignBit(size, s);
    SignBit(size, r);
    SignedValue(size, d);
    SignedValue(size, s);
  }

  /** Bit 4 does not see multiples of 32. */
  lemma Bit4Shift(x: int, k: int)
    ensures BitAt(x + 32 * k, 0x10) == BitAt(x, 0x10)
  {
    assert (x + 32 * k) / 0x10 == x / 0x10 + 2 * k;
  }

  /** The code's auxiliary-carry rule is a borrow out of the low nibble of `d - s - c`. */
  lemma AuxMeaning(size: Size, d: int, s: int, c: int)
    requires Fits(size, d) && Fits(size, s) && 0 <= c <= 1
    ensures AuxOn(d, s, Wrap(size, d - s - c)) <==> d % 16 < s % 16 + c
  {
    var x := d - s - c;
    WrapBit4(size, x);
    var dh, sh := d / 16, s / 16;
    var borrow := if d % 16 < s % 16 + c then 1 else 0;
    assert x / 16 == dh - sh - borrow;
    assert BitAt(x, 0x10) == (dh - sh - borrow) % 2;
    HighNibbleBorrow(dh, sh, borrow);
  }

  /** Wrapping a difference adds a multiple of 32, which bit 4 does not see. */
  lemma WrapBit4(size: Size, x: int)
    requires -Modulus(size) <= x
    ensures BitAt(Wrap(size, x), 0x10) == BitAt(x, 0x10)
  {
    if x < 0 {
      Bit4Shift(x, Modulus(size) / 32);
    }
  }

  lemma HighNibbleBorrow(dh: int, sh: int, borrow: int)
    requires 0 <= borrow <= 1
    ensures (dh % 2 + sh % 2 + (dh - sh - borrow) % 2) % 2 == borrow
  {
  }

  lemma SignMeaning(size: Size, r: int)
    requires Fits(size, r)
    ensures SignOn(size, r, true) <==> r >= SignWeight(size)
  {
  }

  /** The flag rules of `flagSub`, read arithmetically, for `d - s - c` with a borrow-in `c` of 0 or 1. */
  lemma DifferenceMeaning(size: Size, d: int, s: int, c: int)
    requires Fits(size, d) && Fits(size, s) && 0 <= c <= 1
    ensures var r := Wrap(size, d - s - c);
      && r == (d - s - c) % Modulus(size)
      && Fits(size, r)
      && (CarryOn(size, d, s + c) <==> d < s + c)
      && (OverflowOn(size, d, s, r) <==> !(-SignWeight(size) <= Signed(size, d) - Signed(size, s) - c < SignWeight(size)))
      && (AuxOn(d, s, r) <==> d % 16 < s % 16 + c)
      && (SignOn(size, r, true) <==> r >= SignWeight(size))
      && (ParityOn(r) <==> Popcount(ToU8(r)) % 2 == 0)
  {
    var r := Wrap(size, d - s - c);
    WrapBorrow(size, d, s, c);
    CarryMeaning(size, d, s, c);
    OverflowMeaning(size, d, s, c);
    AuxMeaning(size, d, s, c);
    SignMeaning(size, r);
    ParityTable(ToU8(r));
  }

  /**
   * For operands of the instruction's size, `flagSub(d, s, result)` with the
   * wrapped difference sets CF on unsigned borrow, ZF on equality, SF on a
   * negative result, OF on signed overflow, AF on a borrow out of the low
   * nibble and PF on an even number of set bits in the low byte.
   */
  lemma SubFlagsMeaning(flags: Flags, size: Size, d: int, s: int)
    requires Fits(size, d) && Fits(size, s)
    ensures var r := Wrap(size, d - s); var f := SubFlags(flags, size, d, s, r);
      && r == (d - s) % Modulus(size)
      && (IsSet(f, CF) <==> d < s)
      && (IsSet(f, ZF) <==> d == s)
      && (IsSet(f, SF) <==> r >= SignWeight(size))
      && (IsSet(f, OF) <==> !(-SignWeight(size) <= Signed(size, d) - Signed(size, s) < SignWeight(size)))
      && (IsSet(f, AF) <==> d % 16 < s % 16)
      && (IsSet(f, PF) <==> Popcount(ToU8(r)) % 2 == 0)
      && KeepsOthers(f, flags)
  {
    var r := Wrap(size, d - s);
    WrapIsModular(size, d - s);
    NoBorrowMeaning(size, d, s);
    SignMeaning(size, r);
    ParityTable(ToU8(r));
    SetArithBits(flags, CarryOn(size, d, s), OverflowOn(size, d, s, r), AuxOn(d, s, r),
                 ParityOn(r), SignOn(size, r, true), r == 0);
  }

  /** CF, OF and AF of a plain difference: the borrow-in rules with no borrow coming in. */
  lemma NoBorrowMeaning(size: Size, d: int, s: int)
    requires Fits(size, d) && Fits(size, s)
    ensures var r := Wrap(size, d - s);
      && (CarryOn(size, d, s) <==> d < s)
      && (OverflowOn(size, d, s, r) <==> !(-SignWeight(size) <= Signed(size, d) - Signed(size, s) < SignWeight(size)))
      && (AuxOn(d, s, r) <==> d % 16 < s % 16)
  {
    var r := Wrap(size, d - s);
    assert d - s - 0 == d - s && s + 0 == s;
    CarryMeaning(size, d, s, 0);
    OverflowMeaning(size, d, s, 0);
    AuxMeaning(size, d, s, 0);
  }

  // ------------------------------------------------------------ flag helpers on the processor

  /** setPF_FLAG: PF from the parity-table entry of the low byte of the result. */
  method SetPF(cpu: Cpu, result: int)
    modifies cpu`flags
    ensures cpu.flags == Assign(old(cpu.flags), PF, ParityOn(result))
  {
    var on := ParityOf(ToU8(result)) == 1;
    cpu.flags := Assign(cpu.flags, PF, on);
  }

  /** setSF_FLAG: bit 7 (byte) or bit 15 of a two's-complement result, otherwise the result's sign. */
  method SetSF(cpu: Cpu, result: int, twosComplement: bool)
    modifies cpu`flags
    ensures cpu.flags == Assign(old(cpu.flags), SF, SignOn(cpu.opcode.addrSize, result, twosComplement))
  {
    var on: bool;
    if twosComplement {
      var size := cpu.opcode.addrSize;
      if size == B && BitAt(ToU8(result), 0x80) == 1 {
        on := true;
      } else {
        on := BitAt(ToU16(result), 0x8000) == 1;
      }
    } else {
      on := result < 0;
    }
    cpu.flags := Assign(cpu.flags, SF, on);
  }

  /** setZF_FLAG. */
  method SetZF(cpu: Cpu, result: int)
    modifies cpu`flags
    ensures cpu.flags == Assign(old(cpu.flags), ZF, result == 0)
  {
    cpu.flags := Assign(cpu.flags, ZF, 0 == result);
  }

  /** flagSub: CF, OF and AF from the operands and the result, then PF, SF and ZF from the result. */
  method FlagSub(cpu: Cpu, v1: int, v2: int, result: int)
    modifies cpu`flags
    ensures cpu.flags == SubFlags(old(cpu.flags), cpu.opcode.addrSize, v1, v2, result)
  {
    var size := cpu.opcode.addrSize;
    cpu.flags := Assign(cpu.flags, CF, CarryOn(size, v1, v2));
    cpu.flags := Assign(cpu.flags, OF, OverflowOn(size, v1, v2, result));
    cpu.flags := Assign(cpu.flags, AF, AuxOn(v1, v2, result));
    SetPF(cpu, result);
    SetSF(cpu, result, true);
    SetZF(cpu, result);
  }
}
