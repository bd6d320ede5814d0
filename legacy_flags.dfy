/**
 * `_setFlags` of the older engine: one generic routine that sets or clears
 * each flag named in `flagsToSet` from two operands, a result, an operand
 * width and the kind of operation ("add", "sub" or "or").
 */
module LegacyFlags {
  import opened Utils
  import opened Parity
  import opened FlagRules

  /** The `size` argument: 'b' or 'w'. */
  datatype Width = ByteSize | WordSize

  /** The `operation` argument as the handlers pass it ("mul" and "div" are never passed). */
  datatype Operation = AddOp | SubOp | OrOp

  /** `x >> n` on a 32-bit number: division by 2^n rounded down. */
  function Shr(x: int, n: nat): int
  {
    x / Pow2(n)
  }

  /** The digits of `x.toString(2)` are those of the magnitude of `x`. */
  function Magnitude(x: int): nat
  {
    if x < 0 then -x else x
  }

  /** CF: for "add" and "or", the result exceeds 0xFF (0xFFFF for words); for "sub", operand1 < operand2. */
  predicate CarryRule(op: Operation, size: Width, op1: int, op2: int, result: int)
  {
    match op
    case SubOp => op1 < op2
    case _ => if size == ByteSize then result > 0xFF else result > 0xFFFF
  }

  /** PF: the binary representation of the result has an even number of ones. */
  predicate ParityRule(result: int)
  {
    Popcount(Magnitude(result)) % 2 == 0
  }

  /** AF: for "sub", the low nibble of operand1 is below that of operand2; otherwise `(result & 0x0F) > 0x0F`. */
  predicate AuxRule(op: Operation, op1: int, op2: int, result: int)
  {
    if op == SubOp then op1 % 0x10 < op2 % 0x10 else result % 0x10 > 0x0F
  }

  /** SF: `(result & 0xFF) >> 7` for bytes, `(result & 0xFFFF) >> 15` for words. */
  predicate SignRule(size: Width, result: int)
  {
    if size == ByteSize then ToU8(result) / 0x80 == 1 else ToU16(result) / 0x8000 == 1
  }

  /**
   * OF: with `shift` 7 or 15, both operands shifted right are 1 and the
   * result shifted right is 0, or the other way round.
   */
  predicate OverflowRule(size: Width, op1: int, op2: int, result: int)
  {
    var shift := if size == WordSize then 15 else 7;
    (Shr(op1, shift) == 1 && Shr(op2, shift) == 1 && Shr(result, shift) == 0)
    || (Shr(op1, shift) == 0 && Shr(op2, shift) == 0 && Shr(result, shift) == 1)
  }

  /** The first five steps of `_setFlags`: CF, PF, AF, ZF and SF, the flags that depend on the operands. */
  function ResultFlags(flags: Flags, op1: int, op2: int, result: int, toSet: set<FlagBit>,
                       size: Width, op: Operation): Flags
  {
    var f1 := if CF in toSet then Assign(flags, CF, CarryRule(op, size, op1, op2, result)) else flags;
    var f2 := if PF in toSet then Assign(f1, PF, ParityRule(result)) else f1;
    var f3 := if AF in toSet then Assign(f2, AF, AuxRule(op, op1, op2, result)) else f2;
    var f4 := if ZF in toSet then Assign(f3, ZF, result == 0) else f3;
    if SF in toSet then Assign(f4, SF, SignRule(size, result)) else f4
  }

  /**
   * The flags word after `_setFlags`: each flag named in `toSet` is set or
   * cleared by its rule, in the order CF, PF, AF, ZF, SF, TF, IF, DF, OF;
   * TF, IF and DF are only ever set.
   */
  function FlagsAfter(flags: Flags, op1: int, op2: int, result: int, toSet: set<FlagBit>,
                      size: Width, op: Operation): Flags
  {
    var f5 := ResultFlags(flags, op1, op2, result, toSet, size, op);
    var f6 := if TF in toSet then Assign(f5, TF, true) else f5;
    var f7 := if IF in toSet then Assign(f6, IF, true) else f6;
    var f8 := if DF in toSet then Assign(f7, DF, true) else f7;
    if OF in toSet then Assign(f8, OF, OverflowRule(size, op1, op2, result)) else f8
  }

  /** The flags the arithmetic handlers name: CF, ZF, SF, OF, PF and AF. */
  const ARITH_FLAGS: set<FlagBit> := {CF, ZF, SF, OF, PF, AF}

  /** The flags the OR and XOR handlers name: CF, OF, PF, SF and ZF. */
  const LOGIC_FLAGS: set<FlagBit> := {CF, OF, PF, SF, ZF}

  /** The flags INC and DEC name: everything in ARITH_FLAGS but CF. */
  const STEP_FLAGS: set<FlagBit> := {ZF, SF, OF, PF, AF}

  /**
   * The loop over the characters of `result.toString(2)` that counts the
   * ones, one binary digit at a time.
   */
  method CountOnes(result: int) returns (count: nat)
    ensures count == Popcount(Magnitude(result))
    ensures count % 2 == 0 <==> ParityRule(result)
  {
    var n := Magnitude(result);
    count := 0;
    while n > 0
      invariant count + Popcount(n) == Popcount(Magnitude(result))
      decreases n
    {
      if n % 2 == 1 {
        count := count + 1;
      }
      n := n / 2;
    }
  }

  /**
   * The value `_setFlags` gives flag `b` when `flagsToSet` names it: its
   * rule for CF, PF, AF, ZF, SF and OF, set for TF, IF and DF, and its old
   * value for a bit no step of the routine tests.
   */
  predicate RuleFor(b: FlagBit, flags: Flags, op1: int, op2: int, result: int, size: Width, op: Operation)
  {
    if b == CF then CarryRule(op, size, op1, op2, result)
    else if b == PF then ParityRule(result)
    else if b == AF then AuxRule(op, op1, op2, result)
    else if b == ZF then result == 0
    else if b == SF then SignRule(size, result)
    else if b == TF || b == IF || b == DF then true
    else if b == OF then OverflowRule(size, op1, op2, result)
    else flags[b]
  }

  /** The first five steps give each of their flags its rule and leave every other bit alone. */
  lemma ResultFlagsAt(flags: Flags, op1: int, op2: int, result: int, toSet: set<FlagBit>,
                      size: Width, op: Operation, b: FlagBit)
    ensures ResultFlags(flags, op1, op2, result, toSet, size, op)[b] ==
      if b in toSet && b in {CF, PF, AF, ZF, SF} then RuleFor(b, flags, op1, op2, result, size, op) else flags[b]
  {
  }

  /**
   * Each step of `_setFlags` writes one flag, so the flags word it leaves
   * has every flag named in `flagsToSet` given by its rule and every other
   * flag as it was.
   */
  lemma FlagsAfterAt(flags: Flags, op1: int, op2: int, result: int, toSet: set<FlagBit>,
                     size: Width, op: Operation, b: FlagBit)
    ensures FlagsAfter(flags, op1, op2, result, toSet, size, op)[b] ==
      if b in toSet then RuleFor(b, flags, op1, op2, result, size, op) else flags[b]
  {
    ResultFlagsAt(flags, op1, op2, result, toSet, size, op, b);
  }

  /** `_setFlags` changes no flag outside `flagsToSet`. */
  lemma FlagsAfterKeepsOthers(flags: Flags, op1: int, op2: int, result: int, toSet: set<FlagBit>,
                              size: Width, op: Operation)
    ensures forall b: FlagBit :: b !in toSet ==> FlagsAfter(flags, op1, op2, result, toSet, size, op)[b] == flags[b]
  {
    forall b: FlagBit | b !in toSet
      ensures FlagsAfter(flags, op1, op2, result, toSet, size, op)[b] == flags[b]
    {
      FlagsAfterAt(flags, op1, op2, result, toSet, size, op, b);
    }
  }

  /**
   * ZF is set exactly when the result passed in is zero, and SF is bit 7
   * (bytes) or bit 15 (words) of it.
   */
  lemma ZeroAndSign(flags: Flags, op1: int, op2: int, result: int, toSet: set<FlagBit>,
                    size: Width, op: Operation)
    ensures var f := FlagsAfter(flags, op1, op2, result, toSet, size, op);
      && (ZF in toSet ==> (f[ZF] <==> result == 0))
      && (SF in toSet ==> (f[SF] <==> BitAt(result, if size == ByteSize then 0x80 else 0x8000) == 1))
  {
    FlagsAfterAt(flags, op1, op2, result, toSet, size, op, ZF);
    FlagsAfterAt(flags, op1, op2, result, toSet, size, op, SF);
    SignOfTruncation(result);
  }

  /** Bit 7 survives `& 0xFF` and bit 15 survives `& 0xFFFF`. */
  lemma SignOfTruncation(x: int)
    ensures ToU8(x) / 0x80 == BitAt(x, 0x80)
    ensures ToU16(x) / 0x8000 == BitAt(x, 0x8000)
  {
    var q, t := x / 0x100, ToU8(x);
    var h := t / 0x80;
    assert t == 0x80 * h + t % 0x80 && 0 <= h < 2;
    DivUnique(x, 0x80, 2 * q + h, t % 0x80);
    DivUnique(2 * q + h, 2, q, h);
    var p, u := x / 0x1_0000, ToU16(x);
    var g := u / 0x8000;
    assert u == 0x8000 * g + u % 0x8000 && 0 <= g < 2;
    DivUnique(x, 0x8000, 2 * p + g, u % 0x8000);
    DivUnique(2 * p + g, 2, p, g);
  }

  /**
   * CF for "add" (and "or") tells whether the unwrapped result left the
   * operand width; for "sub" it tells whether the first operand is below
   * the second.
   */
  lemma CarryMeaning(flags: Flags, op1: int, op2: int, result: int, toSet: set<FlagBit>, size: Width, op: Operation)
    requires CF in toSet
    ensures var f := FlagsAfter(flags, op1, op2, result, toSet, size, op);
      && (op == SubOp ==> (f[CF] <==> op1 < op2))
      && (op != SubOp ==> (f[CF] <==> result >= (if size == ByteSize then 0x100 else 0x1_0000)))
  {
    FlagsAfterAt(flags, op1, op2, result, toSet, size, op, CF);
  }

  /** For a result in 0..255, PF agrees with the newer engine's PARITY table. */
  lemma ParityMatchesTable(flags: Flags, op1: int, op2: int, result: int, size: Width, op: Operation)
    requires 0 <= result < 0x100
    ensures FlagsAfter(flags, op1, op2, result, {PF}, size, op)[PF] <==> ParityOf(result) == 1
  {
    ParityTable(result);
  }

  /** For "add" and "or", `(result & 0x0F) > 0x0F` never holds: AF is always cleared. */
  lemma AuxNeverSetByAdd(flags: Flags, op1: int, op2: int, result: int, toSet: set<FlagBit>, size: Width)
    requires AF in toSet
    ensures !FlagsAfter(flags, op1, op2, result, toSet, size, AddOp)[AF]
    ensures !FlagsAfter(flags, op1, op2, result, toSet, size, OrOp)[AF]
  {
    FlagsAfterAt(flags, op1, op2, result, toSet, size, AddOp, AF);
    FlagsAfterAt(flags, op1, op2, result, toSet, size, OrOp, AF);
  }

  /**
   * Fed the unwrapped sum 0x80 + 0x80 = 0x100 of a byte addition, whose
   * stored byte is 0, `_setFlags` clears ZF and PF and, although two
   * negative bytes gave a non-negative one, clears OF.
   */
  lemma UnwrappedSumFlags(flags: Flags)
    ensures var f := FlagsAfter(flags, 0x80, 0x80, 0x100, ARITH_FLAGS, ByteSize, AddOp);
      && ToU8(0x100) == 0 && f[CF] && !f[ZF] && !f[PF] && !f[OF]
  {
    assert Popcount(0x100) == 1 by {
      assert Popcount(0x100) == Popcount(0x80) == Popcount(0x40) == Popcount(0x20) == Popcount(0x10);
      assert Popcount(0x10) == Popcount(8) == Popcount(4) == Popcount(2) == Popcount(1) == 1;
    }
    assert Shr(0x100, 7) == 2 by {
      assert Pow2(7) == 0x80;
    }
  }
}
