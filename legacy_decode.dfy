/**
 * The older, monolithic 8086 engine: how `_decode` splits the opcode and
 * addressing bytes, and the register file of split byte registers that
 * `_getRegValueForOp` and `_setRegValueForOp` select from.
 */
module LegacyDecode {
  import opened Utils

  /** The fields `_decode` extracts from the opcode byte and the addressing (ModR/M) byte. */
  datatype Decoded = Decoded(opcodeByte: Byte, addressingByte: Byte, opcode: int,
                             d: Bit, w: Bit, mod: Two, reg: Three, rm: Three)

  /**
   * `_decode`: the upper six bits of the opcode byte, its direction bit 1
   * and width bit 0; the mod (bits 7-6), reg (bits 5-3) and rm (bits 2-0)
   * fields of the addressing byte.
   */
  function Decode(opcodeByte: Byte, addressingByte: Byte): (op: Decoded)
    ensures op.opcodeByte == opcodeByte && op.addressingByte == addressingByte
    ensures 0 <= op.opcode < 64
    ensures opcodeByte == 4 * op.opcode + 2 * op.d + op.w
    ensures addressingByte == 64 * op.mod + 8 * op.reg + op.rm
  {
    Decoded(opcodeByte, addressingByte, opcodeByte / 4, (opcodeByte / 2) % 2, opcodeByte % 2,
            addressingByte / 64, (addressingByte / 8) % 8, addressingByte % 8)
  }

  /** Each field is the bit group of its byte that the masks in `_decode` select. */
  lemma DecodeBits(opcodeByte: Byte, addressingByte: Byte)
    ensures var op := Decode(opcodeByte, addressingByte);
      && op.w == BitAt(opcodeByte, 1)
      && op.d == BitAt(opcodeByte, 2)
      && op.rm == addressingByte % 8
      && op.reg == (addressingByte / 8) % 8
      && op.mod == addressingByte / 64
  {
  }

  /** Two byte pairs that decode alike are the same pair: no bit is dropped. */
  lemma DecodeInjective(b1: Byte, a1: Byte, b2: Byte, a2: Byte)
    requires var p, q := Decode(b1, a1), Decode(b2, a2);
      p.opcode == q.opcode && p.d == q.d && p.w == q.w && p.mod == q.mod && p.reg == q.reg && p.rm == q.rm
    ensures b1 == b2 && a1 == a2
  {
    var p, q := Decode(b1, a1), Decode(b2, a2);
    assert b1 == 4 * p.opcode + 2 * p.d + p.w;
    assert a1 == 64 * p.mod + 8 * p.reg + p.rm;
  }

  /**
   * The register fields `_regAL` ... `_regBH`, `_regSP`, `_regBP`,
   * `_regSI` and `_regDI`.  SP is a plain number: `_push` and `_pop` move
   * it by two without masking.
   */
  datatype Regs = Regs(al: Byte, cl: Byte, dl: Byte, bl: Byte, ah: Byte, ch: Byte, dh: Byte, bh: Byte,
                       sp: int, bp: Word, si: Word, di: Word)

  /** BX as the engine composes it, `(BH << 8) | BL`. */
  function BX(r: Regs): Word
  {
    Join(r.bh, r.bl)
  }

  /**
   * `_getRegValueForOp`: with w = 0 the byte register AL, CL, DL, BL, AH,
   * CH, DH or BH; with w = 1 the pairs AX, CX, DX, BX composed as
   * `(H << 8) | L`, then SP, BP, SI, DI.
   */
  function RegValue(r: Regs, w: Bit, reg: Three): int
  {
    if w == 0 then
      [r.al, r.cl, r.dl, r.bl, r.ah, r.ch, r.dh, r.bh][reg]
    else
      [Join(r.ah, r.al), Join(r.ch, r.cl), Join(r.dh, r.dl), Join(r.bh, r.bl), r.sp, r.bp, r.si, r.di][reg]
  }

  /**
   * `_setRegValueForOp`: a byte register receives `value & 0xFF`; a pair
   * receives `(value >> 8) & 0xFF` in its high half and `value & 0xFF` in
   * its low half; SP, BP, SI and DI receive `value & 0xFFFF`.
   */
  function WithReg(r: Regs, w: Bit, reg: Three, value: int): Regs
  {
    var lo, hi, word := ToU8(value), HighByte(value), ToU16(value);
    if w == 0 then
      if reg == 0 then r.(al := lo) else if reg == 1 then r.(cl := lo)
      else if reg == 2 then r.(dl := lo) else if reg == 3 then r.(bl := lo)
      else if reg == 4 then r.(ah := lo) else if reg == 5 then r.(ch := lo)
      else if reg == 6 then r.(dh := lo) else r.(bh := lo)
    else
      if reg == 0 then r.(ah := hi, al := lo) else if reg == 1 then r.(ch := hi, cl := lo)
      else if reg == 2 then r.(dh := hi, dl := lo) else if reg == 3 then r.(bh := hi, bl := lo)
      else if reg == 4 then r.(sp := word) else if reg == 5 then r.(bp := word)
      else if reg == 6 then r.(si := word) else r.(di := word)
  }

  /**
   * Whether two register selections share storage: equal selections, or a
   * byte register and the pair it is a half of (AL and AH are halves of AX,
   * and so on).
   */
  predicate Overlaps(w1: Bit, r1: Three, w2: Bit, r2: Three)
  {
    if w1 == w2 then r1 == r2
    else if w1 == 0 then r2 < 4 && r1 % 4 == r2
    else r1 < 4 && r2 % 4 == r1
  }

  /** `(value >> 8) & 0xFF` and `value & 0xFF` put together give `value & 0xFFFF`. */
  lemma JoinHalves(value: int)
    ensures Join(HighByte(value), ToU8(value)) == ToU16(value)
  {
    var q := value / 0x100;
    assert value == 0x100 * q + ToU8(value);
    DivUnique(value, 0x1_0000, value / 0x1_0000, ToU16(value));
    var k := q / 0x100;
    assert q == 0x100 * k + HighByte(value);
    assert value == 0x1_0000 * k + (0x100 * HighByte(value) + ToU8(value));
    DivUnique(value, 0x1_0000, k, 0x100 * HighByte(value) + ToU8(value));
  }

  /**
   * A register written with `_setRegValueForOp` reads back with
   * `_getRegValueForOp` (same w and reg) as `value & 0xFF` for a byte
   * register and `value & 0xFFFF` for a word register; every register that
   * does not share storage with it keeps its value.
   */
  lemma RegRoundTrip(r: Regs, w: Bit, reg: Three, value: int)
    ensures RegValue(WithReg(r, w, reg, value), w, reg) == if w == 0 then ToU8(value) else ToU16(value)
    ensures forall w2: Bit, r2: Three :: !Overlaps(w, reg, w2, r2) ==>
      RegValue(WithReg(r, w, reg, value), w2, r2) == RegValue(r, w2, r2)
  {
    JoinHalves(value);
  }
}
