/**
 * Operand addressing of the newer engine.  Every addressing mode is an
 * accessor taking a segment value and an optional value: called without a
 * value it reads the operand, called with one it stores it.  Reads of
 * immediates, displacements and ModR/M memory operands also advance
 * `addrIPInc`, the number of instruction bytes the operand occupied, and a
 * [BP+SI]/[BP+DI] operand switches `addrSeg` to SS.
 *
 * What an access returns, stores and advances is given by the functions
 * `Result`, `StoreOf`, `IncOf` and `SegOf` of the state before the access;
 * every accessor method is proved to do exactly that.
 */
module Addressing {
  import opened Utils
  import opened Machine

  /** The addressing modes, named as in the opcode table. */
  datatype Operand =
    | Imm1 | Imm3
    | RegW(r: Reg16)
    | RegB(h: Reg8)
    | Ap | Eb | Ep | Ev | Ew | Gb | Gv | Ib | Iv | Iw | Jb | Jv | M | Mp

  /** What an accessor returns: nothing (`undefined`), a number, or a [segment, offset] pair. */
  datatype Val = Undef | Num(n: int) | Far(segment: int, offset: int)

  /** The effect of an access: none, a new register file, or a new memory. */
  datatype Store = NoStore | RegStore(regs: map<Reg16, Word>) | MemStore(mem: seq<Byte>)

  /** JavaScript truthiness of an optional number: present and non-zero. */
  predicate Truthy(value: Option<int>)
  {
    value.Some? && value.value != 0
  }

  // ---------------------------------------------------------------- memory

  /** readMem8: the byte at segment:offset. */
  function Read8(mem: seq<Byte>, segment: int, offset: int): Byte
    requires |mem| == MemSize
  {
    mem[Phys(segment, offset)]
  }

  /** readMem16: little-endian word at segment:offset. */
  function Read16(mem: seq<Byte>, segment: int, offset: int): Word
    requires |mem| == MemSize
  {
    Join(Read8(mem, segment, offset + 1), Read8(mem, segment, offset))
  }

  /**
   * readMem32: `(m[o+1] << 24) | (m[o] << 16) | (m[o+3] << 8) | m[o+2]`, a
   * signed 32-bit result: its low half is the word at offset + 2 and its
   * high half, shifted down arithmetically, is the word at offset read as
   * a signed number.
   */
  function Read32(mem: seq<Byte>, segment: int, offset: int): (r: int)
    requires |mem| == MemSize
    ensures -0x8000_0000 <= r < 0x8000_0000
    ensures ToU16(r) == Read16(mem, segment, offset + 2)
    ensures r / 0x1_0000 == Signed16(Read16(mem, segment, offset))
  {
    var hi := Read16(mem, segment, offset);
    var lo := Read16(mem, segment, offset + 2);
    var u := Read8(mem, segment, offset + 1) * 0x100_0000 + Read8(mem, segment, offset) * 0x1_0000
             + Read8(mem, segment, offset + 3) * 0x100 + Read8(mem, segment, offset + 2);
    assert u == hi * 0x1_0000 + lo;
    if u >= 0x8000_0000 then
      assert u - 0x1_0000_0000 == (hi - 0x1_0000) * 0x1_0000 + lo;
      u - 0x1_0000_0000
    else
      u
  }

  /** writeMem8: memory with `value & 0xFF` at segment:offset. */
  function Write8(mem: seq<Byte>, segment: int, offset: int, value: int): (mem': seq<Byte>)
    requires |mem| == MemSize
    ensures |mem'| == MemSize
    ensures Read8(mem', segment, offset) == ToU8(value)
    ensures forall a | 0 <= a < MemSize && a != Phys(segment, offset) :: mem'[a] == mem[a]
  {
    mem[Phys(segment, offset) := ToU8(value)]
  }

  /** writeMem16: `value & 0xFF` at offset and `(value >> 8) & 0xFF` at offset + 1. */
  function Write16(mem: seq<Byte>, segment: int, offset: int, value: int): (mem': seq<Byte>)
    requires |mem| == MemSize
    ensures |mem'| == MemSize
    ensures forall a | 0 <= a < MemSize && a != Phys(segment, offset) && a != Phys(segment, offset + 1) ::
      mem'[a] == mem[a]
  {
    Write8(Write8(mem, segment, offset, value), segment, offset + 1, value / 0x100)
  }

  /** A word written with writeMem16 reads back with readMem16 as `value & 0xFFFF`. */
  lemma Write16Read16(mem: seq<Byte>, segment: int, offset: int, value: int)
    requires |mem| == MemSize
    ensures Read16(Write16(mem, segment, offset, value), segment, offset) == ToU16(value)
  {
    PhysNext(segment, offset);
    var m1 := Write8(mem, segment, offset, value);
    var m2 := Write8(m1, segment, offset + 1, value / 0x100);
    assert Read8(m2, segment, offset) == Read8(m1, segment, offset) == ToU8(value);
    assert Read8(m2, segment, offset + 1) == ToU8(value / 0x100);
  }

  // ------------------------------------------------------------- registers

  /** Operand size selected by readRegVal/writeRegVal: 0 byte, 1 word. */
  function OperandSize(opcode: Opcode, sizeOverride: Option<Size>): Bit
  {
    match sizeOverride
    case Some(s) => if s == B then 0 else 1
    case None => opcode.w
  }

  function RegIndex(opcode: Opcode, useRM: bool): Three
  {
    if useRM then opcode.rm else opcode.reg
  }

  /** readRegVal: the register named by the reg (or rm) field, at the operand size. */
  function RegVal(regs: map<Reg16, Word>, opcode: Opcode, useRM: bool, sizeOverride: Option<Size>): Word
    requires Full(regs)
  {
    var i := RegIndex(opcode, useRM);
    if OperandSize(opcode, sizeOverride) == 0 then Half(regs, ByteReg(i)) else regs[WordReg(i)]
  }

  /** writeRegVal: the register file after storing `value` in the register readRegVal reads. */
  function SetRegVal(regs: map<Reg16, Word>, opcode: Opcode, value: int, useRM: bool, sizeOverride: Option<Size>)
    : (regs': map<Reg16, Word>)
    requires Full(regs)
    ensures Full(regs')
  {
    var i := RegIndex(opcode, useRM);
    if OperandSize(opcode, sizeOverride) == 0 then SetHalf(regs, ByteReg(i), value)
    else regs[WordReg(i) := ToU16(value)]
  }

  /**
   * writeRegVal and readRegVal select the same register: a stored value
   * reads back truncated to the operand size, and only the one word
   * register holding the selected register changes.
   */
  lemma RegValRoundTrip(regs: map<Reg16, Word>, opcode: Opcode, value: int, useRM: bool, sizeOverride: Option<Size>)
    requires Full(regs)
    ensures var regs' := SetRegVal(regs, opcode, value, useRM, sizeOverride);
      && RegVal(regs', opcode, useRM, sizeOverride)
         == (if OperandSize(opcode, sizeOverride) == 0 then ToU8(value) else ToU16(value))
      && (forall q: Reg16 :: q != WordReg(RegIndex(opcode, useRM) % 4) && q != WordReg(RegIndex(opcode, useRM))
            ==> regs'[q] == regs[q])
  {
    var i := RegIndex(opcode, useRM);
    if OperandSize(opcode, sizeOverride) == 0 {
      assert Host(ByteReg(i)) == WordReg(i % 4);
    }
  }

  // ---------------------------------------------------- effective addresses

  /** R/M table 2 base registers: [BX+SI] [BX+DI] [BP+SI] [BP+DI] [SI] [DI] [BP] [BX]. */
  function BaseAddr(regs: map<Reg16, Word>, rm: Three): int
    requires Full(regs)
  {
    if rm == 0 then (regs[BX] as int) + regs[SI]
    else if rm == 1 then (regs[BX] as int) + regs[DI]
    else if rm == 2 then (regs[BP] as int) + regs[SI]
    else if rm == 3 then (regs[BP] as int) + regs[DI]
    else if rm == 4 then regs[SI]
    else if rm == 5 then regs[DI]
    else if rm == 6 then regs[BP]
    else regs[BX]
  }

  /** The 16-bit word following the ModR/M byte, read from the code segment. */
  function CodeWord(v: View): Word
    requires Wf(v)
  {
    Read16(v.mem, v.regs[CS], v.ip + 2)
  }

  /** calcRMAddr (mod 00): R/M table 1, table 2 without displacement but with rm 110 a direct address. */
  function RMAddr(v: View): int
    requires Wf(v)
  {
    if v.opcode.rm == 6 then CodeWord(v) else BaseAddr(v.regs, v.opcode.rm)
  }

  /**
   * Displacement of a mod 01 or mod 10 operand: a byte sign-extended, or a
   * word (the corrected reading; see `DisplacementAsWritten`).
   */
  function Displacement(v: View): int
    requires Wf(v)
  {
    if v.opcode.mod == 1 then Signed8(Read8(v.mem, v.regs[CS], v.ip + 2)) else CodeWord(v)
  }

  /** calcRMDispAddr: R/M table 2 base plus displacement. */
  function RMDispAddr(v: View): int
    requires Wf(v)
  {
    BaseAddr(v.regs, v.opcode.rm) + Displacement(v)
  }

  /** The displacement as the engine reads it: the mod 01 byte is taken unsigned. */
  function DisplacementAsWritten(v: View): int
    requires Wf(v)
  {
    if v.opcode.mod == 1 then Read8(v.mem, v.regs[CS], v.ip + 2) else CodeWord(v)
  }

  /** calcRMDispAddr as the engine computes it, with the unsigned byte displacement. */
  function RMDispAddrAsWritten(v: View): int
    requires Wf(v)
  {
    BaseAddr(v.regs, v.opcode.rm) + DisplacementAsWritten(v)
  }

  /**
   * A negative 8-bit displacement such as the 0xFF of [BX-1] lands 256
   * bytes too high when taken unsigned.
   */
  lemma DisplacementAsWrittenIgnoresSign(v: View)
    requires Wf(v) && v.opcode.mod == 1
    requires Read8(v.mem, v.regs[CS], v.ip + 2) >= 0x80
    ensures RMDispAddrAsWritten(v) == RMDispAddr(v) + 0x100
  {
  }

  /**
   * With the displacement sign-extended, the 16-bit address is the base
   * plus the sign-extended byte (mod 01) or plus the word (mod 10), and a
   * byte displacement moves at most 128 bytes either way.
   */
  lemma DisplacementSignExtended(v: View)
    requires Wf(v) && (v.opcode.mod == 1 || v.opcode.mod == 2)
    ensures var base := BaseAddr(v.regs, v.opcode.rm);
      && (v.opcode.mod == 1 ==>
            ToU16(RMDispAddr(v)) == ToU16(base + SignExtend(Read8(v.mem, v.regs[CS], v.ip + 2)))
            && base - 0x80 <= RMDispAddr(v) < base + 0x80)
      && (v.opcode.mod == 2 ==> RMDispAddr(v) == base + CodeWord(v))
  {
    if v.opcode.mod == 1 {
      var b := Read8(v.mem, v.regs[CS], v.ip + 2);
      var base := BaseAddr(v.regs, v.opcode.rm);
      if b >= 0x80 {
        assert SignExtend(b) == Signed8(b) + 0x1_0000;
        assert base + SignExtend(b) == RMDispAddr(v) + 0x1_0000;
      }
    }
  }

  /** The address of a memory operand (mod 00, 01 or 10). */
  function RMAddress(v: View): int
    requires Wf(v) && v.opcode.mod < 3
  {
    if v.opcode.mod == 0 then RMAddr(v) else RMDispAddr(v)
  }

  /** addrIPInc after computing a ModR/M address: 2 for a direct address or word displacement, 1 for a byte displacement. */
  function IncAfterAddr(opcode: Opcode, inc: int): int
  {
    if opcode.mod == 0 then (if opcode.rm == 6 && inc == 0 then 2 else inc)
    else if opcode.mod == 1 then inc + 1
    else if opcode.mod == 2 then (if inc == 0 then 2 else inc)
    else inc
  }

  /** addrSeg after computing a ModR/M address: [BP+SI] and [BP+DI] select SS. */
  function SegAfterAddr(opcode: Opcode, s: Reg16): Reg16
  {
    if opcode.mod == 0 && (opcode.rm == 2 || opcode.rm == 3) then SS else s
  }

  // ------------------------------------------------------ ModR/M operands

  /** readRMReg8: memory byte, or for mod 11 the register readRegVal selects. */
  function RMRead8(v: View, segment: int): Word
    requires Wf(v)
  {
    if v.opcode.mod == 3 then RegVal(v.regs, v.opcode, true, None)
    else Read8(v.mem, segment, RMAddress(v))
  }

  /** readRMReg16. */
  function RMRead16(v: View, segment: int): Word
    requires Wf(v)
  {
    if v.opcode.mod == 3 then RegVal(v.regs, v.opcode, true, None)
    else Read16(v.mem, segment, RMAddress(v))
  }

  /** readRMReg32. */
  function RMRead32(v: View, segment: int): int
    requires Wf(v)
  {
    if v.opcode.mod == 3 then RegVal(v.regs, v.opcode, true, None)
    else Read32(v.mem, segment, RMAddress(v))
  }

  /** writeRMReg8. */
  function RMWrite8(v: View, segment: int, value: int): Store
    requires Wf(v)
  {
    if v.opcode.mod == 3 then RegStore(SetRegVal(v.regs, v.opcode, value, true, None))
    else MemStore(Write8(v.mem, segment, RMAddress(v), value))
  }

  /** writeRMReg16. */
  function RMWrite16(v: View, segment: int, value: int): Store
    requires Wf(v)
  {
    if v.opcode.mod == 3 then RegStore(SetRegVal(v.regs, v.opcode, value, true, None))
    else MemStore(Write16(v.mem, segment, RMAddress(v), value))
  }

  // ----------------------------------------------------------- accessors

  /** A far pointer stored offset first: [word at a + 2, word at a]. */
  function FarAt(mem: seq<Byte>, segment: int, a: int): Val
    requires |mem| == MemSize
  {
    Far(Read16(mem, segment, a + 2), Read16(mem, segment, a))
  }

  /**
   * The Ap operand as the engine reads it: the segment from the word right
   * after the opcode and the offset from the word after that.
   */
  function ApAsWritten(v: View): Val
    requires Wf(v)
  {
    Far(Read16(v.mem, v.regs[CS], v.ip + 1), Read16(v.mem, v.regs[CS], v.ip + 3))
  }

  /** The Ap operand with the 8086 layout of a far pointer: offset first, then segment. */
  function ApValue(v: View): Val
    requires Wf(v)
  {
    FarAt(v.mem, v.regs[CS], v.ip + 1)
  }

  /** What an accessor returns. */
  function Result(v: View, op: Operand, segment: int, value: Option<int>): Outcome<Val>
    requires Wf(v)
  {
    var cs := v.regs[CS];
    var at := v.ip + v.instIPInc;
    match op
    case Imm1 => Ok(Num(1))
    case Imm3 => Ok(Num(3))
    case RegW(r) => Ok(Num(if value.Some? then ToU16(value.value) else v.regs[r]))
    case RegB(h) =>
      if value.Some? && value.value > 0xFF then Fail(ValueOverflow)
      else Ok(Num(if value.Some? then ToU8(value.value) else Half(v.regs, h)))
    case Ap => if Truthy(value) then Fail(InvalidAddressMode) else Ok(ApValue(v))
    case Eb => if value.Some? then Ok(Undef) else Ok(Num(RMRead8(v, segment)))
    case Ep =>
      if Truthy(value) then Fail(InvalidAddressMode)
      else var r := RMRead32(v, segment); Ok(Far(ToU16(r), r / 0x1_0000))
    case Ev | Ew => if value.Some? then Ok(Undef) else Ok(Num(RMRead16(v, segment)))
    case Gb => if value.Some? then Ok(Undef) else Ok(Num(RegVal(v.regs, v.opcode, false, Some(B))))
    case Gv => if value.Some? then Ok(Undef) else Ok(Num(RegVal(v.regs, v.opcode, false, Some(V))))
    case Ib => if value.Some? then Fail(InvalidAddressMode) else Ok(Num(Read8(v.mem, cs, at)))
    case Iv => if value.Some? then Fail(InvalidAddressMode) else Ok(Num(Read16(v.mem, cs, at)))
    case Iw => if value.Some? then Ok(Undef) else Ok(Num(Read16(v.mem, cs, at)))
    case Jb => if Truthy(value) then Fail(InvalidAddressMode) else Ok(Num(v.ip + Signed8(Read8(v.mem, cs, at))))
    case Jv => if Truthy(value) then Fail(InvalidAddressMode) else Ok(Num(v.ip + Signed16(Read16(v.mem, cs, at))))
    case M =>
      if Truthy(value) then Fail(InvalidAddressMode)
      else if v.opcode.mod == 3 then Ok(Undef)
      else Ok(Num(RMAddress(v)))
    case Mp =>
      if Truthy(value) then Fail(InvalidAddressMode)
      else if v.opcode.mod == 3 then Ok(Far(0, 0))
      else Ok(FarAt(v.mem, segment, RMAddress(v)))
  }

  /** What an accessor stores. */
  function StoreOf(v: View, op: Operand, segment: int, value: Option<int>): Store
    requires Wf(v)
  {
    if value.None? then NoStore
    else
      var x := value.value;
      match op
      case RegW(r) => RegStore(v.regs[r := ToU16(x)])
      case RegB(h) => if x > 0xFF then NoStore else RegStore(SetHalf(v.regs, h, x))
      case Eb => RMWrite8(v, segment, ToU8(x))
      case Ev | Ew => RMWrite16(v, segment, ToU16(x))
      case Gb => RegStore(SetRegVal(v.regs, v.opcode, ToU8(x), false, Some(B)))
      case Gv => RegStore(SetRegVal(v.regs, v.opcode, ToU16(x), false, Some(V)))
      case _ => NoStore
  }

  /** `addrIPInc` after an access. */
  function IncOf(op: Operand, opcode: Opcode, value: Option<int>, inc: int): int
  {
    match op
    case Ap => if Truthy(value) then inc else inc + 4
    case Eb | Ev | Ew => IncAfterAddr(opcode, inc)
    case Ep | M | Mp => if Truthy(value) then inc else IncAfterAddr(opcode, inc)
    case Ib => if value.Some? then inc else inc + 1
    case Iv => if value.Some? then inc else inc + 2
    case Iw => inc + 2
    case Jb => if Truthy(value) then inc else inc + 1
    case Jv => if Truthy(value) then inc else inc + 2
    case _ => inc
  }

  /** `addrSeg` after an access. */
  function SegOf(op: Operand, opcode: Opcode, value: Option<int>, s: Reg16): Reg16
  {
    match op
    case Eb | Ev | Ew => SegAfterAddr(opcode, s)
    case Ep | M | Mp => if Truthy(value) then s else SegAfterAddr(opcode, s)
    case _ => s
  }

  /** The registers and memory after `st` has been applied to `v`. */
  ghost predicate Stored(v: View, st: Store, regs: map<Reg16, Word>, mem: seq<Byte>)
  {
    match st
    case NoStore => regs == v.regs && mem == v.mem
    case RegStore(r) => regs == r && mem == v.mem
    case MemStore(m) => regs == v.regs && mem == m
  }

  /** One access of `op` took state `v` (with `inc`, `aseg`) to the primed state and returned `r`. */
  ghost predicate Accessed(v: View, inc: int, aseg: Reg16, op: Operand, segment: int, value: Option<int>,
                           r: Outcome<Val>, regs: map<Reg16, Word>, mem: seq<Byte>, inc': int, aseg': Reg16)
    requires Wf(v)
  {
    && r == Result(v, op, segment, value)
    && Stored(v, StoreOf(v, op, segment, value), regs, mem)
    && inc' == IncOf(op, v.opcode, value, inc)
    && aseg' == SegOf(op, v.opcode, value, aseg)
  }

  /** A word-register accessor stores `value & 0xFFFF`, returns it, and reads it back. */
  lemma WordRegisterWriteRead(v: View, r: Reg16, x: int)
    requires Wf(v)
    ensures StoreOf(v, RegW(r), 0, Some(x)) == RegStore(v.regs[r := ToU16(x)])
    ensures Result(v, RegW(r), 0, Some(x)) == Ok(Num(ToU16(x)))
    ensures Result(v.(regs := v.regs[r := ToU16(x)]), RegW(r), 0, None) == Ok(Num(ToU16(x)))
  {
  }

  /**
   * A byte-register accessor refuses a value above 0xFF and stores nothing;
   * any other value is stored as `value & 0xFF`, returned, and read back,
   * and the other byte registers keep their contents.
   */
  lemma ByteRegisterWriteRead(v: View, h: Reg8, x: int)
    requires Wf(v)
    ensures x > 0xFF ==> Result(v, RegB(h), 0, Some(x)) == Fail(ValueOverflow) && StoreOf(v, RegB(h), 0, Some(x)) == NoStore
    ensures x <= 0xFF ==>
      var regs := SetHalf(v.regs, h, x);
      && StoreOf(v, RegB(h), 0, Some(x)) == RegStore(regs)
      && Result(v, RegB(h), 0, Some(x)) == Ok(Num(ToU8(x)))
      && Result(v.(regs := regs), RegB(h), 0, None) == Ok(Num(ToU8(x)))
      && forall q: Reg8 :: q != h ==> Half(regs, q) == Half(v.regs, q)
  {
  }

  /** Gb stores through writeRegVal and reads back `value & 0xFF`. */
  lemma ByteGeneralWriteRead(v: View, x: int)
    requires Wf(v)
    ensures var regs := SetRegVal(v.regs, v.opcode, ToU8(x), false, Some(B));
      StoreOf(v, Gb, 0, Some(x)) == RegStore(regs) && Result(v.(regs := regs), Gb, 0, None) == Ok(Num(ToU8(x)))
  {
    var regs := SetRegVal(v.regs, v.opcode, ToU8(x), false, Some(B));
    RegValRoundTrip(v.regs, v.opcode, ToU8(x), false, Some(B));
    assert RegVal(regs, v.opcode, false, Some(B)) == ToU8(x);
  }

  /** Gv stores through writeRegVal and reads back `value & 0xFFFF`. */
  lemma WordGeneralWriteRead(v: View, x: int)
    requires Wf(v)
    ensures var regs := SetRegVal(v.regs, v.opcode, ToU16(x), false, Some(V));
      StoreOf(v, Gv, 0, Some(x)) == RegStore(regs) && Result(v.(regs := regs), Gv, 0, None) == Ok(Num(ToU16(x)))
  {
    var regs := SetRegVal(v.regs, v.opcode, ToU16(x), false, Some(V));
    RegValRoundTrip(v.regs, v.opcode, ToU16(x), false, Some(V));
    assert RegVal(regs, v.opcode, false, Some(V)) == ToU16(x);
  }

  /**
   * Ep and Mp read the same far pointer (segment at address + 2, offset at
   * the address); Ep's offset comes out sign-extended, so only its low 16
   * bits agree with Mp's.
   */
  lemma EpAgreesWithMp(v: View, segment: int)
    requires Wf(v) && v.opcode.mod < 3
    ensures Result(v, Ep, segment, None).Ok? && Result(v, Mp, segment, None).Ok?
    ensures var ep := Result(v, Ep, segment, None).value;
      var mp := Result(v, Mp, segment, None).value;
      ep.Far? && mp.Far? && ep.segment == mp.segment && ToU16(ep.offset) == mp.offset
  {
    var a := RMAddress(v);
    var r := Read32(v.mem, segment, a);
    assert ToU16(Signed16(Read16(v.mem, segment, a))) == Read16(v.mem, segment, a);
  }

  /** The engine's Ap swaps the two words of the far pointer that Mp reads in the 8086 order. */
  lemma ApAsWrittenSwapsWords(v: View)
    requires Wf(v)
    ensures ApValue(v) == FarAt(v.mem, v.regs[CS], v.ip + 1)
    ensures ApAsWritten(v) == Far(ApValue(v).offset, ApValue(v).segment)
    ensures ApAsWritten(v) == ApValue(v) <==> ApValue(v).offset == ApValue(v).segment
  {
  }

  /** A short jump operand is the instruction pointer moved by a signed byte. */
  lemma ShortJumpTarget(v: View)
    requires Wf(v)
    ensures var r := Result(v, Jb, 0, None);
      r.Ok? && r.value.Num? && v.ip - 0x80 <= r.value.n < v.ip + 0x80
  {
    var b := Read8(v.mem, v.regs[CS], v.ip + v.instIPInc);
    assert Result(v, Jb, 0, None).value.n == v.ip + Signed8(b);
  }

  /**
   * A near jump operand is the instruction pointer moved by a signed word;
   * to 16 bits that is the instruction pointer plus the word.
   */
  lemma NearJumpTarget(v: View)
    requires Wf(v)
    ensures var r, w := Result(v, Jv, 0, None), Read16(v.mem, v.regs[CS], v.ip + v.instIPInc);
      r.Ok? && r.value.Num? && ToU16(r.value.n) == ToU16(v.ip + w)
  {
    var w := Read16(v.mem, v.regs[CS], v.ip + v.instIPInc);
    assert Result(v, Jv, 0, None).value.n == v.ip + Signed16(w);
    ToU16Add(Signed16(w), v.ip);
  }

  // --------------------------------------------------------------- methods

  /** calcRMAddr. */
  method CalcRMAddr(cpu: Cpu, segment: int) returns (addr: int)
    requires cpu.Valid() && cpu.opcode.mod == 0
    modifies cpu`addrIPInc, cpu`addrSeg
    ensures addr == RMAddr(cpu.Now())
    ensures cpu.addrIPInc == IncAfterAddr(cpu.opcode, old(cpu.addrIPInc))
    ensures cpu.addrSeg == SegAfterAddr(cpu.opcode, old(cpu.addrSeg))
  {
    var rm := cpu.opcode.rm;
    if rm == 0 {
      addr := (cpu.reg16[BX] as int) + cpu.reg16[SI];
    } else if rm == 1 {
      addr := (cpu.reg16[BX] as int) + cpu.reg16[DI];
    } else if rm == 2 {
      addr := (cpu.reg16[BP] as int) + cpu.reg16[SI];
      cpu.addrSeg := SS;
    } else if rm == 3 {
      addr := (cpu.reg16[BP] as int) + cpu.reg16[DI];
      cpu.addrSeg := SS;
    } else if rm == 4 {
      addr := cpu.reg16[SI];
    } else if rm == 5 {
      addr := cpu.reg16[DI];
    } else if rm == 6 {
      addr := Join(cpu.mem[Phys(cpu.reg16[CS], cpu.ip + 3)], cpu.mem[Phys(cpu.reg16[CS], cpu.ip + 2)]);
      if cpu.addrIPInc == 0 {
        cpu.addrIPInc := cpu.addrIPInc + 2;
      }
    } else {
      addr := cpu.reg16[BX];
    }
  }

  /** calcRMDispAddr, with the byte displacement sign-extended. */
  method CalcRMDispAddr(cpu: Cpu, segment: int) returns (addr: int)
    requires cpu.Valid() && (cpu.opcode.mod == 1 || cpu.opcode.mod == 2)
    modifies cpu`addrIPInc
    ensures addr == RMDispAddr(cpu.Now())
    ensures cpu.addrIPInc == IncAfterAddr(cpu.opcode, old(cpu.addrIPInc))
  {
    var disp: int;
    var cs := cpu.reg16[CS];
    if cpu.opcode.mod == 1 {
      disp := Signed8(cpu.mem[Phys(cs, cpu.ip + 2)]);
      cpu.addrIPInc := cpu.addrIPInc + 1;
    } else {
      disp := Join(cpu.mem[Phys(cs, cpu.ip + 3)], cpu.mem[Phys(cs, cpu.ip + 2)]);
      if cpu.addrIPInc == 0 {
        cpu.addrIPInc := cpu.addrIPInc + 2;
      }
    }
    var rm := cpu.opcode.rm;
    if rm == 0 {
      addr := (cpu.reg16[BX] as int) + cpu.reg16[SI] + disp;
    } else if rm == 1 {
      addr := (cpu.reg16[BX] as int) + cpu.reg16[DI] + disp;
    } else if rm == 2 {
      addr := (cpu.reg16[BP] as int) + cpu.reg16[SI] + disp;
    } else if rm == 3 {
      addr := (cpu.reg16[BP] as int) + cpu.reg16[DI] + disp;
    } else if rm == 4 {
      addr := cpu.reg16[SI] + disp;
    } else if rm == 5 {
      addr := cpu.reg16[DI] + disp;
    } else if rm == 6 {
      addr := cpu.reg16[BP] + disp;
    } else {
      addr := cpu.reg16[BX] + disp;
    }
  }

  /** The address of the ModR/M memory operand, by table 1 or table 2. */
  method CalcAddress(cpu: Cpu, segment: int) returns (addr: int)
    requires cpu.Valid() && cpu.opcode.mod < 3
    modifies cpu`addrIPInc, cpu`addrSeg
    ensures addr == RMAddress(cpu.Now())
    ensures cpu.addrIPInc == IncAfterAddr(cpu.opcode, old(cpu.addrIPInc))
    ensures cpu.addrSeg == SegAfterAddr(cpu.opcode, old(cpu.addrSeg))
  {
    if cpu.opcode.mod == 0 {
      addr := CalcRMAddr(cpu, segment);
    } else {
      addr := CalcRMDispAddr(cpu, segment);
    }
  }

  /** writeRegVal. */
  method WriteRegVal(cpu: Cpu, value: int, useRM: bool, sizeOverride: Option<Size>)
    requires cpu.Valid()
    modifies cpu`reg16
    ensures cpu.Valid()
    ensures cpu.reg16 == SetRegVal(old(cpu.reg16), cpu.opcode, value, useRM, sizeOverride)
  {
    var i := RegIndex(cpu.opcode, useRM);
    if OperandSize(cpu.opcode, sizeOverride) == 0 {
      cpu.Put8(ByteReg(i), value);
    } else {
      cpu.Put16(WordReg(i), value);
    }
  }

  /** writeMem8. */
  method WriteMem8(cpu: Cpu, segment: int, offset: int, value: int)
    requires cpu.Valid()
    modifies cpu.mem
    ensures cpu.mem[..] == Write8(old(cpu.mem[..]), segment, offset, value)
  {
    cpu.mem[Phys(segment, offset)] := ToU8(value);
  }

  /** writeMem16. */
  method WriteMem16(cpu: Cpu, segment: int, offset: int, value: int)
    requires cpu.Valid()
    modifies cpu.mem
    ensures cpu.mem[..] == Write16(old(cpu.mem[..]), segment, offset, value)
  {
    cpu.mem[Phys(segment, offset)] := ToU8(value);
    cpu.mem[Phys(segment, offset + 1)] := ToU8(value / 0x100);
  }

  /** readRMReg8. */
  method ReadRMReg8(cpu: Cpu, segment: int) returns (x: Word)
    requires cpu.Valid()
    modifies cpu`addrIPInc, cpu`addrSeg
    ensures x == RMRead8(cpu.Now(), segment)
    ensures cpu.addrIPInc == IncAfterAddr(cpu.opcode, old(cpu.addrIPInc))
    ensures cpu.addrSeg == SegAfterAddr(cpu.opcode, old(cpu.addrSeg))
  {
    if cpu.opcode.mod == 3 {
      x := RegVal(cpu.reg16, cpu.opcode, true, None);
    } else {
      var offset := CalcAddress(cpu, segment);
      x := cpu.mem[Phys(segment, offset)];
    }
  }

  /** readRMReg16. */
  method ReadRMReg16(cpu: Cpu, segment: int) returns (x: Word)
    requires cpu.Valid()
    modifies cpu`addrIPInc, cpu`addrSeg
    ensures x == RMRead16(cpu.Now(), segment)
    ensures cpu.addrIPInc == IncAfterAddr(cpu.opcode, old(cpu.addrIPInc))
    ensures cpu.addrSeg == SegAfterAddr(cpu.opcode, old(cpu.addrSeg))
  {
    if cpu.opcode.mod == 3 {
      x := RegVal(cpu.reg16, cpu.opcode, true, None);
    } else {
      var offset := CalcAddress(cpu, segment);
      x := Join(cpu.mem[Phys(segment, offset + 1)], cpu.mem[Phys(segment, offset)]);
    }
  }

  /** readRMReg32. */
  method ReadRMReg32(cpu: Cpu, segment: int) returns (x: int)
    requires cpu.Valid()
    modifies cpu`addrIPInc, cpu`addrSeg
    ensures x == RMRead32(cpu.Now(), segment)
    ensures cpu.addrIPInc == IncAfterAddr(cpu.opcode, old(cpu.addrIPInc))
    ensures cpu.addrSeg == SegAfterAddr(cpu.opcode, old(cpu.addrSeg))
  {
    if cpu.opcode.mod == 3 {
      x := RegVal(cpu.reg16, cpu.opcode, true, None);
    } else {
      var offset := CalcAddress(cpu, segment);
      x := Read32(cpu.mem[..], segment, offset);
    }
  }

  /** writeRMReg8. */
  method WriteRMReg8(cpu: Cpu, segment: int, value: int)
    requires cpu.Valid()
    modifies cpu`reg16, cpu`addrIPInc, cpu`addrSeg, cpu.mem
    ensures cpu.Valid()
    ensures Stored(old(cpu.Now()), old(RMWrite8(cpu.Now(), segment, value)), cpu.reg16, cpu.mem[..])
    ensures cpu.addrIPInc == IncAfterAddr(cpu.opcode, old(cpu.addrIPInc))
    ensures cpu.addrSeg == SegAfterAddr(cpu.opcode, old(cpu.addrSeg))
  {
    if cpu.opcode.mod == 3 {
      WriteRegVal(cpu, value, true, None);
    } else {
      var offset := CalcAddress(cpu, segment);
      WriteMem8(cpu, segment, offset, value);
    }
  }

  /** writeRMReg16. */
  method WriteRMReg16(cpu: Cpu, segment: int, value: int)
    requires cpu.Valid()
    modifies cpu`reg16, cpu`addrIPInc, cpu`addrSeg, cpu.mem
    ensures cpu.Valid()
    ensures Stored(old(cpu.Now()), old(RMWrite16(cpu.Now(), segment, value)), cpu.reg16, cpu.mem[..])
    ensures cpu.addrIPInc == IncAfterAddr(cpu.opcode, old(cpu.addrIPInc))
    ensures cpu.addrSeg == SegAfterAddr(cpu.opcode, old(cpu.addrSeg))
  {
    if cpu.opcode.mod == 3 {
      WriteRegVal(cpu, value, true, None);
    } else {
      var offset := CalcAddress(cpu, segment);
      WriteMem16(cpu, segment, offset, value);
    }
  }

  /** The word-register accessors AX, BX, CX, DX, SI, DI, BP, SP, CS, DS, ES, SS. */
  method AccessWord(cpu: Cpu, r: Reg16, segment: int, value: Option<int>) returns (res: Outcome<Val>)
    requires cpu.Valid()
    modifies cpu`reg16, cpu`addrIPInc, cpu`addrSeg, cpu.mem
    ensures cpu.Valid()
    ensures Accessed(old(cpu.Now()), old(cpu.addrIPInc), old(cpu.addrSeg), RegW(r), segment, value,
                     res, cpu.reg16, cpu.mem[..], cpu.addrIPInc, cpu.addrSeg)
  {
    if value.Some? {
      cpu.Put16(r, value.value);
      res := Ok(Num(cpu.reg16[r]));
    } else {
      res := Ok(Num(cpu.reg16[r]));
    }
  }

  /** The byte-register accessors AH ... DL: a value above 0xFF overflows. */
  method AccessByte(cpu: Cpu, h: Reg8, segment: int, value: Option<int>) returns (res: Outcome<Val>)
    requires cpu.Valid()
    modifies cpu`reg16, cpu`addrIPInc, cpu`addrSeg, cpu.mem
    ensures cpu.Valid()
    ensures Accessed(old(cpu.Now()), old(cpu.addrIPInc), old(cpu.addrSeg), RegB(h), segment, value,
                     res, cpu.reg16, cpu.mem[..], cpu.addrIPInc, cpu.addrSeg)
  {
    if value.Some? && value.value > 0xFF {
      return Fail(ValueOverflow);
    }
    if value.Some? {
      cpu.Put8(h, value.value);
      res := Ok(Num(cpu.Get8(h)));
    } else {
      res := Ok(Num(cpu.Get8(h)));
    }
  }

  /** Ap: a far pointer taken from the instruction; it cannot be written. */
  method AccessAp(cpu: Cpu, segment: int, value: Option<int>) returns (res: Outcome<Val>)
    requires cpu.Valid()
    modifies cpu`reg16, cpu`addrIPInc, cpu`addrSeg, cpu.mem
    ensures cpu.Valid()
    ensures Accessed(old(cpu.Now()), old(cpu.addrIPInc), old(cpu.addrSeg), Ap, segment, value,
                     res, cpu.reg16, cpu.mem[..], cpu.addrIPInc, cpu.addrSeg)
  {
    if Truthy(value) {
      return Fail(InvalidAddressMode);
    }
    var cs := cpu.reg16[CS];
    var o := Join(cpu.mem[Phys(cs, cpu.ip + 2)], cpu.mem[Phys(cs, cpu.ip + 1)]);
    var s := Join(cpu.mem[Phys(cs, cpu.ip + 4)], cpu.mem[Phys(cs, cpu.ip + 3)]);
    cpu.addrIPInc := cpu.addrIPInc + 4;
    res := Ok(Far(s, o));
  }

  /** Eb: a byte ModR/M operand. */
  method AccessEb(cpu: Cpu, segment: int, value: Option<int>) returns (res: Outcome<Val>)
    requires cpu.Valid()
    modifies cpu`reg16, cpu`addrIPInc, cpu`addrSeg, cpu.mem
    ensures cpu.Valid()
    ensures Accessed(old(cpu.Now()), old(cpu.addrIPInc), old(cpu.addrSeg), Eb, segment, value,
                     res, cpu.reg16, cpu.mem[..], cpu.addrIPInc, cpu.addrSeg)
  {
    if value.Some? {
      WriteRMReg8(cpu, segment, ToU8(value.value));
      res := Ok(Undef);
    } else {
      var x := ReadRMReg8(cpu, segment);
      res := Ok(Num(x));
    }
  }

  /** Ep: a far pointer in the ModR/M memory operand; it cannot be written. */
  method AccessEp(cpu: Cpu, segment: int, value: Option<int>) returns (res: Outcome<Val>)
    requires cpu.Valid()
    modifies cpu`reg16, cpu`addrIPInc, cpu`addrSeg, cpu.mem
    ensures cpu.Valid()
    ensures Accessed(old(cpu.Now()), old(cpu.addrIPInc), old(cpu.addrSeg), Ep, segment, value,
                     res, cpu.reg16, cpu.mem[..], cpu.addrIPInc, cpu.addrSeg)
  {
    if Truthy(value) {
      return Fail(InvalidAddressMode);
    }
    var r := ReadRMReg32(cpu, segment);
    res := Ok(Far(ToU16(r), r / 0x1_0000));
  }

  /** Ev and Ew: a word ModR/M operand (the two accessors are the same code). */
  method AccessEv(cpu: Cpu, op: Operand, segment: int, value: Option<int>) returns (res: Outcome<Val>)
    requires cpu.Valid() && (op == Ev || op == Ew)
    modifies cpu`reg16, cpu`addrIPInc, cpu`addrSeg, cpu.mem
    ensures cpu.Valid()
    ensures Accessed(old(cpu.Now()), old(cpu.addrIPInc), old(cpu.addrSeg), op, segment, value,
                     res, cpu.reg16, cpu.mem[..], cpu.addrIPInc, cpu.addrSeg)
  {
    if value.Some? {
      WriteRMReg16(cpu, segment, ToU16(value.value));
      res := Ok(Undef);
    } else {
      var x := ReadRMReg16(cpu, segment);
      res := Ok(Num(x));
    }
  }

  /** Gb and Gv: the register named by the reg field, at byte or word size. */
  method AccessG(cpu: Cpu, op: Operand, segment: int, value: Option<int>) returns (res: Outcome<Val>)
    requires cpu.Valid() && (op == Gb || op == Gv)
    modifies cpu`reg16, cpu`addrIPInc, cpu`addrSeg, cpu.mem
    ensures cpu.Valid()
    ensures Accessed(old(cpu.Now()), old(cpu.addrIPInc), old(cpu.addrSeg), op, segment, value,
                     res, cpu.reg16, cpu.mem[..], cpu.addrIPInc, cpu.addrSeg)
  {
    var size := if op == Gb then B else V;
    if value.Some? {
      WriteRegVal(cpu, if op == Gb then ToU8(value.value) else ToU16(value.value), false, Some(size));
      res := Ok(Undef);
    } else {
      res := Ok(Num(RegVal(cpu.reg16, cpu.opcode, false, Some(size))));
    }
  }

  /** Ib, Iv and Iw: an immediate in the instruction, read from the code segment. */
  method AccessImm(cpu: Cpu, op: Operand, segment: int, value: Option<int>) returns (res: Outcome<Val>)
    requires cpu.Valid() && (op == Ib || op == Iv || op == Iw)
    modifies cpu`reg16, cpu`addrIPInc, cpu`addrSeg, cpu.mem
    ensures cpu.Valid()
    ensures Accessed(old(cpu.Now()), old(cpu.addrIPInc), old(cpu.addrSeg), op, segment, value,
                     res, cpu.reg16, cpu.mem[..], cpu.addrIPInc, cpu.addrSeg)
  {
    var cs := cpu.reg16[CS];
    var offset := cpu.ip + cpu.instIPInc;
    if value.Some? {
      if op != Iw {
        return Fail(InvalidAddressMode);
      }
      res := Ok(Undef);
    } else if op == Ib {
      res := Ok(Num(cpu.mem[Phys(cs, offset)]));
    } else {
      res := Ok(Num(Join(cpu.mem[Phys(cs, offset + 1)], cpu.mem[Phys(cs, offset)])));
    }
    cpu.addrIPInc := cpu.addrIPInc + (if op == Ib then 1 else 2);
  }

  /** Jb and Jv: a jump target, the instruction pointer plus a signed displacement. */
  method AccessJump(cpu: Cpu, op: Operand, segment: int, value: Option<int>) returns (res: Outcome<Val>)
    requires cpu.Valid() && (op == Jb || op == Jv)
    modifies cpu`reg16, cpu`addrIPInc, cpu`addrSeg, cpu.mem
    ensures cpu.Valid()
    ensures Accessed(old(cpu.Now()), old(cpu.addrIPInc), old(cpu.addrSeg), op, segment, value,
                     res, cpu.reg16, cpu.mem[..], cpu.addrIPInc, cpu.addrSeg)
  {
    if Truthy(value) {
      return Fail(InvalidAddressMode);
    }
    var cs := cpu.reg16[CS];
    var offset := cpu.ip + cpu.instIPInc;
    if op == Jb {
      var x := cpu.mem[Phys(cs, offset)];
      cpu.addrIPInc := cpu.addrIPInc + 1;
      res := Ok(Num(cpu.ip + Signed8(x)));
    } else {
      var x := Join(cpu.mem[Phys(cs, offset + 1)], cpu.mem[Phys(cs, offset)]);
      cpu.addrIPInc := cpu.addrIPInc + 2;
      res := Ok(Num(cpu.ip + Signed16(x)));
    }
  }

  /** M: the address of the memory operand itself; undefined for a register operand. */
  method AccessM(cpu: Cpu, segment: int, value: Option<int>) returns (res: Outcome<Val>)
    requires cpu.Valid()
    modifies cpu`reg16, cpu`addrIPInc, cpu`addrSeg, cpu.mem
    ensures cpu.Valid()
    ensures Accessed(old(cpu.Now()), old(cpu.addrIPInc), old(cpu.addrSeg), M, segment, value,
                     res, cpu.reg16, cpu.mem[..], cpu.addrIPInc, cpu.addrSeg)
  {
    if Truthy(value) {
      return Fail(InvalidAddressMode);
    }
    if cpu.opcode.mod == 3 {
      res := Ok(Undef);
    } else {
      var addr := CalcAddress(cpu, segment);
      res := Ok(Num(addr));
    }
  }

  /**
   * Mp: a far pointer stored at the memory operand.  For a register operand
   * the address is undefined and both words read as 0.
   */
  method AccessMp(cpu: Cpu, segment: int, value: Option<int>) returns (res: Outcome<Val>)
    requires cpu.Valid()
    modifies cpu`reg16, cpu`addrIPInc, cpu`addrSeg, cpu.mem
    ensures cpu.Valid()
    ensures Accessed(old(cpu.Now()), old(cpu.addrIPInc), old(cpu.addrSeg), Mp, segment, value,
                     res, cpu.reg16, cpu.mem[..], cpu.addrIPInc, cpu.addrSeg)
  {
    if Truthy(value) {
      return Fail(InvalidAddressMode);
    }
    if cpu.opcode.mod == 3 {
      res := Ok(Far(0, 0));
    } else {
      var addr := CalcAddress(cpu, segment);
      var o := Join(cpu.mem[Phys(segment, addr + 1)], cpu.mem[Phys(segment, addr)]);
      var s := Join(cpu.mem[Phys(segment, addr + 3)], cpu.mem[Phys(segment, addr + 2)]);
      res := Ok(Far(s, o));
    }
  }

  /** Apply addressing mode `op`: read it (`value` None) or write `value` to it. */
  method Access(cpu: Cpu, op: Operand, segment: int, value: Option<int>) returns (res: Outcome<Val>)
    requires cpu.Valid()
    modifies cpu`reg16, cpu`addrIPInc, cpu`addrSeg, cpu.mem
    ensures cpu.Valid()
    ensures Accessed(old(cpu.Now()), old(cpu.addrIPInc), old(cpu.addrSeg), op, segment, value,
                     res, cpu.reg16, cpu.mem[..], cpu.addrIPInc, cpu.addrSeg)
  {
    match op
    case Imm1 => res := Ok(Num(1));
    case Imm3 => res := Ok(Num(3));
    case RegW(r) => res := AccessWord(cpu, r, segment, value);
    case RegB(h) => res := AccessByte(cpu, h, segment, value);
    case Ap => res := AccessAp(cpu, segment, value);
    case Eb => res := AccessEb(cpu, segment, value);
    case Ep => res := AccessEp(cpu, segment, value);
    case Ev => res := AccessEv(cpu, op, segment, value);
    case Ew => res := AccessEv(cpu, op, segment, value);
    case Gb => res := AccessG(cpu, op, segment, value);
    case Gv => res := AccessG(cpu, op, segment, value);
    case Ib => res := AccessImm(cpu, op, segment, value);
    case Iv => res := AccessImm(cpu, op, segment, value);
    case Iw => res := AccessImm(cpu, op, segment, value);
    case Jb => res := AccessJump(cpu, op, segment, value);
    case Jv => res := AccessJump(cpu, op, segment, value);
    case M => res := AccessM(cpu, segment, value);
    case Mp => res := AccessMp(cpu, segment, value);
  }
}
