/**
 * State of the newer, table-driven 8086 engine: the word register file
 * `reg16` (whose halves are the byte registers of `reg8`), the instruction
 * pointer, the flags word, the 1 MiB byte memory `mem8`, and the decoding
 * state of the current instruction that the addressing modes read and
 * update (`opcode`, `instIPInc`, `addrIPInc`, `addrSeg`).
 */
module Machine {
  import opened Utils

  /** Word registers that have an accessor (IP and FLAGS are kept apart). */
  datatype Reg16 = AX | CX | DX | BX | SP | BP | SI | DI | CS | DS | ES | SS

  /** Byte registers; each is one half of AX, CX, DX or BX. */
  datatype Reg8 = AL | CL | DL | BL | AH | CH | DH | BH

  /** Operand size of the decoded instruction: byte, word, or word-or-dword (treated as word). */
  datatype Size = B | W | V

  /** The fields of the decoded instruction that operands and handlers consult. */
  datatype Opcode = Opcode(opcodeByte: Byte, w: Bit, mod: Two, reg: Three, rm: Three, addrSize: Size)

  /** Exceptions the engine raises. */
  datatype Fault = ValueOverflow | InvalidAddressMode | NotImplemented

  datatype Outcome<T> = Ok(value: T) | Fail(fault: Fault)

  /** The word register that holds a byte register. */
  function Host(r: Reg8): Reg16
  {
    match r
    case AL | AH => AX
    case CL | CH => CX
    case DL | DH => DX
    case BL | BH => BX
  }

  predicate IsHigh(r: Reg8)
  {
    r == AH || r == CH || r == DH || r == BH
  }

  /** Every word register has a value. */
  ghost predicate Full(regs: map<Reg16, Word>)
  {
    forall r: Reg16 :: r in regs
  }

  /** The byte register `r` read out of the word register file. */
  function Half(regs: map<Reg16, Word>, r: Reg8): Byte
    requires Full(regs)
  {
    if IsHigh(r) then regs[Host(r)] / 0x100 else regs[Host(r)] % 0x100
  }

  /** The word register file after storing `v & 0xFF` into byte register `r`. */
  function SetHalf(regs: map<Reg16, Word>, r: Reg8, v: int): (regs': map<Reg16, Word>)
    requires Full(regs)
    ensures Full(regs')
    ensures Half(regs', r) == ToU8(v)
    ensures forall q: Reg8 :: q != r ==> Half(regs', q) == Half(regs, q)
    ensures forall q: Reg16 :: q != Host(r) ==> regs'[q] == regs[q]
  {
    var x := regs[Host(r)];
    regs[Host(r) := if IsHigh(r) then Join(ToU8(v), x % 0x100) else Join(x / 0x100, ToU8(v))]
  }

  /** Byte register selected by a 3-bit reg/rm field: AL, CL, DL, BL, AH, CH, DH, BH. */
  function ByteReg(i: Three): Reg8
  {
    [AL, CL, DL, BL, AH, CH, DH, BH][i]
  }

  /** Word register selected by a 3-bit reg/rm field: AX, CX, DX, BX, SP, BP, SI, DI. */
  function WordReg(i: Three): Reg16
  {
    [AX, CX, DX, BX, SP, BP, SI, DI][i]
  }

  /**
   * What the addressing modes read: registers, instruction pointer, decoded
   * instruction, the offset of the current operand within it, and memory.
   */
  datatype View = View(regs: map<Reg16, Word>, ip: Word, opcode: Opcode, instIPInc: int, mem: seq<Byte>)

  ghost predicate Wf(v: View)
  {
    Full(v.regs) && |v.mem| == MemSize
  }

  class Cpu {
    var reg16: map<Reg16, Word>
    var ip: Word
    var flags: Flags
    const mem: array<Byte>
    var opcode: Opcode
    var instIPInc: int
    var addrIPInc: int
    var addrSeg: Reg16

    ghost predicate Valid()
      reads this`reg16
    {
      mem.Length == MemSize && Full(reg16)
    }

    /** The part of the state that operand reads depend on. */
    function Now(): (v: View)
      reads this`reg16, this`ip, this`opcode, this`instIPInc, mem
      requires Valid()
      ensures Wf(v)
    {
      View(reg16, ip, opcode, instIPInc, mem[..])
    }

    constructor (op: Opcode)
      ensures Valid() && fresh(mem)
      ensures forall r: Reg16 :: reg16[r] == 0
      ensures ip == 0 && flags == NO_FLAGS && opcode == op
      ensures instIPInc == 0 && addrIPInc == 0 && addrSeg == DS
    {
      var regs := map[AX := 0, CX := 0, DX := 0, BX := 0, SP := 0, BP := 0, SI := 0, DI := 0,
                      CS := 0, DS := 0, ES := 0, SS := 0];
      forall r: Reg16 ensures r in regs {
        match r
        case AX | CX | DX | BX | SP | BP | SI | DI | CS | DS | ES | SS =>
      }
      reg16 := regs;
      ip, flags := 0, NO_FLAGS;
      mem := new Byte[MemSize](_ => 0);
      opcode := op;
      instIPInc, addrIPInc, addrSeg := 0, 0, DS;
    }

    function Get16(r: Reg16): Word
      reads this`reg16
      requires Valid()
    {
      reg16[r]
    }

    function Get8(r: Reg8): Byte
      reads this`reg16
      requires Valid()
    {
      Half(reg16, r)
    }

    /** Store into the Uint16Array `reg16`, which keeps `v & 0xFFFF`. */
    method Put16(r: Reg16, v: int)
      requires Valid()
      modifies this`reg16
      ensures Valid()
      ensures reg16 == old(reg16)[r := ToU16(v)]
      ensures Get16(r) == ToU16(v)
    {
      reg16 := reg16[r := ToU16(v)];
    }

    /** Store into the Uint8Array `reg8`, which keeps `v & 0xFF` and shares storage with `reg16`. */
    method Put8(r: Reg8, v: int)
      requires Valid()
      modifies this`reg16
      ensures Valid()
      ensures reg16 == SetHalf(old(reg16), r, v)
      ensures Get8(r) == ToU8(v)
      ensures forall q: Reg8 :: q != r ==> Get8(q) == old(Get8(q))
      ensures forall q: Reg16 :: q != Host(r) ==> Get16(q) == old(Get16(q))
    {
      reg16 := SetHalf(reg16, r, v);
    }
  }
}
