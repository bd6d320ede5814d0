/**
 * The state the older engine's handlers work on, as a value, and the
 * helpers every handler shares: `segment2absolute` with its segment
 * overrides, the ModR/M operand read and write with their side effect on
 * `_tempIP`, `_getRMIncIP`, `_push`, `_pop`, `_shortJump`, and the prefix
 * handling at the start of `emulateCycle`.
 */
module LegacyState {
  import opened Utils
  import Addressing
  import opened LegacyDecode

  /** `_regCS`, `_regDS`, `_regES` and `_regSS`. */
  datatype Segs = Segs(cs: Word, ds: Word, es: Word, ss: Word)

  /** `_CS_OVERRIDE`, `_DS_OVERRIDE`, `_ES_OVERRIDE` and `_SS_OVERRIDE`. */
  datatype Overrides = Overrides(cs: bool, ds: bool, es: bool, ss: bool)

  const NO_OVERRIDES := Overrides(false, false, false, false)

  /**
   * Everything one cycle reads or changes: the registers, IP (a plain
   * number that handlers move without masking), the flags, the 1 MiB
   * memory, the override flags and `_tempIP`, the count of displacement
   * bytes the operand accessors have seen this cycle.
   */
  datatype State = State(regs: Regs, segs: Segs, ip: int, flags: Flags, mem: seq<Byte>,
                         over: Overrides, tempIP: int)

  predicate Wf(s: State)
  {
    |s.mem| == MemSize
  }

  /**
   * The segment `segment2absolute` uses: a set override replaces the one
   * passed in, CS before DS before ES before SS.
   */
  function Chosen(s: State, segment: int): int
  {
    Effective(s.segs, s.over, segment)
  }

  /** The same choice made from the segment registers and the override flags alone. */
  function Effective(segs: Segs, over: Overrides, segment: int): int
  {
    if over.cs then segs.cs
    else if over.ds then segs.ds
    else if over.es then segs.es
    else if over.ss then segs.ss
    else segment
  }

  /** The byte at `segment2absolute(segment, offset)`. */
  function Peek(s: State, segment: int, offset: int): Byte
    requires Wf(s)
  {
    Addressing.Read8(s.mem, Chosen(s, segment), offset)
  }

  /** `(m[a + 1] << 8) | m[a]` with both addresses from `segment2absolute`. */
  function PeekWord(s: State, segment: int, offset: int): Word
    requires Wf(s)
  {
    Addressing.Read16(s.mem, Chosen(s, segment), offset)
  }

  /** Whether an override flag is set. */
  predicate Overridden(o: Overrides)
  {
    o.cs || o.ds || o.es || o.ss
  }

  /**
   * Without an override `segment2absolute` honours the segment it is
   * given; with one, the segment passed in does not matter.
   */
  lemma ChosenSegment(s: State, segment: int, other: int)
    ensures !Overridden(s.over) ==> Chosen(s, segment) == segment
    ensures Overridden(s.over) ==> Chosen(s, segment) == Chosen(s, other)
    ensures s.over.cs ==> Chosen(s, segment) == s.segs.cs
  {
  }

  // ------------------------------------------------------------ ModR/M operand

  /**
   * The address table of the r/m field: BX+SI, BX+DI, BP+SI, BP+DI, SI, DI,
   * `six` (a direct address with mod 0, BP otherwise), BX.
   */
  function Base(r: Regs, rm: Three, six: int): int
  {
    [BX(r) + r.si, BX(r) + r.di, r.bp + r.si, r.bp + r.di, r.si, r.di, six, BX(r)][rm]
  }

  /** The displacement: the unsigned byte at CS:IP+2 (mod 1) or the word at CS:IP+2 (mod 2). */
  function Displacement(s: State, op: Decoded): Word
    requires Wf(s)
  {
    if op.mod == 1 then Peek(s, s.segs.cs, s.ip + 2)
    else if op.mod == 2 then PeekWord(s, s.segs.cs, s.ip + 2)
    else 0
  }

  /** The offset of a memory operand (mod 0, 1 or 2). */
  function RmAddress(s: State, op: Decoded): int
    requires Wf(s)
  {
    if op.mod == 0 then Base(s.regs, op.rm, PeekWord(s, s.segs.cs, s.ip + 2))
    else Base(s.regs, op.rm, s.regs.bp) + Displacement(s, op)
  }

  /**
   * How much one operand access adds to `_tempIP`: 2 for a direct address,
   * 1 for a byte displacement, 2 for a word displacement, 0 otherwise.
   */
  function RmCount(op: Decoded): (n: nat)
    ensures n <= 2
    ensures n == 0 <==> op.mod == 3 || (op.mod == 0 && op.rm != 6)
  {
    if op.mod == 0 && op.rm == 6 then 2
    else if op.mod == 1 then 1
    else if op.mod == 2 then 2
    else 0
  }

  /** A byte (w = 0) or a word (w = 1) of memory at CS:offset. */
  function Datum(s: State, w: Bit, offset: int): Word
    requires Wf(s)
  {
    if w == 0 then Peek(s, s.segs.cs, offset) else PeekWord(s, s.segs.cs, offset)
  }

  /** `_getRMValueForOp`: the register selected by rm (mod 3) or the memory operand. */
  function RmValue(s: State, op: Decoded): int
    requires Wf(s)
  {
    if op.mod == 3 then RegValue(s.regs, op.w, op.rm) else Datum(s, op.w, RmAddress(s, op))
  }

  /** The `_tempIP` bump of `_getRMValueForOp`. */
  function AfterRmRead(s: State, op: Decoded): State
  {
    s.(tempIP := s.tempIP + RmCount(op))
  }

  /** `value & 0xFF` for a byte operand, `value & 0xFFFF` for a word. */
  function Masked(w: Bit, value: int): Word
  {
    if w == 0 then ToU8(value) else ToU16(value)
  }

  /**
   * `_setRMValueForOp`: the register selected by rm receives the value
   * (mod 3), or the memory operand receives `value & 0xFF` and, for a word,
   * `(value >> 8) & 0xFF` one byte higher; a memory write bumps `_tempIP`
   * as the read does.
   */
  function WithRm(s: State, op: Decoded, value: int): (s': State)
    requires Wf(s)
    ensures Wf(s')
  {
    if op.mod == 3 then
      s.(regs := WithReg(s.regs, op.w, op.rm, value))
    else
      var a := RmAddress(s, op);
      var mem := if op.w == 0 then Addressing.Write8(s.mem, Chosen(s, s.segs.cs), a, value)
                 else Addressing.Write16(s.mem, Chosen(s, s.segs.cs), a, value);
      s.(mem := mem, tempIP := s.tempIP + RmCount(op))
  }

  /**
   * A value written to the r/m operand reads back, at the address the write
   * used, as its low byte or low word; a memory write leaves the registers
   * and every other cell alone, a register write leaves memory alone.
   */
  lemma RmRoundTrip(s: State, op: Decoded, value: int)
    requires Wf(s)
    ensures var s' := WithRm(s, op, value);
      && (op.mod == 3 ==> RmValue(s', op) == Masked(op.w, value) && s'.mem == s.mem && s'.tempIP == s.tempIP)
      && (op.mod != 3 ==>
            && Datum(s', op.w, RmAddress(s, op)) == Masked(op.w, value)
            && s'.regs == s.regs
            && s'.tempIP == s.tempIP + RmCount(op)
            && forall a | 0 <= a < MemSize && a != Phys(Chosen(s, s.segs.cs), RmAddress(s, op))
                 && a != Phys(Chosen(s, s.segs.cs), RmAddress(s, op) + 1) :: s'.mem[a] == s.mem[a])
  {
    var s' := WithRm(s, op, value);
    if op.mod == 3 {
      RegRoundTrip(s.regs, op.w, op.rm, value);
    } else if op.w == 1 {
      Addressing.Write16Read16(s.mem, Chosen(s, s.segs.cs), RmAddress(s, op), value);
    }
  }

  /**
   * `_getRMIncIP`, the operand length the immediate forms skip: 1 (byte) or
   * 2 (word) for a direct address, 2 for any displacement, 0 otherwise.
   */
  function RmIncIP(op: Decoded): nat
  {
    if op.mod == 0 then
      if op.rm == 6 then (if op.w == 0 then 1 else 2) else 0
    else if op.mod == 1 || op.mod == 2 then 2
    else 0
  }

  /**
   * `_getRMIncIP` agrees with the bytes the operand accessors count except
   * for a byte displacement (it says 2) and a byte operand at a direct
   * address (it says 1), where it is one short or one over.
   */
  lemma RmIncIPVersusCount(op: Decoded)
    ensures RmIncIP(op) == RmCount(op) <==> !(op.mod == 1 || (op.mod == 0 && op.rm == 6 && op.w == 0))
    ensures op.mod == 1 ==> RmIncIP(op) == RmCount(op) + 1
    ensures op.mod == 0 && op.rm == 6 && op.w == 0 ==> RmIncIP(op) == RmCount(op) - 1
  {
  }

  // ------------------------------------------------------------------ stack

  /**
   * `_push`: SP moves down by two (without masking), then the low byte of
   * the value goes to SS:SP and `value >> 8` to SS:SP+1.
   */
  function Pushed(s: State, value: int): (s': State)
    requires Wf(s)
    ensures Wf(s')
  {
    var sp := s.regs.sp - 2;
    s.(regs := s.regs.(sp := sp), mem := Addressing.Write16(s.mem, Chosen(s, s.segs.ss), sp, value))
  }

  /** The word `_pop` returns: `(m[SS:SP+1] << 8) | m[SS:SP]`. */
  function Top(s: State): Word
    requires Wf(s)
  {
    PeekWord(s, s.segs.ss, s.regs.sp)
  }

  /** `_pop` after reading: both stack cells are zeroed and SP moves up by two. */
  function Popped(s: State): (s': State)
    requires Wf(s)
    ensures Wf(s')
  {
    s.(regs := s.regs.(sp := s.regs.sp + 2), mem := Addressing.Write16(s.mem, Chosen(s, s.segs.ss), s.regs.sp, 0))
  }

  /**
   * A pop right after a push returns the pushed value masked to 16 bits and
   * restores every register; memory is as before except that the two cells
   * the push used are now zero.
   */
  lemma PushThenPop(s: State, value: int)
    requires Wf(s)
    ensures Top(Pushed(s, value)) == ToU16(value)
    ensures Popped(Pushed(s, value)).regs == s.regs
    ensures var m := Popped(Pushed(s, value)).mem;
      var segment := Chosen(s, s.segs.ss);
      && m[Phys(segment, s.regs.sp - 2)] == 0 && m[Phys(segment, s.regs.sp - 1)] == 0
      && forall a | 0 <= a < MemSize && a != Phys(segment, s.regs.sp - 2) && a != Phys(segment, s.regs.sp - 1) ::
           m[a] == s.mem[a]
  {
    var segment := Chosen(s, s.segs.ss);
    var p := Pushed(s, value);
    Addressing.Write16Read16(s.mem, segment, s.regs.sp - 2, value);
    assert p.regs.sp == s.regs.sp - 2;
    var m := Addressing.Write16(p.mem, segment, p.regs.sp, 0);
    PhysNext(segment, s.regs.sp - 2);
    assert Addressing.Read8(m, segment, p.regs.sp + 1) == 0;
    assert Addressing.Read8(Addressing.Write8(p.mem, segment, p.regs.sp, 0), segment, p.regs.sp) == 0;
  }

  // ------------------------------------------------------------------ jumps

  /**
   * `_shortJump`: the byte at CS:IP+1 read as a two's-complement offset,
   * added to IP together with the two bytes of the instruction.
   */
  function Jumped(s: State): State
    requires Wf(s)
  {
    s.(ip := s.ip + Signed8(Peek(s, s.segs.cs, s.ip + 1)) + 2)
  }

  // ------------------------------------------------------------------ fetch

  /**
   * The override a segment prefix selects: 0x26 ES, 0x36 SS, 0x2E CS,
   * 0x3E DS; any other byte is not a prefix.
   */
  function PrefixOverride(b: Byte): Option<Overrides>
  {
    if b == 0x26 then Some(NO_OVERRIDES.(es := true))
    else if b == 0x36 then Some(NO_OVERRIDES.(ss := true))
    else if b == 0x2E then Some(NO_OVERRIDES.(cs := true))
    else if b == 0x3E then Some(NO_OVERRIDES.(ds := true))
    else None
  }

  /**
   * The start of `emulateCycle`: `_tempIP` and the overrides are cleared;
   * a prefix byte at CS:IP sets its override and moves IP past it.
   */
  function Fetched(s: State): (f: State)
    requires Wf(s)
    ensures Wf(f)
  {
    var s0 := s.(tempIP := 0, over := NO_OVERRIDES);
    match PrefixOverride(Peek(s0, s.segs.cs, s.ip))
    case Some(o) => s0.(over := o, ip := s.ip + 1)
    case None => s0
  }

  /**
   * The opcode and addressing bytes `emulateCycle` decodes, read after the
   * prefix through `segment2absolute`, so that the override set by the
   * prefix also applies to them.
   */
  function FetchedOp(s: State): Decoded
    requires Wf(s)
  {
    var f := Fetched(s);
    Decode(Peek(f, f.segs.cs, f.ip), Peek(f, f.segs.cs, f.ip + 1))
  }

  /**
   * After the fetch, a prefix leaves exactly its own segment in force for
   * every access of the cycle and IP one further on; without a prefix no
   * override is set and IP has not moved.  The opcode after an ES prefix is
   * read from ES:IP+1, not CS:IP+1.
   */
  lemma FetchPrefix(s: State, segment: int)
    requires Wf(s)
    ensures var b, f := s.mem[Phys(s.segs.cs, s.ip)], Fetched(s);
      && f.tempIP == 0
      && (b == 0x26 ==> f.ip == s.ip + 1 && Chosen(f, segment) == s.segs.es
                        && FetchedOp(s).opcodeByte == s.mem[Phys(s.segs.es, s.ip + 1)])
      && (b == 0x36 ==> f.ip == s.ip + 1 && Chosen(f, segment) == s.segs.ss)
      && (b == 0x2E ==> f.ip == s.ip + 1 && Chosen(f, segment) == s.segs.cs)
      && (b == 0x3E ==> f.ip == s.ip + 1 && Chosen(f, segment) == s.segs.ds)
      && (PrefixOverride(b).None? ==> f.ip == s.ip && Chosen(f, segment) == segment
                                      && FetchedOp(s).opcodeByte == b)
  {
    var s0 := s.(tempIP := 0, over := NO_OVERRIDES);
    assert Peek(s0, s.segs.cs, s.ip) == s.mem[Phys(s.segs.cs, s.ip)];
  }
}
