# 8086 emulator core in Dafny

This project models the instruction-level core of a browser 8086 emulator,
which exists as two engines.

**The older, monolithic engine** (`8086.js`) is a single object. Its fields
are:

- the split byte registers AH/AL ... DH/DL;
- SP, BP, SI and DI;
- the segment registers;
- IP and the flags word;
- the four segment-override flags;
- the per-cycle counter `_tempIP`;
- a byte-array memory.

`emulateCycle` fetches an opcode, takes a segment-override prefix, decodes
the ModR/M byte and runs one case of a large switch. Its helpers are:

- `_decode`;
- `_get/_setRegValueForOp`;
- `_get/_setRMValueForOp` and `_getRMIncIP`;
- `segment2absolute`;
- `_push`, `_pop` and `_shortJump`;
- the generic flag routine `_setFlags`.

**The newer, table-driven engine** has two parts:

- `Addressing.js` resolves operand specifiers, which are:
  - register accessors;
  - the ModR/M memory operands Eb/Ev/Ew/Ep/M/Mp and the register operands Gb/Gv;
  - the immediates Ib/Iv/Iw;
  - the relative targets Jb/Jv;
  - the far pointer Ap.

  While doing so it counts consumed instruction bytes in `addrIPInc` and may
  switch `addrSeg`. It also reads and writes memory little-endian.
- `Operations.js` holds the mnemonic handlers and the flag engine
  (`flagSub`, the `PARITY` table, `setPF/SF/ZF_FLAG`).

Each engine is modelled in the form its source has:

- **Older engine.** The object is the class `LegacyCpu.Cpu8086`, whose
  methods assign its fields and write its memory array in place. Each method
  is proved to leave the object in the state that a specification function
  over the value `LegacyState.State` describes. The properties of the
  instructions are lemmas about those functions. The modules are
  `LegacyDecode`, `LegacyFlags`, `LegacyState`, `LegacyAlu`, `LegacyExec`,
  `LegacyProps` and `LegacyCpu`.
- **Newer engine.** The processor is the class `Machine.Cpu`. Its fields
  are:
  - `reg16`, the word register file, whose halves are the byte registers;
  - `ip` and `flags`;
  - the memory array `mem`;
  - the decoding state `opcode`, `instIPInc`, `addrIPInc` and `addrSeg`.

  The addressing modes (`Addressing`) and the handlers (`Operations`,
  `Stack`, `Branches`, `FlagRules`) are methods on that class. Their
  postconditions tie the new state to pure functions of the old one. The
  arithmetic meaning of those functions is proved as lemmas: borrow, signed
  overflow, round trips, and which flags are kept.

Shared definitions live in `Utils`:

- byte and word truncation;
- the two's-complement readings of the relative offsets;
- sign extension of an immediate;
- the physical address `segment * 16 + offset`;
- the flags word as sixteen bits.

`Parity` proves the newer engine's `PARITY` table correct. `Bitwise` gives
the JavaScript `&`, `|` and `^` operators a digit-by-digit meaning, and the
32-bit ToInt32 conversion.

Where a handler's code disagrees with what its documentation or the
instruction set promises, the model keeps both versions:

- a definition **as written**, with a lemma that exhibits an input on which
  it goes wrong;
- a **corrected** definition, with the intended property proved.

The rest of the model uses the corrected one (see "## Findings").

## Model

| member | source | states |
|---|---|---|
| Utils.Phys | src/jsemu/emu/cpus/8086.js:731-739 | the physical address is congruent to `segment * 16 + offset` modulo 2^20, lies below 2^20, and equals it whenever that sum is in range |
| Utils.PhysNext | src/emu/cpu/Addressing.js:1088-1091 | the two cells of a word (offset and offset + 1) are distinct, the second one cell after the first modulo 2^20 |
| Utils.PhysDistinct | src/emu/Operations.js:1556-1562 | offsets less than 1 MiB apart never name the same physical cell |
| Utils.Signed8 | src/jsemu/emu/cpus/8086.js:4005-4008 | the signed reading of a byte offset lies in -128..127, is negative exactly when bit 7 is set, and truncates back to the byte |
| Utils.Signed16 | src/emu/cpu/Addressing.js:632-643 | the signed reading of a word offset lies in -32768..32767, is negative exactly when bit 15 is set, and truncates back to the word |
| Utils.SignExtend | src/emu/Operations.js:194-200 | the call site of `signExtend`, whose definition (src/emu/utils/Utils.js) is not part of this model; as assumed here, sign extension keeps the low byte, leaves a value below 0x80 alone, and gives a byte the same signed value as a word |
| Utils.JoinSplit | src/jsemu/emu/cpus/8086.js:366-442 | joining `(x >> 8) & 0xFF` and `x & 0xFF` gives back a word x |
| Utils.SplitJoin | src/jsemu/emu/cpus/8086.js:162-236 | the high and low byte of `(hi << 8) \| lo` are hi and lo |
| Utils.ToU16Moves | src/jsemu/emu/cpus/8086.js:2205-2225 | adding a nonzero amount below 2^16 to a word and truncating never gives the word back |
| Utils.UnpackPack | src/emu/Operations.js:1012-1014 | unpacking a packed bit sequence gives the sequence back |
| Utils.PackUnpack | src/emu/Operations.js:1396-1399 | packing the binary digits of a number below 2^width gives the number back |
| Utils.UnpackBit | src/emu/Operations.js:1591-1601 | digit i of the unpacked number is the bit of weight 2^i |
| Utils.FlagsWordRoundTrip | src/emu/Operations.js:1309-1311 | the flags as sixteen bits and the flags word convert into each other without loss, both ways |
| Machine.Cpu.Put16 | src/emu/cpu/Addressing.js:54-59 | a store into a word register keeps `value & 0xFFFF` there and changes no other register |
| Machine.Cpu.Put8 | src/emu/cpu/Addressing.js:69-75 | a store into a byte register keeps `value & 0xFF` in that half only; the other byte registers and every word register but its host keep their values |
| Machine.SetHalf | src/emu/cpu/Addressing.js:85-91 | the register file after a byte store holds `value & 0xFF` in the byte register stored into |
| Parity.RowShape | src/emu/Operations.js:17-35 | each row of the table is the even row or the odd row, as the parity of its high nibble says |
| Parity.RowEntries | src/emu/Operations.js:17-35 | the even row holds 1 at the columns of even-parity low nibbles, and the odd row is its complement |
| Parity.ParityCell | src/emu/Operations.js:17-35 | entry (h, l) is 1 exactly when the two nibbles have the same parity |
| Parity.PopcountByte | src/emu/Operations.js:17-35 | the set bits of a byte are those of its two nibbles |
| Parity.ParityNibbles | src/emu/Operations.js:17-35 | entry b is 1 exactly when the two nibbles of b have the same parity |
| Parity.NibbleParity | src/emu/Operations.js:17-35 | a byte has even parity exactly when its two nibbles have the same parity |
| Parity.ParityTable | src/emu/Operations.js:17-35 | every one of the 256 entries is 1 exactly when its index has an even number of set bits |
| FlagRules.SetArithBits | src/emu/Operations.js:1650-1704 | each of the six flag assignments of `flagSub` decides its own flag, and every other bit is kept |
| FlagRules.WrapIsModular | src/emu/Operations.js:1420-1443 | the handlers' underflow correction `0xFF + 1 + r` / `0xFFFF + 1 + r` is reduction modulo the operand range |
| FlagRules.CarryMeaning | src/emu/Operations.js:1650-1704 | the carry rule of `flagSub` on `d` and `s + c` is the unsigned borrow `d < s + c` |
| FlagRules.SignBit | src/emu/Operations.js:1617-1628 | the sign bit of an operand is set exactly when the operand is at least half the range |
| FlagRules.WrapBorrow | src/emu/Operations.js:1420-1443 | the wrapped difference `d - s - c` of two operands is again an operand |
| FlagRules.OverflowMeaning | src/emu/Operations.js:1650-1704 | the overflow rule `(r ^ v1) & (v1 ^ v2)` is signed overflow of `d - s - c` |
| FlagRules.AuxMeaning | src/emu/Operations.js:1650-1704 | the auxiliary rule, bit 4 of `v1 ^ v2 ^ r`, is a borrow out of the low nibble of `d - s - c` |
| FlagRules.WrapBit4 | src/emu/Operations.js:1650-1704 | wrapping a difference adds a multiple of 32, which bit 4 does not see |
| FlagRules.SignMeaning | src/emu/Operations.js:1617-1628 | SF of a wrapped result is set exactly when the result is at least the sign weight |
| FlagRules.DifferenceMeaning | src/emu/Operations.js:1650-1704 | the rules of `flagSub` read arithmetically for `d - s - c`: unsigned borrow, signed overflow, nibble borrow, sign, zero |
| FlagRules.SubFlagsMeaning | src/emu/Operations.js:1650-1704 | for operands of the instruction's size, `flagSub` with the wrapped difference sets CF iff d < s, ZF iff d == s, SF by the sign bit, OF on signed overflow, AF on a nibble borrow, and keeps the other flags |
| FlagRules.NoBorrowMeaning | src/emu/Operations.js:1650-1704 | CF, OF and AF of a plain difference, with no borrow coming in |
| FlagRules.SetPF | src/emu/Operations.js:1591-1601 | PF becomes the table entry of `result & 0xFF` (an even count of set bits) and no other flag changes |
| FlagRules.SetSF | src/emu/Operations.js:1617-1628 | SF becomes bit 7 (byte) or bit 15 (word) of a two's-complement result, or the sign of the result otherwise; no other flag changes |
| FlagRules.SetZF | src/emu/Operations.js:1639-1642 | ZF becomes "result is zero" and no other flag changes |
| FlagRules.FlagSub | src/emu/Operations.js:1650-1704 | the flags after `flagSub` are CF, OF and AF from operands and result, then PF, SF and ZF from the result, as the spec function says |
| Bitwise.AndDigits | src/jsemu/emu/cpus/8086.js:1141-1164 | digit by digit, `&` keeps a one where both operands have one |
| Bitwise.OrDigits | src/jsemu/emu/cpus/8086.js:2918-2940 | digit by digit, `\|` keeps a one where either operand has one |
| Bitwise.XorDigits | src/jsemu/emu/cpus/8086.js:3769-3790 | digit by digit, `^` keeps a one where the operands differ |
| Bitwise.BitwiseBelow | src/jsemu/emu/cpus/8086.js:3769-3790 | the three operations stay below 2^k when both operands do |
| Bitwise.OrAndBounds | src/jsemu/emu/cpus/8086.js:2918-2940 | `x \| y` is zero exactly when both operands are, and `x & y` never exceeds x |
| Bitwise.SelfOperations | src/jsemu/emu/cpus/8086.js:3769-3790 | `x ^ x` is zero, and `x & x` and `x \| x` are x |
| Bitwise.Int32 | src/emu/cpu/Addressing.js:1100-1105 | ToInt32 yields the signed 32-bit number congruent to n modulo 2^32 |
| Bitwise.JsOnWords | src/jsemu/emu/cpus/8086.js:1141-1164 | on two 16-bit operands the JavaScript operators are the plain bitwise ones and give a 16-bit result |
| Bitwise.XorAllOnes | src/jsemu/emu/cpus/8086.js:4005-4008 | XOR with a mask of k ones takes a k-bit number to its complement |
| Bitwise.ComplementPlusOne | src/jsemu/emu/cpus/8086.js:4005-4008 | `(v ^ 0xFF) + 1` and `(v ^ 0xFFFF) + 1` are 2^8 - v and 2^16 - v, so the conversion yields the signed offset |
| Addressing.Read32 | src/emu/cpu/Addressing.js:1100-1105 | readMem32 gives a signed 32-bit number whose low half is the word at offset + 2 and whose high half is the signed word at offset |
| Addressing.Write8 | src/emu/cpu/Addressing.js:1114-1116 | writeMem8 stores `value & 0xFF` at segment:offset and leaves every other cell |
| Addressing.Write16 | src/emu/cpu/Addressing.js:1125-1128 | writeMem16 changes only the two cells at offset and offset + 1 |
| Addressing.Write16Read16 | src/emu/cpu/Addressing.js:1088-1128 | a word written with writeMem16 reads back with readMem16 as `value & 0xFFFF` |
| Addressing.SetRegVal | src/emu/cpu/Addressing.js:1000-1068 | writeRegVal keeps every word register present |
| Addressing.RegValRoundTrip | src/emu/cpu/Addressing.js:938-1068 | writeRegVal and readRegVal select the same register through the byte table AL..BH and the word table AX..DI: a stored value reads back truncated to the operand size, and only the word register holding the selected one changes |
| Addressing.DisplacementSignExtended | src/emu/cpu/Addressing.js:886-928 | with the byte displacement sign-extended, the 16-bit address is base plus the signed byte (within base - 128 .. base + 127) for mod 01, and base plus the word for mod 10 |
| Addressing.DisplacementAsWrittenIgnoresSign | src/emu/cpu/Addressing.js:886-928 | as written, a displacement byte of 0x80 or more lands 256 bytes above the sign-extended address |
| Addressing.WordRegisterWriteRead | src/emu/cpu/Addressing.js:54-59 | a word-register accessor stores `value & 0xFFFF`, returns it, and reads it back |
| Addressing.ByteRegisterWriteRead | src/emu/cpu/Addressing.js:69-75 | a byte accessor rejects a value above 0xFF with ValueOverflow and stores nothing; any other value is stored as `value & 0xFF`, returned and read back, and no other byte register changes |
| Addressing.ByteGeneralWriteRead | src/emu/cpu/Addressing.js:493-498 | Gb stores through writeRegVal and reads back `value & 0xFF` |
| Addressing.WordGeneralWriteRead | src/emu/cpu/Addressing.js:512-517 | Gv stores through writeRegVal and reads back `value & 0xFFFF` |
| Addressing.EpAgreesWithMp | src/emu/cpu/Addressing.js:423-431 | Ep and Mp read the same far pointer; Ep's offset is sign-extended, so only its low 16 bits agree with Mp's |
| Addressing.ApAsWrittenSwapsWords | src/emu/cpu/Addressing.js:371-385 | Ap as written returns the pointer's two words swapped compared with the 8086 order, and so agrees with it only when they are equal |
| Addressing.ShortJumpTarget | src/emu/cpu/Addressing.js:609-619 | Jb yields IP plus the signed byte, a number within IP - 128 .. IP + 127 |
| Addressing.NearJumpTarget | src/emu/cpu/Addressing.js:632-643 | Jv yields IP plus the signed word, which is `IP + word` modulo 2^16 |
| Addressing.CalcRMAddr | src/emu/cpu/Addressing.js:838-875 | the address of table 1 (BX+SI ... BX, the direct word for rm 6); only rm 6 touches `addrIPInc`, raising it to 2 when it was 0; rm 2 and 3 switch `addrSeg` to SS |
| Addressing.CalcRMDispAddr | src/emu/cpu/Addressing.js:886-928 | the address of table 2 with a byte (addrIPInc + 1) or word (addrIPInc set to 2 when 0) displacement |
| Addressing.CalcAddress | src/emu/cpu/Addressing.js:838-928 | the memory operand's address by table 1 or table 2, with the matching update of `addrIPInc` and `addrSeg` |
| Addressing.WriteRegVal | src/emu/cpu/Addressing.js:1000-1068 | the register file after the store is the one writeRegVal's table selects |
| Addressing.WriteMem8 | src/emu/cpu/Addressing.js:1114-1116 | memory after the store is `Write8` of the old memory |
| Addressing.WriteMem16 | src/emu/cpu/Addressing.js:1125-1128 | memory after the store is `Write16` of the old memory |
| Addressing.ReadRMReg8 | src/emu/cpu/Addressing.js:723-736 | the register readRegVal selects (mod 11) or the byte at the computed address, with the address bookkeeping of calcRMAddr/calcRMDispAddr |
| Addressing.ReadRMReg16 | src/emu/cpu/Addressing.js:744-757 | the same for a word |
| Addressing.ReadRMReg32 | src/emu/cpu/Addressing.js:765-778 | the same through readMem32 |
| Addressing.WriteRMReg8 | src/emu/cpu/Addressing.js:787-800 | the byte stored in the register (mod 11) or at the computed address, nothing else changed |
| Addressing.WriteRMReg16 | src/emu/cpu/Addressing.js:809-822 | the word stored in the register or at the computed address, nothing else changed |
| Addressing.AccessWord | src/emu/cpu/Addressing.js:242-353 | AX ... SS: a read returns the register, a write stores and returns `value & 0xFFFF` |
| Addressing.AccessByte | src/emu/cpu/Addressing.js:163-232 | AH ... DL: a write above 0xFF fails with ValueOverflow, any other stores and returns `value & 0xFF`, a read returns the half |
| Addressing.AccessAp | src/emu/cpu/Addressing.js:371-385 | Ap reads the far pointer at IP + 1 in the 8086 layout (offset from the word at IP + 1, segment from the word at IP + 3, as `ApValue`) and adds 4 to `addrIPInc`; a write fails with InvalidAddressMode |
| Addressing.AccessEb | src/emu/cpu/Addressing.js:402-407 | Eb reads or writes the byte ModR/M operand |
| Addressing.AccessEp | src/emu/cpu/Addressing.js:423-431 | Ep reads the far pointer at the memory operand; a write fails |
| Addressing.AccessEv | src/emu/cpu/Addressing.js:448-479 | Ev and Ew read or write the word ModR/M operand |
| Addressing.AccessG | src/emu/cpu/Addressing.js:493-517 | Gb and Gv read or write the register the reg field selects |
| Addressing.AccessImm | src/emu/cpu/Addressing.js:531-596 | Ib, Iv and Iw read at CS:(IP + instIPInc) and add 1 or 2 to `addrIPInc`; a write to Ib or Iv fails with InvalidAddressMode; a write to Iw is assumed to return an undefined value without failing (see `Addressing.AccessImm` under Left out) |
| Addressing.AccessJump | src/emu/cpu/Addressing.js:609-643 | Jb and Jv yield IP plus the signed displacement, add 1 or 2 to `addrIPInc`, and reject writes |
| Addressing.AccessM | src/emu/cpu/Addressing.js:654-669 | M yields the operand's address, and nothing for a register operand |
| Addressing.AccessMp | src/emu/cpu/Addressing.js:682-703 | Mp reads the far pointer stored at the operand; a register operand reads two zeros |
| Addressing.Access | src/emu/cpu/Addressing.js:31-703 | applying any addressing mode, `_1` and `_3` included, gives the result, the stores and the `addrIPInc`/`addrSeg` updates of its specification |
| Operations.Datum | src/emu/Operations.js:194-197 | reading a data operand succeeds with a number below 0x10000 |
| Operations.Read | src/emu/Operations.js:194-197 | `dst(segment, null)` never fails and stores nothing |
| Operations.Write | src/emu/Operations.js:277-279 | `dst(segment, x)` either fails with the operand's exception or stores x as the operand's specification says |
| Operations.ReadDatum | src/emu/Operations.js:262-265 | the value read is the operand's number, and nothing is stored |
| Operations.Operands | src/emu/Operations.js:194-200 | d and s are the two operands, the source sign-extended for word instructions |
| Operations.Wrapped | src/emu/Operations.js:203-211 | the correction of a negative result is the wrap to the operand size |
| Operations.SubtractBorrow | src/emu/Operations.js:1420-1443 | SBB's result is `d - s - CF` wrapped, with the flags of the corrected SBB |
| Operations.DecrementFlags | src/emu/Operations.js:262-282 | DEC's flags are `flagSub(d, 1, result)` with CF as it was |
| Operations.NegateFlags | src/emu/Operations.js:1208-1236 | NEG's result and flags are the two's-complement negation and `flagSub(0, d, result)` with the special case of the most negative operand |
| Operations.Cmp | src/emu/Operations.js:194-216 | the flags of the wrapped `dst - src`, with no register or memory change |
| Operations.Sub | src/emu/Operations.js:1489-1512 | `dst - src` wrapped, flagged by `flagSub`, and written back through dst |
| Operations.Sbb | src/emu/Operations.js:1420-1443 | `dst - src - CF` wrapped and written back; CF is the borrow of the whole subtraction (corrected) |
| Operations.Dec | src/emu/Operations.js:262-282 | `dst - 1` wrapped and written back, flagged with CF kept (corrected) |
| Operations.Neg | src/emu/Operations.js:1208-1236 | `0 - dst` wrapped, flagged, and written back |
| Operations.SbbMeaning | src/emu/Operations.js:1420-1443 | SBB's result is `(d - s - c) mod 2^n`; CF iff d < s + c, ZF iff the result is zero, SF by its top bit, OF on signed overflow of `d - s - c`, AF on a nibble borrow; the other flags are kept |
| Operations.SbbAsWrittenDropsBorrow | src/emu/Operations.js:1420-1443 | as written, `0 - 0 - CF` with CF set wraps to 0xFF yet leaves CF clear |
| Operations.DecMeaning | src/emu/Operations.js:262-282 | DEC: the result is `(d - 1) mod 2^n`; ZF iff d was 1, OF iff d was the most negative value, AF iff the low nibble was zero; CF and the non-arithmetic flags kept |
| Operations.DecrementMeaning | src/emu/Operations.js:1650-1704 | the rules of `flagSub(d, 1, r)` read arithmetically |
| Operations.DecrementOverflow | src/emu/Operations.js:1650-1704 | decrementing overflows exactly at the most negative operand |
| Operations.DecrementAux | src/emu/Operations.js:1650-1704 | decrementing borrows from the low nibble exactly when that nibble is zero |
| Operations.DecAsWrittenSetsCarry | src/emu/Operations.js:262-282 | as written, decrementing zero sets CF, although DEC is documented to leave CF alone |
| Operations.NegMeaning | src/emu/Operations.js:1208-1236 | NEG: the result is `(0 - d) mod 2^n`; CF iff d is nonzero, ZF iff d is zero, OF iff d is the most negative value; other flags kept |
| Operations.NegationMeaning | src/emu/Operations.js:1208-1236 | the rules of `flagSub(0, d, r)` read arithmetically; the handler's special cases for 0x80 and 0x8000 change nothing |
| Operations.LahfLayout | src/emu/Operations.js:1012-1014 | LAHF puts SF, ZF, AF, PF and CF at bits 7, 6, 4, 2 and 0 of AH, clears bits 5 and 3, and copies bit 1 |
| Operations.SahfLayout | src/emu/Operations.js:1387-1399 | SAHF as documented loads SF, ZF, AF, PF and CF from bits 7, 6, 4, 2 and 0 of AH and keeps every other flag |
| Operations.LahfSahf | src/emu/Operations.js:1012-1399 | LAHF then SAHF leaves FLAGS as it was |
| Operations.SahfLahf | src/emu/Operations.js:1012-1399 | SAHF then LAHF gives back the five flag bits of AH |
| Operations.SahfAsWrittenKeepsCarry | src/emu/Operations.js:1396-1399 | as written, SAHF never clears a flag: with CF set and AH = 0, CF stays set |
| Operations.Lahf | src/emu/Operations.js:1012-1014 | AH receives `FLAGS & 0b11010111` and no other byte register changes |
| Operations.Sahf | src/emu/Operations.js:1387-1399 | the flags become SF, ZF, AF, PF and CF replaced by the bits of AH (corrected) |
| Stack.PushView | src/emu/Operations.js:1556-1562 | the state after push16 is well formed |
| Stack.PopView | src/emu/Operations.js:1570-1578 | the state after pop16 is well formed |
| Stack.Push16 | src/emu/Operations.js:1556-1562 | push16: SP two lower modulo 2^16, the low byte at SS:SP and the high byte at SS:SP + 1 |
| Stack.Pop16 | src/emu/Operations.js:1570-1578 | pop16 returns the word at SS:SP and raises SP by two |
| Stack.PushPop | src/emu/Operations.js:1556-1578 | a word pushed is the word popped next, and the pop restores every register |
| Stack.PushTwicePopTwice | src/emu/Operations.js:1556-1578 | two pushes come back in the opposite order, and two pops restore every register |
| Stack.PushKeepsTop | src/emu/Operations.js:1556-1562 | a push leaves the word that was on top in place, just above the new top |
| Stack.StackCellsApart | src/emu/Operations.js:1556-1562 | the two cells a push writes are not the two cells of the previous top |
| Stack.Push | src/emu/Operations.js:1295-1298 | push: the operand is read and pushed |
| Stack.Pop | src/emu/Operations.js:1261-1264 | pop: a word is popped and written through the operand |
| Stack.Pushf | src/emu/Operations.js:1309-1311 | pushf pushes the flags word |
| Stack.Popf | src/emu/Operations.js:1280-1282 | popf replaces the flags by the popped word |
| Stack.PushfPopf | src/emu/Operations.js:1280-1311 | PUSHF then POPF restores every flag and every register |
| Branches.ConditionsAsWritten | src/emu/Operations.js:336-603 | JGE, JL and JLE test what they document; JA as written jumps unless CF and ZF are both set, and JG jumps when SF = OF or ZF is clear |
| Branches.LessMeaning | src/emu/Operations.js:1650-1704 | after `flagSub` of two operands, CF gives the unsigned order, and SF xor OF the signed order |
| Branches.CompareJumps | src/emu/Operations.js:336-996 | after CMP of two operands (as flagSub receives them, the source already sign-extended) each conditional jump tests the relation its mnemonic names: above/below on the unsigned values, greater/less on the signed values, zero on equality |
| Branches.GreaterAsWrittenJumpsOnEqual | src/emu/Operations.js:473-494 | as written, JG jumps after comparing two equal operands |
| Branches.AboveAsWrittenJumpsWhenBelow | src/emu/Operations.js:336-356 | as written, JA jumps after comparing 1 with 2 |
| Branches.ConditionalJump | src/emu/Operations.js:336-996 | each j* handler returns true and sets IP to the 16-bit target exactly when its documented condition holds, and otherwise leaves IP; no register or memory changes |
| Branches.Loop | src/emu/Operations.js:1100-1162 | loop/loopz/loopnz decrement CX by one modulo 2^16, then jump exactly when the new CX is nonzero and, for loopz/loopnz, ZF is set/clear |
| Branches.RepeatsCount | src/emu/Operations.js:1151-1162 | a LOOP reached with CX = n > 0 jumps back n - 1 times |
| Branches.RepeatsFromZero | src/emu/Operations.js:1151-1162 | with CX = 0 the decrement wraps and the body runs 65536 times; LOOP jumps back exactly while the count is positive |
| Branches.Pointer | src/emu/cpu/Addressing.js:371-385 | Ap and Mp yield a far pointer |
| Branches.ImmediateOperand | src/emu/Operations.js:1338-1348 | the immediate RET reads is what the Iw operand yields |
| Branches.CallNear | src/emu/Operations.js:142-145 | near call: IP pushed, then loaded with the target |
| Branches.CallFar | src/emu/Operations.js:136-141 | far call: CS, then IP, pushed, and both loaded from the pointer |
| Branches.Call | src/emu/Operations.js:131-159 | call: 0x9A and 0xFF/3 are far, 0xE8 and 0xFF/2 near; the new state is the corresponding call of the old one |
| Branches.Jmp | src/emu/Operations.js:646-672 | jmp loads IP, or CS and IP, from the operand and always returns true |
| Branches.Ret | src/emu/Operations.js:1338-1348 | ret pops IP; for 0xC2 the immediate is added to SP (corrected) |
| Branches.PopIp | src/emu/Operations.js:1338-1348 | IP becomes the popped word, and the immediate is read after the pop |
| Branches.PopCs | src/emu/Operations.js:1364-1377 | CS becomes the popped word |
| Branches.PopFar | src/emu/Operations.js:1364-1377 | IP then CS are popped |
| Branches.RetfImmediate | src/emu/Operations.js:1364-1377 | retf imm16 pops IP and CS and adds the immediate to SP (corrected) |
| Branches.Retf | src/emu/Operations.js:1364-1377 | retf pops IP then CS; for 0xCA the immediate is added to SP (corrected) |
| Branches.CallRet | src/emu/Operations.js:131-1348 | a near CALL followed by RET 0xC3 returns to the pushed address with every register as before |
| Branches.FarCallThroughAp | src/emu/Operations.js:131-159 | a far CALL 0x9A takes IP from the word at IP + 1 and CS from the word at IP + 3, where the engine's own Ap would load CS from the word at IP + 1 |
| Branches.CallRetf | src/emu/Operations.js:131-1377 | a far CALL followed by RETF 0xCB returns to the caller's CS:IP with every register as before |
| Branches.RetfAfterLoad | src/emu/Operations.js:1364-1377 | RETF after CS:IP were loaded pops the same two words into IP and CS |
| Branches.LoadKeepsStack | src/emu/Operations.js:136-141 | loading CS:IP leaves the stack words in place; only CS differs |
| Branches.ReturnAsWrittenMissesTarget | src/emu/Operations.js:1338-1348 | RET imm pops the right IP and releases the parameters; as written it lands past the return address whenever the immediate is nonzero |
| Branches.FarReturnAsWrittenMissesTarget | src/emu/Operations.js:1364-1377 | the same for RETF imm |
| Branches.CallRetReleases | src/emu/Operations.js:131-1348 | from the state a near CALL leaves (IP pushed, any target loaded), RET n (0xC2) returns to the pushed address with SP n above its value before the CALL, every other register as before (corrected: the source adds n to IP) |
| Branches.FarReturnReleases | src/emu/Operations.js:1364-1377 | RETF n (0xCA) loads IP and CS from the two words on top, raises SP by 4 + n and changes no other register and no memory (corrected: the source adds n to IP) |
| Branches.FarPoppedStack | src/emu/Operations.js:1364-1377 | popping IP and CS takes the two words on top and raises SP by four |
| LegacyDecode.Decode | src/jsemu/emu/cpus/8086.js:135-160 | the fields are in range: opcode < 64, d and w bits, mod < 4, reg and rm < 8 |
| LegacyDecode.DecodeBits | src/jsemu/emu/cpus/8086.js:135-160 | w is bit 0 and d bit 1 of the opcode byte; mod is bits 7-6, reg 5-3 and rm 2-0 of the addressing byte |
| LegacyDecode.DecodeInjective | src/jsemu/emu/cpus/8086.js:135-160 | two byte pairs that decode alike are equal: no bit is dropped |
| LegacyDecode.JoinHalves | src/jsemu/emu/cpus/8086.js:366-442 | `(value >> 8) & 0xFF` and `value & 0xFF` put together give `value & 0xFFFF` |
| LegacyDecode.RegRoundTrip | src/jsemu/emu/cpus/8086.js:162-442 | a register written by `_setRegValueForOp` reads back by `_getRegValueForOp` as `value & 0xFF` (byte) or `value & 0xFFFF` (word), and no register that shares no storage with it changes |
| LegacyFlags.CountOnes | src/jsemu/emu/cpus/8086.js:4076-4090 | the loop over the binary digits counts the set bits of the result |
| LegacyFlags.ResultFlagsAt | src/jsemu/emu/cpus/8086.js:4035-4149 | the CF, PF, AF, ZF and SF steps give each flag its rule and leave every other bit |
| LegacyFlags.FlagsAfterAt | src/jsemu/emu/cpus/8086.js:4027-4196 | every flag named in `flagsToSet` is given by its rule |
| LegacyFlags.FlagsAfterKeepsOthers | src/jsemu/emu/cpus/8086.js:4027-4196 | `_setFlags` changes no flag outside `flagsToSet` |
| LegacyFlags.ZeroAndSign | src/jsemu/emu/cpus/8086.js:4135-4149 | ZF iff the result is zero; SF is bit 7 (byte) or bit 15 (word) of it |
| LegacyFlags.SignOfTruncation | src/jsemu/emu/cpus/8086.js:4144-4149 | bit 7 survives `& 0xFF` and bit 15 survives `& 0xFFFF` |
| LegacyFlags.CarryMeaning | src/jsemu/emu/cpus/8086.js:4035-4071 | CF for "add" and "or" says the result left the width; for "sub" it says operand1 < operand2 |
| LegacyFlags.ParityMatchesTable | src/jsemu/emu/cpus/8086.js:4076-4090 | for a result below 256, PF agrees with the newer engine's table |
| LegacyFlags.AuxNeverSetByAdd | src/jsemu/emu/cpus/8086.js:4095-4130 | for "add" and "or" the test `(result & 0x0F) > 0x0F` never holds, so AF is always cleared |
| LegacyFlags.UnwrappedSumFlags | src/jsemu/emu/cpus/8086.js:4027-4196 | fed the unwrapped sum 0x100 of 0x80 + 0x80, `_setFlags` clears ZF and PF although the stored byte is 0 |
| LegacyState.ChosenSegment | src/jsemu/emu/cpus/8086.js:731-739 | without an override `segment2absolute` uses its argument; with one, the argument does not matter |
| LegacyState.RmCount | src/jsemu/emu/cpus/8086.js:238-310 | one operand access adds at most 2 to `_tempIP`, and nothing exactly for a register or a base-only operand |
| LegacyState.RmRoundTrip | src/jsemu/emu/cpus/8086.js:444-572 | a value written to the r/m operand reads back at the write's address as its low byte or word; a memory write leaves the registers alone |
| LegacyState.RmIncIPVersusCount | src/jsemu/emu/cpus/8086.js:574-603 | `_getRMIncIP` agrees with the bytes the accessors count except for a byte displacement (one too many) and a byte operand at a direct address |
| LegacyState.PushThenPop | src/jsemu/emu/cpus/8086.js:3969-3993 | a pop right after a push returns the value masked to 16 bits and restores every register; memory differs only in the two zeroed cells |
| LegacyState.FetchPrefix | src/jsemu/emu/cpus/8086.js:759-782 | a prefix 0x26/0x2E/0x36/0x3E leaves exactly its own segment in force and moves IP by one; without a prefix nothing is overridden and IP stays |
| LegacyAlu.AluStoresResult | src/jsemu/emu/cpus/8086.js:988-1011 | after one ALU handler the destination its case names (reg register, accumulator, r/m register or memory operand) reads back as the result masked to the operand width; the registers it does not overlap, the segment registers and (for a register destination) memory are unchanged, a memory destination changes no cell but its own two and no register, and CMP stores nothing |
| LegacyAlu.AluTableValues | src/jsemu/emu/cpus/8086.js:820-1294 | with the corrected table the stored value is, reduced to the operand width, `x + y` for ADD, `x + y + CF` for ADC, `x - y - CF` for SBB, `x - y` for SUB and CMP, and the bitwise AND, OR or XOR of the operands |
| LegacyAlu.AluTableShape | src/jsemu/emu/cpus/8086.js:820-1294 | the corrected table defines every opcode 0x00-0x3D whose low three bits are below 6: E,G forms store to r/m, G,E forms to reg, accumulator forms to AL/AX; CMP stores nothing |
| LegacyAlu.AluAdvancesByLength | src/jsemu/emu/cpus/8086.js:988-1140 | with the corrected table every ALU instruction moves IP by exactly its own length |
| LegacyAlu.DoubleCountAsWritten | src/jsemu/emu/cpus/8086.js:1012-1035 | as written, ADD [disp16], reg counts the displacement once on the read and again on the write |
| LegacyAlu.AddRegFormAsWritten | src/jsemu/emu/cpus/8086.js:1060-1084 | as written, ADD reg16, r/m16 with a register operand stores the sum in the r/m register and leaves reg |
| LegacyAlu.AddRegFormRepaired | src/jsemu/emu/cpus/8086.js:1060-1084 | corrected, the reg register receives the 16-bit sum and the r/m register is untouched |
| LegacyAlu.RegisterSum | src/jsemu/emu/cpus/8086.js:1060-1084 | a word register-to-register addition without premasking stores the 16-bit sum in the r/m or the reg register, as the case's destination says, and changes no other register |
| LegacyAlu.OrAsWritten | src/jsemu/emu/cpus/8086.js:2964-2984 | as written, OR AL, 2 with AL = 1 leaves AL at 1 (`1 \|\| 2`); corrected it becomes 3 |
| LegacyAlu.LogicBitwise | src/jsemu/emu/cpus/8086.js:2918-3017 | with the corrected table OR and XOR act bit by bit on operands of the instruction's width |
| LegacyAlu.SubCarryAsWritten | src/jsemu/emu/cpus/8086.js:3463-3657 | as written, SUB passes "add" to `_setFlags`, so SUB AL, 1 with AL = 0 leaves CF clear; corrected it sets CF |
| LegacyAlu.SubtractionCarry | src/jsemu/emu/cpus/8086.js:3463-3657 | with the corrected table every SUB and CMP sets CF exactly when the first operand is below the second, and every SBB exactly when the first operand is below the second plus the borrow-in |
| LegacyAlu.SbbCarryAsWritten | src/jsemu/emu/cpus/8086.js:3187-3380 | as written, SBB reg8, r/m8 with equal operands and CF set wraps to 0xFF but leaves CF clear; the corrected table sets CF |
| LegacyAlu.Grp1AdvancesByLength | src/jsemu/emu/cpus/8086.js:1721-2090 | the corrected group 0x80-0x83 moves IP past opcode, ModR/M, displacement and immediate |
| LegacyAlu.Grp1SignedImmediate | src/jsemu/emu/cpus/8086.js:1721-2090 | the immediate of 0x83 is the sign-extended byte right after the displacement |
| LegacyAlu.Grp1Shape | src/jsemu/emu/cpus/8086.js:1721-2090 | where each group case stores and how it moves IP |
| LegacyAlu.Grp1AsWrittenOffsets | src/jsemu/emu/cpus/8086.js:1721-2090 | as written, 0x80 with a register operand takes its immediate from IP + 3, one byte past the instruction |
| LegacyProps.IncDec | src/jsemu/emu/cpus/8086.js:1487-1515 | INC leaves `(x + 1) & 0xFFFF` (0xFFFF becomes 0) and DEC `(x - 1) & 0xFFFF` (0 becomes 0xFFFF); no other register changes and IP moves by one |
| LegacyProps.IncDecFlags | src/jsemu/emu/cpus/8086.js:2205-2225 | INC and DEC never change CF, and ZF says the new register value is zero |
| LegacyProps.StepRegsValue | src/jsemu/emu/cpus/8086.js:2205-2225 | the register INC or DEC writes reads back as the stepped value, and unrelated registers are unchanged |
| LegacyProps.StepResultWraps | src/jsemu/emu/cpus/8086.js:1487-1496 | DEC's `+ 0x10000` correction below zero is the 16-bit wrap-around |
| LegacyProps.StepResultInverse | src/jsemu/emu/cpus/8086.js:1487-1496 | stepping a word one way and then the other gives it back |
| LegacyProps.IncThenDec | src/jsemu/emu/cpus/8086.js:2205-2225 | DEC undoes INC, and INC undoes DEC, on a register holding a 16-bit value |
| LegacyProps.MovMoves | src/jsemu/emu/cpus/8086.js:2759-2772 | MOV reg, r/m and MOV r/m, reg copy the operand, masked to the width, and change nothing else; IP moves past the instruction |
| LegacyProps.MovSegmentFinding | src/jsemu/emu/cpus/8086.js:2773-2780 | as written, 0x8C and 0x8E change nothing; corrected, 0x8E loads the segment register and 0x8C copies it into the operand |
| LegacyProps.StoreAccFinding | src/jsemu/emu/cpus/8086.js:2807-2816 | as written, MOV [addr], AX with AX = 0x1234 leaves 0x0034; corrected it leaves 0x1234 |
| LegacyProps.StoreThenLoad | src/jsemu/emu/cpus/8086.js:2781-2816 | MOV [addr], AL/AX then MOV AL/AX, [addr] restores the accumulator |
| LegacyProps.MovImmLoads | src/jsemu/emu/cpus/8086.js:2817-2889 | MOV reg, imm loads the immediate after the opcode and moves IP past it; no other register changes |
| LegacyProps.MovRmImmFinding | src/jsemu/emu/cpus/8086.js:2890-2908 | as written, 0xC6 reads its immediate one byte too far (byte displacement) or inside the address (direct); corrected it stores the byte right after the displacement |
| LegacyProps.XchgFinding | src/jsemu/emu/cpus/8086.js:3658-3668 | as written, XCHG BX, [BX] writes the old BX at the newly loaded address, and XCHG reg, [disp16] moves IP by 6 |
| LegacyProps.XchgSwaps | src/jsemu/emu/cpus/8086.js:3658-3668 | corrected XCHG reg, r/m exchanges the two operands |
| LegacyProps.XchgAxSwaps | src/jsemu/emu/cpus/8086.js:3669-3768 | XCHG AX, reg16 exchanges AX and the register and changes no other |
| LegacyProps.XchgAxTwice | src/jsemu/emu/cpus/8086.js:3669-3768 | two XCHG AX, reg16 restore the registers |
| LegacyProps.PushPopRegister | src/jsemu/emu/cpus/8086.js:3056-3160 | PUSH reg16 leaves the register's word on top with SP two lower; POP of the same register right after restores every register |
| LegacyProps.PushPopSegment | src/jsemu/emu/cpus/8086.js:3044-3128 | PUSH then POP of ES, SS or DS restores every register |
| LegacyProps.CallThenRet | src/jsemu/emu/cpus/8086.js:1295-1317 | CALL rel16 pushes IP + 3 and RET pops it, so execution resumes after the CALL with SP restored |
| LegacyProps.FlagOpSets | src/jsemu/emu/cpus/8086.js:1318-1347 | CLC/STC, CLI/STI and CLD/STD set their flag for the odd opcode and clear it for the even one; nothing else changes and IP moves by one |
| LegacyProps.CarryThenJump | src/jsemu/emu/cpus/8086.js:2467-2498 | after STC, JB jumps and JNB does not; after CLC the reverse |
| LegacyProps.SignedJumpsFinding | src/jsemu/emu/cpus/8086.js:2629-2707 | as written, 0x7C-0x7F never jump whatever the flags; the corrected jumps do |
| LegacyProps.JccComplementary | src/jsemu/emu/cpus/8086.js:2435-2713 | of each pair 0x70/0x71 ... 0x7E/0x7F exactly one jumps; the other moves IP by two |
| LegacyProps.HltHalts | src/jsemu/emu/cpus/8086.js:2187-2204 | HLT ends the run without error |
| LegacyProps.UnsupportedExecute | src/jsemu/emu/cpus/8086.js:2171-2186 | 0x0F, 0x8F, 0xC2, 0xCC and 0xFF halt with an error when errors halt and otherwise change nothing |
| LegacyProps.UnsupportedStalls | src/jsemu/emu/cpus/8086.js:3167-3176 | such an opcode at CS:IP stalls the machine: same IP, registers, flags and memory |
| LegacyProps.DoublePrefix | src/jsemu/emu/cpus/8086.js:759-798 | a second prefix is no case of the switch: an error halt, or IP one past the first prefix |
| LegacyProps.AluCycleLength | src/jsemu/emu/cpus/8086.js:785-798 | an ALU instruction at CS:IP moves IP by its length in one cycle |
| LegacyProps.XorSelfClears | src/jsemu/emu/cpus/8086.js:3769-3902 | XOR reg16, the same reg16 clears it, sets ZF and clears CF |
| LegacyCpu.Cpu8086.constructor | src/jsemu/emu/cpus/8086.js:637-667 | the object holds exactly the initial register, flag and memory state it is given |
| LegacyCpu.Cpu8086.Segment2Absolute | src/jsemu/emu/cpus/8086.js:731-739 | the address is the effective segment times 16 plus the offset; without an override the segment passed in |
| LegacyCpu.Cpu8086.ReadByte | src/jsemu/emu/cpus/8086.js:275-277 | the byte at the effective segment:offset; nothing changes |
| LegacyCpu.Cpu8086.ReadWord | src/jsemu/emu/cpus/8086.js:279-283 | `(m[a + 1] << 8) \| m[a]`; nothing changes |
| LegacyCpu.Cpu8086.ReadDatum | src/jsemu/emu/cpus/8086.js:275-283 | the byte or word at CS:offset; nothing changes |
| LegacyCpu.Cpu8086.WriteByte | src/jsemu/emu/cpus/8086.js:483-486 | memory gets `value & 0xFF` at the address, nothing else |
| LegacyCpu.Cpu8086.WriteWord | src/jsemu/emu/cpus/8086.js:487-491 | memory gets the low and high byte at the address and the next one |
| LegacyCpu.Cpu8086.OperandAddress | src/jsemu/emu/cpus/8086.js:243-310 | the operand's offset, with `_tempIP` raised by the displacement bytes read |
| LegacyCpu.Cpu8086.GetRMValueForOp | src/jsemu/emu/cpus/8086.js:238-364 | the register (mod 3) or the memory operand, and `_tempIP` as the read leaves it |
| LegacyCpu.Cpu8086.SetRMValueForOp | src/jsemu/emu/cpus/8086.js:444-572 | the object after the write is `WithRm` of the old one |
| LegacyCpu.Cpu8086.Push | src/jsemu/emu/cpus/8086.js:3969-3976 | the object after `_push` is `Pushed` of the old one |
| LegacyCpu.Cpu8086.Pop | src/jsemu/emu/cpus/8086.js:3978-3993 | `_pop` returns the top word and leaves `Popped` of the old state |
| LegacyCpu.Cpu8086.ShortJump | src/jsemu/emu/cpus/8086.js:3999-4012 | IP moves by 2 plus the signed byte at CS:IP + 1 |
| LegacyCpu.Cpu8086.SetFlags | src/jsemu/emu/cpus/8086.js:4027-4196 | the flags become `FlagsAfter` of the old ones |
| LegacyCpu.Cpu8086.SetResultFlags | src/jsemu/emu/cpus/8086.js:4035-4149 | the CF, PF, AF, ZF and SF steps |
| LegacyCpu.Cpu8086.SetCarry | src/jsemu/emu/cpus/8086.js:4035-4071 | CF by its rule when named, else unchanged |
| LegacyCpu.Cpu8086.SetParity | src/jsemu/emu/cpus/8086.js:4076-4090 | PF by the count of set bits when named |
| LegacyCpu.Cpu8086.SetAux | src/jsemu/emu/cpus/8086.js:4095-4130 | AF by its rule when named |
| LegacyCpu.Cpu8086.SetSign | src/jsemu/emu/cpus/8086.js:4144-4149 | SF by the truncated result's top bit when named |
| LegacyCpu.Cpu8086.SetOverflow | src/jsemu/emu/cpus/8086.js:4186-4195 | OF by the operands' and result's top bits when named |
| LegacyCpu.Cpu8086.EmulateCycle | src/jsemu/emu/cpus/8086.js:744-798 | one cycle ends as `Cycle` of the old state says: the next state, a halt, or a left-out case |
| LegacyCpu.Cpu8086.FetchOpcode | src/jsemu/emu/cpus/8086.js:759-788 | the fetch clears `_tempIP` and overrides, takes a prefix, and decodes |
| LegacyCpu.Cpu8086.Dispatch | src/jsemu/emu/cpus/8086.js:798-3942 | the switch ends as `Execute` says |
| LegacyCpu.Cpu8086.RunHandler | src/jsemu/emu/cpus/8086.js:798-3942 | every handled case ends as `Handle` says |
| LegacyCpu.Cpu8086.Alu | src/jsemu/emu/cpus/8086.js:988-1011 | one ALU handler leaves `AluStep` of the old state |
| LegacyCpu.Cpu8086.IncDec | src/jsemu/emu/cpus/8086.js:1487-1515 | INC/DEC reg16 leave `Stepped` of the old state |
| LegacyCpu.Cpu8086.PushRegister | src/jsemu/emu/cpus/8086.js:3129-3160 | PUSH reg16 |
| LegacyCpu.Cpu8086.PopRegister | src/jsemu/emu/cpus/8086.js:3056-3095 | POP reg16 |
| LegacyCpu.Cpu8086.PushSegment | src/jsemu/emu/cpus/8086.js:3113-3128 | PUSH ES/CS/SS/DS |
| LegacyCpu.Cpu8086.PopSegment | src/jsemu/emu/cpus/8086.js:3044-3055 | POP ES/SS/DS |
| LegacyCpu.Cpu8086.Call | src/jsemu/emu/cpus/8086.js:1295-1317 | CALL rel16 |
| LegacyCpu.Cpu8086.Return | src/jsemu/emu/cpus/8086.js:3177-3186 | RET |
| LegacyCpu.Cpu8086.JumpIf | src/jsemu/emu/cpus/8086.js:2435-2713 | Jcc jumps exactly when its named condition holds (corrected for 0x7C-0x7F) |
| LegacyCpu.Cpu8086.SetOrClear | src/jsemu/emu/cpus/8086.js:1318-1347 | CLC, STC, CLI, STI, CLD, STD |
| LegacyCpu.Cpu8086.ExchangeAx | src/jsemu/emu/cpus/8086.js:3669-3768 | XCHG AX, reg16 |
| LegacyCpu.Cpu8086.Exchange | src/jsemu/emu/cpus/8086.js:3658-3668 | XCHG reg, r/m (corrected) |
| LegacyCpu.Cpu8086.MoveToRm | src/jsemu/emu/cpus/8086.js:2759-2765 | MOV r/m, reg |
| LegacyCpu.Cpu8086.MoveFromRm | src/jsemu/emu/cpus/8086.js:2766-2772 | MOV reg, r/m |
| LegacyCpu.Cpu8086.MoveSegment | src/jsemu/emu/cpus/8086.js:2773-2780 | MOV r/m16, Sreg and MOV Sreg, r/m16 (corrected) |
| LegacyCpu.Cpu8086.LoadAccumulator | src/jsemu/emu/cpus/8086.js:2781-2798 | MOV AL/AX, [addr] |
| LegacyCpu.Cpu8086.StoreAccumulator | src/jsemu/emu/cpus/8086.js:2799-2816 | MOV [addr], AL/AX (corrected) |
| LegacyCpu.Cpu8086.LoadImmediate | src/jsemu/emu/cpus/8086.js:2817-2889 | MOV reg, imm |
| LegacyCpu.Cpu8086.StoreImmediate | src/jsemu/emu/cpus/8086.js:2890-2908 | MOV r/m, imm (corrected) |

Each `LegacyCpu.Cpu8086` method from `Alu` down to `StoreImmediate` ensures
that the object afterwards is the specification function of the same
handler applied to the object before. The properties of those functions
are the `LegacyProps` and `LegacyAlu` lemmas above.

## Left out

- Physical addresses wrap at 2^20 (`Utils.Phys`). The source computes
  `segment * 16 + offset` without a wrap, so an access past 1 MiB in the
  source reads `undefined` or is dropped.
- Utils.SignExtend, Utils.Signed16 and Utils.Phys, as the newer engine uses
  them: `signExtend`, `twosComplement2Int8`, `twosComplement2Int16` and
  `seg2abs` are imported from src/emu/utils/Utils.js, which is not part of
  this model, so their definitions here are assumed from their names and
  call sites (the older engine's own versions in 8086.js are modelled as
  written). `Utils.SignExtend` is assumed to replace the high byte with 0xFF
  whenever bit 7 is set. Because `Operations.Operands` applies it to every
  word source, a word CMP, SUB or SBB whose source has bit 7 set operates on
  `0xFF00 | (source & 0xFF)`. `Branches.CompareJumps` describes the two
  values after that extension, so it matches the handler's operands only
  when the extension leaves the source unchanged.
- Addressing.AccessImm: a write to Iw calls `InvalidAddressModeException`
  without `new` (Addressing.js:590). Exceptions.js is not part of this
  model. If the export is a class, or a constructor that sets `this`, that
  call throws a TypeError in a module. The model assumes instead that the
  call returns, so the write yields an undefined value without failing.
- Opcodes 0xFE (GRP4), 0xCD (INT), LODS (0xAC/0xAD), STOS
  (0xAA/0xAB) and OUT (0xE6/0xE7/0xEE/0xEF) in 8086.js end in an
  `Unmodelled` outcome. They use undefined variables, or call the BIOS and
  port code outside this core.
- 8086.js cases 0x0F, 0x8F, 0xC2, 0xCC, 0xF1 and 0xFF, and opcodes without a
  case, only halt (when `_breakOnError` is set) or do nothing in the source,
  and are modelled as such.
- The handlers of Operations.js that throw FeatureNotImplementedException
  (among them ADD, ADC, AND, OR, XOR, INC, NOT and the string, shift and
  BCD instructions) are not modelled; the newer engine cannot run them.
- `mov`, `xchg`, `lea`, `lds` and `les` of Operations.js have working
  bodies, but lie outside the part of the newer engine modelled here
  (the older engine's MOV and XCHG are modelled).
- Ob, Ov, Sw and EvAddr have empty bodies in Addressing.js and are not
  modelled.
- Halting, debugging, logging, the GUI, settings, `configure`,
  `clearRegisters`, `initIP`, `clearMemory`, `loadBinary` and port
  initialisation are left out. The initial state is a parameter of the
  `LegacyCpu.Cpu8086` constructor, and a halt is an outcome value.
- Cycle counting and timing are left out.
- getState/setState of CPU.js (persistence) and DebugMemoryView.js (a view)
  are left out.
- The operand size "v" is treated as a word, and the 32-bit and other operand
  sizes are left out.
- Only one segment prefix per instruction is followed, as in the source.
  Code bytes after a prefix are fetched through the overriding segment as
  written.
- `Machine.Cpu` keeps IP and FLAGS in fields of their own. The source stores
  them in `reg16` at the indices `regIP` and `regFlags`.
- Branches.ConditionalJump: JA and JG test the documented conditions. JA and
  JG as written are stated separately (`Branches.ConditionsAsWritten`).
- Operations.Sbb: CF includes the borrow-in, whereas the source's
  `flagSub(d, s, r)` ignores it.
- Operations.SubtractBorrow: states the corrected SBB flags of `Operations.Sbb`.
- Operations.Dec: CF is kept, whereas the source's `flagSub` sets it.
- Operations.DecrementFlags: states the corrected DEC flags of `Operations.Dec`.
- Operations.Sahf: the five flags are replaced, whereas the source ORs AH into
  FLAGS.
- Branches.Ret: the immediate of 0xC2 is added to SP, whereas the source adds
  it to IP.
- Branches.RetfImmediate: the immediate is added to SP, whereas the source
  adds it to IP.
- Branches.Retf: for 0xCA the immediate is added to SP, whereas the source
  adds it to IP.
- Addressing.AccessAp: reads the far pointer in the 8086 layout, the offset
  from the word at IP + 1 and the segment from the word at IP + 3. The source
  returns the word at IP + 1 first, so its call and jmp load that word into
  CS. The source's order is `Addressing.ApAsWritten`.
- Addressing.Access: Ap uses the 8086 layout of `Addressing.AccessAp`, and
  ModR/M operands sign-extend the byte displacement as
  `Addressing.CalcRMDispAddr` does.
- Branches.Call: a far call through Ap (0x9A) loads CS from the word at
  IP + 3, the 8086 layout of `Addressing.AccessAp`.
- Branches.Jmp: a far jump through Ap (0xEA) loads CS from the word at IP + 3,
  the 8086 layout of `Addressing.AccessAp`.
- Addressing.CalcRMDispAddr: sign-extends the byte displacement. The unsigned
  reading of the source is `Addressing.RMDispAddrAsWritten`.
- Addressing.CalcAddress, Addressing.ReadRMReg8, Addressing.ReadRMReg16,
  Addressing.ReadRMReg32, Addressing.WriteRMReg8 and Addressing.WriteRMReg16:
  a byte displacement of 0x80 or more is sign-extended, as in
  `Addressing.CalcRMDispAddr`, where the source adds it unsigned.
- Addressing.AccessEb, Addressing.AccessEv, Addressing.AccessEp,
  Addressing.AccessM and Addressing.AccessMp: the same sign-extended byte
  displacement.
- LegacyCpu.Cpu8086.JumpIf: 0x7C-0x7F test their documented conditions
  instead of `(0 === flags) & MASK`. The as-written function is in
  `LegacyExec`.
- LegacyCpu.Cpu8086.Exchange: swaps the two operands, whereas the source
  writes the r/m operand at the reloaded address.
- LegacyCpu.Cpu8086.MoveSegment: loads and stores the segment register,
  whereas the source does nothing.
- LegacyCpu.Cpu8086.StoreAccumulator: stores AH as the high byte, whereas the
  source stores `(AH >> 8) & 0xFF`.
- LegacyCpu.Cpu8086.StoreImmediate: reads the immediate right after the
  displacement, whereas the source reads it at `_getRMIncIP`.
- LegacyCpu.Cpu8086.Dispatch: uses the corrected ALU table
  (`LegacyAlu.AluTable`, `LegacyAlu.Grp1`) and the corrected handlers
  above. The as-written table is `LegacyAlu.AluTableAsWritten`. Besides the
  repairs in the findings below, the corrected table also differs from the
  code as written in these cases: AND AL, imm8 (0x24) moves IP by 2 where
  the source moves it by 1; CMP 0x3B uses the word size where the source
  passes "b"; the accumulator forms of ADC and SBB (0x14, 0x15, 0x1C,
  0x1D) add the immediate into AL or AX where the source reads and writes an
  r/m operand; and the G,E forms 0x12, 0x13, 0x1A, 0x1B, 0x23 and 0x2B store
  into the reg register where the source stores into the r/m operand.
- LegacyCpu.Cpu8086.RunHandler: runs the same corrected handlers and ALU
  table.
- LegacyCpu.Cpu8086.EmulateCycle: a cycle runs the corrected handlers and ALU
  table through `Dispatch`.
- XOR 0x35 in 8086.js assigns the 16-bit result of `AX ^ imm16` to the
  `_regAL` field, which then holds a value above 0xFF. The model's AL is a
  byte and cannot hold it, so 0x35 is not part of the as-written ALU table.
  The corrected table treats it as XOR AX, imm16.

## Findings

| source | as written | input that shows it | evidently intended | confidence | as-written member | corrected member |
|---|---|---|---|---|---|---|
| src/jsemu/emu/cpus/8086.js:2629-2707 | `0 === flags & MASK` parses as `(0 === flags) & MASK` | any flags; e.g. SF set, OF clear for JL | JL/JGE/JLE/JG test SF, OF and ZF | high (not executed) | LegacyProps.SignedJumpsFinding | LegacyProps.JccComplementary |
| src/jsemu/emu/cpus/8086.js:2964-2984 | OR computed with logical `\|\|` | AL = 1, OR AL, 2 | bitwise OR, AL = 3 | high (not executed) | LegacyAlu.OrAsWritten | LegacyAlu.LogicBitwise |
| src/jsemu/emu/cpus/8086.js:2807-2816 | MOV [addr], AX stores `(AH >> 8) & 0xFF` as the high byte | AX = 0x1234 | the word 0x1234 stored | high (not executed) | LegacyProps.StoreAccFinding | LegacyProps.StoreThenLoad |
| src/jsemu/emu/cpus/8086.js:1060-1084 | ADD reg16, r/m16 stores into r/m | 0x03 with mod 3 | the sum stored in reg | high (not executed) | LegacyAlu.AddRegFormAsWritten | LegacyAlu.AddRegFormRepaired |
| src/jsemu/emu/cpus/8086.js:3187-3380 | SBB passes "add" to `_setFlags` and never counts the borrow-in for CF | SBB AL, AL with CF set | CF set on borrow | high (not executed) | LegacyAlu.SbbCarryAsWritten | LegacyAlu.SubtractionCarry |
| src/jsemu/emu/cpus/8086.js:3463-3657 | SUB passes "add" to `_setFlags` | SUB AL, 1 with AL = 0 | CF set on borrow | high (not executed) | LegacyAlu.SubCarryAsWritten | LegacyAlu.SubtractionCarry |
| src/jsemu/emu/cpus/8086.js:1721-2090 | 0x80 reads its immediate at IP + `_getRMIncIP` + 3 | 0x80 with mod 3 | immediate right after the ModR/M bytes | high (not executed) | LegacyAlu.Grp1AsWrittenOffsets | LegacyAlu.Grp1AdvancesByLength |
| src/jsemu/emu/cpus/8086.js:1012-1035 | displacement counted on read and on write | ADD [disp16], reg | IP moved by the instruction length | high (not executed) | LegacyAlu.DoubleCountAsWritten | LegacyAlu.AluAdvancesByLength |
| src/jsemu/emu/cpus/8086.js:2890-2908 | MOV r/m8, imm8 reads the immediate via `_getRMIncIP` | byte displacement (mod 1) | immediate right after the displacement | high (not executed) | LegacyProps.MovRmImmFinding | LegacyCpu.Cpu8086.StoreImmediate |
| src/jsemu/emu/cpus/8086.js:2773-2780 | MOV Sreg cases do nothing | MOV DS, AX | the segment register loaded | high (not executed) | LegacyProps.MovSegmentFinding | LegacyCpu.Cpu8086.MoveSegment |
| src/jsemu/emu/cpus/8086.js:3658-3668 | XCHG writes the operand after reloading the address register | XCHG BX, [BX] | the two operands swapped | high (not executed) | LegacyProps.XchgFinding | LegacyProps.XchgSwaps |
| src/emu/Operations.js:336-356 | JA jumps unless CF and ZF are both set | CMP 1, 2 | jump iff CF = 0 and ZF = 0 | high (not executed) | Branches.AboveAsWrittenJumpsWhenBelow | Branches.CompareJumps |
| src/emu/Operations.js:473-494 | JG jumps when SF = OF or ZF = 0 | CMP 5, 5 | jump iff ZF = 0 and SF = OF | high (not executed) | Branches.GreaterAsWrittenJumpsOnEqual | Branches.CompareJumps |
| src/emu/Operations.js:1387-1399 | SAHF ORs AH into FLAGS | CF set, AH = 0 | the five flags replaced | high (not executed) | Operations.SahfAsWrittenKeepsCarry | Operations.LahfSahf |
| src/emu/Operations.js:1420-1443 | SBB's CF from `flagSub(d, s, r)` ignores the borrow-in | 0 - 0 with CF set | CF set (borrow) | high (not executed) | Operations.SbbAsWrittenDropsBorrow | Operations.SbbMeaning |
| src/emu/Operations.js:262-282 | DEC sets CF through `flagSub` | DEC of 0 | CF unchanged | high (not executed) | Operations.DecAsWrittenSetsCarry | Operations.DecMeaning |
| src/emu/cpu/Addressing.js:886-928 | byte displacement added unsigned | [BX-1] (0xFF) | sign-extended displacement | high (not executed) | Addressing.DisplacementAsWrittenIgnoresSign | Addressing.DisplacementSignExtended |
| src/emu/cpu/Addressing.js:371-385 | Ap returns the two words swapped | any far pointer with offset != segment | [segment, offset] as Mp reads it | medium (not executed) | Addressing.ApAsWrittenSwapsWords | Branches.FarCallThroughAp |
| src/emu/Operations.js:1338-1348 | RET imm adds the immediate to IP | RET 4 | immediate added to SP | high (not executed) | Branches.ReturnAsWrittenMissesTarget | Branches.CallRetReleases |
| src/emu/Operations.js:1364-1377 | RETF imm adds the immediate to IP | RETF 4 | immediate added to SP | high (not executed) | Branches.FarReturnAsWrittenMissesTarget | Branches.FarReturnReleases |
