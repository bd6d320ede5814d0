/**
 * Integer widths, flag masks and the small conversions that both 8086
 * engines rely on: physical addressing, two's-complement decoding of
 * relative offsets, sign extension of byte immediates and bit counting.
 *
 * The newer engine imports `seg2abs`, `signExtend` and
 * `twosComplement2Int8/16` from a utility file that is not part of this
 * model; the definitions here follow the inline code of the older engine.
 */
module Utils {

  type Byte = x: int | 0 <= x < 0x100
  type Word = x: int | 0 <= x < 0x1_0000
  type Bit = x: int | 0 <= x < 2
  type Two = x: int | 0 <= x < 4
  type Three = x: int | 0 <= x < 8

  /** Size of the emulated address space, 1 MiB. */
  const MemSize: nat := 0x10_0000

  /** A bit position of the 16-bit FLAGS word; position `i` is the flag whose mask is `1 << i`. */
  type FlagBit = i: int | 0 <= i < 16

  const CF: FlagBit := 0
  const PF: FlagBit := 2
  const AF: FlagBit := 4
  const ZF: FlagBit := 6
  const SF: FlagBit := 7
  const TF: FlagBit := 8
  const IF: FlagBit := 9
  const DF: FlagBit := 10
  const OF: FlagBit := 11

  /** The FLAGS word as its sixteen bits, least significant first. */
  type Flags = f: seq<bool> | |f| == 16 witness seq(16, _ => false)

  /** The FLAGS word with every bit clear. */
  const NO_FLAGS: Flags := seq(16, _ => false)

  datatype Option<T> = None | Some(value: T)

  /** What a store into a Uint8Array (or `x & 0xFF`) keeps of an integer. */
  function ToU8(x: int): Byte { x % 0x100 }

  /** What a store into a Uint16Array (or `x & 0xFFFF`) keeps of an integer. */
  function ToU16(x: int): Word { x % 0x1_0000 }

  /** The word whose high byte is `hi` and low byte is `lo`: `(hi << 8) | lo`. */
  function Join(hi: Byte, lo: Byte): Word { hi * 0x100 + lo }

  /** Truncating to 16 bits before an addition changes nothing modulo 2^16. */
  lemma ToU16Add(x: int, k: int)
    ensures ToU16(ToU16(x) + k) == ToU16(x + k)
  {
    var q := x / 0x1_0000;
    assert x + k == (ToU16(x) + k) + 0x1_0000 * q;
  }

  /** Adding a nonzero word to a word and truncating never gives the word back. */
  lemma ToU16Moves(x: Word, k: Word)
    requires k != 0
    ensures ToU16(x + k) != x
  {
    if x + k >= 0x1_0000 {
      assert ToU16(x + k) == x + k - 0x1_0000;
    }
  }

  /** `(x >> 8) & 0xFF`. */
  function HighByte(x: int): Byte { (x / 0x100) % 0x100 }

  lemma JoinSplit(x: Word)
    ensures Join(HighByte(x), ToU8(x)) == x
  {
  }

  lemma SplitJoin(hi: Byte, lo: Byte)
    ensures HighByte(Join(hi, lo)) == hi && ToU8(Join(hi, lo)) == lo
  {
  }

  /**
   * Physical address of segment:offset, `segment * 16 + offset`, wrapped to
   * the 1 MiB address space.
   */
  function Phys(segment: int, offset: int): (a: nat)
    ensures a < MemSize
    ensures (segment * 16 + offset - a) % MemSize == 0
    ensures 0 <= segment * 16 + offset < MemSize ==> a == segment * 16 + offset
  {
    (segment * 16 + offset) % MemSize
  }

  /** Two offsets one apart never name the same physical cell. */
  lemma PhysNext(segment: int, offset: int)
    ensures Phys(segment, offset + 1) != Phys(segment, offset)
    ensures Phys(segment, offset + 1) == (Phys(segment, offset) + 1) % MemSize
  {
  }

  /** Offsets less than 1 MiB apart never name the same physical cell. */
  lemma PhysDistinct(segment: int, p: int, q: int)
    requires 0 < p - q < MemSize
    ensures Phys(segment, p) != Phys(segment, q)
  {
  }

  /**
   * Signed value of a byte offset: a set bit 7 gives
   * `-((b ^ 0xFF) + 1)`, otherwise the byte itself.
   */
  function Signed8(b: Byte): (r: int)
    ensures -0x80 <= r < 0x80
    ensures ToU8(r) == b
    ensures r < 0 <==> b >= 0x80
  {
    var negative := b / 0x80 == 1;
    if negative then -1 * (b / 0x80) * ((0xFF - b) + 1) else b
  }

  /**
   * Signed value of a word offset: a set bit 15 gives
   * `-((w ^ 0xFFFF) + 1)`, otherwise the word itself.
   */
  function Signed16(w: Word): (r: int)
    ensures -0x8000 <= r < 0x8000
    ensures ToU16(r) == w
    ensures r < 0 <==> w >= 0x8000
  {
    var negative := w / 0x8000 == 1;
    if negative then -1 * (w / 0x8000) * ((0xFFFF - w) + 1) else w
  }

  /**
   * Sign extension of an immediate: when bit 7 is set the high byte is
   * forced to 0xFF (`0xFF00 | v`), otherwise the value is kept.
   */
  function SignExtend(v: Word): (r: Word)
    ensures ToU8(r) == ToU8(v)
    ensures v < 0x100 ==> Signed16(r) == Signed8(v)
    ensures v < 0x80 ==> r == v
  {
    if (v % 0x100) / 0x80 == 1 then 0xFF00 + v % 0x100 else v
  }

  /** Number of set bits of a non-negative integer. */
  function Popcount(n: nat): nat
    decreases n
  {
    if n == 0 then 0 else n % 2 + Popcount(n / 2)
  }

  /** Bit of `x` whose weight is `weight` (a power of two): `(x & weight) != 0`. */
  function BitAt(x: int, weight: nat): Bit
    requires weight > 0
  {
    (x / weight) % 2
  }

  /** `flags & mask != 0` for the mask of flag `b`. */
  predicate IsSet(flags: Flags, b: FlagBit)
  {
    flags[b]
  }

  function Pow2(n: nat): (p: nat)
    ensures p > 0
  {
    if n == 0 then 1 else 2 * Pow2(n - 1)
  }

  /** The number whose binary digits, least significant first, are `bits`. */
  function Pack(bits: seq<bool>): (n: nat)
    ensures n < Pow2(|bits|)
  {
    if |bits| == 0 then 0 else (if bits[0] then 1 else 0) + 2 * Pack(bits[1..])
  }

  /** The lowest `width` binary digits of `n`, least significant first. */
  function Unpack(n: nat, width: nat): (bits: seq<bool>)
    ensures |bits| == width
  {
    if width == 0 then [] else [n % 2 == 1] + Unpack(n / 2, width - 1)
  }

  lemma {:induction false} UnpackPack(bits: seq<bool>)
    ensures Unpack(Pack(bits), |bits|) == bits
  {
    if |bits| > 0 {
      var n, b := Pack(bits), if bits[0] then 1 else 0;
      DivUnique(n, 2, Pack(bits[1..]), b);
      assert n % 2 == b;
      UnpackPack(bits[1..]);
    }
  }

  lemma {:induction false} PackUnpack(n: nat, width: nat)
    requires n < Pow2(width)
    ensures Pack(Unpack(n, width)) == n
  {
    if width > 0 {
      assert Unpack(n, width)[1..] == Unpack(n / 2, width - 1);
      PackUnpack(n / 2, width - 1);
    }
  }

  /** Digit `i` of `Unpack(n, width)` is bit `i` of `n`, the bit of weight 2^i. */
  lemma {:induction false} UnpackBit(n: nat, width: nat, i: nat)
    requires i < width
    ensures Unpack(n, width)[i] <==> BitAt(n, Pow2(i)) == 1
  {
    if i > 0 {
      UnpackBit(n / 2, width - 1, i - 1);
      HalveShift(n, Pow2(i - 1));
    }
  }

  /** Dividing by 2 and then by `p` is dividing by `2 * p`. */
  lemma HalveShift(n: nat, p: nat)
    requires p > 0
    ensures (n / 2) / p == n / (2 * p)
  {
    var q, k := n / 2, (n / 2) / p;
    assert n == 2 * q + n % 2;
    assert q == p * k + q % p;
    DivUnique(n, 2 * p, k, 2 * (q % p) + n % 2);
  }

  /** The quotient is the only `k` that leaves a remainder in range. */
  lemma DivUnique(n: int, m: int, k: int, r: int)
    requires m > 0 && n == m * k + r && 0 <= r < m
    ensures n / m == k
  {
    var k', r' := n / m, n % m;
    assert m * (k - k') == r' - r;
    if k > k' {
      MulAtLeast(m, k - k');
    } else if k < k' {
      MulAtLeast(m, k' - k);
    }
  }

  lemma MulAtLeast(m: int, x: int)
    requires m > 0 && x >= 1
    ensures m * x >= m
  {
  }

  lemma Pow2Values()
    ensures Pow2(8) == 0x100 && Pow2(16) == 0x1_0000
  {
  }

  /** The FLAGS word as a number, as PUSHF stores it. */
  function FlagsWord(f: Flags): (w: Word)
  {
    Pow2Values();
    Pack(f)
  }

  /** The bits of a number read into the FLAGS word, as POPF loads it. */
  function WordFlags(w: Word): (f: Flags)
  {
    Unpack(w, 16)
  }

  lemma FlagsWordRoundTrip(f: Flags, w: Word)
    ensures WordFlags(FlagsWord(f)) == f
    ensures FlagsWord(WordFlags(w)) == w
  {
    UnpackPack(f);
    Pow2Values();
    PackUnpack(w, 16);
  }
}
