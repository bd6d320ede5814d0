/**
 * The parity lookup table of the newer engine and the proof that each entry
 * says whether its index has an even number of set bits.
 */
module Parity {
  import opened Utils


  /**
   * The parity lookup: entry `16 * h + l` is row `h`, column `l`, and is 1
   * when that byte has an even number of set bits.
   */
  const PARITY: seq<seq<Bit>> := [
    [1, 0, 0, 1, 0, 1, 1, 0, 0, 1, 1, 0, 1, 0, 0, 1],
    [0, 1, 1, 0, 1, 0, 0, 1, 1, 0, 0, 1, 0, 1, 1, 0],
    [0, 1, 1, 0, 1, 0, 0, 1, 1, 0, 0, 1, 0, 1, 1, 0],
    [1, 0, 0, 1, 0, 1, 1, 0, 0, 1, 1, 0, 1, 0, 0, 1],
    [0, 1, 1, 0, 1, 0, 0, 1, 1, 0, 0, 1, 0, 1, 1, 0],
    [1, 0, 0, 1, 0, 1, 1, 0, 0, 1, 1, 0, 1, 0, 0, 1],
    [1, 0, 0, 1, 0, 1, 1, 0, 0, 1, 1, 0, 1, 0, 0, 1],
    [0, 1, 1, 0, 1, 0, 0, 1, 1, 0, 0, 1, 0, 1, 1, 0],
    [0, 1, 1, 0, 1, 0, 0, 1, 1, 0, 0, 1, 0, 1, 1, 0],
    [1, 0, 0, 1, 0, 1, 1, 0, 0, 1, 1, 0, 1, 0, 0, 1],
    [1, 0, 0, 1, 0, 1, 1, 0, 0, 1, 1, 0, 1, 0, 0, 1],
    [0, 1, 1, 0, 1, 0, 0, 1, 1, 0, 0, 1, 0, 1, 1, 0],
    [1, 0, 0, 1, 0, 1, 1, 0, 0, 1, 1, 0, 1, 0, 0, 1],
    [0, 1, 1, 0, 1, 0, 0, 1, 1, 0, 0, 1, 0, 1, 1, 0],
    [0, 1, 1, 0, 1, 0, 0, 1, 1, 0, 0, 1, 0, 1, 1, 0],
    [1, 0, 0, 1, 0, 1, 1, 0, 0, 1, 1, 0, 1, 0, 0, 1]
  ]

  /** `PARITY[b]`. */
  function ParityOf(b: Byte): Bit
  {
    PARITY[b / 16][b % 16]
  }

  /** Number of set bits of a nibble. */
  function NibbleBits(i: int): int
  {
    i % 2 + (i / 2) % 2 + (i / 4) % 2 + (i / 8) % 2
  }

  /** Row of an even-parity high nibble. */
  const EVEN_ROW: seq<Bit> := [1, 0, 0, 1, 0, 1, 1, 0, 0, 1, 1, 0, 1, 0, 0, 1]

  /** Row of an odd-parity high nibble. */
  const ODD_ROW: seq<Bit> := [0, 1, 1, 0, 1, 0, 0, 1, 1, 0, 0, 1, 0, 1, 1, 0]

  /** Each row of the table is the even row or the odd row, as the parity of its high nibble says. */
  lemma RowShape(h: int)
    requires 0 <= h < 16
    ensures PARITY[h] == if NibbleBits(h) % 2 == 0 then EVEN_ROW else ODD_ROW
  {
    if h < 8 {
      RowShapeLow(h);
    } else {
      RowShapeHigh(h);
    }
  }

  lemma RowShapeLow(h: int)
    requires 0 <= h < 8
    ensures PARITY[h] == if NibbleBits(h) % 2 == 0 then EVEN_ROW else ODD_ROW
  {
    if h == 0 {
    } else if h == 1 {
    } else if h == 2 {
    } else if h == 3 {
    } else if h == 4 {
    } else if h == 5 {
    } else if h == 6 {
    } else {
    }
  }

  lemma RowShapeHigh(h: int)
    requires 8 <= h < 16
    ensures PARITY[h] == if NibbleBits(h) % 2 == 0 then EVEN_ROW else ODD_ROW
  {
    if h == 8 {
    } else if h == 9 {
    } else if h == 10 {
    } else if h == 11 {
    } else if h == 12 {
    } else if h == 13 {
    } else if h == 14 {
    } else {
    }
  }

  /** The even row holds 1 at the columns of even-parity low nibbles; the odd row is its complement. */
  lemma RowEntries(l: int)
    requires 0 <= l < 16
    ensures EVEN_ROW[l] == (if NibbleBits(l) % 2 == 0 then 1 else 0)
    ensures ODD_ROW[l] == 1 - EVEN_ROW[l]
  {
    if l < 8 {
      RowEntriesLow(l);
    } else {
      RowEntriesHigh(l);
    }
  }

  lemma RowEntriesLow(l: int)
    requires 0 <= l < 8
    ensures EVEN_ROW[l] == (if NibbleBits(l) % 2 == 0 then 1 else 0)
    ensures ODD_ROW[l] == 1 - EVEN_ROW[l]
  {
    if l == 0 {
    } else if l == 1 {
    } else if l == 2 {
    } else if l == 3 {
    } else if l == 4 {
    } else if l == 5 {
    } else if l == 6 {
    } else {
    }
  }

  lemma RowEntriesHigh(l: int)
    requires 8 <= l < 16
    ensures EVEN_ROW[l] == (if NibbleBits(l) % 2 == 0 then 1 else 0)
    ensures ODD_ROW[l] == 1 - EVEN_ROW[l]
  {
    if l == 8 {
    } else if l == 9 {
    } else if l == 10 {
    } else if l == 11 {
    } else if l == 12 {
    } else if l == 13 {
    } else if l == 14 {
    } else {
    }
  }

  /** Entry (h, l) is 1 exactly when both nibbles have the same parity. */
  lemma ParityCell(h: int, l: int)
    requires 0 <= h < 16 && 0 <= l < 16
    ensures PARITY[h][l] == if NibbleBits(h) % 2 == NibbleBits(l) % 2 then 1 else 0
  {
    RowShape(h);
    RowEntries(l);
    var row := PARITY[h];
    if NibbleBits(h) % 2 == 0 {
      assert row[l] == EVEN_ROW[l];
    } else {
      assert row[l] == ODD_ROW[l];
    }
  }

  lemma PopcountStep(n: nat, x: nat, b: int)
    requires 0 <= b < 2 && n == 2 * x + b
    ensures Popcount(n) == b + Popcount(x)
  {
    if n != 0 {
      assert n % 2 == b && n / 2 == x;
    }
  }

  /** A nibble is the sum of its four binary digits. */
  lemma NibbleDigits(l: int)
    requires 0 <= l < 16
    ensures l == 8 * ((l / 8) % 2) + 4 * ((l / 4) % 2) + 2 * ((l / 2) % 2) + l % 2
  {
  }

  /** Two binary digits below `x` add their own count to the set bits of `x`. */
  lemma PopcountPair(n: nat, x: nat, b1: Bit, b0: Bit)
    requires n == 4 * x + 2 * b1 + b0
    ensures Popcount(n) == b0 + b1 + Popcount(x)
  {
    var y: nat := 2 * x + b1;
    PopcountStep(n, y, b0);
    PopcountStep(y, x, b1);
  }

  /** Four binary digits below `h` add their own count to the set bits of `h`. */
  lemma PopcountDigits(n: nat, h: nat, b3: Bit, b2: Bit, b1: Bit, b0: Bit)
    requires n == 16 * h + 8 * b3 + 4 * b2 + 2 * b1 + b0
    ensures Popcount(n) == b0 + b1 + b2 + b3 + Popcount(h)
  {
    var y: nat := 4 * h + 2 * b3 + b2;
    PopcountPair(n, y, b1, b0);
    PopcountPair(y, h, b3, b2);
  }

  /** The low nibble `l` of `n = 16 * h + l` contributes its own set bits. */
  lemma PopcountNibble(n: nat, h: nat, l: int)
    requires 0 <= l < 16 && n == 16 * h + l
    ensures Popcount(n) == NibbleBits(l) + Popcount(h)
  {
    var b3: Bit, b2: Bit, b1: Bit, b0: Bit := (l / 8) % 2, (l / 4) % 2, (l / 2) % 2, l % 2;
    NibbleDigits(l);
    PopcountDigits(n, h, b3, b2, b1, b0);
    assert NibbleBits(l) == b0 + b1 + b2 + b3;
  }

  /** The set bits of a byte are those of its two nibbles. */
  lemma PopcountByte(b: Byte)
    ensures Popcount(b) == NibbleBits(b / 16) + NibbleBits(b % 16)
  {
    var h: nat := b / 16;
    PopcountNibble(b, h, b % 16);
    PopcountNibble(h, 0, h);
  }

  /** Entry `b` is 1 exactly when the two nibbles of `b` have the same parity. */
  lemma ParityNibbles(b: Byte)
    ensures ParityOf(b) == if NibbleBits(b / 16) % 2 == NibbleBits(b % 16) % 2 then 1 else 0
  {
    ParityCell(b / 16, b % 16);
  }

  /** A byte has even parity exactly when its two nibbles have the same parity. */
  lemma NibbleParity(b: Byte)
    ensures NibbleBits(b / 16) % 2 == NibbleBits(b % 16) % 2 <==> Popcount(b) % 2 == 0
  {
    PopcountByte(b);
    EvenSum(NibbleBits(b / 16), NibbleBits(b % 16));
  }

  /** Every entry of the table is 1 exactly when its index has even parity. */
  lemma ParityTable(b: Byte)
    ensures ParityOf(b) == if Popcount(b) % 2 == 0 then 1 else 0
  {
    ParityNibbles(b);
    NibbleParity(b);
  }

  lemma EvenSum(x: int, y: int)
    ensures (x + y) % 2 == 0 <==> x % 2 == y % 2
  {
  }

}
