/**
 * The JavaScript bitwise operators `&`, `|` and `^` on the numbers the
 * older engine keeps in its registers.  Each operand is first taken to 32
 * bits and the result is read back as a signed 32-bit number; on
 * non-negative operands below 2^31 that is the plain bitwise operation on
 * natural numbers, defined here one binary digit at a time.
 */
module Bitwise {
  import opened Utils

  /** Binary digit `i` of `n`. */
  function Digit(n: nat, i: nat): Bit
  {
    if i == 0 then n % 2 else Digit(n / 2, i - 1)
  }

  function BitAnd(x: nat, y: nat): nat
    decreases x
  {
    if x == 0 || y == 0 then 0 else 2 * BitAnd(x / 2, y / 2) + (if x % 2 == 1 && y % 2 == 1 then 1 else 0)
  }

  function BitOr(x: nat, y: nat): nat
    decreases x + y
  {
    if x == 0 then y else if y == 0 then x
    else 2 * BitOr(x / 2, y / 2) + (if x % 2 == 1 || y % 2 == 1 then 1 else 0)
  }

  function BitXor(x: nat, y: nat): nat
    decreases x + y
  {
    if x == 0 then y else if y == 0 then x
    else 2 * BitXor(x / 2, y / 2) + (if x % 2 != y % 2 then 1 else 0)
  }

  /** Digit by digit, `&` keeps a one where both operands have one. */
  lemma {:induction false} AndDigits(x: nat, y: nat, i: nat)
    ensures Digit(BitAnd(x, y), i) == (if Digit(x, i) == 1 && Digit(y, i) == 1 then 1 else 0)
    decreases i
  {
    if x == 0 || y == 0 {
      ZeroDigits(i);
    } else if i > 0 {
      AndDigits(x / 2, y / 2, i - 1);
    }
  }

  /** Digit by digit, `|` keeps a one where either operand has one. */
  lemma {:induction false} OrDigits(x: nat, y: nat, i: nat)
    ensures Digit(BitOr(x, y), i) == (if Digit(x, i) == 1 || Digit(y, i) == 1 then 1 else 0)
    decreases i
  {
    if x == 0 {
      ZeroDigits(i);
    } else if y == 0 {
      ZeroDigits(i);
    } else if i > 0 {
      OrDigits(x / 2, y / 2, i - 1);
    }
  }

  /** Digit by digit, `^` keeps a one where the operands differ. */
  lemma {:induction false} XorDigits(x: nat, y: nat, i: nat)
    ensures Digit(BitXor(x, y), i) == (if Digit(x, i) != Digit(y, i) then 1 else 0)
    decreases i
  {
    if x == 0 {
      ZeroDigits(i);
    } else if y == 0 {
      ZeroDigits(i);
    } else if i > 0 {
      XorDigits(x / 2, y / 2, i - 1);
    }
  }

  /** Every digit of zero is zero. */
  lemma {:induction false} ZeroDigits(i: nat)
    ensures Digit(0, i) == 0
  {
    if i > 0 {
      ZeroDigits(i - 1);
    }
  }

  /** The three operations stay below 2^k when both operands do. */
  lemma {:induction false} BitwiseBelow(x: nat, y: nat, k: nat)
    requires x < Pow2(k) && y < Pow2(k)
    ensures BitAnd(x, y) < Pow2(k) && BitOr(x, y) < Pow2(k) && BitXor(x, y) < Pow2(k)
    decreases k
  {
    if k > 0 && x > 0 && y > 0 {
      BitwiseBelow(x / 2, y / 2, k - 1);
    }
  }

  /** `x | y` is zero exactly when both operands are, and `x & y` never exceeds `x`. */
  lemma {:induction false} OrAndBounds(x: nat, y: nat)
    ensures BitOr(x, y) >= x && BitOr(x, y) >= y
    ensures BitOr(x, y) == 0 <==> x == 0 && y == 0
    ensures BitAnd(x, y) <= x && BitAnd(x, y) <= y
    decreases x + y
  {
    if x > 0 && y > 0 {
      OrAndBounds(x / 2, y / 2);
    }
  }

  /** `x ^ x` is zero, `x & x` and `x | x` are `x`. */
  lemma {:induction false} SelfOperations(x: nat)
    ensures BitXor(x, x) == 0 && BitAnd(x, x) == x && BitOr(x, x) == x
    decreases x
  {
    if x > 0 {
      SelfOperations(x / 2);
    }
  }

  const TWO32: nat := 0x1_0000_0000

  /** ToInt32: the signed 32-bit number congruent to `n`. */
  function Int32(n: int): (r: int)
    ensures -0x8000_0000 <= r < 0x8000_0000
    ensures 0 <= n < 0x8000_0000 ==> r == n
  {
    var u := n % TWO32;
    if u >= 0x8000_0000 then u - TWO32 else u
  }

  /** JavaScript `x & y`. */
  function JsAnd(x: int, y: int): int
  {
    Int32(BitAnd(x % TWO32, y % TWO32))
  }

  /** JavaScript `x | y`. */
  function JsOr(x: int, y: int): int
  {
    Int32(BitOr(x % TWO32, y % TWO32))
  }

  /** JavaScript `x ^ y`. */
  function JsXor(x: int, y: int): int
  {
    Int32(BitXor(x % TWO32, y % TWO32))
  }

  /** On two 16-bit operands the JavaScript operators are the plain ones and give a 16-bit result. */
  lemma JsOnWords(x: Word, y: Word)
    ensures JsAnd(x, y) == BitAnd(x, y) && JsOr(x, y) == BitOr(x, y) && JsXor(x, y) == BitXor(x, y)
    ensures 0 <= BitAnd(x, y) < 0x1_0000 && 0 <= BitOr(x, y) < 0x1_0000 && 0 <= BitXor(x, y) < 0x1_0000
  {
    assert Pow2(16) == 0x1_0000 by {
      Pow2Values();
    }
    BitwiseBelow(x, y, 16);
    SmallModulus(x);
    SmallModulus(y);
  }

  /** XOR with a mask of k ones takes a k-bit number to its complement. */
  lemma {:induction false} XorAllOnes(x: nat, k: nat)
    requires x < Pow2(k)
    ensures BitXor(x, Pow2(k) - 1) == Pow2(k) - 1 - x
    decreases k
  {
    if k > 0 && x > 0 {
      var m := Pow2(k) - 1;
      assert m / 2 == Pow2(k - 1) - 1 && m % 2 == 1;
      XorAllOnes(x / 2, k - 1);
    }
  }

  /**
   * The two's-complement step of `_shortJump` and CALL: `(v ^ 0xFF) + 1`
   * for a byte and `(v ^ 0xFFFF) + 1` for a word are 0x100 - v and
   * 0x1_0000 - v.
   */
  lemma ComplementPlusOne(v: Word)
    ensures v < 0x100 ==> JsXor(v, 0xFF) + 1 == 0x100 - v
    ensures JsXor(v, 0xFFFF) + 1 == 0x1_0000 - v
  {
    Pow2Values();
    JsOnWords(v, 0xFF);
    JsOnWords(v, 0xFFFF);
    if v < 0x100 {
      XorAllOnes(v, 8);
    }
    XorAllOnes(v, 16);
  }

  /** A number in 0..2^32-1 is its own remainder modulo 2^32. */
  lemma SmallModulus(n: int)
    requires 0 <= n < TWO32
    ensures n % TWO32 == n
  {
    DivUnique(n, TWO32, 0, n);
  }
}
