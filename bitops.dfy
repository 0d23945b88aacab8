/**
 * Unsigned integer operators as the generated Rust code uses them on `u8`
 * and on the field's storage type: `|`, `&`, `>>`, `<<` and the `as u8`
 * cast.  Integers are unbounded naturals here; a byte is a natural below 256.
 * Shifts and bit ranges are defined one bit at a time, so that every fact
 * about them is proved by induction with linear arithmetic only.
 */
module BitOps {

  type byte = x: nat | x < 256

  function Pow2(n: nat): (r: nat)
    ensures r >= 1
  {
    if n == 0 then 1 else 2 * Pow2(n - 1)
  }

  /** `x >> s`: the s low bits dropped. */
  function Shr(x: nat, s: nat): nat
  {
    if s == 0 then x else Shr(x / 2, s - 1)
  }

  /** `x << s` on a type wide enough for the result: s zero bits appended. */
  function Shl(x: nat, s: nat): nat
  {
    if s == 0 then x else 2 * Shl(x, s - 1)
  }

  /** The s low bits of x. */
  function Low(x: nat, s: nat): (r: nat)
    ensures r < Pow2(s)
  {
    if s == 0 then 0 else 2 * Low(x / 2, s - 1) + x % 2
  }

  /** s one-bits. */
  function Ones(s: nat): nat
  {
    if s == 0 then 0 else 2 * Ones(s - 1) + 1
  }

  /** Bitwise AND of two naturals, bit by bit from the least significant one. */
  function BitAnd(a: nat, b: nat): nat
    decreases a
  {
    if a == 0 || b == 0 then 0
    else 2 * BitAnd(a / 2, b / 2) + (if a % 2 == 1 && b % 2 == 1 then 1 else 0)
  }

  /** Bitwise OR of two naturals, bit by bit from the least significant one. */
  function BitOr(a: nat, b: nat): nat
    decreases a + b
  {
    if a == 0 then b
    else if b == 0 then a
    else 2 * BitOr(a / 2, b / 2) + (if a % 2 == 1 || b % 2 == 1 then 1 else 0)
  }

  /** `a | b` on `u8`. */
  function OrU8(a: byte, b: byte): byte
  {
    assert Pow2(8) == 256;
    OrBelow(a, b, 8);
    BitOr(a, b)
  }

  /** `a & b` on `u8`. */
  function AndU8(a: byte, b: byte): byte
  {
    AndAtMost(a, b);
    BitAnd(a, b)
  }

  /** `x as u8`: keeps the low eight bits. */
  function AsU8(x: nat): byte
  {
    x % 256
  }

  /** `x << s` on a `u8`: bits shifted past bit 7 are dropped. */
  function ShlU8(x: byte, s: nat): byte
  {
    Shl(x, s) % 256
  }

  /** The mask literal the derive embeds for an n-bit slice (see LowMaskIsShr). */
  function LowMask(n: nat): byte
    requires n <= 8
  {
    [0x00, 0x01, 0x03, 0x07, 0x0F, 0x1F, 0x3F, 0x7F, 0xFF][n]
  }

  /** The mask the derive embeds is n one-bits. */
  lemma LowMaskIsOnes(n: nat)
    requires n <= 8
    ensures LowMask(n) == Ones(n)
  {
    assert Ones(8) == 0xFF;
  }

  /** The mask is the literal `0xFFu8 >> (8 - n)` the derive computes. */
  lemma LowMaskIsShr(n: nat)
    requires n <= 8
    ensures LowMask(n) == Shr(0xFF, 8 - n)
  {
    assert Shr(0xFF, 8) == 0;
  }

  /** Two shifts to the right are one shift by the sum. */
  lemma {:induction false} ShrShr(x: nat, a: nat, b: nat)
    ensures Shr(Shr(x, a), b) == Shr(x, a + b)
    decreases a
  {
    if a > 0 {
      ShrShr(x / 2, a - 1, b);
    }
  }

  /** Every natural is its high part shifted back into place plus its k low bits. */
  lemma {:induction false} ShlShrLow(x: nat, k: nat)
    ensures Shl(Shr(x, k), k) + Low(x, k) == x
  {
    if k > 0 {
      ShlShrLow(x / 2, k - 1);
      ShlOfShr(x, k);
    }
  }

  /** Unfolding `(x >> k) << k` from the low end. */
  lemma ShlOfShr(x: nat, k: nat)
    requires k > 0
    ensures Shl(Shr(x, k), k) == 2 * Shl(Shr(x / 2, k - 1), k - 1)
  {
    ShlFirst(Shr(x / 2, k - 1), k);
  }

  /** `x << k` is `(2x) << (k - 1)`. */
  lemma {:induction false} ShlFirst(x: nat, k: nat)
    requires k > 0
    ensures Shl(x, k) == Shl(2 * x, k - 1)
    decreases k
  {
    if k > 1 {
      ShlFirst(x, k - 1);
    }
  }

  /** Shifting left by a then by b is shifting by a + b. */
  lemma {:induction false} ShlShl(x: nat, a: nat, b: nat)
    ensures Shl(Shl(x, a), b) == Shl(x, a + b)
    decreases b
  {
    if b > 0 {
      ShlShl(x, a, b - 1);
    }
  }

  /** Shifting distributes over addition. */
  lemma {:induction false} ShlAdd(a: nat, b: nat, s: nat)
    ensures Shl(a + b, s) == Shl(a, s) + Shl(b, s)
  {
    if s > 0 {
      ShlAdd(a, b, s - 1);
    }
  }

  /** Zero shifted is zero. */
  lemma {:induction false} ShlZero(s: nat)
    ensures Shl(0, s) == 0
  {
    if s > 0 {
      ShlZero(s - 1);
    }
  }

  lemma Pow2Mono(a: nat, b: nat)
    requires a <= b
    ensures Pow2(a) <= Pow2(b)
    decreases b
  {
    if a < b {
      Pow2Mono(a, b - 1);
    }
  }

  /** A value below 2^n shifted left by s is below 2^(n+s). */
  lemma {:induction false} ShlBelow(y: nat, n: nat, s: nat)
    requires y < Pow2(n)
    ensures Shl(y, s) < Pow2(n + s)
    decreases s
  {
    if s > 0 {
      ShlBelow(y, n, s - 1);
    }
  }

  /** The high part of a value below 2^(n+s), shifted by s, is below 2^n. */
  lemma {:induction false} ShrBelow(x: nat, n: nat, s: nat)
    requires x < Pow2(n + s)
    ensures Shr(x, s) < Pow2(n)
    decreases s
  {
    if s > 0 {
      ShrBelow(x / 2, n, s - 1);
    }
  }

  /** A value that fits in n bits is its own n low bits. */
  lemma {:induction false} LowOfSmall(x: nat, n: nat)
    requires x < Pow2(n)
    ensures Low(x, n) == x
  {
    if n > 0 {
      LowOfSmall(x / 2, n - 1);
    }
  }

  /** The b low bits of the a low bits are the b low bits, when b <= a. */
  lemma {:induction false} LowLow(x: nat, a: nat, b: nat)
    requires b <= a
    ensures Low(Low(x, a), b) == Low(x, b)
    decreases b
  {
    if b > 0 {
      assert Low(x, a) / 2 == Low(x / 2, a - 1) && Low(x, a) % 2 == x % 2;
      LowLow(x / 2, a - 1, b - 1);
    }
  }

  /** `x as u8` keeps the low eight bits. */
  lemma AsU8Low(x: nat)
    ensures AsU8(x) == Low(x, 8)
  {
    var y := x / 256;
    var r := x % 256;
    ShlShrLow(x, 8);
    ShrIsDiv256(x);
    ShlIsMul256(y);
    assert Pow2(8) == 256;
  }

  /** Shifting left by eight is multiplying by 256. */
  lemma ShlIsMul256(y: nat)
    ensures Shl(y, 8) == 256 * y
  {
    assert Shl(y, 1) == 2 * y;
    assert Shl(y, 2) == 4 * y;
    assert Shl(y, 3) == 2 * Shl(y, 2);
    assert Shl(y, 4) == 2 * Shl(y, 3);
    assert Shl(y, 5) == 2 * Shl(y, 4);
    assert Shl(y, 6) == 2 * Shl(y, 5);
    assert Shl(y, 7) == 2 * Shl(y, 6);
    assert Shl(y, 8) == 2 * Shl(y, 7);
  }

  /** Shifting right by eight is dividing by 256. */
  lemma ShrIsDiv256(x: nat)
    ensures Shr(x, 8) == x / 256
  {
    var a := x / 2;
    var b := a / 2;
    var c := b / 2;
    var d := c / 2;
    var e := d / 2;
    var f := e / 2;
    var g := f / 2;
    assert Shr(x, 8) == Shr(a, 7) == Shr(b, 6) == Shr(c, 5) == Shr(d, 4);
    assert Shr(d, 4) == Shr(e, 3) == Shr(f, 2) == Shr(g, 1) == g / 2;
  }

  /** The n low bits, n <= 8, of `x as u8` are the n low bits of x. */
  lemma LowOfAsU8(x: nat, n: nat)
    requires n <= 8
    ensures Low(AsU8(x), n) == Low(x, n)
  {
    AsU8Low(x);
    LowLow(x, 8, n);
  }

  /** `((x as u8) & (0xFF >> (8 - n)))` is the n low bits of x. */
  lemma MaskOfU8(x: nat, n: nat)
    requires n <= 8
    ensures AndU8(AsU8(x), LowMask(n)) == Low(x, n)
  {
    AndLowMask(AsU8(x), n);
    LowOfAsU8(x, n);
  }

  /** A `u8` shift left that keeps every bit inside the byte is the plain shift. */
  lemma ShlU8Fits(y: byte, n: nat, s: nat)
    requires y < Pow2(n) && n + s <= 8
    ensures ShlU8(y, s) == Shl(y, s)
  {
    ShlBelow(y, n, s);
    Pow2Mono(n + s, 8);
    assert Pow2(8) == 256;
  }

  /** ANDing with n one-bits keeps the n low bits. */
  lemma {:induction false} AndOnes(x: nat, n: nat)
    ensures BitAnd(x, Ones(n)) == Low(x, n)
  {
    if n > 0 {
      if x == 0 {
        LowOfSmall(0, n);
      } else {
        AndOnes(x / 2, n - 1);
      }
    }
  }

  /** `x & (0xFF >> (8 - n))` keeps the n low bits of x. */
  lemma AndLowMask(x: nat, n: nat)
    requires n <= 8
    ensures BitAnd(x, LowMask(n)) == Low(x, n)
  {
    LowMaskIsOnes(n);
    AndOnes(x, n);
  }

  /**
   * ORing a value that fits in the k low bits into a number whose k low bits
   * are zero is addition: the two occupy disjoint bit positions.
   */
  lemma {:induction false} OrShifted(a: nat, k: nat, y: nat)
    requires y < Pow2(k)
    ensures BitOr(Shl(a, k), y) == Shl(a, k) + y
  {
    if k > 0 && y > 0 {
      OrShifted(a, k - 1, y / 2);
      if Shl(a, k - 1) == 0 {
        assert Shl(a, k) == 0;
      }
    }
  }

  /** ORing two values shifted by the same amount is shifting their OR. */
  lemma {:induction false} OrShl(a: nat, b: nat, s: nat)
    ensures BitOr(Shl(a, s), Shl(b, s)) == Shl(BitOr(a, b), s)
  {
    if s > 0 {
      OrShl(a, b, s - 1);
      OrDouble(Shl(a, s - 1), Shl(b, s - 1));
    }
  }

  lemma OrDouble(x: nat, y: nat)
    ensures BitOr(2 * x, 2 * y) == 2 * BitOr(x, y)
  {
  }

  /** The OR of two values below 2^k is below 2^k. */
  lemma {:induction false} OrBelow(a: nat, b: nat, k: nat)
    requires a < Pow2(k) && b < Pow2(k)
    ensures BitOr(a, b) < Pow2(k)
  {
    if a > 0 && b > 0 {
      OrBelow(a / 2, b / 2, k - 1);
    }
  }

  /** AND never sets a bit that is clear in its left operand. */
  lemma {:induction false} AndAtMost(a: nat, b: nat)
    ensures BitAnd(a, b) <= a
    decreases a
  {
    if a > 0 && b > 0 {
      AndAtMost(a / 2, b / 2);
    }
  }

  lemma {:induction false} AndSelf(a: nat)
    ensures BitAnd(a, a) == a
    decreases a
  {
    if a > 0 {
      AndSelf(a / 2);
    }
  }

  /** ORing into a number never clears one of its bits. */
  lemma {:induction false} OrKeeps(a: nat, b: nat)
    ensures BitAnd(BitOr(a, b), a) == a
    decreases a + b
  {
    if a > 0 && b == 0 {
      AndSelf(a);
    } else if a > 0 {
      OrKeeps(a / 2, b / 2);
    }
  }
}
