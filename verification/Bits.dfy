/**
 Arithmetic of the C bit operators.

 `Shl`, `Shr` and `Mask` stand for `x << n`, `x >> n` and `x & ((1 << n) - 1)` on unsigned
 values. They are defined one bit at a time, so that every fact about them follows by
 induction from halving and doubling. A zero-padded, least-significant-bit-first bit stream
 is a natural number: its next bit is the parity, and dropping n bits is `Shr`.
 */
module Bits {

  /** `x << n` */
  function Shl(x: nat, n: nat): (r: nat)
    ensures r >= x
    ensures x == 0 ==> r == 0
  {
    if n == 0 then x else 2 * Shl(x, n - 1)
  }

  /** `x >> n` */
  function Shr(x: nat, n: nat): (r: nat)
    ensures r <= x
  {
    if n == 0 then x else Shr(x, n - 1) / 2
  }

  /** `x & ((1 << n) - 1)` */
  function Mask(x: nat, n: nat): (r: nat)
    ensures r <= x
  {
    if n == 0 then 0 else x % 2 + 2 * Mask(x / 2, n - 1)
  }

  /** `1 << n` */
  function Pow2(n: nat): (r: nat)
    ensures r >= 1
  {
    Shl(1, n)
  }

  /** Bit i of x. */
  function Bit(x: nat, i: nat): (r: nat)
    ensures r < 2
  {
    Shr(x, i) % 2
  }

  /** The number whose most significant of n bits is the first bit of the stream x. */
  function Rev(x: nat, n: nat): (r: nat)
  {
    if n == 0 then 0 else 2 * Rev(x, n - 1) + Bit(x, n - 1)
  }

  // ---------------------------------------------------------------- shifts

  lemma {:induction false} ShrHalf(x: nat, n: nat)
    ensures Shr(x / 2, n) == Shr(x, n + 1)
  {
    if n > 0 {
      ShrHalf(x, n - 1);
    }
  }

  lemma {:induction false} ShrShr(x: nat, a: nat, b: nat)
    ensures Shr(Shr(x, a), b) == Shr(x, a + b)
  {
    if b > 0 {
      ShrShr(x, a, b - 1);
    }
  }

  lemma {:induction false} ShlShl(x: nat, a: nat, b: nat)
    ensures Shl(Shl(x, a), b) == Shl(x, a + b)
  {
    if b > 0 {
      ShlShl(x, a, b - 1);
    }
  }

  lemma {:induction false} ShlAdd(x: nat, y: nat, n: nat)
    ensures Shl(x + y, n) == Shl(x, n) + Shl(y, n)
  {
    if n > 0 {
      ShlAdd(x, y, n - 1);
    }
  }

  lemma {:induction false} ShlMono(x: nat, y: nat, n: nat)
    requires x <= y
    ensures Shl(x, n) <= Shl(y, n)
  {
    ShlAdd(x, y - x, n);
  }

  lemma {:induction false} Split(x: nat, n: nat)
    ensures x == Mask(x, n) + Shl(Shr(x, n), n)
  {
    if n > 0 {
      Split(x / 2, n - 1);
      ShrHalf(x, n - 1);
      assert Shl(Shr(x, n), n) == 2 * Shl(Shr(x, n), n - 1);
    }
  }

  lemma {:induction false} MaskBound(x: nat, n: nat)
    ensures Mask(x, n) < Pow2(n)
  {
    if n > 0 {
      MaskBound(x / 2, n - 1);
    }
  }

  /** Shifting and masking invert packing low bits below high bits. */
  lemma {:induction false} Unpack(lo: nat, hi: nat, n: nat)
    requires lo < Pow2(n)
    ensures Mask(lo + Shl(hi, n), n) == lo
    ensures Shr(lo + Shl(hi, n), n) == hi
  {
    var x := lo + Shl(hi, n);
    if n > 0 {
      assert x == lo + 2 * Shl(hi, n - 1);
      assert x / 2 == lo / 2 + Shl(hi, n - 1);
      Unpack(lo / 2, hi, n - 1);
      ShrHalf(x, n - 1);
    }
  }

  lemma {:induction false} MaskSmall(x: nat, n: nat)
    requires x < Pow2(n)
    ensures Mask(x, n) == x && Shr(x, n) == 0
  {
    Unpack(x, 0, n);
  }

  /** Fetching n + m bits is fetching n, then m more above them. */
  lemma {:induction false} MaskSplit(x: nat, n: nat, m: nat)
    ensures Mask(x, n + m) == Mask(x, n) + Shl(Mask(Shr(x, n), m), n)
  {
    if n > 0 {
      MaskSplit(x / 2, n - 1, m);
      ShrHalf(x, n - 1);
      assert Mask(x, n + m) == x % 2 + 2 * Mask(x / 2, n - 1 + m);
    }
  }

  lemma {:induction false} ShrMono(x: nat, y: nat, n: nat)
    requires x <= y
    ensures Shr(x, n) <= Shr(y, n)
  {
    if n > 0 {
      ShrMono(x, y, n - 1);
    }
  }

  /** Numbers that agree on their low n bits are a multiple of 2^n apart. */
  lemma {:induction false} MaskEqualGap(a: nat, b: nat, n: nat)
    requires a < b && Mask(a, n) == Mask(b, n)
    ensures a + Pow2(n) <= b
  {
    Split(a, n);
    Split(b, n);
    ShrMono(a, b, n);
    ShlAdd(Shr(a, n), Shr(b, n) - Shr(a, n), n);
    ShlMono(1, Shr(b, n) - Shr(a, n), n);
  }

  lemma {:induction false} MaskAddPow(a: nat, n: nat)
    ensures Mask(a + Pow2(n), n) == Mask(a, n)
  {
    Split(a, n);
    MaskBound(a, n);
    ShlAdd(Shr(a, n), 1, n);
    Unpack(Mask(a, n), Shr(a, n) + 1, n);
  }

  /** Comparing after a right shift is comparing with the bound shifted left. */
  lemma {:induction false} ShrOrder(k: nat, c: nat, n: nat)
    ensures Shr(k, n) < c <==> k < Shl(c, n)
  {
    Split(k, n);
    MaskBound(k, n);
    var q := Shr(k, n);
    if q < c {
      ShlAdd(q, 1, n);
      ShlMono(q + 1, c, n);
    } else {
      ShlMono(c, q, n);
    }
  }

  lemma {:induction false} ShlStrict(x: nat, y: nat, n: nat)
    ensures x < y <==> Shl(x, n) < Shl(y, n)
  {
    if x < y {
      ShlAdd(x, y - x, n);
    } else {
      ShlMono(y, x, n);
    }
  }

  // ---------------------------------------------------------------- single bits

  lemma {:induction false} BitOfShr(x: nat, n: nat, i: nat)
    ensures Bit(Shr(x, n), i) == Bit(x, n + i)
  {
    ShrShr(x, n, i);
  }

  lemma {:induction false} BitOfShl(x: nat, n: nat, i: nat)
    ensures Bit(Shl(x, n), i) == if i < n then 0 else Bit(x, i - n)
  {
    if n > 0 {
      var y := Shl(x, n - 1);
      assert Shl(x, n) == 2 * y;
      if i > 0 {
        ShrHalf(2 * y, i - 1);
        BitOfShl(x, n - 1, i - 1);
      }
    }
  }

  lemma {:induction false} BitOfMask(x: nat, n: nat, i: nat)
    ensures Bit(Mask(x, n), i) == if i < n then Bit(x, i) else 0
  {
    if n > 0 {
      if i > 0 {
        var y := Mask(x, n);
        assert y / 2 == Mask(x / 2, n - 1);
        ShrHalf(y, i - 1);
        ShrHalf(x, i - 1);
        BitOfMask(x / 2, n - 1, i - 1);
      }
    } else {
      ShrZero(i);
    }
  }

  lemma {:induction false} ShrZero(i: nat)
    ensures Shr(0, i) == 0
  {
    if i > 0 {
      ShrZero(i - 1);
    }
  }

  /** A number is determined by its bits. */
  lemma {:induction false} BitsExt(x: nat, y: nat)
    requires forall i: nat :: Bit(x, i) == Bit(y, i)
    ensures x == y
    decreases x + y
  {
    if x + y > 0 {
      assert Bit(x, 0) == Bit(y, 0);
      forall i: nat ensures Bit(x / 2, i) == Bit(y / 2, i) {
        ShrHalf(x, i);
        ShrHalf(y, i);
        assert Bit(x, i + 1) == Bit(y, i + 1);
      }
      BitsExt(x / 2, y / 2);
    }
  }

  // ---------------------------------------------------------------- reversal

  lemma {:induction false} RevBound(x: nat, n: nat)
    ensures Rev(x, n) < Pow2(n)
  {
    if n > 0 {
      RevBound(x, n - 1);
    }
  }

  /** Dropping the last bits read leaves the number read so far. */
  lemma {:induction false} RevShr(x: nat, n: nat, s: nat)
    requires s <= n
    ensures Shr(Rev(x, n), n - s) == Rev(x, s)
  {
    if s < n {
      assert Rev(x, n) / 2 == Rev(x, n - 1);
      ShrHalf(Rev(x, n), n - s - 1);
      RevShr(x, n - 1, s);
    }
  }

  lemma {:induction false} RevOfMask(x: nat, n: nat, m: nat)
    requires n <= m
    ensures Rev(Mask(x, m), n) == Rev(x, n)
  {
    if n > 0 {
      RevOfMask(x, n - 1, m);
      BitOfMask(x, m, n - 1);
    }
  }

  /** Bit i of an n-bit reversal is bit n - 1 - i of the original. */
  lemma {:induction false} BitOfRev(x: nat, n: nat, i: nat)
    ensures Bit(Rev(x, n), i) == if i < n then Bit(x, n - 1 - i) else 0
  {
    if n == 0 {
      ShrZero(i);
    } else if i > 0 {
      assert Rev(x, n) / 2 == Rev(x, n - 1);
      ShrHalf(Rev(x, n), i - 1);
      BitOfRev(x, n - 1, i - 1);
    }
  }

  lemma {:induction false} RevRev(x: nat, n: nat)
    ensures Rev(Rev(x, n), n) == Mask(x, n)
  {
    forall i: nat ensures Bit(Rev(Rev(x, n), n), i) == Bit(Mask(x, n), i) {
      BitOfRev(Rev(x, n), n, i);
      BitOfMask(x, n, i);
      if i < n {
        BitOfRev(x, n, n - 1 - i);
      }
    }
    BitsExt(Rev(Rev(x, n), n), Mask(x, n));
  }

  /** Reading s bits most significant first gives c exactly when the stream starts with c reversed. */
  lemma {:induction false} RevIff(x: nat, c: nat, s: nat)
    requires c < Pow2(s)
    ensures Rev(x, s) == c <==> Mask(x, s) == Rev(c, s)
  {
    RevRev(x, s);
    RevRev(c, s);
    MaskSmall(c, s);
    RevOfMask(x, s, s);
  }

  // ---------------------------------------------------------------- bitwise operators

  /** `a & b` */
  function And(a: nat, b: nat): (r: nat)
  {
    if a == 0 then 0 else (a % 2) * (b % 2) + 2 * And(a / 2, b / 2)
  }

  /** `a | b` */
  function Or(a: nat, b: nat): (r: nat)
    decreases a + b
  {
    if a == 0 then b else (if a % 2 == 1 || b % 2 == 1 then 1 else 0) + 2 * Or(a / 2, b / 2)
  }

  lemma {:induction false} BitOfAnd(a: nat, b: nat, i: nat)
    ensures Bit(And(a, b), i) == Bit(a, i) * Bit(b, i)
  {
    if a == 0 {
      ShrZero(i);
    } else if i > 0 {
      var r := And(a, b);
      assert (a % 2) * (b % 2) < 2;
      assert r / 2 == And(a / 2, b / 2);
      ShrHalf(r, i - 1);
      ShrHalf(a, i - 1);
      ShrHalf(b, i - 1);
      BitOfAnd(a / 2, b / 2, i - 1);
    }
  }

  lemma {:induction false} BitOfOr(a: nat, b: nat, i: nat)
    ensures Bit(Or(a, b), i) == if Bit(a, i) == 1 || Bit(b, i) == 1 then 1 else 0
  {
    if a == 0 {
      ShrZero(i);
    } else if i > 0 {
      var r := Or(a, b);
      assert r / 2 == Or(a / 2, b / 2);
      ShrHalf(r, i - 1);
      ShrHalf(a, i - 1);
      ShrHalf(b, i - 1);
      BitOfOr(a / 2, b / 2, i - 1);
    }
  }

  /** Masking n bits with `&` is `Mask`; placing a value above n used bits with `|` is addition. */
  lemma {:induction false} OperatorsAgree(x: nat, lo: nat, hi: nat, n: nat)
    requires lo < Pow2(n)
    ensures And(x, Pow2(n) - 1) == Mask(x, n)
    ensures Or(lo, Shl(hi, n)) == lo + Shl(hi, n)
  {
    forall i: nat
      ensures Bit(And(x, Pow2(n) - 1), i) == Bit(Mask(x, n), i)
      ensures Bit(Or(lo, Shl(hi, n)), i) == Bit(lo + Shl(hi, n), i)
    {
      BitOfAnd(x, Pow2(n) - 1, i);
      BitOfOnes(n, i);
      BitOfMask(x, n, i);
      BitOfOr(lo, Shl(hi, n), i);
      BitOfShl(hi, n, i);
      BitOfPacked(lo, hi, n, i);
    }
    BitsExt(And(x, Pow2(n) - 1), Mask(x, n));
    BitsExt(Or(lo, Shl(hi, n)), lo + Shl(hi, n));
  }

  lemma {:induction false} BitOfOnes(n: nat, i: nat)
    ensures Bit(Pow2(n) - 1, i) == if i < n then 1 else 0
  {
    if n == 0 {
      ShrZero(i);
    } else if i > 0 {
      assert (Pow2(n) - 1) / 2 == Pow2(n - 1) - 1;
      ShrHalf(Pow2(n) - 1, i - 1);
      BitOfOnes(n - 1, i - 1);
    }
  }

  lemma {:induction false} BitOfPacked(lo: nat, hi: nat, n: nat, i: nat)
    requires lo < Pow2(n)
    ensures Bit(lo + Shl(hi, n), i) == if i < n then Bit(lo, i) else Bit(hi, i - n)
    ensures i >= n ==> Bit(lo, i) == 0
  {
    var x := lo + Shl(hi, n);
    Unpack(lo, hi, n);
    BitOfMask(x, n, i);
    if i >= n {
      BitOfShr(x, n, i - n);
      MaskSmall(lo, n);
      BitOfMask(lo, n, i);
    }
  }

  // ---------------------------------------------------------------- the 16-bit reversal

  /** One exchange of neighbouring w-bit groups, as each line of `stbi__bitreverse16` does it. */
  function Exchange(n: nat, hi: nat, lo: nat, w: nat): (r: nat)
  {
    Or(Shr(And(n, hi), w), Shl(And(n, lo), w))
  }

  function BitReverse16(v: nat): (r: nat)
  {
    var n1 := Exchange(v, 0xAAAA, 0x5555, 1);
    var n2 := Exchange(n1, 0xCCCC, 0x3333, 2);
    var n3 := Exchange(n2, 0xF0F0, 0x0F0F, 4);
    Exchange(n3, 0xFF00, 0x00FF, 8)
  }

  /** `stbi__bit_reverse` */
  function BitReverse(v: nat, bits: nat): (r: nat)
    requires bits <= 16
  {
    Shr(BitReverse16(v), 16 - bits)
  }

  lemma {:induction false} ShlSmall(x: nat)
    ensures Shl(x, 2) == 4 * x && Shl(x, 4) == 16 * x && Shl(x, 8) == 256 * x
  {
    assert Shl(x, 1) == 2 * x;
    assert Shl(x, 2) == 4 * x;
    assert Shl(x, 3) == 8 * x;
    assert Shl(x, 4) == 16 * x;
    assert Shl(x, 5) == 32 * x;
    assert Shl(x, 6) == 64 * x;
    assert Shl(x, 7) == 128 * x;
  }

  /** Writing the n-bit pattern x twice repeats its bits. */
  lemma {:induction false} TwiceBit(x: nat, n: nat, i: nat)
    requires x < Pow2(n)
    ensures Bit(x + Shl(x, n), i) == if i < n then Bit(x, i) else Bit(x, i - n)
  {
    BitOfPacked(x, x, n, i);
  }

  /** Bits of 16-bit masks built by repeating a pattern of n bits. */
  lemma {:induction false} Mask2Bits(x: nat, y: nat, z: nat, i: nat)
    requires x < 4 && y == x + 4 * x && z == y + 16 * y
    ensures Bit(z + 256 * z, i) == if i < 16 then Bit(x, i % 2) else 0
  {
    ShlSmall(x);
    ShlSmall(1);
    Mask4Bits(y, z, i);
    if i < 16 {
      TwiceBit(x, 2, i % 4);
    }
  }

  lemma {:induction false} Mask4Bits(y: nat, z: nat, i: nat)
    requires y < 16 && z == y + 16 * y
    ensures Bit(z + 256 * z, i) == if i < 16 then Bit(y, i % 4) else 0
  {
    ShlSmall(y);
    ShlSmall(1);
    Mask8Bits(z, i);
    if i < 16 {
      TwiceBit(y, 4, i % 8);
    }
  }

  lemma {:induction false} Mask8Bits(z: nat, i: nat)
    requires z < 256
    ensures Bit(z + 256 * z, i) == if i < 16 then Bit(z, i % 8) else 0
  {
    ShlSmall(z);
    ShlSmall(1);
    TwiceBit(z, 8, i);
    if i >= 16 {
      MaskSmall(z, 8);
      BitOfMask(z, 8, i - 8);
    }
  }

  /** Bit i after an exchange comes from w places up or down, as the two masks select. */
  lemma {:induction false} ExchangeBit(n: nat, hi: nat, lo: nat, w: nat, i: nat)
    ensures Bit(Exchange(n, hi, lo, w), i) ==
            if (Bit(hi, i + w) == 1 && Bit(n, i + w) == 1)
               || (w <= i && Bit(lo, i - w) == 1 && Bit(n, i - w) == 1) then 1 else 0
  {
    hide And, Or, Shr, Shl, Bit;
    BitOfOr(Shr(And(n, hi), w), Shl(And(n, lo), w), i);
    BitOfShr(And(n, hi), w, i);
    BitOfAnd(n, hi, w + i);
    BitOfShl(And(n, lo), w, i);
    if i >= w {
      BitOfAnd(n, lo, i - w);
    }
  }

  lemma {:induction false} Masks1(j: nat)
    ensures Bit(0xAAAA, j) == if j < 16 && !(j % 2 == 0) then 1 else 0
    ensures Bit(0x5555, j) == if j < 16 && j % 2 == 0 then 1 else 0
  {
    assert Bit(2, 0) == 0 && Bit(2, 1) == 1 && Bit(1, 0) == 1 && Bit(1, 1) == 0;
    Mask2Bits(2, 0xA, 0xAA, j);
    Mask2Bits(1, 0x5, 0x55, j);
  }

  ghost predicate Swapped1(v: nat, r: nat) {
    forall j: nat :: Bit(r, j) == if j >= 16 then 0 else if j % 2 == 0 then Bit(v, j + 1) else Bit(v, j - 1)
  }

  lemma {:induction false} Exchange1(v: nat)
    ensures Swapped1(v, Exchange(v, 0xAAAA, 0x5555, 1))
  {
    hide Exchange, Bit;
    var r := Exchange(v, 0xAAAA, 0x5555, 1);
    forall j: nat
      ensures Bit(r, j) == if j >= 16 then 0 else if j % 2 == 0 then Bit(v, j + 1) else Bit(v, j - 1)
    {
      ExchangeBit(v, 0xAAAA, 0x5555, 1, j);
      Masks1(j + 1);
      if j >= 1 {
        Masks1(j - 1);
      }
    }
  }

  lemma {:induction false} Masks2(j: nat)
    ensures Bit(0xCCCC, j) == if j < 16 && !(j % 4 < 2) then 1 else 0
    ensures Bit(0x3333, j) == if j < 16 && j % 4 < 2 then 1 else 0
  {
    assert Bit(0xC, 0) == 0 && Bit(0xC, 1) == 0 && Bit(0xC, 2) == 1 && Bit(0xC, 3) == 1;
    assert Bit(0x3, 0) == 1 && Bit(0x3, 1) == 1 && Bit(0x3, 2) == 0 && Bit(0x3, 3) == 0;
    Mask4Bits(0xC, 0xCC, j);
    Mask4Bits(0x3, 0x33, j);
  }

  ghost predicate Swapped2(v: nat, r: nat) {
    forall j: nat :: Bit(r, j) == if j >= 16 then 0 else if j % 4 < 2 then Bit(v, j + 2) else Bit(v, j - 2)
  }

  lemma {:induction false} Exchange2(v: nat)
    ensures Swapped2(v, Exchange(v, 0xCCCC, 0x3333, 2))
  {
    hide Exchange, Bit;
    var r := Exchange(v, 0xCCCC, 0x3333, 2);
    forall j: nat
      ensures Bit(r, j) == if j >= 16 then 0 else if j % 4 < 2 then Bit(v, j + 2) else Bit(v, j - 2)
    {
      ExchangeBit(v, 0xCCCC, 0x3333, 2, j);
      Masks2(j + 2);
      if j >= 2 {
        Masks2(j - 2);
      }
    }
  }

  lemma {:induction false} Masks4(j: nat)
    ensures Bit(0xF0F0, j) == if j < 16 && !(j % 8 < 4) then 1 else 0
    ensures Bit(0x0F0F, j) == if j < 16 && j % 8 < 4 then 1 else 0
  {
    ShlSmall(0x0F);
    ShlSmall(1);
    OnesAndZeros(4, j % 8);
    Mask8Bits(0xF0, j);
    Mask8Bits(0x0F, j);
  }

  ghost predicate Swapped4(v: nat, r: nat) {
    forall j: nat :: Bit(r, j) == if j >= 16 then 0 else if j % 8 < 4 then Bit(v, j + 4) else Bit(v, j - 4)
  }

  lemma {:induction false} Exchange4(v: nat)
    ensures Swapped4(v, Exchange(v, 0xF0F0, 0x0F0F, 4))
  {
    hide Exchange, Bit;
    var r := Exchange(v, 0xF0F0, 0x0F0F, 4);
    forall j: nat
      ensures Bit(r, j) == if j >= 16 then 0 else if j % 8 < 4 then Bit(v, j + 4) else Bit(v, j - 4)
    {
      ExchangeBit(v, 0xF0F0, 0x0F0F, 4, j);
      Masks4(j + 4);
      if j >= 4 {
        Masks4(j - 4);
      }
    }
  }

  lemma {:induction false} Masks8(j: nat)
    ensures Bit(0xFF00, j) == if j < 16 && !(j < 8) then 1 else 0
    ensures Bit(0x00FF, j) == if j < 16 && j < 8 then 1 else 0
  {
    ShlSmall(0xFF);
    ShlSmall(1);
    OnesAndZeros(8, j);
  }

  ghost predicate Swapped8(v: nat, r: nat) {
    forall j: nat :: Bit(r, j) == if j >= 16 then 0 else if j < 8 then Bit(v, j + 8) else Bit(v, j - 8)
  }

  lemma {:induction false} Exchange8(v: nat)
    ensures Swapped8(v, Exchange(v, 0xFF00, 0x00FF, 8))
  {
    hide Exchange, Bit;
    var r := Exchange(v, 0xFF00, 0x00FF, 8);
    forall j: nat
      ensures Bit(r, j) == if j >= 16 then 0 else if j < 8 then Bit(v, j + 8) else Bit(v, j - 8)
    {
      ExchangeBit(v, 0xFF00, 0x00FF, 8, j);
      Masks8(j + 8);
      if j >= 8 {
        Masks8(j - 8);
      }
    }
  }

  lemma {:induction false} OnesAndZeros(w: nat, i: nat)
    ensures Bit(Pow2(w) - 1, i) == if i < w then 1 else 0
    ensures Bit(Shl(Pow2(w) - 1, w), i) == if w <= i < 2 * w then 1 else 0
  {
    BitOfOnes(w, i);
    BitOfShl(Pow2(w) - 1, w, i);
    if i >= w {
      BitOfOnes(w, i - w);
    }
  }

  /** The exchanges of halves and of quarters turn the four groups of four bits round. */
  lemma {:induction false} GroupsReversed(n2: nat, n3: nat, n4: nat, i: nat)
    requires Swapped4(n2, n3) && Swapped8(n3, n4) && i < 16
    ensures Bit(n4, i) == Bit(n2, (3 - i / 4) * 4 + i % 4)
  {
    hide Bit;
    assert Bit(n4, i) == Bit(n3, if i < 8 then i + 8 else i - 8);
  }

  /** The first two exchanges turn each group of four bits round. */
  lemma {:induction false} GroupReversed(v: nat, n1: nat, n2: nat, i: nat)
    requires Swapped1(v, n1) && Swapped2(n1, n2) && i < 16
    ensures Bit(n2, i) == Bit(v, i / 4 * 4 + (3 - i % 4))
  {
    hide Bit;
    assert Bit(n2, i) == Bit(n1, if i % 4 < 2 then i + 2 else i - 2);
  }

  lemma {:induction false} Turned(i: nat, j: nat)
    requires i < 16 && j == (3 - i / 4) * 4 + i % 4
    ensures j / 4 * 4 + (3 - j % 4) == 15 - i
  {
    assert j / 4 == 3 - i / 4;
  }

  lemma {:induction false} FourSwaps(v: nat, n1: nat, n2: nat, n3: nat, n4: nat, i: nat)
    requires Swapped1(v, n1) && Swapped2(n1, n2) && Swapped4(n2, n3) && Swapped8(n3, n4)
    ensures Bit(n4, i) == if i < 16 then Bit(v, 15 - i) else 0
  {
    if i < 16 {
      hide *;
      var j := (3 - i / 4) * 4 + i % 4;
      GroupsReversed(n2, n3, n4, i);
      GroupReversed(v, n1, n2, j);
      Turned(i, j);
    }
  }

  /** The four exchanges reverse the low 16 bits. */
  lemma {:induction false} BitReverse16IsRev(v: nat)
    ensures BitReverse16(v) == Rev(v, 16)
  {
    var n1 := Exchange(v, 0xAAAA, 0x5555, 1);
    var n2 := Exchange(n1, 0xCCCC, 0x3333, 2);
    var n3 := Exchange(n2, 0xF0F0, 0x0F0F, 4);
    Exchange1(v);
    Exchange2(n1);
    Exchange4(n2);
    Exchange8(n3);
    forall i: nat ensures Bit(BitReverse16(v), i) == Bit(Rev(v, 16), i) {
      BitOfRev(v, 16, i);
      FourSwaps(v, n1, n2, n3, BitReverse16(v), i);
    }
    BitsExt(BitReverse16(v), Rev(v, 16));
  }

  /** `stbi__bit_reverse` reads the low bits of v most significant first. */
  lemma {:induction false} BitReverseIsRev(v: nat, bits: nat)
    requires bits <= 16
    ensures BitReverse(v, bits) == Rev(v, bits)
  {
    BitReverse16IsRev(v);
    RevShr(v, 16, bits);
  }
}
