/** Fixed-point products and the last rounding step of the software square roots. */
module FixedPoint {
  const W32: nat := 0x1_0000_0000
  const W64: nat := 0x1_0000_0000_0000_0000

  // ------------------------------------------------------------------- products

  function Times(a: nat, b: nat): nat {
    a * b
  }

  /** `mul32` */
  function Mul32(a: nat, b: nat): nat {
    Times(a, b) % W64 / W32 % W32
  }

  /** `mul64`: three of the four partial products. */
  function Mul64(a: nat, b: nat): nat {
    Mul64Parts(a / W32, a % W32, b / W32, b % W32)
  }

  function Mul64Parts(ahi: nat, alo: nat, bhi: nat, blo: nat): nat {
    (Times(ahi, bhi) % W64 + Times(ahi, blo) % W64 / W32 + Times(alo, bhi) % W64 / W32) % W64
  }

  lemma ProductBound(a: nat, b: nat, m: nat, n: nat)
    requires a <= m && b <= n
    ensures a * b <= m * n
  {
    assert a * b <= m * b;
    assert m * b <= m * n;
  }

  const PART: nat := (W32 - 1) * (W32 - 1)

  lemma PartBound(x: nat, y: nat)
    requires x < W32 && y < W32
    ensures Times(x, y) <= PART
  {
    ProductBound(x, y, W32 - 1, W32 - 1);
  }

  /** Nothing wraps, and the product is cut off by less than one unit. */
  lemma Mul32Error(a: nat, b: nat)
    requires a < W32 && b < W32
    ensures 0 <= Times(a, b) - Mul32(a, b) * W32 < W32
  {
    hide Times;
    PartBound(a, b);
    SmallRemainder(Times(a, b), W64);
    SmallRemainder(Times(a, b) / W32, W32);
  }

  lemma SmallRemainder(x: nat, w: nat)
    requires x < w
    ensures x % w == x
  {
  }

  lemma SplitProduct(ahi: nat, alo: nat, bhi: nat, blo: nat)
    ensures Times(ahi * W32 + alo, bhi * W32 + blo)
         == Times(ahi, bhi) * W64 + (Times(ahi, blo) + Times(alo, bhi)) * W32 + Times(alo, blo)
  {
    var a := ahi * W32 + alo;
    assert a * (bhi * W32 + blo) == a * (bhi * W32) + a * blo;
    assert a * (bhi * W32) == ahi * W32 * (bhi * W32) + alo * (bhi * W32);
    assert ahi * W32 * (bhi * W32) == ahi * bhi * W64;
    assert alo * (bhi * W32) == alo * bhi * W32;
    assert a * blo == ahi * W32 * blo + alo * blo;
    assert ahi * W32 * blo == ahi * blo * W32;
  }

  lemma NothingWraps(hh: nat, hl: nat, lh: nat)
    requires hh <= PART && hl <= PART && lh <= PART
    ensures (hh % W64 + hl % W64 / W32 + lh % W64 / W32) % W64 == hh + hl / W32 + lh / W32
  {
    SmallRemainder(hh, W64);
    SmallRemainder(hl, W64);
    SmallRemainder(lh, W64);
    assert hl / W32 < W32 && lh / W32 < W32;
    SmallRemainder(hh + hl / W32 + lh / W32, W64);
  }

  lemma PartsError(ahi: nat, alo: nat, bhi: nat, blo: nat)
    requires ahi < W32 && alo < W32 && bhi < W32 && blo < W32
    ensures 0 <= Times(ahi * W32 + alo, bhi * W32 + blo) - Mul64Parts(ahi, alo, bhi, blo) * W64 < 3 * W64
  {
    hide Times;
    PartBound(ahi, bhi);
    PartBound(ahi, blo);
    PartBound(alo, bhi);
    PartBound(alo, blo);
    SplitProduct(ahi, alo, bhi, blo);
    NothingWraps(Times(ahi, bhi), Times(ahi, blo), Times(alo, bhi));
  }

  /** Nothing wraps, and the product is cut off by less than three units. */
  lemma Mul64Error(a: nat, b: nat)
    requires a < W64 && b < W64
    ensures 0 <= Times(a, b) - Mul64(a, b) * W64 < 3 * W64
  {
    hide Mul64Parts, Times;
    PartsError(a / W32, a % W32, b / W32, b % W32);
    assert a == a / W32 * W32 + a % W32 && b == b / W32 * W32 + b % W32;
  }

  // ------------------------------------------------------------------- rounding

  /** `r` is the integer nearest to the square root of `m`, and the root is not halfway. */
  predicate Nearest(m: nat, r: nat) {
    (2 * r - 1) * (2 * r - 1) < 4 * m < (2 * r + 1) * (2 * r + 1)
  }

  lemma SquareMono(a: nat, b: nat)
    requires a <= b
    ensures a * a <= b * b
  {
    ProductBound(a, a, b, b);
  }

  /** There is only one. */
  lemma NearestIsUnique(m: nat, r: nat, q: nat)
    requires r > 0 && q > 0 && Nearest(m, r) && Nearest(m, q)
    ensures r == q
  {
    if r < q {
      SquareMono(2 * r + 1, 2 * q - 1);
    } else if q < r {
      SquareMono(2 * q + 1, 2 * r - 1);
    }
  }

  /** The root is never halfway between two integers. */
  lemma NeverATie(m: nat, r: nat)
    ensures 4 * m != (2 * r + 1) * (2 * r + 1)
  {
    assert (2 * r + 1) * (2 * r + 1) == 4 * (r * r + r) + 1;
  }

  /** `s` is below the root of `m` by less than `num / den`. */
  predicate Bracket(m: nat, s: nat, num: nat, den: nat) {
    s * s < m && den * den * m < (den * s + num) * (den * s + num)
  }

  /** Which of `s` and `s + 1` is nearest, in whole numbers. */
  lemma NearestByRemainder(m: nat, s: nat)
    requires s * s < m && 4 * m < (2 * s + 3) * (2 * s + 3)
    ensures Nearest(m, if m - s * s > s then s + 1 else s)
    ensures m - s * s <= 3 * s + 2
  {
    assert (s + 1) * (s + 1) == s * s + 2 * s + 1;
  }

  /** A difference of wrapped numbers, wrapped, is the wrapped difference. */
  lemma WrappedDifference(a: nat, b: nat, w: nat)
    requires w > 0 && a >= b
    ensures (a % w + w - b % w) % w == (a - b) % w
  {
    var qa, qb := a / w, b / w;
    assert a == qa * w + a % w && b == qb * w + b % w;
    var d := a - b;
    var t := a % w + w - b % w;
    assert t == d + (1 - qa + qb) * w by {
      assert (1 - qa + qb) * w == w - qa * w + qb * w;
    }
    ShiftRemainder(d, 1 - qa + qb, w);
  }

  lemma {:induction false} ShiftRemainder(a: int, k: int, w: nat)
    requires w > 0
    ensures (a + k * w) % w == a % w
    decreases if k < 0 then -k else k
  {
    if k > 0 {
      ShiftRemainder(a, k - 1, w);
      assert a + k * w == (a + (k - 1) * w) + w;
      OneMore(a + (k - 1) * w, w);
    } else if k < 0 {
      ShiftRemainder(a, k + 1, w);
      assert a + k * w + w == a + (k + 1) * w;
      OneMore(a + k * w, w);
    }
  }

  lemma OneMore(a: int, w: nat)
    requires w > 0
    ensures (a + w) % w == a % w
  {
    var q, r := a / w, a % w;
    assert a + w == (q + 1) * w + r by {
      assert (q + 1) * w == q * w + w;
    }
    Quotient(a + w, q + 1, r, w);
  }

  lemma Separated(p: int, q: int, w: nat)
    ensures p < q ==> (p + 1) * w <= q * w
    ensures q < p ==> (q + 1) * w <= p * w
  {
  }

  lemma Quotient(a: int, q: int, r: nat, w: nat)
    requires r < w && a == q * w + r
    ensures a % w == r && a / w == q
  {
    Separated(a / w, q, w);
  }

  /** The sign bit of a wrapped difference of small numbers. */
  lemma SignBit(s: nat, d: nat, w: nat, half: nat)
    requires w == 2 * half && s < half && d <= half
    ensures (s + w - d) % w / half == if d > s then 1 else 0
  {
    if d > s {
      Quotient(s + w - d, 0, s + w - d, w);
      Quotient(s + w - d, 1, s + half - d, half);
    } else {
      Quotient(s + w - d, 1, s - d, w);
      Quotient(s - d, 0, s - d, half);
    }
  }

  /** The wrapped difference of the shifted significand and the square. */
  function D0(m: nat, s: nat, w: nat): nat
    requires w > 0
  {
    (m % w + w - s * s % w) % w
  }

  /** The code's test on `d0` and `d1`, in words of `w`. */
  lemma RoundingStep(m: nat, s: nat, w: nat, half: nat)
    requires w == 2 * half && half > 3 * s + 2
    requires s * s < m && 4 * m < (2 * s + 3) * (2 * s + 3)
    ensures Nearest(m, s + (s + w - D0(m, s, w)) % w / half)
  {
    hide Nearest;
    NearestByRemainder(m, s);
    WrappedDifference(m, s * s, w);
    Quotient(m - s * s, 0, m - s * s, w);
    SignBit(s, m - s * s, w, half);
  }

  // ----------------------------------------------------------------- single precision

  /** The significand as a number of 30 fractional bits, from the bits of a normal number: with an odd exponent bit
      below 2, else up to 4. */
  function Significand32(ix: nat): nat {
    if ix / 0x80_0000 % 2 == 1 then ix % 0x100_0000 * 128 else 0x8000_0000 + ix % 0x80_0000 * 256
  }

  /** No carry out of the significand, whose leading bit is fixed. */
  lemma NoCarry32(m: nat, r: nat)
    requires 0x4000_0000 <= m <= 0x1_0000_0000 - 256 && r > 0
    ensures Nearest(m * 0x1_0000, r) ==> 0x80_0000 <= r < 0x100_0000
  {
    if r < 0x80_0000 {
      SquareMono(2 * r + 1, 0x100_0000 - 1);
    }
    if r >= 0x100_0000 {
      SquareMono(0x200_0000 - 1, 2 * r - 1);
    }
  }

  function Rounded(m: nat, s: nat, w: nat): nat
    requires w > 1
  {
    s + (s + w - D0(m, s, w)) % w / (w / 2)
  }

  lemma RoundedSingle(m: nat, s: nat)
    requires 0x4000_0000 <= m <= 0x1_0000_0000 - 256
    requires 0 < s < 0x100_0000
    ensures Bracket(m * 0x1_0000, s, 33, 32) ==>
      && Nearest(m * 0x1_0000, Rounded(m * 0x1_0000, s, W32))
      && 0x80_0000 <= Rounded(m * 0x1_0000, s, W32) < 0x100_0000
  {
    hide Nearest, D0;
    if Bracket(m * 0x1_0000, s, 33, 32) {
      RoundingStep(m * 0x1_0000, s, W32, 0x8000_0000);
      NoCarry32(m, Rounded(m * 0x1_0000, s, W32));
    }
  }

  /** The end of `sqrtf`: from the approximation `s`, within the stated error, to the correctly rounded
      significand. */
  method RoundSingle(ix: nat, s: nat) returns (fraction: nat)
    requires 0 < s < 0x100_0000
    ensures fraction < 0x80_0000
    ensures Bracket(Significand32(ix) * 0x1_0000, s, 33, 32) ==>
      Nearest(Significand32(ix) * 0x1_0000, 0x80_0000 + fraction)
  {
    hide Nearest, Bracket, D0;
    RoundedSingle(Significand32(ix), s);
    var even := ix / 0x80_0000 % 2;
    var m1 := 0x8000_0000 + ix % 0x80_0000 * 256;
    var m0 := ix % 0x100_0000 * 128;
    var m := if even == 1 then m0 else m1;
    var r := s;
    var d0 := D0(m * 0x1_0000, r, W32);
    var d1 := (r + W32 - d0) % W32;
    r := r + d1 / 0x8000_0000;
    fraction := r % 0x80_0000;
  }

  // ----------------------------------------------------------------- double precision

  function Significand64(ix: nat): nat {
    var m := 0x8000_0000_0000_0000 + ix % 0x10_0000_0000_0000 * 0x800;
    if ix / 0x10_0000_0000_0000 % 2 == 1 then m / 2 else m
  }

  lemma NoCarry64(m: nat, r: nat)
    requires 0x4000_0000_0000_0000 <= m <= 0x1_0000_0000_0000_0000 - 0x800
    requires r > 0
    ensures Nearest(m * 0x400_0000_0000, r) ==> 0x10_0000_0000_0000 <= r < 0x20_0000_0000_0000
  {
    if r < 0x10_0000_0000_0000 {
      SquareMono(2 * r + 1, 0x20_0000_0000_0000 - 1);
    }
    if r >= 0x20_0000_0000_0000 {
      SquareMono(0x40_0000_0000_0000 - 1, 2 * r - 1);
    }
  }

  lemma RoundedDouble(m: nat, s: nat)
    requires 0x4000_0000_0000_0000 <= m <= 0x1_0000_0000_0000_0000 - 0x800
    requires 0 < s < 0x20_0000_0000_0000
    ensures Bracket(m * 0x400_0000_0000, s, 265, 256) ==>
      && Nearest(m * 0x400_0000_0000, Rounded(m * 0x400_0000_0000, s, W64))
      && 0x10_0000_0000_0000 <= Rounded(m * 0x400_0000_0000, s, W64) < 0x20_0000_0000_0000
  {
    hide Nearest, D0;
    if Bracket(m * 0x400_0000_0000, s, 265, 256) {
      RoundingStep(m * 0x400_0000_0000, s, W64, 0x8000_0000_0000_0000);
      NoCarry64(m, Rounded(m * 0x400_0000_0000, s, W64));
    }
  }

  /** The end of `sqrt`. */
  method RoundDouble(ix: nat, s: nat) returns (fraction: nat)
    requires 0 < s < 0x20_0000_0000_0000
    ensures fraction < 0x10_0000_0000_0000
    ensures Bracket(Significand64(ix) * 0x400_0000_0000, s, 265, 256) ==>
      Nearest(Significand64(ix) * 0x400_0000_0000, 0x10_0000_0000_0000 + fraction)
  {
    hide Nearest, Bracket, D0;
    RoundedDouble(Significand64(ix), s);
    var even := ix / 0x10_0000_0000_0000 % 2;
    var m := 0x8000_0000_0000_0000 + ix % 0x10_0000_0000_0000 * 0x800;
    if even == 1 {
      m := m / 2;
    }
    assert m == Significand64(ix);
    var r := s;
    var d0 := D0(m * 0x400_0000_0000, r, W64);
    var d1 := (r + W64 - d0) % W64;
    r := r + d1 / 0x8000_0000_0000_0000;
    fraction := r % 0x10_0000_0000_0000;
  }
}
