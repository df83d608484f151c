/** Counting bits: leading zeros, trailing zeros, ones. */
module Bits {
  function Pow(b: nat, n: nat): (p: nat)
    ensures b > 0 ==> p > 0
  {
    if n == 0 then 1 else b * Pow(b, n - 1)
  }

  /** Bit-by-bit conjunction. */
  function And(x: nat, y: nat): nat {
    if x == 0 || y == 0 then 0 else x % 2 * (y % 2) + 2 * And(x / 2, y / 2)
  }

  /** Number of bits up to the highest one. */
  function BitLength(x: nat): nat {
    if x == 0 then 0 else 1 + BitLength(x / 2)
  }

  /** Zeros below the lowest one; all of them when there is none. */
  function TrailingZeros(x: nat, width: nat): nat {
    if width == 0 || x % 2 == 1 then 0 else 1 + TrailingZeros(x / 2, width - 1)
  }

  function Ones(x: nat): nat {
    if x == 0 then 0 else x % 2 + Ones(x / 2)
  }

  // -------------------------------------------------------------- leading zeros

  lemma HalfThenRest(x: nat, p: nat)
    requires p > 0
    ensures x / 2 / p == x / (2 * p)
  {
    var q := x / 2 / p;
    var r := x / 2 % p;
    assert x / 2 == q * p + r;
    assert x == q * (2 * p) + (2 * r + x % 2) by {
      assert q * (2 * p) == 2 * (q * p);
    }
    QuotientOf(x, q, 2 * r + x % 2, 2 * p);
  }

  lemma QuotientOf(x: nat, q: nat, r: nat, p: nat)
    requires r < p && x == q * p + r
    ensures x / p == q && x % p == r
  {
    Separated(x / p, q, p);
  }

  lemma Separated(p: nat, q: nat, w: nat)
    ensures p < q ==> (p + 1) * w <= q * w
    ensures q < p ==> (q + 1) * w <= p * w
  {
  }

  lemma {:induction false} LengthAbove(x: nat, k: nat)
    requires x >= Pow(2, k)
    ensures BitLength(x) == k + BitLength(x / Pow(2, k))
    decreases k
  {
    if k > 0 {
      HalfThenRest(x, Pow(2, k - 1));
      assert x / 2 >= Pow(2, k - 1);
      LengthAbove(x / 2, k - 1);
    }
  }

  lemma SixteenBits()
    ensures Pow(2, 4) == 0x10 && Pow(2, 8) == 0x100 && Pow(2, 16) == 0x1_0000 && Pow(2, 32) == 0x1_0000_0000
  {
    assert Pow(2, 4) == 0x10;
    assert Pow(2, 8) == 0x10 * Pow(2, 4);
    assert Pow(2, 12) == 0x10 * Pow(2, 8);
    assert Pow(2, 16) == 0x10 * Pow(2, 12);
    assert Pow(2, 20) == 0x10 * Pow(2, 16);
    assert Pow(2, 24) == 0x10 * Pow(2, 20);
    assert Pow(2, 28) == 0x10 * Pow(2, 24);
    assert Pow(2, 32) == 0x10 * Pow(2, 28);
  }

  /** The table of leading zeros of four bits. */
  const CLZ4: seq<nat> := [4, 3, 2, 2, 1, 1, 1, 1, 0, 0, 0, 0, 0, 0, 0, 0]

  lemma TableOfFour(x: nat)
    requires x < 16
    ensures CLZ4[x] == 4 - BitLength(x)
  {
  }

  /** One step of the binary search: drop `k` low bits, or count `k` more zeros. */
  lemma Narrow(x: nat, k: nat)
    ensures x >= Pow(2, k) ==> BitLength(x) == k + BitLength(x / Pow(2, k))
  {
    if x >= Pow(2, k) {
      LengthAbove(x, k);
    }
  }

  method CountLeadingZeros32(word: nat) returns (result: nat)
    requires word < 0x1_0000_0000
    ensures result == 32 - BitLength(word)
  {
    var x := word;
    SixteenBits();
    result := 0;
    Narrow(x, 16);
    if x > 0xffff {
      x := x / 0x1_0000;
    } else {
      result := result + 16;
    }
    Narrow(x, 8);
    if x > 0xff {
      x := x / 0x100;
    } else {
      result := result + 8;
    }
    Narrow(x, 4);
    if x > 0xf {
      x := x / 0x10;
    } else {
      result := result + 4;
    }
    TableOfFour(x);
    result := result + CLZ4[x];
  }

  method CountLeadingZeros64(word: nat) returns (result: nat)
    requires word < 0x1_0000_0000_0000_0000
    ensures result == 64 - BitLength(word)
  {
    var x := word;
    SixteenBits();
    result := 0;
    Narrow(x, 32);
    if x > 0xffffffff {
      x := x / 0x1_0000_0000;
    } else {
      result := result + 32;
    }
    var low := CountLeadingZeros32(x);
    result := result + low;
  }

  // ------------------------------------------------------------- trailing zeros

  lemma {:induction false} ComplementShares(x: nat, w: nat)
    requires x < Pow(2, w)
    ensures And(x, Pow(2, w) - 1 - x) == 0
    decreases w
  {
    if w > 0 && x > 0 {
      ComplementShares(x / 2, w - 1);
      assert (Pow(2, w) - 1 - x) / 2 == Pow(2, w - 1) - 1 - x / 2;
    }
  }

  /** `x & -x` leaves the lowest one. */
  lemma {:induction false} LowestOne(x: nat, w: nat)
    requires 0 < x < Pow(2, w)
    ensures TrailingZeros(x, w) < w
    ensures And(x, Pow(2, w) - x) == Pow(2, TrailingZeros(x, w))
    decreases w
  {
    var y := Pow(2, w) - x;
    if x % 2 == 1 {
      ComplementShares(x / 2, w - 1);
      assert y % 2 == 1 && y / 2 == Pow(2, w - 1) - 1 - x / 2;
    } else {
      LowestOne(x / 2, w - 1);
      assert y % 2 == 0 && y / 2 == Pow(2, w - 1) - x / 2;
    }
  }
}
