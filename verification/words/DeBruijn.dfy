/** Trailing zeros by a de Bruijn word: shifted by the lowest one, its top bits index a table of shifts. */
module DeBruijn {
  import opened Bits

  const DE_BRUIJN_32: nat := 0x077CB531

  function Index32(): seq<nat> {
    [0, 1, 28, 2, 29, 14, 24, 3]
    + [30, 22, 20, 15, 25, 17, 4, 8]
    + [31, 27, 13, 23, 21, 19, 16, 7]
    + [26, 12, 18, 6, 11, 5, 10, 9]
  }

  const DE_BRUIJN_64: nat := 0x0218A392CD3D5DBF

  function Index64(): seq<nat> {
    [0, 1, 2, 7, 3, 13, 8, 19]
    + [4, 25, 14, 28, 9, 34, 20, 40]
    + [5, 17, 26, 38, 15, 46, 29, 48]
    + [10, 31, 35, 54, 21, 50, 41, 57]
    + [63, 6, 12, 18, 24, 27, 33, 39]
    + [16, 37, 45, 47, 30, 53, 49, 56]
    + [62, 11, 23, 32, 36, 44, 52, 55]
    + [61, 22, 43, 51, 60, 42, 59, 58]
  }

  lemma DoubleRemainder(x: nat, m: nat)
    requires m > 0
    ensures 2 * x % m == if 2 * (x % m) < m then 2 * (x % m) else 2 * (x % m) - m
  {
    var q, r := x / m, x % m;
    assert 2 * x == 2 * q * m + 2 * r && (2 * q + 1) * m == 2 * q * m + m;
    if 2 * r < m {
      QuotientOf(2 * x, 2 * q, 2 * r, m);
    } else {
      QuotientOf(2 * x, 2 * q + 1, 2 * r - m, m);
    }
  }

  lemma {:induction false} EightMore(k: nat)
    ensures Pow(2, k + 8) == 0x100 * Pow(2, k)
  {
    assert Pow(2, k + 2) == 4 * Pow(2, k);
    assert Pow(2, k + 4) == 4 * Pow(2, k + 2);
    assert Pow(2, k + 6) == 4 * Pow(2, k + 4);
    assert Pow(2, k + 8) == 4 * Pow(2, k + 6);
  }

  lemma BytePowers()
    ensures Pow(2, 8) == 0x100 && Pow(2, 16) == 0x1_0000 && Pow(2, 24) == 0x100_0000 && Pow(2, 32) == 0x1_0000_0000
    ensures Pow(2, 40) == 0x100_0000_0000 && Pow(2, 48) == 0x1_0000_0000_0000
    ensures Pow(2, 56) == 0x100_0000_0000_0000 && Pow(2, 64) == 0x1_0000_0000_0000_0000
  {
    EightMore(0);
    EightMore(8);
    EightMore(16);
    EightMore(24);
    EightMore(32);
    EightMore(40);
    EightMore(48);
    EightMore(56);
  }

  // ------------------------------------------------------------------ 32 bits

  /** One bit further, the top bit dropped. */
  function Next32(word: int): int {
    if word < 0x8000_0000 then 2 * word else 2 * word - 0x1_0000_0000
  }

  /** The table names `k` for the top bits of `word`, and so on for every further bit. */
  predicate Names32(t: seq<nat>, k: nat, word: int, end: nat)
    decreases end - k
  {
    k >= end
    || (0 <= word && word / 0x800_0000 < |t| && t[word / 0x800_0000] == k && Names32(t, k + 1, Next32(word), end))
  }

  lemma {:induction false} Names32From0(t: seq<nat>)
    requires t == Index32()
    ensures Names32(t, 0, 0x77CB531, 8)
  {
  }

  lemma {:induction false} Names32From8(t: seq<nat>)
    requires t == Index32()
    ensures Names32(t, 8, 0x7CB53100, 16)
  {
  }

  lemma {:induction false} Names32From16(t: seq<nat>)
    requires t == Index32()
    ensures Names32(t, 16, 0xB5310000, 24)
  {
  }

  lemma {:induction false} Names32From24(t: seq<nat>)
    requires t == Index32()
    ensures Names32(t, 24, 0x31000000, 32)
  {
  }

  /** The word shifted by `j`, and what the table says of it. */
  predicate Named32(t: seq<nat>, j: nat) {
    var word := DE_BRUIJN_32 * Pow(2, j) % 0x1_0000_0000;
    word / 0x800_0000 < |t| && t[word / 0x800_0000] == j
  }

  lemma {:induction false} NamesReach32(t: seq<nat>, k: nat, word: int, end: nat, j: nat)
    requires Names32(t, k, word, end) && word == DE_BRUIJN_32 * Pow(2, k) % 0x1_0000_0000 && k <= j < end
    ensures Named32(t, j)
    decreases end - k
  {
    if k < j {
      DoubleRemainder(DE_BRUIJN_32 * Pow(2, k), 0x1_0000_0000);
      assert 2 * (DE_BRUIJN_32 * Pow(2, k)) == DE_BRUIJN_32 * Pow(2, k + 1);
      NamesReach32(t, k + 1, Next32(word), end, j);
    }
  }

  /** The eight shifts from `k` on, when the word shifted by `k` is `word`. */
  lemma NamesEight32(t: seq<nat>, k: nat, p: nat, word: nat, j: nat)
    ensures Pow(2, k) == p && DE_BRUIJN_32 * p % 0x1_0000_0000 == word && Names32(t, k, word, k + 8) && k <= j < k + 8 ==>
      Named32(t, j)
  {
    if Pow(2, k) == p && DE_BRUIJN_32 * p % 0x1_0000_0000 == word && Names32(t, k, word, k + 8) && k <= j < k + 8 {
      NamesReach32(t, k, word, k + 8, j);
    }
  }

  /** The table names every shift. */
  lemma NamesShift32(t: seq<nat>, j: nat)
    requires t == Index32() && j < 32
    ensures Named32(t, j)
  {
    hide Names32, Named32, Pow, Index32;
    BytePowers();
    PowZero();
    Names32From0(t);
    NamesEight32(t, 0, 0x1, 0x77CB531, j);
    Names32From8(t);
    NamesEight32(t, 8, 0x100, 0x7CB53100, j);
    Names32From16(t);
    NamesEight32(t, 16, 0x10000, 0xB5310000, j);
    Names32From24(t);
    NamesEight32(t, 24, 0x1000000, 0x31000000, j);
  }

  /** `moonbit_ctz32`, on the bits of the word; `x & -x` is taken in words of 32 bits. */
  method CountTrailingZeros32(x: nat) returns (result: nat)
    requires x < 0x1_0000_0000
    ensures result == TrailingZeros(x, 32)
  {
    hide Index32, And, Pow, TrailingZeros;
    var t := Index32();
    var lowest := And(x, (0x1_0000_0000 - x) % 0x1_0000_0000);
    BytePowers();
    if x == 0 {
      NoOnes(32);
      assert DE_BRUIJN_32 * lowest % 0x1_0000_0000 / 0x800_0000 == 0;
      EntryZero32(t);
    } else {
      LowestOne(x, 32);
      NamesShift32(t, TrailingZeros(x, 32));
    }
    result := (if x == 0 then 32 else 0) + t[DE_BRUIJN_32 * lowest % 0x1_0000_0000 / 0x800_0000];
  }

  lemma EntryZero32(t: seq<nat>)
    requires t == Index32()
    ensures t != [] && t[0] == 0
  {
  }

  // ------------------------------------------------------------------ 64 bits

  /** One bit further, the top bit dropped. */
  function Next64(word: int): int {
    if word < 0x8000_0000_0000_0000 then 2 * word else 2 * word - 0x1_0000_0000_0000_0000
  }

  /** The table names `k` for the top bits of `word`, and so on for every further bit. */
  predicate Names64(t: seq<nat>, k: nat, word: int, end: nat)
    decreases end - k
  {
    k >= end
    || (0 <= word && word / 0x400_0000_0000_0000 < |t| && t[word / 0x400_0000_0000_0000] == k && Names64(t, k + 1, Next64(word), end))
  }

  lemma {:induction false} Names64From0(t: seq<nat>)
    requires t == Index64()
    ensures Names64(t, 0, 0x218A392CD3D5DBF, 8)
  {
  }

  lemma {:induction false} Names64From8(t: seq<nat>)
    requires t == Index64()
    ensures Names64(t, 8, 0x18A392CD3D5DBF00, 16)
  {
  }

  lemma {:induction false} Names64From16(t: seq<nat>)
    requires t == Index64()
    ensures Names64(t, 16, 0xA392CD3D5DBF0000, 24)
  {
  }

  lemma {:induction false} Names64From24(t: seq<nat>)
    requires t == Index64()
    ensures Names64(t, 24, 0x92CD3D5DBF000000, 32)
  {
  }

  lemma {:induction false} Names64From32(t: seq<nat>)
    requires t == Index64()
    ensures Names64(t, 32, 0xCD3D5DBF00000000, 40)
  {
  }

  lemma {:induction false} Names64From40(t: seq<nat>)
    requires t == Index64()
    ensures Names64(t, 40, 0x3D5DBF0000000000, 48)
  {
  }

  lemma {:induction false} Names64From48(t: seq<nat>)
    requires t == Index64()
    ensures Names64(t, 48, 0x5DBF000000000000, 56)
  {
  }

  lemma {:induction false} Names64From56(t: seq<nat>)
    requires t == Index64()
    ensures Names64(t, 56, 0xBF00000000000000, 64)
  {
  }

  /** The word shifted by `j`, and what the table says of it. */
  predicate Named64(t: seq<nat>, j: nat) {
    var word := DE_BRUIJN_64 * Pow(2, j) % 0x1_0000_0000_0000_0000;
    word / 0x400_0000_0000_0000 < |t| && t[word / 0x400_0000_0000_0000] == j
  }

  lemma {:induction false} NamesReach64(t: seq<nat>, k: nat, word: int, end: nat, j: nat)
    requires Names64(t, k, word, end) && word == DE_BRUIJN_64 * Pow(2, k) % 0x1_0000_0000_0000_0000 && k <= j < end
    ensures Named64(t, j)
    decreases end - k
  {
    if k < j {
      DoubleRemainder(DE_BRUIJN_64 * Pow(2, k), 0x1_0000_0000_0000_0000);
      assert 2 * (DE_BRUIJN_64 * Pow(2, k)) == DE_BRUIJN_64 * Pow(2, k + 1);
      NamesReach64(t, k + 1, Next64(word), end, j);
    }
  }

  /** The eight shifts from `k` on, when the word shifted by `k` is `word`. */
  lemma NamesEight64(t: seq<nat>, k: nat, p: nat, word: nat, j: nat)
    ensures Pow(2, k) == p && DE_BRUIJN_64 * p % 0x1_0000_0000_0000_0000 == word && Names64(t, k, word, k + 8) && k <= j < k + 8 ==>
      Named64(t, j)
  {
    if Pow(2, k) == p && DE_BRUIJN_64 * p % 0x1_0000_0000_0000_0000 == word && Names64(t, k, word, k + 8) && k <= j < k + 8 {
      NamesReach64(t, k, word, k + 8, j);
    }
  }

  /** The table names every shift. */
  lemma NamesShift64(t: seq<nat>, j: nat)
    requires t == Index64() && j < 64
    ensures Named64(t, j)
  {
    hide Names64, Named64, Pow, Index64;
    BytePowers();
    PowZero();
    Names64From0(t);
    NamesEight64(t, 0, 0x1, 0x218A392CD3D5DBF, j);
    Names64From8(t);
    NamesEight64(t, 8, 0x100, 0x18A392CD3D5DBF00, j);
    Names64From16(t);
    NamesEight64(t, 16, 0x10000, 0xA392CD3D5DBF0000, j);
    Names64From24(t);
    NamesEight64(t, 24, 0x1000000, 0x92CD3D5DBF000000, j);
    Names64From32(t);
    NamesEight64(t, 32, 0x100000000, 0xCD3D5DBF00000000, j);
    Names64From40(t);
    NamesEight64(t, 40, 0x10000000000, 0x3D5DBF0000000000, j);
    Names64From48(t);
    NamesEight64(t, 48, 0x1000000000000, 0x5DBF000000000000, j);
    Names64From56(t);
    NamesEight64(t, 56, 0x100000000000000, 0xBF00000000000000, j);
  }

  /** `moonbit_ctz64`, on the bits of the word; `x & -x` is taken in words of 64 bits. */
  method CountTrailingZeros64(x: nat) returns (result: nat)
    requires x < 0x1_0000_0000_0000_0000
    ensures result == TrailingZeros(x, 64)
  {
    hide Index64, And, Pow, TrailingZeros;
    var t := Index64();
    var lowest := And(x, (0x1_0000_0000_0000_0000 - x) % 0x1_0000_0000_0000_0000);
    BytePowers();
    if x == 0 {
      NoOnes(64);
      assert DE_BRUIJN_64 * lowest % 0x1_0000_0000_0000_0000 / 0x400_0000_0000_0000 == 0;
      EntryZero64(t);
    } else {
      LowestOne(x, 64);
      NamesShift64(t, TrailingZeros(x, 64));
    }
    result := (if x == 0 then 64 else 0) + t[DE_BRUIJN_64 * lowest % 0x1_0000_0000_0000_0000 / 0x400_0000_0000_0000];
  }

  lemma EntryZero64(t: seq<nat>)
    requires t == Index64()
    ensures t != [] && t[0] == 0
  {
  }

  lemma PowZero()
    ensures Pow(2, 0) == 1
  {
  }

  lemma {:induction false} NoOnes(w: nat)
    ensures TrailingZeros(0, w) == w && And(0, 0) == 0
  {
    if w > 0 {
      NoOnes(w - 1);
    }
  }
}
