/** Counting ones within a register: fields of two, four and eight bits, then one multiplication. */
module PopCount {
  import opened Bits

  /** The masks: one of two bits, two of four, four of eight, and a one in every byte. */
  function OneOfTwo(n: nat): nat {
    if n == 0 then 0 else 1 + 4 * OneOfTwo(n - 1)
  }

  function TwoOfFour(n: nat): nat {
    if n == 0 then 0 else 3 + 16 * TwoOfFour(n - 1)
  }

  function FourOfEight(n: nat): nat {
    if n == 0 then 0 else 15 + 256 * FourOfEight(n - 1)
  }

  function EveryByte(n: nat): nat {
    if n == 0 then 0 else 1 + 256 * EveryByte(n - 1)
  }

  /** Each of `n` fields of two, four and eight bits holds the number of ones `x` has there. */
  function Sums2(x: nat, n: nat): nat {
    if n == 0 then 0 else Ones(x % 4) + 4 * Sums2(x / 4, n - 1)
  }

  function Sums4(x: nat, n: nat): nat {
    if n == 0 then 0 else Ones(x % 16) + 16 * Sums4(x / 16, n - 1)
  }

  function Sums8(x: nat, n: nat): nat {
    if n == 0 then 0 else Ones(x % 256) + 256 * Sums8(x / 256, n - 1)
  }

  // ------------------------------------------------------------------ masks, ones

  lemma AndStep(a: nat, b: nat)
    ensures And(a, b) == a % 2 * (b % 2) + 2 * And(a / 2, b / 2)
  {
  }

  lemma {:induction false} AndBound(a: nat, b: nat)
    ensures And(a, b) <= b
    decreases b
  {
    if b > 0 {
      AndStep(a, b);
      AndBound(a / 2, b / 2);
      BitProduct(a % 2, b % 2);
    }
  }

  lemma BitProduct(x: nat, y: nat)
    requires x < 2
    ensures x * y <= y
  {
    assert x == 0 || x == 1;
  }

  lemma MaskOne(y: nat, r: nat)
    ensures And(y, 1 + 4 * r) == y % 2 + 4 * And(y / 4, r)
  {
    AndStep(y, 1 + 4 * r);
    AndStep(y / 2, 2 * r);
    assert y / 2 / 2 == y / 4;
  }

  lemma TwoBits(y: nat)
    ensures y / 2 / 2 == y / 4 && y % 4 == y % 2 + 2 * (y / 2 % 2)
  {
  }

  lemma MaskTwo(y: nat, r: nat)
    ensures And(y, 3 + 4 * r) == y % 4 + 4 * And(y / 4, r)
  {
    hide And;
    AndStep(y, 3 + 4 * r);
    assert (3 + 4 * r) % 2 == 1 && (3 + 4 * r) / 2 == 1 + 2 * r;
    AndStep(y / 2, 1 + 2 * r);
    assert (1 + 2 * r) % 2 == 1 && (1 + 2 * r) / 2 == r;
    TwoBits(y);
  }

  lemma MaskNone(y: nat, r: nat)
    ensures And(y, 4 * r) == 4 * And(y / 4, r)
  {
    AndStep(y, 4 * r);
    AndStep(y / 2, 2 * r);
    assert y / 2 / 2 == y / 4;
  }

  lemma MaskTwoOfFour(y: nat, r: nat)
    ensures And(y, 3 + 16 * r) == y % 4 + 16 * And(y / 16, r)
  {
    MaskTwo(y, 4 * r);
    MaskNone(y / 4, r);
    assert y / 4 / 4 == y / 16;
  }

  lemma EightBits(y: nat)
    ensures y / 4 / 4 == y / 16 && y / 16 / 4 == y / 64 && y / 64 / 4 == y / 256 && y % 16 == y % 4 + 4 * (y / 4 % 4)
  {
  }

  lemma MaskFourOfEight(y: nat, r: nat)
    ensures And(y, 15 + 256 * r) == y % 16 + 256 * And(y / 256, r)
  {
    hide And;
    MaskTwo(y, 3 + 64 * r);
    MaskTwo(y / 4, 16 * r);
    MaskNone(y / 16, 4 * r);
    MaskNone(y / 64, r);
    EightBits(y);
  }

  lemma {:induction false} OnesSplit(x: nat, k: nat)
    ensures Ones(x) == Ones(x % Pow(2, k)) + Ones(x / Pow(2, k))
    decreases k
  {
    if k > 0 {
      var p := Pow(2, k - 1);
      OnesSplit(x / 2, k - 1);
      HalfThenRest(x, p);
      SplitEven(x, p);
      OnesStep(x);
      OnesStep(x % (2 * p));
    }
  }

  lemma OnesStep(x: nat)
    ensures Ones(x) == x % 2 + Ones(x / 2)
  {
  }

  lemma SplitEven(x: nat, p: nat)
    requires p > 0
    ensures x % (2 * p) % 2 == x % 2 && x % (2 * p) / 2 == x / 2 % p
  {
    var q, r := x / 2 / p, x / 2 % p;
    assert x / 2 == q * p + r;
    assert x == q * (2 * p) + (2 * r + x % 2) by {
      assert q * (2 * p) == 2 * (q * p);
    }
    QuotientOf(x, q, 2 * r + x % 2, 2 * p);
  }

  lemma OnesOfFour(d: nat)
    ensures d < 4 ==> Ones(d) == d - d / 2 && Ones(d) <= 2
  {
    if d < 4 {
      OnesStep(d);
      OnesStep(d / 2);
    }
  }

  lemma NibbleFields(x: nat)
    ensures x % 16 % 4 == x % 4 && x % 16 / 4 == x / 4 % 4 && x / 4 / 4 == x / 16
  {
    var q, r := x / 16, x % 16;
    assert x == 16 * q + r;
    QuotientOf(x, 4 * q + r / 4, r % 4, 4);
    QuotientOf(4 * q + r / 4, q, r / 4, 4);
  }

  lemma ByteFields(x: nat)
    ensures x % 256 % 16 == x % 16 && x % 256 / 16 == x / 16 % 16 && x / 16 / 16 == x / 256
  {
    var q, r := x / 256, x % 256;
    assert x == 256 * q + r;
    QuotientOf(x, 16 * q + r / 16, r % 16, 16);
    QuotientOf(16 * q + r / 16, q, r / 16, 16);
  }

  /** Ones of two adjacent fields. */
  lemma OnesOfNibble(x: nat)
    ensures Ones(x % 16) == Ones(x % 4) + Ones(x / 4 % 4)
  {
    hide Ones;
    assert Pow(2, 2) == 4;
    OnesSplit(x % 16, 2);
    NibbleFields(x);
  }

  lemma OnesOfByte(x: nat)
    ensures Ones(x % 256) == Ones(x % 16) + Ones(x / 16 % 16)
  {
    hide Ones;
    assert Pow(2, 4) == 16;
    OnesSplit(x % 256, 4);
    ByteFields(x);
  }

  lemma {:induction false} OnesBound(x: nat, k: nat)
    requires x < Pow(2, k)
    ensures Ones(x) <= k
  {
    if k > 0 {
      OnesBound(x / 2, k - 1);
    }
  }

  // ----------------------------------------------------------------- the three steps

  lemma {:induction false} FieldsOfTwo(x: nat, n: nat)
    requires x < Pow(4, n)
    ensures And(x / 2, OneOfTwo(n)) <= x
    ensures x - And(x / 2, OneOfTwo(n)) == Sums2(x, n)
    decreases n
  {
    if n > 0 {
      FieldsOfTwo(x / 4, n - 1);
      NextTwo(x, n);
    }
  }

  lemma HalvesOfFour(x: nat)
    ensures x / 2 / 4 == x / 4 / 2 && x / 2 % 2 == x % 4 / 2 && x == x % 4 + 4 * (x / 4)
  {
    var q, r := x / 4, x % 4;
    var p, b := q / 2, q % 2;
    QuotientOf(x / 2, p, 2 * b + r / 2, 4);
    QuotientOf(x / 2, q, r / 2, 2);
  }

  lemma NextTwo(x: nat, n: nat)
    requires n > 0
    ensures And(x / 2, OneOfTwo(n)) == x % 4 / 2 + 4 * And(x / 4 / 2, OneOfTwo(n - 1))
    ensures x == x % 4 + 4 * (x / 4) && Ones(x % 4) == x % 4 - x % 4 / 2
  {
    hide And, Ones;
    MaskOne(x / 2, OneOfTwo(n - 1));
    HalvesOfFour(x);
    OnesOfFour(x % 4);
  }

  lemma SmallCounts(x: nat)
    ensures Ones(x % 4) <= 2 && Ones(x % 16) <= 4 && Ones(x % 256) <= 8
  {
    assert Pow(2, 2) == 4 && Pow(2, 4) == 16 && Pow(2, 8) == 16 * Pow(2, 4);
    OnesBound(x % 4, 2);
    OnesBound(x % 16, 4);
    OnesBound(x % 256, 8);
  }

  /** The lowest two fields of `s`. */
  lemma LowPairs(s: nat, a: nat, b: nat, rest: nat)
    requires a < 4 && b < 4 && s == a + 4 * (b + 4 * rest)
    ensures s % 4 == a && s / 4 % 4 == b && s / 16 == rest && s / 4 / 16 == rest / 4
  {
  }

  lemma {:induction false} FieldsOfFour(x: nat, n: nat)
    ensures And(Sums2(x, 2 * n), TwoOfFour(n)) + And(Sums2(x, 2 * n) / 4, TwoOfFour(n)) == Sums4(x, n)
    decreases n
  {
    if n > 0 {
      FieldsOfFour(x / 16, n - 1);
      NextFour(x, n);
    }
  }

  lemma NextFour(x: nat, n: nat)
    requires n > 0
    ensures var s, rest, m := Sums2(x, 2 * n), Sums2(x / 16, 2 * n - 2), TwoOfFour(n - 1);
      And(s, TwoOfFour(n)) + And(s / 4, TwoOfFour(n)) == Ones(x % 16) + 16 * (And(rest, m) + And(rest / 4, m))
  {
    hide And, Ones, Pow;
    var s, rest := Sums2(x, 2 * n), Sums2(x / 16, 2 * n - 2);
    NibbleFields(x);
    SmallCounts(x);
    SmallCounts(x / 4);
    assert Sums2(x / 4, 2 * n - 1) == Ones(x / 4 % 4) + 4 * Sums2(x / 4 / 4, 2 * n - 2);
    LowPairs(s, Ones(x % 4), Ones(x / 4 % 4), rest);
    MaskTwoOfFour(s, TwoOfFour(n - 1));
    MaskTwoOfFour(s / 4, TwoOfFour(n - 1));
    OnesOfNibble(x);
  }

  /** Adding the shifted sums does not carry from one byte into the next. */
  lemma NoCarry(s: nat, a: nat, b: nat, rest: nat)
    requires a <= 4 && b <= 4 && rest % 16 <= 4 && s == a + 16 * (b + 16 * rest)
    ensures (s + s / 16) % 16 == a + b && (s + s / 16) / 256 == rest + rest / 16
  {
    assert s / 16 == b + 16 * rest;
    var high := b + rest % 16;
    assert rest == rest / 16 * 16 + rest % 16;
    assert s + s / 16 == a + b + 16 * high + 256 * (rest / 16 + rest);
    QuotientOf(s + s / 16, rest + rest / 16, a + b + 16 * high, 256);
    QuotientOf(s + s / 16, high + 16 * (rest / 16 + rest), a + b, 16);
  }

  lemma LowNibble(x: nat, n: nat)
    ensures Sums4(x, n) % 16 <= 4
  {
    if n > 0 {
      SmallCounts(x);
      QuotientOf(Sums4(x, n), Sums4(x / 16, n - 1), Ones(x % 16), 16);
    }
  }

  lemma {:induction false} FieldsOfEight(x: nat, n: nat)
    ensures And(Sums4(x, 2 * n) + Sums4(x, 2 * n) / 16, FourOfEight(n)) == Sums8(x, n)
    decreases n
  {
    if n > 0 {
      FieldsOfEight(x / 256, n - 1);
      NextEight(x, n);
    }
  }

  lemma NextEight(x: nat, n: nat)
    requires n > 0
    ensures var s, rest := Sums4(x, 2 * n), Sums4(x / 256, 2 * n - 2);
      And(s + s / 16, FourOfEight(n)) == Ones(x % 256) + 256 * And(rest + rest / 16, FourOfEight(n - 1))
  {
    hide And, Ones, Pow;
    var s, rest := Sums4(x, 2 * n), Sums4(x / 256, 2 * n - 2);
    ByteFields(x);
    SmallCounts(x);
    SmallCounts(x / 16);
    assert Sums4(x / 16, 2 * n - 1) == Ones(x / 16 % 16) + 16 * Sums4(x / 16 / 16, 2 * n - 2);
    LowNibble(x / 256, 2 * n - 2);
    NoCarry(s, Ones(x % 16), Ones(x / 16 % 16), rest);
    MaskFourOfEight(s + s / 16, FourOfEight(n - 1));
    OnesOfByte(x);
  }

  // --------------------------------------------------------------- the multiplication

  function Total(v: nat, n: nat): nat {
    if n == 0 then 0 else v % 256 + Total(v / 256, n - 1)
  }

  /** Running totals of the bytes of `v`, one in each byte. */
  function Running(v: nat, acc: nat, n: nat): nat {
    if n == 0 then 0 else acc + v % 256 + 256 * Running(v / 256, acc + v % 256, n - 1)
  }

  function Overflow(v: nat, n: nat): nat {
    if n == 0 then 0 else v / 256 + Overflow(v / 256, n - 1)
  }

  /** Multiplying by a one in every byte adds up the bytes below. */
  lemma {:induction false} MultiplyAddsUp(v: nat, acc: nat, n: nat)
    ensures (v + acc) * EveryByte(n) == Running(v, acc, n) + Pow(256, n) * Overflow(v, n)
    decreases n
  {
    if n > 0 {
      var d, w, m := acc + v % 256, v / 256, n - 1;
      MultiplyAddsUp(w, d, m);
      RepeatIsGeometric(m);
      Distribute(v, acc, w, d, EveryByte(m), Pow(256, m), Running(w, d, m), Overflow(w, m));
    }
  }

  /** 255 * 0x..0101 is one below the next power. */
  lemma {:induction false} RepeatIsGeometric(n: nat)
    ensures 255 * EveryByte(n) + 1 == Pow(256, n)
  {
    if n > 0 {
      RepeatIsGeometric(n - 1);
    }
  }

  lemma Distribute(v: nat, acc: nat, w: nat, d: nat, r: nat, p: nat, run: nat, over: nat)
    requires d == acc + v - 256 * w && (w + d) * r == run + p * over && 255 * r + 1 == p
    ensures (v + acc) * (1 + 256 * r) == d + 256 * run + 256 * p * (w + over)
  {
    assert (v + acc) * (1 + 256 * r) == v + acc + 256 * ((v + acc) * r);
    assert (v + acc) * r == (w + d) * r + 255 * w * r by {
      assert v + acc == w + d + 255 * w;
    }
    assert 255 * w * r == w * p - w by {
      assert w * p == w * (255 * r + 1);
    }
    assert 256 * p * (w + over) == 256 * (p * w) + 256 * (p * over);
  }

  lemma {:induction false} TopIsTotal(v: nat, acc: nat, n: nat)
    requires n > 0 && acc + Total(v, n) < 256
    ensures Running(v, acc, n) < Pow(256, n)
    ensures Running(v, acc, n) / Pow(256, n - 1) == acc + Total(v, n)
    decreases n
  {
    var d := acc + v % 256;
    if n == 1 {
      assert Total(v / 256, 0) == 0 && Running(v / 256, d, 0) == 0;
    } else {
      TopIsTotal(v / 256, d, n - 1);
      DivideByte(d, Running(v / 256, d, n - 1), Pow(256, n - 2));
    }
  }

  lemma DivideByte(d: nat, run: nat, p: nat)
    requires d < 256 && p > 0
    ensures (d + 256 * run) / (256 * p) == run / p
  {
    var q, r := run / p, run % p;
    assert d + 256 * run == q * (256 * p) + (d + 256 * r) by {
      assert q * (256 * p) == 256 * (q * p);
    }
    QuotientOf(d + 256 * run, q, d + 256 * r, 256 * p);
  }

  lemma {:induction false} TotalIsOnes(x: nat, n: nat)
    requires x < Pow(256, n)
    ensures Total(Sums8(x, n), n) == Ones(x) && Ones(x) <= 8 * n
    decreases n
  {
    if n > 0 {
      TotalIsOnes(x / 256, n - 1);
      assert Pow(2, 4) == 16 && Pow(2, 8) == 16 * Pow(2, 4);
      OnesSplit(x, 8);
      SmallCounts(x);
      QuotientOf(Sums8(x, n), Sums8(x / 256, n - 1), Ones(x % 256), 256);
    }
  }

  /** The last step, for a word of `n` bytes. */
  lemma MultiplyStep(x: nat, n: nat, word: nat, top: nat)
    requires 0 < n < 32 && word == Pow(256, n) && top == Pow(256, n - 1) && x < word
    ensures top > 0 && Sums8(x, n) * EveryByte(n) % word / top == Ones(x)
  {
    hide Sums8, EveryByte, Total, Running, Overflow, Ones;
    var v := Sums8(x, n);
    TotalIsOnes(x, n);
    MultiplyAddsUp(v, 0, n);
    TopIsTotal(v, 0, n);
    Remainder((v + 0) * EveryByte(n), word, Overflow(v, n), Running(v, 0, n));
  }

  lemma Remainder(x: nat, p: nat, q: nat, r: nat)
    requires r < p && x == r + p * q
    ensures x % p == r
  {
    assert p * q == q * p;
    QuotientOf(x, q, r, p);
  }

  // ------------------------------------------------------------------------ the methods

  lemma EightFields(n: nat)
    ensures OneOfTwo(n + 8) == 0x5555 + 0x1_0000 * OneOfTwo(n)
    ensures Pow(4, n + 8) == 0x1_0000 * Pow(4, n)
  {
    FourFields(n);
    FourFields(n + 4);
  }

  lemma {:induction false} FourFields(n: nat)
    ensures OneOfTwo(n + 4) == 0x55 + 0x100 * OneOfTwo(n)
    ensures TwoOfFour(n + 4) == 0x3333 + 0x1_0000 * TwoOfFour(n)
    ensures FourOfEight(n + 4) == 0x0F0F0F0F + 0x1_0000_0000 * FourOfEight(n)
    ensures EveryByte(n + 4) == 0x01010101 + 0x1_0000_0000 * EveryByte(n)
    ensures Pow(4, n + 4) == 0x100 * Pow(4, n)
    ensures Pow(256, n + 4) == 0x1_0000_0000 * Pow(256, n)
  {
    TwoFields(n);
    TwoFields(n + 2);
  }

  lemma {:induction false} TwoFields(n: nat)
    ensures OneOfTwo(n + 2) == 0x5 + 0x10 * OneOfTwo(n)
    ensures TwoOfFour(n + 2) == 0x33 + 0x100 * TwoOfFour(n)
    ensures FourOfEight(n + 2) == 0x0F0F + 0x1_0000 * FourOfEight(n)
    ensures EveryByte(n + 2) == 0x0101 + 0x1_0000 * EveryByte(n)
    ensures Pow(4, n + 2) == 0x10 * Pow(4, n)
    ensures Pow(256, n + 2) == 0x1_0000 * Pow(256, n)
  {
    assert OneOfTwo(n + 1) == 1 + 4 * OneOfTwo(n) && TwoOfFour(n + 1) == 3 + 16 * TwoOfFour(n);
    assert FourOfEight(n + 1) == 15 + 256 * FourOfEight(n) && EveryByte(n + 1) == 1 + 256 * EveryByte(n);
    assert Pow(4, n + 1) == 4 * Pow(4, n) && Pow(256, n + 1) == 256 * Pow(256, n);
  }

  /** The masks and word sizes as the code writes them. */
  lemma Constants32()
    ensures OneOfTwo(16) == 0x55555555 && TwoOfFour(8) == 0x33333333 && FourOfEight(4) == 0x0F0F0F0F
    ensures EveryByte(4) == 0x01010101
    ensures Pow(4, 16) == Pow(256, 4) == 0x1_0000_0000 && Pow(256, 3) == 0x100_0000
  {
    FourFields(0);
    FourFields(4);
    EightFields(0);
    EightFields(8);
    assert Pow(256, 4) == 256 * Pow(256, 3);
  }

  lemma Constants64()
    ensures OneOfTwo(32) == 0x5555555555555555 && TwoOfFour(16) == 0x3333333333333333
    ensures FourOfEight(8) == 0x0F0F0F0F0F0F0F0F && EveryByte(8) == 0x0101010101010101
    ensures Pow(4, 32) == Pow(256, 8) == 0x1_0000_0000_0000_0000 && Pow(256, 7) == 0x100_0000_0000_0000
  {
    Constants32();
    FourFields(4);
    FourFields(8);
    FourFields(12);
    EightFields(16);
    EightFields(24);
    assert Pow(256, 8) == 256 * Pow(256, 7);
  }

  /** `moonbit_popcnt32` */
  method PopCount32(word: nat) returns (result: nat)
    requires word < 0x1_0000_0000
    ensures result == Ones(word)
  {
    hide Sums2, Sums4, Sums8, And, Ones, OneOfTwo, TwoOfFour, FourOfEight, EveryByte, Pow;
    Constants32();
    FieldsOfTwo(word, 16);
    FieldsOfFour(word, 8);
    FieldsOfEight(word, 4);
    MultiplyStep(word, 4, 0x1_0000_0000, 0x100_0000);
    var x := word;
    x := x - And(x / 2, 0x55555555);
    AndBound(x, 0x33333333);
    AndBound(x / 4, 0x33333333);
    x := (And(x, 0x33333333) + And(x / 4, 0x33333333)) % 0x1_0000_0000;
    x := And((x + x / 16) % 0x1_0000_0000, 0x0F0F0F0F);
    result := x * 0x01010101 % 0x1_0000_0000 / 0x100_0000;
  }

  /** `moonbit_popcnt64` */
  method PopCount64(word: nat) returns (result: nat)
    requires word < 0x1_0000_0000_0000_0000
    ensures result == Ones(word)
  {
    hide Sums2, Sums4, Sums8, And, Ones, OneOfTwo, TwoOfFour, FourOfEight, EveryByte, Pow;
    Constants64();
    FieldsOfTwo(word, 32);
    FieldsOfFour(word, 16);
    FieldsOfEight(word, 8);
    MultiplyStep(word, 8, 0x1_0000_0000_0000_0000, 0x100_0000_0000_0000);
    var x := word;
    x := x - And(x / 2, 0x5555555555555555);
    AndBound(x, 0x3333333333333333);
    AndBound(x / 4, 0x3333333333333333);
    x := (And(x, 0x3333333333333333) + And(x / 4, 0x3333333333333333)) % 0x1_0000_0000_0000_0000;
    x := And((x + x / 16) % 0x1_0000_0000_0000_0000, 0x0F0F0F0F0F0F0F0F);
    result := x * 0x0101010101010101 % 0x1_0000_0000_0000_0000 / 0x100_0000_0000_0000;
  }
}
