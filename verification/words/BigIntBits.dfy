/** Bitwise "and", "or" and "exclusive or" of big integers in two's complement, and where they lose the highest limb of
    the result: then it is a zero with a negative sign. */
module BigIntBits {
  import Bits
  import opened BigIntHex

  datatype Op = And | Or | Xor

  // ------------------------------------------------------------- on whole integers

  function Bit(op: Op, i: nat, j: nat): nat {
    match op
    case And => if i == 1 && j == 1 then 1 else 0
    case Or => if i == 1 || j == 1 then 1 else 0
    case Xor => if i != j then 1 else 0
  }

  /** Bit by bit, negative numbers going on with ones for ever. */
  function Of(op: Op, a: int, b: int): int
    decreases (if a < 0 then -1 - a else a) + (if b < 0 then -1 - b else b)
  {
    if a in {0, -1} && b in {0, -1} then 0 - Bit(op, -a, -b) else Bit(op, a % 2, b % 2) + 2 * Of(op, a / 2, b / 2)
  }

  lemma OfHalves(op: Op, a: int, b: int)
    ensures Of(op, a, b) == Bit(op, a % 2, b % 2) + 2 * Of(op, a / 2, b / 2)
  {
  }

  /** The low `k` bits and the others are independent. */
  lemma {:induction false} OfParts(op: Op, x: nat, y: nat, k: nat, a: int, b: int)
    requires x < Bits.Pow(2, k) && y < Bits.Pow(2, k)
    ensures Of(op, x + Bits.Pow(2, k) * a, y + Bits.Pow(2, k) * b) == Of(op, x, y) + Bits.Pow(2, k) * Of(op, a, b)
    ensures 0 <= Of(op, x, y) < Bits.Pow(2, k)
  {
    hide Of, Bit;
    if k == 0 {
      OfZero(op);
    } else {
      var p := Bits.Pow(2, k - 1);
      Halve(x, p, a);
      Halve(y, p, b);
      OfHalves(op, x + 2 * p * a, y + 2 * p * b);
      OfParts(op, x / 2, y / 2, k - 1, a, b);
      OfHalves(op, x, y);
      OneBit(op, x % 2, y % 2);
      Regroup(Bit(op, x % 2, y % 2), Of(op, x / 2, y / 2), p, Of(op, a, b));
    }
  }

  lemma OfZero(op: Op)
    ensures Of(op, 0, 0) == 0
  {
  }

  lemma OneBit(op: Op, i: nat, j: nat)
    ensures Bit(op, i, j) < 2
  {
  }

  lemma Halve(x: nat, p: nat, a: int)
    ensures (x + 2 * p * a) % 2 == x % 2 && (x + 2 * p * a) / 2 == x / 2 + p * a
  {
    assert 2 * p * a == 2 * (p * a);
  }

  lemma Regroup(bit: nat, low: int, p: nat, high: int)
    ensures bit + 2 * (low + p * high) == (bit + 2 * low) + (2 * p) * high
  {
    assert (2 * p) * high == 2 * (p * high);
  }

  lemma LimbIsPower()
    ensures Bits.Pow(2, 32) == LIMB
  {
    assert Bits.Pow(2, 8) == 256;
    assert Bits.Pow(2, 16) == 0x1_0000;
    assert Bits.Pow(2, 24) == 0x100_0000;
  }

  lemma OfLimb(op: Op, x: nat, y: nat, a: int, b: int)
    requires x < LIMB && y < LIMB
    ensures Of(op, x + LIMB * a, y + LIMB * b) == Of(op, x, y) + LIMB * Of(op, a, b)
    ensures 0 <= Of(op, x, y) < LIMB
  {
    hide Of, Bits.Pow;
    LimbIsPower();
    OfParts(op, x, y, 32, a, b);
  }

  /** The limb a sign, zero or minus one, goes on with. */
  function SignLimb(sign: int): nat {
    if sign == -1 then LIMB - 1 else 0
  }

  lemma OfSigns(op: Op, a: int, b: int)
    requires a in {0, -1} && b in {0, -1}
    ensures Of(op, a, b) in {0, -1} && Of(op, SignLimb(a), SignLimb(b)) == SignLimb(Of(op, a, b))
  {
    assert Of(op, a, b) in {0, -1};
    hide Of;
    OfLimb(op, SignLimb(a), SignLimb(b), a, b);
  }

  // ---------------------------------------------------------------- limbs with a sign

  predicate AllLimbs(s: seq<nat>) {
    forall i :: 0 <= i < |s| ==> s[i] < LIMB
  }

  predicate AllZero(s: seq<nat>) {
    forall i :: 0 <= i < |s| ==> s[i] == 0
  }

  /** The limbs continued with the limbs of `sign`, zero or minus one, for ever. */
  function Signed(s: seq<nat>, sign: int): int {
    if s == [] then sign else s[0] + LIMB * Signed(s[1..], sign)
  }

  function Flip(s: seq<nat>): seq<nat>
    requires AllLimbs(s)
  {
    if s == [] then [] else [LIMB - 1 - s[0]] + Flip(s[1..])
  }

  function Increment(s: seq<nat>): seq<nat> {
    if s == [] then [] else if s[0] != LIMB - 1 then [s[0] + 1] + s[1..] else [0] + Increment(s[1..])
  }

  function Decrement(s: seq<nat>): seq<nat> {
    if s == [] then [] else if s[0] != 0 then [s[0] - 1] + s[1..] else [LIMB - 1] + Decrement(s[1..])
  }

  /** Limb by limb. */
  function OfLimbs(op: Op, s: seq<nat>, t: seq<nat>): (r: seq<nat>)
    requires |s| == |t| && AllLimbs(s) && AllLimbs(t)
    ensures |r| == |s| && AllLimbs(r)
  {
    if s == [] then []
    else
      OfLimb(op, s[0], t[0], 0, 0);
      [Of(op, s[0], t[0])] + OfLimbs(op, s[1..], t[1..])
  }

  lemma {:induction false} SignedIsNumber(s: seq<nat>)
    ensures Signed(s, 0) == Number(0, s)
  {
    if s != [] {
      SignedIsNumber(s[1..]);
      assert s == [s[0]] + s[1..];
      NumberLow(0, s[0], s[1..]);
    }
  }

  lemma {:induction false} FlipSigned(s: seq<nat>)
    requires AllLimbs(s)
    ensures AllLimbs(Flip(s)) && |Flip(s)| == |s|
    ensures Signed(Flip(s), -1) == -1 - Signed(s, 0) && Signed(Flip(s), 0) == -1 - Signed(s, -1)
  {
    if s != [] {
      FlipSigned(s[1..]);
    }
  }

  lemma {:induction false} IncrementSigned(s: seq<nat>, sign: int)
    requires AllLimbs(s) && exists i :: 0 <= i < |s| && s[i] != LIMB - 1
    ensures AllLimbs(Increment(s)) && |Increment(s)| == |s|
    ensures Signed(Increment(s), sign) == Signed(s, sign) + 1
  {
    if s[0] == LIMB - 1 {
      var i :| 0 <= i < |s| && s[i] != LIMB - 1;
      assert s[1..][i - 1] != LIMB - 1;
      IncrementSigned(s[1..], sign);
    }
  }

  lemma {:induction false} DecrementSigned(s: seq<nat>, sign: int)
    requires AllLimbs(s) && !AllZero(s)
    ensures AllLimbs(Decrement(s)) && |Decrement(s)| == |s|
    ensures Signed(Decrement(s), sign) == Signed(s, sign) - 1
  {
    if s[0] == 0 {
      var i :| 0 <= i < |s| && s[i] != 0;
      assert s[1..][i - 1] != 0;
      DecrementSigned(s[1..], sign);
    }
  }

  lemma {:induction false} OfSigned(op: Op, s: seq<nat>, t: seq<nat>, a: int, b: int)
    requires |s| == |t| && AllLimbs(s) && AllLimbs(t)
    ensures Of(op, Signed(s, a), Signed(t, b)) == Signed(OfLimbs(op, s, t), Of(op, a, b))
  {
    hide Of;
    if s != [] {
      OfSigned(op, s[1..], t[1..], a, b);
      OfLimb(op, s[0], t[0], Signed(s[1..], a), Signed(t[1..], b));
    }
  }

  // ------------------------------------------------------------------ on big integers

  /** The value of a big integer. */
  function Int(x: BigInt): int
    requires x.len <= |x.limbs|
  {
    var n: int := Number(0, x.limbs[..x.len]);
    if x.negative then -n else n
  }

  /** The limb invariant, and zero is not negative. */
  ghost predicate Canonical(x: BigInt) {
    x.Valid() && (x.negative ==> !x.IsZero())
  }

  function Padded(s: seq<nat>, n: nat): seq<nat>
    requires |s| <= n
  {
    s + seq(n - |s|, _ => 0)
  }

  /** The lowest `n` limbs in two's complement. */
  function Twos(x: BigInt, n: nat): seq<nat>
    requires |x.limbs| <= n && AllLimbs(x.limbs)
  {
    if x.negative then Increment(Flip(Padded(x.limbs, n))) else Padded(x.limbs, n)
  }

  function Longer(x: BigInt, y: BigInt): nat {
    if |x.limbs| < |y.limbs| then |y.limbs| else |x.limbs|
  }

  /** Back from two's complement when the highest limb is all ones; the highest limb is dropped either way. */
  function FromTwos(s: seq<nat>): BigInt
    requires s != [] && AllLimbs(s)
    requires s[|s| - 1] == LIMB - 1 ==> AllLimbs(Decrement(s)) && |Flip(Decrement(s))| == |s|
  {
    var n := |s| - 1;
    var limbs := (if s[n] == LIMB - 1 then Flip(Decrement(s)) else s)[..n];
    BigInt(limbs, s[n] == LIMB - 1, UsedLength(limbs, n))
  }

  /** Minus one below zero, zero otherwise, also for a zero with a negative sign. */
  function Sign(x: BigInt): int
    requires 0 < x.len <= |x.limbs|
  {
    if x.negative && !x.IsZero() then -1 else 0
  }

  /** The result is negative, and only the limb that is dropped is not zero. */
  predicate LosesTop(op: Op, x: BigInt, y: BigInt)
    requires 0 < x.len <= |x.limbs| && 0 < y.len <= |y.limbs| && AllLimbs(x.limbs) && AllLimbs(y.limbs)
  {
    var n := Longer(x, y);
    TwosSize(x, n);
    TwosSize(y, n);
    Of(op, Sign(x), Sign(y)) == -1 && AllZero(OfLimbs(op, Twos(x, n), Twos(y, n)))
  }

  // ---------------------------------------------------------------- one limb on top

  lemma {:induction false} FlipAppend(s: seq<nat>, c: nat)
    requires AllLimbs(s) && c < LIMB
    ensures Flip(s + [c]) == Flip(s) + [LIMB - 1 - c]
  {
    if s == [] {
      assert s + [c] == [c] && [c][1..] == [];
    } else {
      assert (s + [c])[1..] == s[1..] + [c];
      FlipAppend(s[1..], c);
    }
  }

  lemma {:induction false} IncrementAppend(s: seq<nat>, c: nat)
    requires AllLimbs(s) && exists i :: 0 <= i < |s| && s[i] != LIMB - 1
    ensures Increment(s + [c]) == Increment(s) + [c]
  {
    assert (s + [c])[1..] == s[1..] + [c];
    if s[0] == LIMB - 1 {
      var i :| 0 <= i < |s| && s[i] != LIMB - 1;
      assert s[1..][i - 1] != LIMB - 1;
      IncrementAppend(s[1..], c);
    }
  }

  lemma {:induction false} DecrementAppend(s: seq<nat>, c: nat)
    requires AllLimbs(s) && 0 < c < LIMB
    ensures AllLimbs(Decrement(s + [c])) && |Decrement(s + [c])| == |s| + 1
    ensures !AllZero(s) ==> Decrement(s + [c]) == Decrement(s) + [c]
    ensures AllZero(s) ==> forall i :: 0 <= i < |s| ==> Decrement(s + [c])[i] == LIMB - 1
  {
    if s == [] {
      assert s + [c] == [c];
    } else {
      assert (s + [c])[1..] == s[1..] + [c];
      if s[0] == 0 {
        DecrementAppend(s[1..], c);
        assert AllZero(s) == AllZero(s[1..]) by {
          assert forall i :: 0 < i < |s| ==> s[i] == s[1..][i - 1];
        }
      }
    }
  }

  lemma {:induction false} OfAppend(op: Op, s: seq<nat>, t: seq<nat>, c: nat, d: nat)
    requires |s| == |t| && AllLimbs(s) && AllLimbs(t) && c < LIMB && d < LIMB
    ensures 0 <= Of(op, c, d) < LIMB && OfLimbs(op, s + [c], t + [d]) == OfLimbs(op, s, t) + [Of(op, c, d)]
  {
    hide Of;
    OfLimb(op, c, d, 0, 0);
    if s == [] {
      assert s + [c] == [c] && t + [d] == [d];
    } else {
      assert (s + [c])[1..] == s[1..] + [c] && (t + [d])[1..] == t[1..] + [d];
      OfAppend(op, s[1..], t[1..], c, d);
    }
  }

  lemma {:induction false} NumberPadded(s: seq<nat>, k: nat)
    requires k <= |s| && forall i :: k <= i < |s| ==> s[i] == 0
    ensures Number(0, s) == Number(0, s[..k])
  {
    if k < |s| {
      var t := s[..|s| - 1];
      NumberPadded(t, k);
      assert t[..k] == s[..k];
    } else {
      assert s[..k] == s;
    }
  }

  lemma {:induction false} NumberOfZeros(s: seq<nat>)
    requires AllZero(s)
    ensures Number(0, s) == 0
  {
    NumberPadded(s, 0);
    assert s[..0] == [];
  }

  lemma {:induction false} FlipAt(s: seq<nat>, i: nat)
    requires AllLimbs(s) && i < |s|
    ensures |Flip(s)| == |s| && Flip(s)[i] == LIMB - 1 - s[i]
  {
    FlipSigned(s);
    if i > 0 {
      FlipAt(s[1..], i - 1);
    }
  }

  // ------------------------------------------------------------- into two's complement

  /** What padding leaves: the value, and some limb that is not zero when the value is not. */
  lemma PaddedValue(x: BigInt, n: nat)
    requires x.Valid() && |x.limbs| <= n
    ensures AllLimbs(x.limbs) && AllLimbs(Padded(x.limbs, n))
    ensures Signed(Padded(x.limbs, n), 0) == Number(0, x.limbs[..x.len])
    ensures !x.IsZero() ==> !AllZero(Padded(x.limbs, n))
  {
    var used, s := x.limbs[..x.len], Padded(x.limbs, n);
    assert forall i :: 0 <= i < x.len ==> x.limbs[i] == used[i];
    assert s[..x.len] == used;
    NumberPadded(s, x.len);
    SignedIsNumber(s);
    NormalizedNumber(used);
    if AllZero(s) {
      NumberOfZeros(s);
      assert used == [0];
    }
  }

  /** The low limbs, continued with the sign, have the value; one limb more only repeats the sign. */
  lemma TwosValue(x: BigInt, n: nat)
    requires x.Valid() && |x.limbs| <= n
    ensures AllLimbs(x.limbs) && AllLimbs(Twos(x, n)) && |Twos(x, n)| == n
    ensures Signed(Twos(x, n), Sign(x)) == Int(x)
    ensures Twos(x, n + 1) == Twos(x, n) + [SignLimb(Sign(x))]
    ensures Sign(x) == -1 ==> !AllZero(Twos(x, n))
  {
    var s := Padded(x.limbs, n);
    PaddedValue(x, n);
    assert Padded(x.limbs, n + 1) == s + [0];
    if x.negative {
      if x.IsZero() {
        NegativeZeroTwos(x, n);
        NegativeZeroTwos(x, n + 1);
        assert Twos(x, n + 1) == s + [0];
      } else {
        Negated(s);
      }
    }
  }

  /** Flipping and adding one negates. */
  lemma Negated(s: seq<nat>)
    requires AllLimbs(s) && !AllZero(s)
    ensures AllLimbs(Flip(s)) && |Increment(Flip(s))| == |s| && AllLimbs(Increment(Flip(s)))
    ensures Signed(Increment(Flip(s)), -1) == -Signed(s, 0)
    ensures Increment(Flip(s + [0])) == Increment(Flip(s)) + [LIMB - 1]
    ensures !AllZero(Increment(Flip(s)))
  {
    hide Flip, Increment;
    FlipSigned(s);
    FlipAppend(s, 0);
    var i :| 0 <= i < |s| && s[i] != 0;
    FlipAt(s, i);
    IncrementSigned(Flip(s), -1);
    IncrementNotZero(Flip(s));
    IncrementAppend(Flip(s), LIMB - 1);
  }

  /** A zero with a negative sign is zero in two's complement: the carry goes through. */
  lemma NegativeZeroTwos(x: BigInt, n: nat)
    requires x.Valid() && x.IsZero() && x.negative && |x.limbs| <= n
    ensures AllLimbs(x.limbs) && Twos(x, n) == Padded(x.limbs, n) && AllZero(Twos(x, n))
  {
    PaddedValue(x, n);
    var s := Padded(x.limbs, n);
    assert forall i :: 0 <= i < |s| ==> s[i] == 0;
    FlipSigned(s);
    forall i | 0 <= i < |s| ensures Flip(s)[i] == LIMB - 1 {
      FlipAt(s, i);
    }
    Carried(Flip(s), s, |s|);
  }

  lemma {:induction false} IncrementNotZero(s: seq<nat>)
    requires AllLimbs(s) && exists i :: 0 <= i < |s| && s[i] != LIMB - 1
    ensures !AllZero(Increment(s))
  {
    if s[0] == LIMB - 1 {
      var i :| 0 <= i < |s| && s[i] != LIMB - 1;
      assert s[1..][i - 1] != LIMB - 1;
      IncrementNotZero(s[1..]);
      var k :| 0 <= k < |Increment(s[1..])| && Increment(s[1..])[k] != 0;
      assert Increment(s)[k + 1] != 0;
    } else {
      assert Increment(s)[0] != 0;
    }
  }

  /** The carry goes through the ones at the low end. */
  lemma {:induction false} Carried(s: seq<nat>, r: seq<nat>, i: nat)
    requires |r| == |s| && i <= |s| && forall k :: 0 <= k < i ==> s[k] == LIMB - 1 && r[k] == 0
    requires i < |s| ==> s[i] != LIMB - 1 && r[i] == s[i] + 1 && r[i + 1..] == s[i + 1..]
    ensures r == Increment(s)
  {
    if i > 0 {
      Carried(s[1..], r[1..], i - 1);
    }
  }

  /** Both operands in two's complement have the size asked for. */
  lemma TwosSize(x: BigInt, m: nat)
    requires AllLimbs(x.limbs) && |x.limbs| <= m
    ensures |Twos(x, m)| == m && AllLimbs(Twos(x, m))
  {
    FlipSigned(Padded(x.limbs, m));
    StepSizes(Flip(Padded(x.limbs, m)));
  }

  lemma {:induction false} StepSizes(s: seq<nat>)
    requires AllLimbs(s)
    ensures |Increment(s)| == |s| && AllLimbs(Increment(s)) && |Decrement(s)| == |s| && AllLimbs(Decrement(s))
  {
    if s != [] {
      StepSizes(s[1..]);
    }
  }

  // ------------------------------------------------------------------ and back again

  lemma {:induction false} SignedNegative(s: seq<nat>)
    requires AllLimbs(s)
    ensures Signed(s, -1) < 0
  {
    if s != [] {
      SignedNegative(s[1..]);
    }
  }

  lemma {:induction false} FlippedOnes(s: seq<nat>)
    requires AllLimbs(s) && forall i :: 0 <= i < |s| ==> s[i] == LIMB - 1
    ensures |Flip(s)| == |s| && AllZero(Flip(s))
  {
    FlipSigned(s);
    forall i | 0 <= i < |s| ensures Flip(s)[i] == 0 {
      FlipAt(s, i);
    }
  }

  /** A result without a sign limb. */
  lemma FromPlain(low: seq<nat>)
    requires low != [] && AllLimbs(low)
    ensures var r := FromTwos(low + [0]);
      Canonical(r) && !r.negative && Int(r) == Signed(low, 0)
  {
    var s := low + [0];
    assert s[..|low|] == low;
    LimbsValue(low, false);
  }

  lemma LimbsValue(limbs: seq<nat>, negative: bool)
    requires limbs != [] && AllLimbs(limbs)
    ensures var r := BigInt(limbs, negative, UsedLength(limbs, |limbs|));
      && r.Valid() && (r.IsZero() <==> Signed(limbs, 0) == 0)
      && Int(r) == if negative then -Signed(limbs, 0) else Signed(limbs, 0)
  {
    UsedIsNormalized(limbs, |limbs|);
    assert limbs[..|limbs|] == limbs;
    SignedIsNumber(limbs);
    NormalizedNumber(limbs[..UsedLength(limbs, |limbs|)]);
  }

  /** A negative result: its value, unless all limbs but the sign are zero; then zero with a negative sign. */
  lemma FromNegative(low: seq<nat>)
    requires low != [] && AllLimbs(low)
    ensures
      var s := low + [LIMB - 1];
      && AllLimbs(Decrement(s)) && |Flip(Decrement(s))| == |s|
      && var r := FromTwos(s);
         r.negative && r.Valid() && if AllZero(low) then r.IsZero() else Int(r) == Signed(low, -1) && !r.IsZero()
  {
    var n, s := |low|, low + [LIMB - 1];
    DecrementAppend(low, LIMB - 1);
    FlipSigned(Decrement(s));
    if AllZero(low) {
      var d := Decrement(s);
      assert d == d[..n] + [d[n]];
      FlipAppend(d[..n], d[n]);
      FlippedOnes(d[..n]);
      assert Flip(d)[..n] == Flip(d[..n]);
      NumberOfZeros(Flip(d[..n]));
      SignedIsNumber(Flip(d[..n]));
      LimbsValue(Flip(d[..n]), true);
    } else {
      DecrementSigned(low, -1);
      FlipAppend(Decrement(low), LIMB - 1);
      FlipSigned(Decrement(low));
      assert Flip(Decrement(s))[..n] == Flip(Decrement(low));
      SignedNegative(low);
      LimbsValue(Flip(Decrement(low)), true);
    }
  }

  /** What the operation computes. */
  ghost predicate Computes(op: Op, x: BigInt, y: BigInt, r: BigInt) {
    AllLimbs(x.limbs) && AllLimbs(y.limbs) &&
    var m := Longer(x, y) + 1;
    TwosSize(x, m);
    TwosSize(y, m);
    var s := OfLimbs(op, Twos(x, m), Twos(y, m));
    BackSize(s);
    r == FromTwos(s)
  }

  lemma BackSize(s: seq<nat>)
    requires AllLimbs(s)
    ensures AllLimbs(Decrement(s)) && |Flip(Decrement(s))| == |s|
  {
    StepSizes(s);
    FlipSigned(Decrement(s));
  }

  /** The limbs of the result, the highest of them being its sign, and the number they stand for. */
  lemma CombinedLimbs(op: Op, x: BigInt, y: BigInt, n: nat, low: seq<nat>)
    requires x.Valid() && y.Valid() && |x.limbs| <= n && |y.limbs| <= n && AllLimbs(x.limbs) && AllLimbs(y.limbs)
    requires AllLimbs(Twos(x, n)) && AllLimbs(Twos(y, n)) && |Twos(x, n)| == |Twos(y, n)|
    requires low == OfLimbs(op, Twos(x, n), Twos(y, n))
    ensures |low| == n && AllLimbs(low) && |Twos(x, n + 1)| == |Twos(y, n + 1)|
    ensures AllLimbs(Twos(x, n + 1)) && AllLimbs(Twos(y, n + 1)) && Of(op, Sign(x), Sign(y)) in {0, -1}
    ensures OfLimbs(op, Twos(x, n + 1), Twos(y, n + 1)) == low + [SignLimb(Of(op, Sign(x), Sign(y)))]
    ensures Of(op, Int(x), Int(y)) == Signed(low, Of(op, Sign(x), Sign(y)))
  {
    hide Signed, Twos, Number, OfLimbs, Of;
    TwosValue(x, n);
    TwosValue(y, n);
    OfSigned(op, Twos(x, n), Twos(y, n), Sign(x), Sign(y));
    OfAppend(op, Twos(x, n), Twos(y, n), SignLimb(Sign(x)), SignLimb(Sign(y)));
    OfSigns(op, Sign(x), Sign(y));
  }

  /** The main result: each operation is that of two's complement, except that it returns zero with a negative sign
      when the result is minus a power of the limb base that needs one limb more than either operand has. */
  lemma CombineIff(op: Op, x: BigInt, y: BigInt, r: BigInt)
    requires x.Valid() && y.Valid() && Computes(op, x, y, r)
    ensures r.Valid()
    ensures Int(r) == Of(op, Int(x), Int(y)) <==> !LosesTop(op, x, y)
    ensures Canonical(r) <==> !LosesTop(op, x, y)
    ensures LosesTop(op, x, y) ==> r.negative && r.IsZero()
  {
    hide Signed, Flip, Increment, Decrement, Twos, Number, UsedLength, Of, OfLimbs, Int;
    var n := Longer(x, y);
    TwosValue(x, n);
    TwosValue(y, n);
    var low := OfLimbs(op, Twos(x, n), Twos(y, n));
    CombinedLimbs(op, x, y, n, low);
    if Of(op, Sign(x), Sign(y)) == -1 {
      FromNegative(low);
      SignedNegative(low);
      if AllZero(low) {
        ZeroIsZero(r);
      }
    } else {
      FromPlain(low);
    }
  }

  // ----------------------------------------------------- which operands lose the limb

  lemma {:induction false} NothingSet(op: Op, x: nat, y: nat)
    requires Of(op, x, y) == 0
    ensures op == Or ==> x == 0 && y == 0
    ensures op == Xor ==> x == y
  {
    if x != 0 || y != 0 {
      OfHalves(op, x, y);
      assert Bit(op, x % 2, y % 2) == 0 && Of(op, x / 2, y / 2) == 0;
      NothingSet(op, x / 2, y / 2);
    }
  }

  lemma {:induction false} XorItself(x: nat)
    ensures Of(Xor, x, x) == 0
  {
    if x != 0 {
      XorItself(x / 2);
    }
  }

  lemma {:induction false} OrOfLimbs(s: seq<nat>, t: seq<nat>)
    requires |s| == |t| && AllLimbs(s) && AllLimbs(t)
    ensures AllZero(OfLimbs(Or, s, t)) ==> AllZero(s) && AllZero(t)
  {
    hide Of;
    if s != [] && AllZero(OfLimbs(Or, s, t)) {
      var r := OfLimbs(Or, s, t);
      assert r[0] == Of(Or, s[0], t[0]) && r[1..] == OfLimbs(Or, s[1..], t[1..]);
      NothingSet(Or, s[0], t[0]);
      assert AllZero(r[1..]);
      OrOfLimbs(s[1..], t[1..]);
      assert forall i :: 0 < i < |s| ==> s[i] == s[1..][i - 1] && t[i] == t[1..][i - 1];
    }
  }

  lemma {:induction false} XorOfLimbs(s: seq<nat>, t: seq<nat>)
    requires |s| == |t| && AllLimbs(s) && AllLimbs(t)
    ensures AllZero(OfLimbs(Xor, s, t)) <==> s == t
  {
    hide Of;
    if s != [] {
      var r := OfLimbs(Xor, s, t);
      assert r[0] == Of(Xor, s[0], t[0]) && r[1..] == OfLimbs(Xor, s[1..], t[1..]);
      XorOfLimbs(s[1..], t[1..]);
      XorItself(s[0]);
      if AllZero(r) {
        assert AllZero(r[1..]);
        NothingSet(Xor, s[0], t[0]);
        assert s == [s[0]] + s[1..] && t == [t[0]] + t[1..];
      }
      if s == t {
        assert forall i :: 0 < i < |r| ==> r[i] == r[1..][i - 1];
      }
    }
  }

  /** "And" loses the limb when both operands are below zero and their low limbs share no one; "or" never; "exclusive
      or" when one operand is below zero, the other is not, and their low limbs are the same. */
  lemma WhoLoses(op: Op, x: BigInt, y: BigInt)
    requires x.Valid() && y.Valid()
    ensures AllLimbs(x.limbs) && AllLimbs(y.limbs)
    ensures
      var n := Longer(x, y);
      && |Twos(x, n)| == |Twos(y, n)| && AllLimbs(Twos(x, n)) && AllLimbs(Twos(y, n))
      && LosesTop(op, x, y) ==
        match op
        case And => Sign(x) == -1 && Sign(y) == -1 && AllZero(OfLimbs(And, Twos(x, n), Twos(y, n)))
        case Or => false
        case Xor => Sign(x) != Sign(y) && Twos(x, n) == Twos(y, n)
  {
    hide Twos, OfLimbs, Number, Signed;
    var n := Longer(x, y);
    TwosValue(x, n);
    TwosValue(y, n);
    if op == Or {
      OrOfLimbs(Twos(x, n), Twos(y, n));
    } else if op == Xor {
      XorOfLimbs(Twos(x, n), Twos(y, n));
    }
  }

  lemma ZeroIsZero(r: BigInt)
    requires r.Valid() && r.IsZero()
    ensures Int(r) == 0
  {
    assert r.limbs[..1] == [0];
    NumberOfZeros([0]);
  }

  // ------------------------------------------------------------------ in place

  lemma {:induction false} OfAt(op: Op, s: seq<nat>, t: seq<nat>, i: nat)
    requires |s| == |t| && AllLimbs(s) && AllLimbs(t) && i < |s|
    ensures OfLimbs(op, s, t)[i] == Of(op, s[i], t[i])
  {
    hide Of;
    if i > 0 {
      OfAt(op, s[1..], t[1..], i - 1);
    }
  }

  method FlipInPlace(a: array<nat>)
    requires AllLimbs(a[..])
    modifies a
    ensures a[..] == Flip(old(a[..]))
  {
    ghost var s := a[..];
    for i := 0 to a.Length
      invariant forall k :: 0 <= k < i ==> a[k] == LIMB - 1 - s[k]
      invariant forall k :: i <= k < a.Length ==> a[k] == s[k]
    {
      a[i] := LIMB - 1 - a[i];
    }
    FlipSigned(s);
    forall k | 0 <= k < a.Length ensures a[..][k] == Flip(s)[k] {
      FlipAt(s, k);
    }
  }

  method IncrementInPlace(a: array<nat>)
    requires AllLimbs(a[..])
    modifies a
    ensures a[..] == Increment(old(a[..]))
  {
    hide Increment;
    ghost var s := a[..];
    for i := 0 to a.Length
      invariant forall k :: 0 <= k < i ==> s[k] == LIMB - 1 && a[k] == 0
      invariant forall k :: i <= k < a.Length ==> a[k] == s[k]
    {
      a[i] := if a[i] == LIMB - 1 then 0 else a[i] + 1;
      if a[i] != 0 {
        Carried(s, a[..], i);
        return;
      }
    }
    Carried(s, a[..], a.Length);
  }

  /** The borrow goes through the zeros at the low end. */
  lemma {:induction false} Borrowed(s: seq<nat>, r: seq<nat>, i: nat)
    requires |r| == |s| && i <= |s| && forall k :: 0 <= k < i ==> s[k] == 0 && r[k] == LIMB - 1
    requires i < |s| ==> s[i] != 0 && r[i] == s[i] - 1 && r[i + 1..] == s[i + 1..]
    ensures r == Decrement(s)
  {
    if i > 0 {
      Borrowed(s[1..], r[1..], i - 1);
    }
  }

  method DecrementInPlace(a: array<nat>)
    requires AllLimbs(a[..])
    modifies a
    ensures a[..] == Decrement(old(a[..]))
  {
    hide Decrement;
    ghost var s := a[..];
    for i := 0 to a.Length
      invariant forall k :: 0 <= k < i ==> s[k] == 0 && a[k] == LIMB - 1
      invariant forall k :: i <= k < a.Length ==> a[k] == s[k]
    {
      a[i] := if a[i] == 0 then LIMB - 1 else a[i] - 1;
      if a[i] != LIMB - 1 {
        Borrowed(s, a[..], i);
        return;
      }
    }
    Borrowed(s, a[..], a.Length);
  }

  /** The limbs with room for the sign, in two's complement. */
  method Extend(x: BigInt, m: nat) returns (a: array<nat>)
    requires |x.limbs| <= m && AllLimbs(x.limbs)
    ensures fresh(a) && a[..] == Twos(x, m)
  {
    a := new nat[m](i requires 0 <= i < m => if i < |x.limbs| then x.limbs[i] else 0);
    assert a[..] == Padded(x.limbs, m);
    if x.negative {
      FlipSigned(a[..]);
      FlipInPlace(a);
      IncrementInPlace(a);
    }
  }

  method CombineInPlace(op: Op, a: array<nat>, b: array<nat>)
    requires a != b && a.Length == b.Length && AllLimbs(a[..]) && AllLimbs(b[..])
    modifies a
    ensures a[..] == OfLimbs(op, old(a[..]), b[..])
  {
    hide Of;
    ghost var s, t := a[..], b[..];
    for i := 0 to a.Length
      invariant forall k :: 0 <= k < i ==> a[k] == Of(op, s[k], t[k])
      invariant forall k :: i <= k < a.Length ==> a[k] == s[k]
      invariant b[..] == t
    {
      OfLimb(op, s[i], t[i], 0, 0);
      a[i] := Of(op, a[i], b[i]);
    }
    forall k | 0 <= k < a.Length ensures a[..][k] == OfLimbs(op, s, t)[k] {
      OfAt(op, s, t, k);
    }
  }

  lemma ValidLimbs(x: BigInt)
    requires x.Valid()
    ensures AllLimbs(x.limbs) && x.limbs != []
  {
    assert forall i :: 0 <= i < x.len ==> x.limbs[i] == x.limbs[..x.len][i];
  }

  /** `BigInt::land`, `BigInt::lor` and `BigInt::lxor`, which are the same loops around one operator. */
  method Combine(op: Op, x: BigInt, y: BigInt) returns (r: BigInt)
    requires x.Valid() && y.Valid()
    ensures Computes(op, x, y, r)
  {
    hide Twos, Flip, Increment, Decrement, OfLimbs, Number, Signed, Of;
    ValidLimbs(x);
    ValidLimbs(y);
    var m := Longer(x, y) + 1;
    TwosSize(x, m);
    TwosSize(y, m);
    var a := Extend(x, m);
    var b := Extend(y, m);
    CombineInPlace(op, a, b);
    ghost var s := a[..];
    BackSize(s);
    var negative := a[m - 1] == LIMB - 1;
    if negative {
      DecrementInPlace(a);
      FlipInPlace(a);
    }
    var limbs := a[..m - 1];
    r := BigInt(limbs, negative, UsedLength(limbs, m - 1));
  }

  // ------------------------------------------------------------- a negative zero

  lemma {:induction false} ReadRun(acc: nat, s: string)
    ensures (forall c :: c in s ==> c == '0') ==> Read(acc, s) == acc * Power16(|s|)
    ensures (forall c :: c in s ==> c == 'F') ==> Read(acc, s) + 1 == (acc + 1) * Power16(|s|)
    decreases |s|
  {
    if s != "" {
      assert s[0] in s && forall c :: c in s[1..] ==> c in s;
      ReadRun(acc * 16 + DigitValue(s[0]), s[1..]);
      Associate(acc, Power16(|s| - 1));
      Associate(acc + 1, Power16(|s| - 1));
    }
  }

  lemma ReadFirst(c: char, s: string)
    ensures Read(0, [c] + s) == Read(DigitValue(c), s)
  {
    assert ([c] + s)[1..] == s;
  }

  lemma EightAndSeven()
    ensures Power16(8) == LIMB && Power16(7) == 0x1000_0000
  {
    assert Power16(4) == 0x1_0000;
  }

  lemma AllOnes()
    ensures Read(0, "FFFFFFFF") == 0xFFFF_FFFF
  {
    hide Read, Power16;
    EightAndSeven();
    ReadRun(0, "FFFFFFFF");
  }

  lemma HighestOne()
    ensures Read(0, "80000000") == 0x8000_0000
  {
    hide Read, Power16;
    EightAndSeven();
    assert "80000000" == ['8'] + "0000000";
    ReadFirst('8', "0000000");
    ReadRun(8, "0000000");
  }

  lemma SmallTwos(v: nat, negative: bool)
    requires 0 < v < LIMB
    ensures var x := BigInt([v], negative, 1);
      && Canonical(x) && AllLimbs(x.limbs) && Twos(x, 1) == [if negative then LIMB - v else v]
      && Sign(x) == if negative then -1 else 0
  {
    var x := BigInt([v], negative, 1);
    assert x.limbs[..1] == [v];
    assert Padded([v], 1) == [v];
    if negative {
      assert Flip([v]) == [LIMB - 1 - v];
      assert Increment([LIMB - 1 - v]) == [LIMB - v] + [];
    }
  }

  lemma NoCommonBit()
    ensures Of(And, 1, 0x8000_0000) == 0
  {
    hide Of;
    OfHalves(And, 1, 0x8000_0000);
    ZeroAnd(0x4000_0000);
  }

  lemma {:induction false} ZeroAnd(y: nat)
    ensures Of(And, 0, y) == 0
  {
    if y != 0 {
      ZeroAnd(y / 2);
    }
  }

  lemma ParsedLimb(text: string, v: nat)
    requires DigitsOf(text) != "" && |DigitsOf(text)| <= 8 && Read(0, DigitsOf(text)) == v && 0 < v
    ensures Parsed(text) == BigInt([v], text[0] == '-', 1)
  {
    assert Limbs(DigitsOf(text)) == [v];
  }

  /** What the three texts are read as. */
  lemma ThreeTexts()
    ensures Parsed("-FFFFFFFF") == BigInt([0xFFFF_FFFF], true, 1)
    ensures Parsed("-80000000") == BigInt([0x8000_0000], true, 1)
    ensures Parsed("1") == BigInt([1], false, 1)
  {
    hide Read, Limbs, UsedLength, Parsed;
    AllOnes();
    HighestOne();
    ReadOne(0, '1');
    assert "-FFFFFFFF"[1..] == "FFFFFFFF" && "-80000000"[1..] == "80000000";
    ParsedLimb("-FFFFFFFF", 0xFFFF_FFFF);
    ParsedLimb("-80000000", 0x8000_0000);
    ParsedLimb("1", 1);
  }

  /** From the first, "and" with the second and "exclusive or" with the third give a negative zero, where the true
      result is minus two to the 32. */
  lemma NegativeZero(r: BigInt)
    ensures Computes(And, BigInt([0xFFFF_FFFF], true, 1), BigInt([0x8000_0000], true, 1), r) ==>
      r == BigInt([0], true, 1)
    ensures Computes(Xor, BigInt([0xFFFF_FFFF], true, 1), BigInt([1], false, 1), r) ==> r == BigInt([0], true, 1)
  {
    hide Twos, Computes, FromTwos, Flip, Increment, Decrement, Of, Int, Sign;
    var x, y, z := BigInt([0xFFFF_FFFF], true, 1), BigInt([0x8000_0000], true, 1), BigInt([1], false, 1);
    SmallTwos(0xFFFF_FFFF, true);
    SmallTwos(0x8000_0000, true);
    SmallTwos(1, false);
    NoCommonBit();
    assert OfLimbs(And, [1], [0x8000_0000])
        == [Of(And, [1][0], [0x8000_0000][0])] + OfLimbs(And, [1][1..], [0x8000_0000][1..]);
    WhoLoses(And, x, y);
    WhoLoses(Xor, x, z);
    if Computes(And, x, y, r) {
      LostTop(And, x, y, r);
    }
    if Computes(Xor, x, z, r) {
      LostTop(Xor, x, z, r);
    }
  }

  /** The true results. */
  lemma MinusLimb()
    ensures Of(And, -0xFFFF_FFFF, -0x8000_0000) == -0x1_0000_0000
    ensures Of(Xor, -0xFFFF_FFFF, 1) == -0x1_0000_0000
  {
    SignsOnly();
    hide Of;
    SmallSigned(0xFFFF_FFFF);
    SmallSigned(0x8000_0000);
    SmallSigned(LIMB);
    SignedIsNumber([1]);
    NoCommonBit();
    XorItself(1);
    assert [1][1..] == [] && [0x8000_0000][1..] == [];
    assert OfLimbs(And, [1], [0x8000_0000]) == [0] && OfLimbs(Xor, [1], [1]) == [0];
    OfSigned(And, [1], [0x8000_0000], -1, -1);
    OfSigned(Xor, [1], [1], -1, 0);
  }

  lemma SignsOnly()
    ensures Of(And, -1, -1) == -1 && Of(Xor, -1, 0) == -1
  {
  }

  lemma SmallSigned(v: nat)
    requires v <= LIMB
    ensures Signed([LIMB - v], -1) == 0 - v
  {
    assert [LIMB - v][1..] == [];
  }

  lemma LostTop(op: Op, x: BigInt, y: BigInt, r: BigInt)
    requires x.Valid() && y.Valid() && Computes(op, x, y, r) && |x.limbs| == |y.limbs| == 1
    requires AllLimbs(x.limbs) && AllLimbs(y.limbs) && LosesTop(op, x, y)
    ensures r == BigInt([0], true, 1)
  {
    hide Twos, Flip, Increment, Decrement, OfLimbs, Of, Int;
    CombineIff(op, x, y, r);
    TwosSize(x, 2);
    TwosSize(y, 2);
    BackSize(OfLimbs(op, Twos(x, 2), Twos(y, 2)));
    assert |r.limbs| == 1;
    assert r.limbs == [r.limbs[0]];
  }
}
