/** Hexadecimal printing and reading of big integers over 32-bit limbs, least significant limb first. */
module BigIntHex {
  const LIMB: nat := 0x1_0000_0000

  datatype BigInt = BigInt(limbs: seq<nat>, negative: bool, len: nat) {
    /** The limbs in use are normalized, the others are zero. */
    ghost predicate Valid() {
      len <= |limbs| && Normalized(limbs[..len]) && forall i :: len <= i < |limbs| ==> limbs[i] == 0
    }

    predicate IsZero()
      requires 0 < len <= |limbs|
    {
      len == 1 && limbs[0] == 0
    }
  }

  ghost predicate Normalized(limbs: seq<nat>) {
    && limbs != []
    && (forall i :: 0 <= i < |limbs| ==> limbs[i] < LIMB)
    && (|limbs| == 1 || limbs[|limbs| - 1] > 0)
  }

  /** The number of `limbs` below a number `acc` already read. */
  function Number(acc: nat, limbs: seq<nat>): nat
    decreases |limbs|
  {
    if limbs == [] then acc else Number(acc * LIMB + limbs[|limbs| - 1], limbs[..|limbs| - 1])
  }

  predicate IsHex(c: char) {
    '0' <= c <= '9' || 'A' <= c <= 'F' || 'a' <= c <= 'f'
  }

  /** `char_from_hex` */
  function DigitValue(c: char): (d: nat)
    ensures d < 16
  {
    if '0' <= c <= '9' then (c - '0') as nat
    else if 'A' <= c <= 'F' then (c - 'A') as nat + 10
    else if 'a' <= c <= 'f' then (c - 'a') as nat + 10
    else 0
  }

  function DigitChar(d: nat, upper: bool): char
    requires d < 16
  {
    if d < 10 then '0' + d as char else if upper then 'A' + (d - 10) as char else 'a' + (d - 10) as char
  }

  predicate AllHex(s: string) {
    forall i :: 0 <= i < |s| ==> IsHex(s[i])
  }

  /** The number of the digits `s` behind a number `acc` already read. */
  function Read(acc: nat, s: string): nat
    decreases |s|
  {
    if s == "" then acc else Read(acc * 16 + DigitValue(s[0]), s[1..])
  }

  // ------------------------------------------------------------------ representation

  lemma {:induction false} NumberLow(acc: nat, low: nat, high: seq<nat>)
    ensures Number(acc, [low] + high) == Number(acc, high) * LIMB + low
    decreases |high|
  {
    var s := [low] + high;
    if high == [] {
      assert s == [low] && s[..0] == [];
    } else {
      var n := |high|;
      assert s[|s| - 1] == high[n - 1] && s[..|s| - 1] == [low] + high[..n - 1];
      NumberLow(acc * LIMB + high[n - 1], low, high[..n - 1]);
    }
  }

  lemma {:induction false} NumberPositive(acc: nat, limbs: seq<nat>)
    requires acc > 0
    ensures Number(acc, limbs) > 0
    decreases |limbs|
  {
    if limbs != [] {
      NumberPositive(acc * LIMB + limbs[|limbs| - 1], limbs[..|limbs| - 1]);
    }
  }

  lemma NormalizedNumber(limbs: seq<nat>)
    requires Normalized(limbs)
    ensures Number(0, limbs) == 0 <==> limbs == [0]
    ensures |limbs| > 1 ==> Number(0, limbs) >= LIMB
  {
    if |limbs| == 1 {
      assert limbs[..0] == [];
    } else {
      var n := |limbs|;
      assert limbs == [limbs[0]] + limbs[1..];
      NumberLow(0, limbs[0], limbs[1..]);
      assert limbs[1..][n - 2] == limbs[n - 1];
      NumberPositive(limbs[n - 1], limbs[1..][..n - 2]);
    }
  }

  lemma SameParts(h: nat, l: nat, k: nat, m: nat)
    requires l < LIMB && m < LIMB && h * LIMB + l == k * LIMB + m
    ensures h == k && l == m
  {
  }

  /** Normalized limbs are determined by their number. */
  lemma {:induction false} NormalizedIsUnique(a: seq<nat>, b: seq<nat>)
    requires Normalized(a) && Normalized(b) && Number(0, a) == Number(0, b)
    ensures a == b
    decreases |a|
  {
    NormalizedNumber(a);
    NormalizedNumber(b);
    if |a| == 1 || |b| == 1 {
      assert |a| == 1 && |b| == 1;
      assert a[..0] == [] && b[..0] == [];
      assert a == [a[0]] && b == [b[0]];
    } else {
      assert a == [a[0]] + a[1..] && b == [b[0]] + b[1..];
      NumberLow(0, a[0], a[1..]);
      NumberLow(0, b[0], b[1..]);
      SameParts(Number(0, a[1..]), a[0], Number(0, b[1..]), b[0]);
      NormalizedIsUnique(a[1..], b[1..]);
    }
  }

  // ------------------------------------------------------------------------ printing

  /** The lowest `count` digits of `x`. */
  function LimbText(x: nat, count: nat, upper: bool): string {
    if count == 0 then "" else LimbText(x / 16, count - 1, upper) + [DigitChar(x % 16, upper)]
  }

  function Width(x: nat): nat {
    if x == 0 then 0 else 1 + Width(x / 16)
  }

  /** Eight digits for every limb, from the highest down. */
  function LowerText(limbs: seq<nat>, upper: bool): string
    decreases |limbs|
  {
    if limbs == [] then "" else LimbText(limbs[|limbs| - 1], 8, upper) + LowerText(limbs[..|limbs| - 1], upper)
  }

  function Sign(negative: bool): string {
    if negative then "-" else ""
  }

  function HexText(x: BigInt, upper: bool): string
    requires 0 < x.len <= |x.limbs|
  {
    if x.IsZero() then "0" else Sign(x.negative) + Digits(x.limbs[..x.len], upper)
  }

  /** The highest limb without leading zeros, the others with. */
  function Digits(limbs: seq<nat>, upper: bool): string
    requires limbs != []
  {
    var n := |limbs| - 1;
    LimbText(limbs[n], Width(limbs[n]), upper) + LowerText(limbs[..n], upper)
  }

  lemma {:induction false} ReadMore(acc: nat, s: string, t: string)
    requires AllHex(s) && AllHex(t)
    ensures AllHex(s + t) && Read(acc, s + t) == Read(Read(acc, s), t)
    decreases |s|
  {
    if s == "" {
      assert s + t == t;
    } else {
      assert (s + t)[1..] == s[1..] + t;
      ReadMore(acc * 16 + DigitValue(s[0]), s[1..], t);
    }
  }

  lemma ReadOne(acc: nat, c: char)
    requires IsHex(c)
    ensures Read(acc, [c]) == acc * 16 + DigitValue(c)
  {
    assert [c][1..] == "";
  }

  function Power16(n: nat): (p: nat)
    ensures p >= 1
  {
    if n == 0 then 1 else 16 * Power16(n - 1)
  }

  lemma ShiftDigit(acc: nat, p: nat, x: nat)
    ensures (acc * p + x / 16) * 16 + x % 16 == acc * (16 * p) + x
  {
  }

  /** Digits of `x` behind `acc`. */
  lemma {:induction false} ReadLimbText(acc: nat, x: nat, count: nat, upper: bool)
    requires x < Power16(count)
    ensures |LimbText(x, count, upper)| == count && AllHex(LimbText(x, count, upper))
    ensures Read(acc, LimbText(x, count, upper)) == acc * Power16(count) + x
    decreases count
  {
    if count > 0 {
      ReadLimbText(acc, x / 16, count - 1, upper);
      var c := DigitChar(x % 16, upper);
      ReadMore(acc, LimbText(x / 16, count - 1, upper), [c]);
      ReadOne(acc * Power16(count - 1) + x / 16, c);
      ShiftDigit(acc, Power16(count - 1), x);
    }
  }

  lemma EightDigits()
    ensures Power16(8) == LIMB
  {
    assert Power16(4) == 0x1_0000;
  }

  lemma {:induction false} WidthSuffices(x: nat)
    ensures x < Power16(Width(x))
  {
    if x > 0 {
      WidthSuffices(x / 16);
    }
  }

  lemma {:induction false} ReadLowerText(acc: nat, limbs: seq<nat>, upper: bool)
    requires forall i :: 0 <= i < |limbs| ==> limbs[i] < LIMB
    ensures AllHex(LowerText(limbs, upper)) && Read(acc, LowerText(limbs, upper)) == Number(acc, limbs)
    decreases |limbs|
  {
    if limbs != [] {
      var n := |limbs| - 1;
      EightDigits();
      ReadLimbText(acc, limbs[n], 8, upper);
      ReadLowerText(acc * LIMB + limbs[n], limbs[..n], upper);
      ReadMore(acc, LimbText(limbs[n], 8, upper), LowerText(limbs[..n], upper));
    }
  }

  /** The digits behind the sign. */
  function DigitsOf(text: string): string {
    if text != "" && text[0] == '-' then text[1..] else text
  }

  /** What `from_hex` accepts: a sign or not, and at least one digit. */
  predicate WellFormed(text: string) {
    DigitsOf(text) != "" && AllHex(DigitsOf(text))
  }

  lemma {:induction false} NoLeadingZero(x: nat, upper: bool)
    requires x > 0
    ensures LimbText(x, Width(x), upper) != "" && LimbText(x, Width(x), upper)[0] != '0'
  {
    if x >= 16 {
      NoLeadingZero(x / 16, upper);
    } else {
      assert Width(x / 16) == 0;
      assert LimbText(x, 1, upper) == "" + [DigitChar(x, upper)];
    }
  }

  lemma DigitsRead(limbs: seq<nat>, upper: bool)
    requires Normalized(limbs) && limbs[|limbs| - 1] > 0
    ensures Digits(limbs, upper) != "" && AllHex(Digits(limbs, upper))
    ensures Read(0, Digits(limbs, upper)) == Number(0, limbs)
  {
    var top, rest := limbs[|limbs| - 1], limbs[..|limbs| - 1];
    WidthSuffices(top);
    ReadLimbText(0, top, Width(top), upper);
    NoLeadingZero(top, upper);
    ReadLowerText(top, rest, upper);
    ReadMore(0, LimbText(top, Width(top), upper), LowerText(rest, upper));
  }

  lemma SignedText(negative: bool, digits: string)
    requires digits != "" && AllHex(digits)
    ensures WellFormed(Sign(negative) + digits) && DigitsOf(Sign(negative) + digits) == digits
    ensures (Sign(negative) + digits)[0] == '-' <==> negative
  {
    assert IsHex(digits[0]);
    assert ("-" + digits)[1..] == digits && "" + digits == digits;
  }

  /** The text of a number is well formed and has its sign and its number. */
  lemma HexTextReads(x: BigInt, upper: bool)
    requires x.Valid()
    ensures WellFormed(HexText(x, upper))
    ensures Read(0, DigitsOf(HexText(x, upper))) == Number(0, x.limbs[..x.len])
    ensures HexText(x, upper)[0] == '-' <==> x.negative && !x.IsZero()
  {
    var limbs := x.limbs[..x.len];
    if x.IsZero() {
      ReadOne(0, '0');
      assert limbs == [0];
      NormalizedNumber(limbs);
    } else {
      DigitsRead(limbs, upper);
      SignedText(x.negative, Digits(limbs, upper));
    }
  }

  /** Decimal digits, and letters of the chosen case only. */
  predicate InCase(s: string, upper: bool) {
    forall c :: c in s ==> '0' <= c <= '9' || if upper then 'A' <= c <= 'F' else 'a' <= c <= 'f'
  }

  lemma {:induction false} LimbTextInCase(x: nat, count: nat, upper: bool)
    ensures InCase(LimbText(x, count, upper), upper)
  {
    if count > 0 {
      LimbTextInCase(x / 16, count - 1, upper);
    }
  }

  lemma {:induction false} LowerTextInCase(limbs: seq<nat>, upper: bool)
    ensures InCase(LowerText(limbs, upper), upper)
    decreases |limbs|
  {
    if limbs != [] {
      LimbTextInCase(limbs[|limbs| - 1], 8, upper);
      LowerTextInCase(limbs[..|limbs| - 1], upper);
    }
  }

  /** Which of the texts with that number is printed: letters in one case, no leading zero, and `0` for a zero. */
  lemma HexTextShape(x: BigInt, upper: bool)
    requires x.Valid()
    ensures if x.IsZero() then HexText(x, upper) == "0"
            else InCase(DigitsOf(HexText(x, upper)), upper) && !("0" <= DigitsOf(HexText(x, upper)))
  {
    if !x.IsZero() {
      hide LimbText, LowerText, InCase;
      var limbs := x.limbs[..x.len];
      var top, rest := limbs[x.len - 1], limbs[..x.len - 1];
      DigitsRead(limbs, upper);
      SignedText(x.negative, Digits(limbs, upper));
      NoLeadingZero(top, upper);
      LimbTextInCase(top, Width(top), upper);
      LowerTextInCase(rest, upper);
      InCaseBoth(LimbText(top, Width(top), upper), LowerText(rest, upper), upper);
    }
  }

  lemma InCaseBoth(s: string, t: string, upper: bool)
    requires InCase(s, upper) && InCase(t, upper)
    ensures InCase(s + t, upper)
  {
  }

  // -------------------------------------------------------------------- printing methods

  /** The first `n` digits, last first. */
  function Reversed(digits: seq<char>, n: nat): string
    requires n <= |digits|
  {
    if n == 0 then "" else [digits[n - 1]] + Reversed(digits, n - 1)
  }

  lemma {:induction false} ReversedSame(a: seq<char>, b: seq<char>, n: nat)
    requires n <= |a| && n <= |b| && a[..n] == b[..n]
    ensures Reversed(a, n) == Reversed(b, n)
  {
    if n > 0 {
      assert a[n - 1] == a[..n][n - 1] && b[n - 1] == b[..n][n - 1];
      assert a[..n - 1] == a[..n][..n - 1] && b[..n - 1] == b[..n][..n - 1];
      ReversedSame(a, b, n - 1);
    }
  }

  /** Digits that were never filled in print as leading zeros. */
  lemma {:induction false} UnfilledAreZeros(digits: seq<char>, idx: nat, count: nat, upper: bool)
    requires idx <= count <= |digits| && forall k :: idx <= k < |digits| ==> digits[k] == '0'
    ensures LimbText(0, count - idx, upper) + Reversed(digits, idx) == Reversed(digits, count)
    decreases count
  {
    if count == idx {
      assert "" + Reversed(digits, idx) == Reversed(digits, idx);
    } else {
      UnfilledAreZeros(digits, idx, count - 1, upper);
      ZerosInFront(count - idx - 1, upper);
      ZeroInFront(LimbText(0, count - idx - 1, upper), Reversed(digits, idx));
    }
  }

  lemma ZeroInFront(a: string, b: string)
    ensures "0" + a + b == ['0'] + (a + b)
  {
  }

  lemma {:induction false} ZerosInFront(n: nat, upper: bool)
    ensures LimbText(0, n + 1, upper) == "0" + LimbText(0, n, upper)
  {
    if n > 0 {
      ZerosInFront(n - 1, upper);
      assert "0" + LimbText(0, n - 1, upper) + "0" == "0" + (LimbText(0, n - 1, upper) + "0");
    } else {
      assert "" + "0" == "0" + "";
    }
  }

  /** Split a limb into digits, lowest first, in an array of eight zeros. */
  method FillDigits(limb: nat, upper: bool, ghost count: nat) returns (digits: array<char>, idx: nat)
    requires Width(limb) <= count <= 8
    ensures fresh(digits) && digits.Length == 8 && idx == Width(limb)
    ensures Reversed(digits[..], count) == LimbText(limb, count, upper)
  {
    digits := new char[8](_ => '0');
    idx := 0;
    var x := limb;
    assert LimbText(limb, count, upper) + "" == LimbText(limb, count, upper);
    while x > 0
      invariant fresh(digits) && digits.Length == 8
      invariant idx + Width(x) == Width(limb)
      invariant forall k :: idx <= k < 8 ==> digits[..][k] == '0'
      invariant LimbText(x, count - idx, upper) + Reversed(digits[..], idx) == LimbText(limb, count, upper)
      decreases x
    {
      ghost var before := digits[..];
      digits[idx] := DigitChar(x % 16, upper);
      ReversedSame(before, digits[..], idx);
      TextStep(LimbText(x / 16, count - idx - 1, upper), DigitChar(x % 16, upper), Reversed(digits[..], idx));
      x := x / 16;
      idx := idx + 1;
    }
    UnfilledAreZeros(digits[..], idx, count, upper);
  }

  lemma TextStep(a: string, c: char, b: string)
    ensures a + [c] + b == a + ([c] + b)
  {
  }

  method WriteReversed(digits: array<char>, idx: nat, buf: string) returns (result: string)
    requires idx <= digits.Length
    ensures result == buf + Reversed(digits[..], idx)
  {
    result := buf;
    for j := 0 to idx
      invariant result + Reversed(digits[..], idx - j) == buf + Reversed(digits[..], idx)
    {
      TextStep(result, digits[..][idx - 1 - j], Reversed(digits[..], idx - j - 1));
      result := result + [digits[idx - 1 - j]];
    }
  }

  lemma {:induction false} WidthBound(x: nat, n: nat)
    requires x < Power16(n)
    ensures Width(x) <= n
  {
    if n > 0 && x > 0 {
      WidthBound(x / 16, n - 1);
    }
  }

  /** The body of the loop over limbs: all eight digits unless the limb is the highest. */
  method PrintLimb(limb: nat, top: bool, upper: bool, buf: string) returns (text: string)
    requires limb < LIMB
    ensures text == buf + LimbText(limb, if top then Width(limb) else 8, upper)
  {
    EightDigits();
    WidthBound(limb, 8);
    var digits, idx := FillDigits(limb, upper, if top then Width(limb) else 8);
    idx := if top then idx else 8;
    text := WriteReversed(digits, idx, buf);
  }

  /** What is still to be printed below limb `i`. */
  function Unprinted(limbs: seq<nat>, i: nat, upper: bool): string
    requires limbs != [] && i <= |limbs|
  {
    if i == |limbs| then Digits(limbs, upper) else LowerText(limbs[..i], upper)
  }

  lemma UnprintedStep(limbs: seq<nat>, i: nat, upper: bool, buf: string)
    requires i < |limbs|
    ensures var count := if i == |limbs| - 1 then Width(limbs[i]) else 8;
      buf + Unprinted(limbs, i + 1, upper) == buf + LimbText(limbs[i], count, upper) + Unprinted(limbs, i, upper)
  {
    hide LimbText, Width;
    assert limbs[..i + 1][..i] == limbs[..i];
    var count := if i == |limbs| - 1 then Width(limbs[i]) else 8;
    var a, b := LimbText(limbs[i], count, upper), Unprinted(limbs, i, upper);
    assert buf + (a + b) == buf + a + b;
  }

  method ToHex(x: BigInt, upper: bool) returns (text: string)
    requires x.Valid()
    ensures text == HexText(x, upper)
  {
    if x.len == 1 && x.limbs[0] == 0 {
      return "0";
    }
    text := if x.negative then "-" else "";
    ghost var used := x.limbs[..x.len];
    for i := x.len downto 0
      invariant text + Unprinted(used, i, upper) == HexText(x, upper)
    {
      UnprintedStep(used, i, upper, text);
      text := PrintLimb(x.limbs[i], i == x.len - 1, upper, text);
    }
    assert text + "" == text;
  }

  // ------------------------------------------------------------------------- reading

  /** Eight digits to a limb from the low end; the highest limb may have fewer. */
  function Limbs(digits: string): seq<nat>
    decreases |digits|
  {
    var n := |digits|;
    if n == 0 then []
    else if n <= 8 then [Read(0, digits)]
    else [Read(0, digits[n - 8..])] + Limbs(digits[..n - 8])
  }

  /** The length without leading zero limbs, but at least one. */
  function UsedLength(limbs: seq<nat>, len: nat): nat
    requires len <= |limbs|
  {
    if len > 1 && limbs[len - 1] == 0 then UsedLength(limbs, len - 1) else len
  }

  function Parsed(text: string): BigInt
    requires DigitsOf(text) != ""
  {
    var limbs := Limbs(DigitsOf(text));
    var len := UsedLength(limbs, |limbs|);
    BigInt(limbs, text[0] == '-' && !(len == 1 && limbs[0] == 0), len)
  }

  lemma {:induction false} ReadBound(acc: nat, s: string, n: nat)
    requires AllHex(s) && |s| <= n
    ensures Read(acc, s) < (acc + 1) * Power16(n)
    decreases |s|
  {
    if s == "" {
      AtLeastOnce(acc + 1, Power16(n));
    } else {
      var a := acc * 16 + DigitValue(s[0]);
      ReadBound(a, s[1..], n - 1);
      ScaleBound(a, acc, Power16(n - 1));
    }
  }

  lemma AtLeastOnce(a: nat, p: nat)
    requires p >= 1
    ensures a <= a * p
  {
  }

  lemma ScaleBound(a: nat, acc: nat, p: nat)
    requires a + 1 <= (acc + 1) * 16
    ensures (a + 1) * p <= (acc + 1) * (16 * p)
  {
    assert (acc + 1) * 16 * p == (acc + 1) * (16 * p);
    assert (a + 1) * p <= (acc + 1) * 16 * p;
  }

  lemma {:induction false} ReadBehind(acc: nat, s: string)
    requires AllHex(s)
    ensures Read(acc, s) == acc * Power16(|s|) + Read(0, s)
    decreases |s|
  {
    if s != "" {
      var d := DigitValue(s[0]);
      ReadBehind(acc * 16 + d, s[1..]);
      ReadBehind(d, s[1..]);
      Regroup(acc, d, Power16(|s| - 1));
    }
  }

  lemma Regroup(acc: nat, d: nat, p: nat)
    ensures (acc * 16 + d) * p == acc * (16 * p) + d * p
  {
    Distribute(acc * 16, d, p);
    Associate(acc, p);
  }

  lemma Distribute(a: nat, d: nat, p: nat)
    ensures (a + d) * p == a * p + d * p
  {
  }

  lemma Associate(acc: nat, p: nat)
    ensures acc * 16 * p == acc * (16 * p)
  {
  }

  /** The limbs have the number of the digits, and each fits. */
  lemma {:induction false} LimbsNumber(digits: string)
    requires AllHex(digits)
    ensures Number(0, Limbs(digits)) == Read(0, digits)
    ensures forall k :: 0 <= k < |Limbs(digits)| ==> Limbs(digits)[k] < LIMB
    decreases |digits|
  {
    var n := |digits|;
    EightDigits();
    if n == 0 {
    } else if n <= 8 {
      ReadBound(0, digits, 8);
      assert [Read(0, digits)][..0] == [];
    } else {
      var high, low := digits[..n - 8], digits[n - 8..];
      LimbsNumber(high);
      ReadBound(0, low, 8);
      NumberLow(0, Read(0, low), Limbs(high));
      assert digits == high + low;
      ReadMore(0, high, low);
      ReadBehind(Read(0, high), low);
    }
  }

  lemma {:induction false} UsedIsNormalized(limbs: seq<nat>, len: nat)
    requires 0 < len <= |limbs| && forall k :: 0 <= k < |limbs| ==> limbs[k] < LIMB
    ensures 0 < UsedLength(limbs, len) <= len && Normalized(limbs[..UsedLength(limbs, len)])
    ensures forall i :: UsedLength(limbs, len) <= i < len ==> limbs[i] == 0
    ensures Number(0, limbs[..UsedLength(limbs, len)]) == Number(0, limbs[..len])
  {
    if len > 1 && limbs[len - 1] == 0 {
      UsedIsNormalized(limbs, len - 1);
      assert limbs[..len][..len - 1] == limbs[..len - 1];
    }
  }

  /** Any digits, with leading zeros or in either case, are read as their number, and the limb invariant holds. */
  lemma ParsedNumber(text: string)
    requires WellFormed(text)
    ensures Parsed(text).Valid()
    ensures Number(0, Parsed(text).limbs[..Parsed(text).len]) == Read(0, DigitsOf(text))
    ensures Parsed(text).negative <==> text[0] == '-' && Read(0, DigitsOf(text)) != 0
  {
    var limbs := Limbs(DigitsOf(text));
    LimbsNumber(DigitsOf(text));
    UsedIsNormalized(limbs, |limbs|);
    assert limbs[..|limbs|] == limbs;
    NormalizedNumber(limbs[..UsedLength(limbs, |limbs|)]);
  }

  /** Reading what was printed gives the same limbs, length and sign, except that zero comes back positive. */
  lemma HexRoundTrip(x: BigInt, upper: bool)
    requires x.Valid()
    ensures var y := Parsed(HexText(x, upper));
      && WellFormed(HexText(x, upper)) && y.Valid()
      && y.len == x.len && y.limbs[..y.len] == x.limbs[..x.len]
      && (y.negative <==> x.negative && !x.IsZero())
  {
    var text := HexText(x, upper);
    HexTextReads(x, upper);
    ParsedNumber(text);
    NormalizedNumber(x.limbs[..x.len]);
    NormalizedIsUnique(Parsed(text).limbs[..Parsed(text).len], x.limbs[..x.len]);
  }

  // -------------------------------------------------------------------- reading methods

  datatype Result = Abort | Success(value: BigInt)

  lemma ReadLast(s: string, c: char)
    ensures Read(0, s + [c]) == Read(0, s) * 16 + DigitValue(c)
  {
    ReadAppend(0, s, c);
  }

  lemma {:induction false} ReadAppend(acc: nat, s: string, c: char)
    ensures Read(acc, s + [c]) == Read(acc, s) * 16 + DigitValue(c)
    decreases |s|
  {
    if s == "" {
      assert "" + [c] == [c] && [c][1..] == "";
    } else {
      assert (s + [c])[1..] == s[1..] + [c];
      ReadAppend(acc * 16 + DigitValue(s[0]), s[1..], c);
    }
  }

  /** `count` digits from `start`; a limb of at most eight digits does not overflow. */
  method ReadChunk(text: string, start: nat, count: nat) returns (ok: bool, limb: nat)
    requires start + count <= |text| && count <= 8
    ensures ok == AllHex(text[start..start + count])
    ensures ok ==> limb == Read(0, text[start..start + count])
  {
    limb := 0;
    for i := 0 to count
      invariant AllHex(text[start..start + i]) && limb == Read(0, text[start..start + i])
    {
      var c := text[start + i];
      if !IsHex(c) {
        assert text[start..start + count][i] == c;
        return false, 0;
      }
      ReadBound(0, text[start..start + i], 7);
      assert Power16(7) == 0x1000_0000;
      assert text[start..start + i + 1] == text[start..start + i] + [c];
      ReadLast(text[start..start + i], c);
      limb := limb * 16 % LIMB + DigitValue(c);
    }
    ok := true;
  }

  /** Where the limbs come from. */
  lemma {:induction false} LimbsAt(digits: string, k: nat)
    ensures |Limbs(digits)| == (|digits| + 7) / 8
    ensures 8 * (k + 1) <= |digits| ==>
      Limbs(digits)[k] == Read(0, digits[|digits| - 8 * (k + 1)..|digits| - 8 * k])
    ensures |digits| % 8 != 0 ==> Limbs(digits)[|digits| / 8] == Read(0, digits[..|digits| % 8])
    decreases |digits|
  {
    hide Read;
    var n := |digits|;
    if n > 8 {
      var high := digits[..n - 8];
      LimbsAt(high, if k > 0 then k - 1 else 0);
      assert n % 8 != 0 ==> digits[..n % 8] == high[..n % 8];
      assert k > 0 && 8 * (k + 1) <= n ==> digits[n - 8 * (k + 1)..n - 8 * k] == high[n - 8 * (k + 1)..n - 8 * k];
      assert digits[n - 8..n] == digits[n - 8..];
    } else if n > 0 {
      assert digits[..n] == digits && digits[0..n] == digits;
    }
  }

  /** The digits from `i` on are chunks of eight; what is in front of them is the highest limb's. */
  lemma ChunksCover(digits: string, mod: nat, quotient: nat)
    requires |digits| == mod + 8 * quotient
    requires AllHex(digits[..mod])
    requires forall k :: 0 <= k < quotient ==> AllHex(Chunk(digits, k))
    ensures AllHex(digits)
  {
    forall i | 0 <= i < |digits| ensures IsHex(digits[i]) {
      if i < mod {
        assert digits[..mod][i] == digits[i];
      } else {
        var k := (|digits| - 1 - i) / 8;
        assert Chunk(digits, k)[i - (|digits| - 8 * (k + 1))] == digits[i];
      }
    }
  }

  /** The `k`-th eight digits from the low end. */
  function Chunk(digits: string, k: nat): string {
    if 8 * (k + 1) <= |digits| then digits[|digits| - 8 * (k + 1)..|digits| - 8 * k] else ""
  }

  lemma NotAllHex(digits: string, start: nat, end: nat)
    requires start <= end <= |digits| && !AllHex(digits[start..end])
    ensures !AllHex(digits)
  {
    var i :| 0 <= i < end - start && !IsHex(digits[start..end][i]);
    assert digits[start + i] == digits[start..end][i];
  }

  /** Fill the limbs; nothing when some character is no digit. */
  method ReadLimbs(text: string, offset: nat) returns (ok: bool, limbs: seq<nat>)
    requires offset <= |text|
    ensures ok == AllHex(text[offset..])
    ensures ok ==> limbs == Limbs(text[offset..])
  {
    hide Read, Limbs;
    var len, numberLen := |text|, |text| - offset;
    ghost var digits := text[offset..];
    var quotient, mod := numberLen / 8, numberLen % 8;
    var bLen := if mod == 0 then quotient else quotient + 1;
    var b := new nat[bLen](_ => 0);
    limbs := [];
    if mod != 0 {
      var start := len - quotient * 8 - mod;
      assert text[start..start + mod] == digits[..mod];
      var limb;
      ok, limb := ReadChunk(text, start, mod);
      if !ok {
        NotAllHex(digits, 0, mod);
        return;
      }
      b[bLen - 1] := limb;
    }
    for i := 0 to quotient
      invariant AllHex(digits[..mod])
      invariant mod != 0 ==> b[bLen - 1] == Read(0, digits[..mod])
      invariant forall k :: 0 <= k < i ==> AllHex(Chunk(digits, k)) && b[k] == Read(0, Chunk(digits, k))
    {
      var start := len - (i + 1) * 8;
      assert text[start..start + 8] == Chunk(digits, i);
      var limb;
      ok, limb := ReadChunk(text, start, 8);
      if !ok {
        NotAllHex(digits, start - offset, start - offset + 8);
        return;
      }
      b[i] := limb;
    }
    ChunksCover(digits, mod, quotient);
    LimbsAt(digits, 0);
    forall k | 0 <= k < bLen ensures b[k] == Limbs(digits)[k] {
      LimbsAt(digits, k);
    }
    return true, b[..];
  }

  /** Aborts on the empty text, on a lone sign, and on any other character. */
  method FromHex(text: string) returns (r: Result)
    ensures r.Success? <==> WellFormed(text)
    ensures r.Success? ==> r.value == Parsed(text)
  {
    if |text| == 0 {
      return Abort;
    }
    var negative := text[0] == '-';
    var offset := if negative then 1 else 0;
    assert text[offset..] == DigitsOf(text);
    var ok, limbs := ReadLimbs(text, offset);
    if !ok || |limbs| == 0 {
      LimbsAt(DigitsOf(text), 0);
      return Abort;
    }
    var len := |limbs|;
    while len > 1 && limbs[len - 1] == 0
      invariant 0 < len <= |limbs|
      invariant UsedLength(limbs, len) == UsedLength(limbs, |limbs|)
    {
      len := len - 1;
    }
    negative := if len == 1 && limbs[0] == 0 then false else negative;
    return Success(BigInt(limbs, negative, len));
  }
}
