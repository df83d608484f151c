/** UTF-8 to UTF-16: strict and lossy decoding.  Masks and shifts of the source are
    written as division and remainder by the powers of two they stand for. */
module Decode {
  import opened Unicode

  datatype Step = Malformed | Decoded(consumed: nat, codepoint: Scalar)

  predicate Continuation(b: int) {
    b / 64 == 2
  }

  function Join2(a: int, b: int): int {
    a % 32 * 64 + b % 64
  }

  function Join3(a: int, b: int, c: int): int {
    a % 16 * 4096 + b % 64 * 64 + c % 64
  }

  function Join4(a: int, b: int, c: int, d: int): int {
    a % 8 * 262144 + b % 64 * 4096 + c % 64 * 64 + d % 64
  }

  /** `moonbit__utf8_decode_scalar_one` on the bytes still to be read. */
  function DecodeOne(s: seq<Byte>): Step {
    if |s| == 0 then Malformed
    else if s[0] < 0x80 then Decoded(1, s[0])
    else if s[0] < 0xC2 then Malformed
    else if s[0] < 0xE0 then
      if |s| < 2 || !Continuation(s[1]) then Malformed
      else Decoded(2, Join2(s[0], s[1]))
    else if s[0] < 0xF0 then
      if |s| < 3 || !Continuation(s[1]) || !Continuation(s[2]) then Malformed
      else if s[0] == 0xE0 && s[1] < 0xA0 then Malformed
      else if s[0] == 0xED && s[1] >= 0xA0 then Malformed
      else Decoded(3, Join3(s[0], s[1], s[2]))
    else if s[0] < 0xF5 then
      if |s| < 4 || !Continuation(s[1]) || !Continuation(s[2]) || !Continuation(s[3]) then Malformed
      else if s[0] == 0xF0 && s[1] < 0x90 then Malformed
      else if s[0] == 0xF4 && s[1] >= 0x90 then Malformed
      else Decoded(4, Join4(s[0], s[1], s[2], s[3]))
    else Malformed
  }

  // ----- base-64 digits -----

  lemma Digits2(a: int, b: int)
    requires 0xC0 <= a < 0xE0 && Continuation(b)
    ensures Join2(a, b) / 64 == a - 0xC0 && Join2(a, b) % 64 == b - 0x80
  {
  }

  lemma Digits3(a: int, b: int, c: int)
    requires 0xE0 <= a < 0xF0 && Continuation(b) && Continuation(c)
    ensures var v := Join3(a, b, c);
            v / 4096 == a - 0xE0 && v / 64 % 64 == b - 0x80 && v % 64 == c - 0x80
  {
    var v := (a - 0xE0) * 64 + (b - 0x80);
    assert Join3(a, b, c) == v * 64 + (c - 0x80);
    assert Join3(a, b, c) / 64 == v;
  }

  lemma Digits4(a: int, b: int, c: int, d: int)
    requires 0xF0 <= a < 0xF8 && Continuation(b) && Continuation(c) && Continuation(d)
    ensures var v := Join4(a, b, c, d);
            v / 262144 == a - 0xF0 && v / 4096 % 64 == b - 0x80 && v / 64 % 64 == c - 0x80 && v % 64 == d - 0x80
  {
    var w := (a - 0xF0) * 64 + (b - 0x80);
    var v := w * 64 + (c - 0x80);
    assert Join4(a, b, c, d) == v * 64 + (d - 0x80);
    assert Join4(a, b, c, d) / 64 == v;
    assert Join4(a, b, c, d) / 4096 == w;
  }

  lemma Joined2(c: int)
    requires 0 <= c < 0x800
    ensures Join2(0xC0 + c / 64, 0x80 + c % 64) == c
  {
  }

  lemma Joined3(c: int)
    requires 0 <= c < 0x1_0000
    ensures Join3(0xE0 + c / 4096, 0x80 + c / 64 % 64, 0x80 + c % 64) == c
  {
    assert c / 64 / 64 == c / 4096;
  }

  lemma Joined4(c: int)
    requires 0 <= c < 0x20_0000
    ensures Join4(0xF0 + c / 262144, 0x80 + c / 4096 % 64, 0x80 + c / 64 % 64, 0x80 + c % 64) == c
  {
    assert c / 64 / 64 == c / 4096;
    assert c / 4096 / 64 == c / 262144;
  }

  /** What is decoded is what the consumed bytes encode. */
  lemma DecodeOneSound(s: seq<Byte>)
    requires DecodeOne(s).Decoded?
    ensures DecodeOne(s).consumed <= |s| && s[..DecodeOne(s).consumed] == Utf8(DecodeOne(s).codepoint)
  {
    if s[0] < 0x80 {
    } else if s[0] < 0xE0 {
      Digits2(s[0], s[1]);
    } else if s[0] < 0xF0 {
      Digits3(s[0], s[1], s[2]);
    } else {
      Digits4(s[0], s[1], s[2], s[3]);
    }
  }

  lemma Bytes3(c: Scalar)
    requires 0x800 <= c < 0x1_0000
    ensures var a, b, d := 0xE0 + c / 4096, 0x80 + c / 64 % 64, 0x80 + c % 64;
            0xE0 <= a < 0xF0 && Continuation(b) && Continuation(d) && Join3(a, b, d) == c &&
            (a == 0xE0 ==> b >= 0xA0) && (a == 0xED ==> b < 0xA0)
  {
    Joined3(c);
  }

  lemma Bytes4(c: Scalar)
    requires 0x1_0000 <= c
    ensures var a, b, d, e := 0xF0 + c / 262144, 0x80 + c / 4096 % 64, 0x80 + c / 64 % 64, 0x80 + c % 64;
            0xF0 <= a < 0xF5 && Continuation(b) && Continuation(d) && Continuation(e) && Join4(a, b, d, e) == c &&
            (a == 0xF0 ==> b >= 0x90) && (a == 0xF4 ==> b < 0x90)
  {
    Joined4(c);
  }

  lemma Recognize3(s: seq<Byte>, a: Byte, b: Byte, d: Byte)
    requires [a, b, d] <= s && 0xE0 <= a < 0xF0 && Continuation(b) && Continuation(d)
    requires (a == 0xE0 ==> b >= 0xA0) && (a == 0xED ==> b < 0xA0)
    ensures DecodeOne(s).Decoded? && DecodeOne(s).consumed == 3 && DecodeOne(s).codepoint == Join3(a, b, d)
  {
    assert s[0] == a && s[1] == b && s[2] == d;
  }

  lemma Recognize4(s: seq<Byte>, a: Byte, b: Byte, d: Byte, e: Byte)
    requires [a, b, d, e] <= s && 0xF0 <= a < 0xF5 && Continuation(b) && Continuation(d) && Continuation(e)
    requires (a == 0xF0 ==> b >= 0x90) && (a == 0xF4 ==> b < 0x90)
    ensures DecodeOne(s).Decoded? && DecodeOne(s).consumed == 4 && DecodeOne(s).codepoint == Join4(a, b, d, e)
  {
    assert s[0] == a && s[1] == b && s[2] == d && s[3] == e;
  }

  /** Every encoding is recognized, whatever follows it. */
  lemma DecodeOneComplete(c: Scalar, s: seq<Byte>)
    requires Utf8(c) <= s
    ensures DecodeOne(s) == Decoded(|Utf8(c)|, c)
  {
    if c < 0x800 {
      Joined2(c);
    } else if c < 0x1_0000 {
      Bytes3(c);
      Recognize3(s, 0xE0 + c / 4096, 0x80 + c / 64 % 64, 0x80 + c % 64);
    } else {
      Bytes4(c);
      Recognize4(s, 0xF0 + c / 262144, 0x80 + c / 4096 % 64, 0x80 + c / 64 % 64, 0x80 + c % 64);
    }
  }

  /** Where nothing decodes, no encoding starts. */
  lemma MalformedMeansNoEncoding(s: seq<Byte>, c: Scalar)
    requires DecodeOne(s) == Malformed
    ensures !(Utf8(c) <= s)
  {
    if Utf8(c) <= s {
      DecodeOneComplete(c, s);
    }
  }

  // ----- how far the lossy decoder skips -----

  /** First two bytes of a three-byte encoding. */
  predicate Lead3(b0: int, b1: int) {
    (b0 == 0xE0 && 0xA0 <= b1 <= 0xBF) || (0xE1 <= b0 <= 0xEC && Continuation(b1)) ||
    (b0 == 0xED && 0x80 <= b1 <= 0x9F) || (0xEE <= b0 <= 0xEF && Continuation(b1))
  }

  /** First two bytes of a four-byte encoding. */
  predicate Lead4(b0: int, b1: int) {
    (b0 == 0xF0 && 0x90 <= b1 <= 0xBF) || (0xF1 <= b0 <= 0xF3 && Continuation(b1)) ||
    (b0 == 0xF4 && 0x80 <= b1 <= 0x8F)
  }

  function Advance(s: seq<Byte>): nat {
    if |s| < 2 then 1
    else if Lead3(s[0], s[1]) then 2
    else if Lead4(s[0], s[1]) then if |s| >= 3 && Continuation(s[2]) then 3 else 2
    else 1
  }

  lemma InitialWitness(t: seq<Byte>, full: seq<Byte>)
    requires t <= full && DecodeOne(full).Decoded? && DecodeOne(full).consumed == |full|
    ensures InitialUtf8(t)
  {
    DecodeOneSound(full);
    assert full[..|full|] == full;
    assert t <= Utf8(DecodeOne(full).codepoint);
  }

  /** The skipped bytes do start an encoding, completed by trailing 0x80 bytes. */
  lemma AdvanceInitial(s: seq<Byte>)
    requires Advance(s) > 1
    ensures Advance(s) <= |s| && InitialUtf8(s[..Advance(s)])
  {
    if Lead3(s[0], s[1]) {
      InitialWitness(s[..2], [s[0], s[1], 0x80]);
    } else if Advance(s) == 3 {
      InitialWitness(s[..3], [s[0], s[1], s[2], 0x80]);
    } else {
      InitialWitness(s[..2], [s[0], s[1], 0x80, 0x80]);
    }
  }

  lemma ProperInitial(t: seq<Byte>, c: Scalar)
    requires t <= Utf8(c) && 2 <= |t| < |Utf8(c)|
    ensures |t| == 2 ==> Lead3(t[0], t[1]) || Lead4(t[0], t[1])
    ensures |t| == 3 ==> Lead4(t[0], t[1]) && Continuation(t[2])
  {
    DecodeOneComplete(c, Utf8(c));
  }

  /** The lossy decoder skips exactly the maximal subpart. */
  lemma AdvanceIsMaximalSubpart(s: seq<Byte>)
    requires s != [] && DecodeOne(s) == Malformed
    ensures MaximalSubpart(s, Advance(s))
  {
    if Advance(s) > 1 {
      AdvanceInitial(s);
    }
    forall j | Advance(s) < j <= |s|
      ensures !InitialUtf8(s[..j])
    {
      forall c: Scalar
        ensures !(s[..j] <= Utf8(c))
      {
        MalformedMeansNoEncoding(s, c);
        if s[..j] <= Utf8(c) && j < |Utf8(c)| {
          ProperInitial(s[..j], c);
        }
      }
    }
  }

  // ----- whole inputs -----

  /** The scalar values decoded before the first malformed offset, or all of them. */
  function Strict(s: seq<Byte>): seq<Scalar>
    decreases |s|
  {
    match DecodeOne(s)
    case Malformed => []
    case Decoded(n, c) => [c] + Strict(s[n..])
  }

  lemma StrictUnfolds(s: seq<Byte>, n: nat, c: Scalar)
    requires DecodeOne(s) == Decoded(n, c)
    ensures n <= |s| && s[..n] == Utf8(c) && Strict(s) == [c] + Strict(s[n..])
    ensures Utf8All(Strict(s)) == Utf8(c) + Utf8All(Strict(s[n..]))
  {
    DecodeOneSound(s);
    assert Strict(s)[1..] == Strict(s[n..]);
  }

  lemma {:induction false} StrictSplits(s: seq<Byte>)
    ensures Utf8All(Strict(s)) <= s
    ensures DecodeOne(s[|Utf8All(Strict(s))|..]) == Malformed
    decreases |s|
  {
    match DecodeOne(s)
    case Malformed =>
      assert s[0..] == s;
    case Decoded(n, c) =>
      StrictUnfolds(s, n, c);
      var rest := s[n..];
      StrictSplits(rest);
      assert s == Utf8(c) + rest;
      var k := |Utf8All(Strict(rest))|;
      assert s[n + k..] == rest[k..];
  }

  /** Encoding then decoding gives the values back: encodings are uniquely decodable. */
  lemma {:induction false} StrictInverts(cs: seq<Scalar>)
    ensures Strict(Utf8All(cs)) == cs
  {
    if cs != [] {
      DecodeOneComplete(cs[0], Utf8All(cs));
      assert Utf8All(cs)[|Utf8(cs[0])|..] == Utf8All(cs[1..]);
      StrictInverts(cs[1..]);
    }
  }

  /** The strict decoder accepts exactly the well-formed texts. */
  lemma WellFormedIff(s: seq<Byte>)
    ensures WellFormedUtf8(s) <==> Utf8All(Strict(s)) == s
  {
    if WellFormedUtf8(s) {
      var cs :| Utf8All(cs) == s;
      StrictInverts(cs);
    }
  }

  /** Decoded text with U+FFFD for each maximal subpart that does not decode. */
  function Lossy(s: seq<Byte>): seq<Scalar>
    decreases |s|
  {
    if s == [] then []
    else
      match DecodeOne(s)
      case Malformed => [REPLACEMENT] + Lossy(s[Advance(s)..])
      case Decoded(n, c) => [c] + Lossy(s[n..])
  }

  /** Section 3.9 of the Unicode Standard, without reference to any decoder. */
  ghost predicate ReplacesMaximalSubparts(s: seq<Byte>, cs: seq<Scalar>)
    decreases |s|
  {
    if s == [] then cs == []
    else if exists c: Scalar :: Utf8(c) <= s then
      cs != [] && Utf8(cs[0]) <= s && ReplacesMaximalSubparts(s[|Utf8(cs[0])|..], cs[1..])
    else
      cs != [] && cs[0] == REPLACEMENT &&
      exists k :: MaximalSubpart(s, k) && ReplacesMaximalSubparts(s[k..], cs[1..])
  }

  lemma {:induction false} LossyReplaces(s: seq<Byte>)
    ensures ReplacesMaximalSubparts(s, Lossy(s))
    decreases |s|
  {
    if s != [] {
      match DecodeOne(s)
      case Malformed =>
        forall c: Scalar
          ensures !(Utf8(c) <= s)
        {
          MalformedMeansNoEncoding(s, c);
        }
        AdvanceIsMaximalSubpart(s);
        LossyReplaces(s[Advance(s)..]);
        assert Lossy(s)[1..] == Lossy(s[Advance(s)..]);
      case Decoded(n, c) =>
        DecodeOneSound(s);
        assert Utf8(c) <= s;
        LossyReplaces(s[n..]);
        assert Lossy(s)[1..] == Lossy(s[n..]);
    }
  }

  lemma NoEncodingMeansMalformed(s: seq<Byte>)
    requires forall c: Scalar :: !(Utf8(c) <= s)
    ensures DecodeOne(s) == Malformed
  {
    if DecodeOne(s).Decoded? {
      assert !(Utf8(DecodeOne(s).codepoint) <= s);
      DecodeOneSound(s);
    }
  }

  lemma MaximalSubpartUnique(s: seq<Byte>, j: int, k: int)
    requires MaximalSubpart(s, j) && MaximalSubpart(s, k)
    ensures j == k
  {
  }

  /** The replacement is unique, so the lossy decoder computes the standard's. */
  lemma {:induction false} LossyUnique(s: seq<Byte>, cs: seq<Scalar>)
    requires ReplacesMaximalSubparts(s, cs)
    ensures cs == Lossy(s)
    decreases |s|
  {
    if s != [] {
      if c: Scalar :| Utf8(c) <= s {
        DecodeOneComplete(cs[0], s);
        LossyUnique(s[|Utf8(cs[0])|..], cs[1..]);
      } else {
        NoEncodingMeansMalformed(s);
        AdvanceIsMaximalSubpart(s);
        var k :| MaximalSubpart(s, k) && ReplacesMaximalSubparts(s[k..], cs[1..]);
        MaximalSubpartUnique(s, k, Advance(s));
        LossyUnique(s[k..], cs[1..]);
      }
    }
  }

  /** On well-formed text the lossy decoder agrees with the strict one. */
  lemma {:induction false} LossyIsStrict(s: seq<Byte>)
    requires Utf8All(Strict(s)) == s
    ensures Lossy(s) == Strict(s)
    decreases |s|
  {
    if s != [] {
      var n, c := DecodeOne(s).consumed, DecodeOne(s).codepoint;
      DecodeOneSound(s);
      assert Strict(s)[1..] == Strict(s[n..]);
      LossyIsStrict(s[n..]);
    }
  }

  /** Never more UTF-16 units than input bytes. */
  lemma {:induction false} LossyFits(s: seq<Byte>)
    ensures |Utf16All(Lossy(s))| <= |s|
    decreases |s|
  {
    if s != [] {
      match DecodeOne(s)
      case Malformed =>
        LossyFits(s[Advance(s)..]);
        assert Lossy(s)[1..] == Lossy(s[Advance(s)..]);
      case Decoded(n, c) =>
        DecodeOneSound(s);
        LossyFits(s[n..]);
        assert Lossy(s)[1..] == Lossy(s[n..]);
    }
  }
}
