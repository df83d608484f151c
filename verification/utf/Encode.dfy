/** UTF-16 to UTF-8: reading surrogate pairs, as the encoder does. */
module Encode {
  import opened Unicode

  datatype Step = Malformed | Read(consumed: nat, codepoint: Scalar)

  function Pair(w1: int, w2: int): int {
    0x1_0000 + (w1 - 0xD800) * 1024 + (w2 - 0xDC00)
  }

  /** The head of the encoder's loop on the units still to be read. */
  function ReadOne(s: seq<Unit>): Step {
    if |s| == 0 then Malformed
    else if s[0] < 0xD800 || s[0] > 0xDFFF then Read(1, s[0])
    else if s[0] > 0xDBFF || |s| < 2 || s[1] < 0xDC00 || s[1] > 0xDFFF then Malformed
    else Read(2, Pair(s[0], s[1]))
  }

  lemma ReadOneSound(s: seq<Unit>)
    requires ReadOne(s).Read?
    ensures ReadOne(s).consumed <= |s| && s[..ReadOne(s).consumed] == Utf16(ReadOne(s).codepoint)
  {
  }

  lemma MalformedMeansNoEncoding(s: seq<Unit>, c: Scalar)
    requires ReadOne(s) == Malformed
    ensures !(Utf16(c) <= s)
  {
    if Utf16(c) <= s {
    }
  }

  /** The scalar values read before the first unpaired surrogate, or all of them. */
  function Strict(s: seq<Unit>): seq<Scalar>
    decreases |s|
  {
    match ReadOne(s)
    case Malformed => []
    case Read(n, c) => [c] + Strict(s[n..])
  }

  lemma StrictUnfolds(s: seq<Unit>, n: nat, c: Scalar)
    requires ReadOne(s) == Read(n, c)
    ensures n <= |s| && s[..n] == Utf16(c) && Strict(s) == [c] + Strict(s[n..])
    ensures Utf16All(Strict(s)) == Utf16(c) + Utf16All(Strict(s[n..]))
  {
    ReadOneSound(s);
    assert Strict(s)[1..] == Strict(s[n..]);
  }

  lemma {:induction false} StrictSplits(s: seq<Unit>)
    ensures Utf16All(Strict(s)) <= s
    ensures ReadOne(s[|Utf16All(Strict(s))|..]) == Malformed
    decreases |s|
  {
    match ReadOne(s)
    case Malformed =>
      assert s[0..] == s;
    case Read(n, c) =>
      StrictUnfolds(s, n, c);
      var rest := s[n..];
      StrictSplits(rest);
      assert s == Utf16(c) + rest;
      var k := |Utf16All(Strict(rest))|;
      assert s[n + k..] == rest[k..];
  }

  /** UTF-16 is uniquely decodable as well. */
  lemma {:induction false} StrictInverts(cs: seq<Scalar>)
    ensures Strict(Utf16All(cs)) == cs
  {
    if cs != [] {
      assert Utf16All(cs)[|Utf16(cs[0])|..] == Utf16All(cs[1..]);
      StrictInverts(cs[1..]);
    }
  }

  lemma WellFormedIff(s: seq<Unit>)
    ensures WellFormedUtf16(s) <==> Utf16All(Strict(s)) == s
  {
    if WellFormedUtf16(s) {
      var cs :| Utf16All(cs) == s;
      StrictInverts(cs);
    }
  }
}
