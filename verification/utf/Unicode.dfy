/** The encodings the runtime converts between, as the standards define them. */
module Unicode {

  type Byte = x: int | 0 <= x < 0x100
  type Unit = x: int | 0 <= x < 0x1_0000

  /** Unicode scalar values: code points that are not surrogates. */
  type Scalar = c: int | 0 <= c < 0xD800 || 0xE000 <= c < 0x11_0000

  const REPLACEMENT: Scalar := 0xFFFD

  /** Section 3 of RFC 3629. */
  function Utf8(c: Scalar): (s: seq<Byte>)
    ensures 1 <= |s| <= 4
  {
    if c < 0x80 then [c]
    else if c < 0x800 then [0xC0 + c / 64, 0x80 + c % 64]
    else if c < 0x1_0000 then [0xE0 + c / 4096, 0x80 + c / 64 % 64, 0x80 + c % 64]
    else [0xF0 + c / 262144, 0x80 + c / 4096 % 64, 0x80 + c / 64 % 64, 0x80 + c % 64]
  }

  /** Section 2.1 of RFC 2781. */
  function Utf16(c: Scalar): (s: seq<Unit>)
    ensures 1 <= |s| <= 2
  {
    if c < 0x1_0000 then [c]
    else [0xD800 + (c - 0x1_0000) / 1024, 0xDC00 + (c - 0x1_0000) % 1024]
  }

  function Utf8All(cs: seq<Scalar>): seq<Byte> {
    if cs == [] then [] else Utf8(cs[0]) + Utf8All(cs[1..])
  }

  function Utf16All(cs: seq<Scalar>): seq<Unit> {
    if cs == [] then [] else Utf16(cs[0]) + Utf16All(cs[1..])
  }

  lemma {:induction false} Utf8Append(cs: seq<Scalar>, ds: seq<Scalar>)
    ensures Utf8All(cs + ds) == Utf8All(cs) + Utf8All(ds)
  {
    hide Utf8;
    if cs == [] {
      assert cs + ds == ds;
    } else {
      Utf8Append(cs[1..], ds);
      assert (cs + ds)[1..] == cs[1..] + ds;
    }
  }

  lemma {:induction false} Utf16Append(cs: seq<Scalar>, ds: seq<Scalar>)
    ensures Utf16All(cs + ds) == Utf16All(cs) + Utf16All(ds)
  {
    hide Utf16;
    if cs == [] {
      assert cs + ds == ds;
    } else {
      Utf16Append(cs[1..], ds);
      assert (cs + ds)[1..] == cs[1..] + ds;
    }
  }

  /** Well-formed text: the encoding of some sequence of scalar values. */
  ghost predicate WellFormedUtf8(s: seq<Byte>) {
    exists cs :: Utf8All(cs) == s
  }

  ghost predicate WellFormedUtf16(s: seq<Unit>) {
    exists cs :: Utf16All(cs) == s
  }

  /** Some scalar value's encoding starts with `s`. */
  ghost predicate InitialUtf8(s: seq<Byte>) {
    exists c: Scalar :: s <= Utf8(c)
  }

  /** Section 3.9 of the Unicode Standard: the maximal subpart at an offset where no
      encoding starts is the longest initial part of an encoding, or else one byte. */
  ghost predicate MaximalSubpart(s: seq<Byte>, k: int) {
    1 <= k <= |s| && (k == 1 || InitialUtf8(s[..k])) &&
    forall j :: k < j <= |s| ==> !InitialUtf8(s[..j])
  }
}
