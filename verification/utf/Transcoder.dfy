/** The conversion loops, which write into a caller's buffer. */
module Transcoder {
  import opened Unicode
  import opened Decode
  import Encode
  import opened Sizes

  /** `b` with `units` written at `off`. */
  function Written<T>(b: seq<T>, off: nat, units: seq<T>): seq<T>
    requires off + |units| <= |b|
  {
    b[..off] + units + b[off + |units|..]
  }

  lemma WrittenNothing<T>(b: seq<T>, off: nat)
    requires off <= |b|
    ensures Written(b, off, []) == b
  {
  }

  /** `moonbit__utf16_write_scalar` */
  method WriteUtf16(dst: array<Unit>, off: nat, c: Scalar) returns (n: nat)
    requires off + |Utf16(c)| <= dst.Length
    modifies dst
    ensures n == |Utf16(c)| && dst[..] == Written(old(dst[..]), off, Utf16(c))
  {
    if c < 0x1_0000 {
      dst[off] := c;
      return 1;
    }
    var v := c - 0x1_0000;
    dst[off] := 0xD800 + v / 1024;
    dst[off + 1] := 0xDC00 + v % 1024;
    return 2;
  }

  lemma Utf16Snoc(cs: seq<Scalar>, c: Scalar)
    ensures Utf16All(cs + [c]) == Utf16All(cs) + Utf16(c)
  {
    Utf16Append(cs, [c]);
    assert Utf16All([c]) == Utf16(c);
  }

  lemma Utf8Snoc(cs: seq<Scalar>, c: Scalar)
    ensures Utf8All(cs + [c]) == Utf8All(cs) + Utf8(c)
  {
    Utf8Append(cs, [c]);
    assert Utf8All([c]) == Utf8(c);
  }

  /** The decoders' writing step: one more scalar value after those of `cs`. */
  method PutUtf16(dst: array<Unit>, off: nat, written: nat, c: Scalar, ghost before: seq<Unit>, ghost cs: seq<Scalar>)
    returns (n: nat)
    requires written == |Utf16All(cs)| && off + written + |Utf16(c)| <= dst.Length == |before|
    requires dst[..] == Written(before, off, Utf16All(cs))
    modifies dst
    ensures n == |Utf16(c)| && written + n == |Utf16All(cs + [c])|
    ensures dst[..] == Written(before, off, Utf16All(cs + [c]))
  {
    n := WriteUtf16(dst, off + written, c);
    Utf16Snoc(cs, c);
  }

  /** The first `i` bytes decode to `cs`, and decoding goes on from there. */
  ghost predicate StrictAt(src: seq<Byte>, i: nat, cs: seq<Scalar>) {
    i <= |src| && Utf8All(cs) == src[..i] && Strict(src) == cs + Strict(src[i..])
  }

  lemma Slices<T>(s: seq<T>, i: nat, n: nat)
    requires i + n <= |s|
    ensures s[..i + n] == s[..i] + s[i..][..n] && s[i..][n..] == s[i + n..]
  {
  }

  lemma MoveOver<T>(a: seq<T>, x: T, b: seq<T>)
    ensures a + ([x] + b) == a + [x] + b
  {
  }

  lemma StrictStep(src: seq<Byte>, i: nat, cs: seq<Scalar>, n: nat, c: Scalar)
    requires StrictAt(src, i, cs) && DecodeOne(src[i..]) == Decoded(n, c)
    ensures i + n <= |src| && StrictAt(src, i + n, cs + [c])
  {
    StrictUnfolds(src[i..], n, c);
    Slices(src, i, n);
    Utf8Snoc(cs, c);
    MoveOver(cs, c, Strict(src[i + n..]));
  }

  lemma UnitsSoFar(src: seq<Byte>, i: nat, cs: seq<Scalar>)
    requires StrictAt(src, i, cs)
    ensures |Utf16All(cs)| <= |Utf16All(Strict(src))|
  {
    Utf16Append(cs, Strict(src[i..]));
  }

  lemma StrictStopped(src: seq<Byte>, i: nat, cs: seq<Scalar>)
    requires StrictAt(src, i, cs) && DecodeOne(src[i..]) == Malformed
    ensures Strict(src) == cs && (WellFormedUtf8(src) <==> i == |src|)
    ensures forall c: Scalar :: !(Utf8(c) <= src[i..])
  {
    forall c: Scalar
      ensures !(Utf8(c) <= src[i..])
    {
      MalformedMeansNoEncoding(src[i..], c);
    }
    WellFormedIff(src);
  }

  /** Outcome of a conversion: units written, or minus one and minus an offset. */
  ghost predicate StopsAt(r: int, written: nat, i: nat, total: nat) {
    r == if i == total then written else -(i + 1)
  }

  /** One round of the strict loop, where a value decodes. */
  method StrictNext(dst: array<Unit>, off: nat, src: seq<Byte>, i: nat, written: nat, n: nat, c: Scalar,
                    ghost before: seq<Unit>, ghost cs: seq<Scalar>)
    returns (i': nat, written': nat)
    requires StrictAt(src, i, cs) && written == |Utf16All(cs)| && DecodeOne(src[i..]) == Decoded(n, c)
    requires off + |Utf16All(Strict(src))| <= dst.Length == |before| && off + written <= dst.Length
    requires dst[..] == Written(before, off, Utf16All(cs))
    modifies dst
    ensures i < i' && StrictAt(src, i', cs + [c]) && written' == |Utf16All(cs + [c])| && off + written' <= dst.Length
    ensures dst[..] == Written(before, off, Utf16All(cs + [c]))
  {
    StrictStep(src, i, cs, n, c);
    UnitsSoFar(src, i + n, cs + [c]);
    Utf16Snoc(cs, c);
    StrictUnfolds(src[i..], n, c);
    var k := PutUtf16(dst, off, written, c, before, cs);
    i', written' := i + n, written + k;
  }

  /** `moonbit__utf8_decode_into_utf16_scalar`: the number of units written, or minus one
      and minus the offset of the first malformed byte. */
  method DecodeStrict(dst: array<Unit>, off: nat, src: seq<Byte>) returns (r: int)
    requires off + |Utf16All(Strict(src))| <= dst.Length
    modifies dst
    ensures dst[..] == Written(old(dst[..]), off, Utf16All(Strict(src)))
    ensures var i := |Utf8All(Strict(src))|;
            StopsAt(r, |Utf16All(Strict(src))|, i, |src|) && Utf8All(Strict(src)) <= src &&
            (WellFormedUtf8(src) <==> i == |src|) && forall c: Scalar :: !(Utf8(c) <= src[i..])
  {
    var i: nat, written: nat := 0, 0;
    ghost var cs, before := [], dst[..];
    WrittenNothing(before, off);
    assert src[0..] == src;
    while i < |src|
      invariant StrictAt(src, i, cs) && written == |Utf16All(cs)|
      invariant off + written <= dst.Length == |before| && dst[..] == Written(before, off, Utf16All(cs))
    {
      var step := DecodeOne(src[i..]);
      if step.Malformed? {
        StrictStopped(src, i, cs);
        return -(i + 1);
      }
      i, written := StrictNext(dst, off, src, i, written, step.consumed, step.codepoint, before, cs);
      cs := cs + [step.codepoint];
    }
    StrictStopped(src, i, cs);
    return written;
  }

  // ----- lossy decoding -----

  ghost predicate LossyAt(src: seq<Byte>, i: nat, cs: seq<Scalar>) {
    i <= |src| && Lossy(src) == cs + Lossy(src[i..])
  }

  lemma LossyStep(src: seq<Byte>, i: nat, cs: seq<Scalar>, n: nat, c: Scalar)
    requires LossyAt(src, i, cs) && i < |src|
    requires match DecodeOne(src[i..])
             case Malformed => n == Advance(src[i..]) && c == REPLACEMENT
             case Decoded(m, d) => n == m && c == d
    ensures 0 < n && i + n <= |src| && LossyAt(src, i + n, cs + [c])
    ensures |Utf16All(cs + [c])| <= |Utf16All(Lossy(src))|
  {
    if DecodeOne(src[i..]).Decoded? {
      DecodeOneSound(src[i..]);
    }
    Slices(src, i, n);
    MoveOver(cs, c, Lossy(src[i + n..]));
    Utf16Append(cs + [c], Lossy(src[i + n..]));
  }

  /** `moonbit__utf8_decode_lossy_into_utf16_scalar` */
  method DecodeLossy(dst: array<Unit>, off: nat, src: seq<Byte>) returns (written: nat)
    requires off + |Utf16All(Lossy(src))| <= dst.Length
    modifies dst
    ensures written == |Utf16All(Lossy(src))| && dst[..] == Written(old(dst[..]), off, Utf16All(Lossy(src)))
  {
    var i: nat := 0;
    written := 0;
    ghost var cs, before := [], dst[..];
    WrittenNothing(before, off);
    assert src[0..] == src;
    while i < |src|
      invariant LossyAt(src, i, cs) && written == |Utf16All(cs)|
      invariant off + written <= dst.Length == |before| && dst[..] == Written(before, off, Utf16All(cs))
    {
      var step := DecodeOne(src[i..]);
      var n, c := Advance(src[i..]), REPLACEMENT;
      if step.Decoded? {
        n, c := step.consumed, step.codepoint;
      }
      LossyStep(src, i, cs, n, c);
      Utf16Snoc(cs, c);
      var k := PutUtf16(dst, off, written, c, before, cs);
      i, written, cs := i + n, written + k, cs + [c];
    }
    assert cs + [] == cs;
  }

  // ----- encoding -----

  method WriteUtf8(dst: array<Byte>, off: nat, c: Scalar) returns (n: nat)
    requires off + |Utf8(c)| <= dst.Length
    modifies dst
    ensures n == |Utf8(c)| && dst[..] == Written(old(dst[..]), off, Utf8(c))
  {
    if c < 0x80 {
      dst[off] := c;
      n := 1;
    } else if c < 0x800 {
      dst[off], dst[off + 1] := 0xC0 + c / 64, 0x80 + c % 64;
      n := 2;
    } else if c < 0x1_0000 {
      dst[off], dst[off + 1], dst[off + 2] := 0xE0 + c / 4096, 0x80 + c / 64 % 64, 0x80 + c % 64;
      n := 3;
    } else {
      dst[off], dst[off + 1] := 0xF0 + c / 262144, 0x80 + c / 4096 % 64;
      dst[off + 2], dst[off + 3] := 0x80 + c / 64 % 64, 0x80 + c % 64;
      n := 4;
    }
  }

  method PutUtf8(dst: array<Byte>, off: nat, written: nat, c: Scalar, ghost before: seq<Byte>, ghost cs: seq<Scalar>)
    returns (n: nat)
    requires written == |Utf8All(cs)| && off + written + |Utf8(c)| <= dst.Length == |before|
    requires dst[..] == Written(before, off, Utf8All(cs))
    modifies dst
    ensures n == |Utf8(c)| && written + n == |Utf8All(cs + [c])|
    ensures dst[..] == Written(before, off, Utf8All(cs + [c]))
  {
    n := WriteUtf8(dst, off + written, c);
    Utf8Snoc(cs, c);
  }

  ghost predicate EncodedAt(src: seq<Unit>, i: nat, cs: seq<Scalar>) {
    i <= |src| && Utf16All(cs) == src[..i] && Encode.Strict(src) == cs + Encode.Strict(src[i..])
  }

  lemma EncodeStep(src: seq<Unit>, i: nat, cs: seq<Scalar>, n: nat, c: Scalar)
    requires EncodedAt(src, i, cs) && Encode.ReadOne(src[i..]) == Encode.Read(n, c)
    ensures 0 < n && i + n <= |src| && EncodedAt(src, i + n, cs + [c])
    ensures |Utf8All(cs + [c])| <= |Utf8All(Encode.Strict(src))|
  {
    Encode.StrictUnfolds(src[i..], n, c);
    Slices(src, i, n);
    Utf16Snoc(cs, c);
    MoveOver(cs, c, Encode.Strict(src[i + n..]));
    Utf8Append(cs + [c], Encode.Strict(src[i + n..]));
  }

  lemma EncodeStopped(src: seq<Unit>, i: nat, cs: seq<Scalar>)
    requires EncodedAt(src, i, cs) && Encode.ReadOne(src[i..]) == Encode.Malformed
    ensures Encode.Strict(src) == cs && (WellFormedUtf16(src) <==> i == |src|)
    ensures forall c: Scalar :: !(Utf16(c) <= src[i..])
  {
    forall c: Scalar
      ensures !(Utf16(c) <= src[i..])
    {
      Encode.MalformedMeansNoEncoding(src[i..], c);
    }
    Encode.WellFormedIff(src);
  }

  /** `moonbit__utf8_encode_from_utf16_scalar`: the number of bytes written, or minus one
      and minus the offset of the first unpaired surrogate. */
  method EncodeUtf8(dst: array<Byte>, off: nat, src: seq<Unit>) returns (r: int)
    requires off + |Utf8All(Encode.Strict(src))| <= dst.Length
    modifies dst
    ensures dst[..] == Written(old(dst[..]), off, Utf8All(Encode.Strict(src)))
    ensures var i := |Utf16All(Encode.Strict(src))|;
            StopsAt(r, |Utf8All(Encode.Strict(src))|, i, |src|) && Utf16All(Encode.Strict(src)) <= src &&
            (WellFormedUtf16(src) <==> i == |src|) && forall c: Scalar :: !(Utf16(c) <= src[i..])
  {
    var i: nat, written: nat := 0, 0;
    ghost var cs, before := [], dst[..];
    WrittenNothing(before, off);
    assert src[0..] == src;
    while i < |src|
      invariant EncodedAt(src, i, cs) && written == |Utf8All(cs)|
      invariant off + written <= dst.Length == |before| && dst[..] == Written(before, off, Utf8All(cs))
    {
      var step := Encode.ReadOne(src[i..]);
      if step.Malformed? {
        EncodeStopped(src, i, cs);
        return -(i + 1);
      }
      EncodeStep(src, i, cs, step.consumed, step.codepoint);
      Utf8Snoc(cs, step.codepoint);
      var n := PutUtf8(dst, off, written, step.codepoint, before, cs);
      i, written, cs := i + step.consumed, written + n, cs + [step.codepoint];
    }
    EncodeStopped(src, i, cs);
    return written;
  }

  // ----- round trips -----

  /** Decoding then encoding well-formed UTF-8 gives the same bytes. */
  lemma EncodeAfterDecode(s: seq<Byte>)
    requires WellFormedUtf8(s)
    ensures var u := Utf16All(Strict(s));
            WellFormedUtf16(u) && Utf8All(Encode.Strict(u)) == s && Units(s) == |u| && Bytes(u) == |s|
  {
    WellFormedIff(s);
    Encode.StrictInverts(Strict(s));
    UnitsExact(Strict(s));
    BytesExact(Strict(s));
  }

  /** Encoding then decoding well-formed UTF-16 gives the same units. */
  lemma DecodeAfterEncode(u: seq<Unit>)
    requires WellFormedUtf16(u)
    ensures var s := Utf8All(Encode.Strict(u));
            WellFormedUtf8(s) && Utf16All(Strict(s)) == u && Bytes(u) == |s| && Units(s) == |u|
  {
    Encode.WellFormedIff(u);
    StrictInverts(Encode.Strict(u));
    UnitsExact(Encode.Strict(u));
    BytesExact(Encode.Strict(u));
  }
}
