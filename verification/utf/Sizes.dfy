/** The two length pre-computations, which look at one byte or unit at a time. */
module Sizes {
  import opened Unicode
  import Decode
  import Encode

  function UnitsOfByte(b: Byte): nat {
    if b < 0x80 then 1 else if b < 0xC0 then 0 else if b < 0xF0 then 1 else 2
  }

  function BytesOfUnit(w: Unit): nat {
    1 + (if w > 0x7F then 1 else 0) + (if (w > 0x7FF && w <= 0xD7FF) || w >= 0xE000 then 1 else 0)
  }

  function Units(s: seq<Byte>): nat {
    if s == [] then 0 else UnitsOfByte(s[0]) + Units(s[1..])
  }

  function Bytes(s: seq<Unit>): nat {
    if s == [] then 0 else BytesOfUnit(s[0]) + Bytes(s[1..])
  }

  /** `moonbit_utf16_len_from_utf8` */
  method Utf16LenFromUtf8(src: seq<Byte>) returns (units: nat)
    ensures units == Units(src)
  {
    units := 0;
    var i := 0;
    while i < |src|
      invariant i <= |src| && units + Units(src[i..]) == Units(src)
    {
      units := units + UnitsOfByte(src[i]);
      assert src[i..][1..] == src[i + 1..];
      i := i + 1;
    }
  }

  /** `moonbit_utf8_len_from_utf16` */
  method Utf8LenFromUtf16(src: seq<Unit>) returns (bytes: nat)
    ensures bytes == Bytes(src)
  {
    bytes := 0;
    var i := 0;
    while i < |src|
      invariant i <= |src| && bytes + Bytes(src[i..]) == Bytes(src)
    {
      bytes := bytes + BytesOfUnit(src[i]);
      assert src[i..][1..] == src[i + 1..];
      i := i + 1;
    }
  }

  lemma {:induction false} UnitsAppend(s: seq<Byte>, t: seq<Byte>)
    ensures Units(s + t) == Units(s) + Units(t)
  {
    if s == [] {
      assert s + t == t;
    } else {
      assert (s + t)[1..] == s[1..] + t;
      UnitsAppend(s[1..], t);
    }
  }

  lemma {:induction false} BytesAppend(s: seq<Unit>, t: seq<Unit>)
    ensures Bytes(s + t) == Bytes(s) + Bytes(t)
  {
    if s == [] {
      assert s + t == t;
    } else {
      assert (s + t)[1..] == s[1..] + t;
      BytesAppend(s[1..], t);
    }
  }

  lemma UnitsOfFour(s: seq<Byte>)
    requires 1 <= |s| <= 4 && UnitsOfByte(s[0]) >= 1 && forall i :: 1 <= i < |s| ==> 0x80 <= s[i] < 0xC0
    ensures Units(s) == UnitsOfByte(s[0])
  {
    assert Units(s[1..]) == 0 by {
      TrailingUnits(s[1..]);
    }
  }

  lemma {:induction false} TrailingUnits(s: seq<Byte>)
    requires forall i :: 0 <= i < |s| ==> 0x80 <= s[i] < 0xC0
    ensures Units(s) == 0
  {
    if s != [] {
      TrailingUnits(s[1..]);
    }
  }

  lemma UnitsOfScalar(c: Scalar)
    ensures Units(Utf8(c)) == |Utf16(c)|
  {
    UnitsOfFour(Utf8(c));
  }

  lemma BytesOfScalar(c: Scalar)
    ensures Bytes(Utf16(c)) == |Utf8(c)|
  {
    var s := Utf16(c);
    if |s| == 2 {
      assert s == [s[0]] + [s[1]];
      BytesAppend([s[0]], [s[1]]);
    } else {
      assert s == [s[0]];
    }
  }

  /** On well-formed text the pre-computed length is the number of units written. */
  lemma {:induction false} UnitsExact(cs: seq<Scalar>)
    ensures Units(Utf8All(cs)) == |Utf16All(cs)|
  {
    if cs != [] {
      UnitsAppend(Utf8(cs[0]), Utf8All(cs[1..]));
      UnitsOfScalar(cs[0]);
      UnitsExact(cs[1..]);
    }
  }

  lemma {:induction false} BytesExact(cs: seq<Scalar>)
    ensures Bytes(Utf16All(cs)) == |Utf8All(cs)|
  {
    if cs != [] {
      BytesAppend(Utf16(cs[0]), Utf16All(cs[1..]));
      BytesOfScalar(cs[0]);
      BytesExact(cs[1..]);
    }
  }

  /** On any input a buffer of the pre-computed length is large enough for what the
      strict decoder writes before it stops. */
  lemma UnitsSuffice(s: seq<Byte>)
    ensures |Utf16All(Decode.Strict(s))| <= Units(s)
  {
    var cs := Decode.Strict(s);
    Decode.StrictSplits(s);
    var k := |Utf8All(cs)|;
    assert s == Utf8All(cs) + s[k..];
    UnitsAppend(Utf8All(cs), s[k..]);
    UnitsExact(cs);
  }

  /** Likewise for the encoder. */
  lemma BytesSuffice(s: seq<Unit>)
    ensures |Utf8All(Encode.Strict(s))| <= Bytes(s)
  {
    var cs := Encode.Strict(s);
    Encode.StrictSplits(s);
    var k := |Utf16All(cs)|;
    assert s == Utf16All(cs) + s[k..];
    BytesAppend(Utf16All(cs), s[k..]);
    BytesExact(cs);
  }
}
