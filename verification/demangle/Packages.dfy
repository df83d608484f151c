/** Which packages are read back: exactly those of fewer than ten segments whose greedy number does not wrap.  From
    ten segments on the backtracking keeps one digit of the count and reads that many segments. */
module ManglePackages {
  import opened MangleGrammar
  import opened MangleReading
  import opened MangleRoundTrip
  import opened MangleConcatenation

  // ------------------------------------------------------------- runs of digits

  predicate AllDigits(s: string) {
    forall c :: c in s ==> IsDigit(c)
  }

  lemma {:induction false} DecimalIsDigits(n: nat, rest: string)
    requires AllDigits(rest)
    ensures AllDigits(Decimal(n, rest))
    decreases n
  {
    if n >= 10 {
      DecimalIsDigits(n / 10, [Digit(n % 10)] + rest);
    }
  }

  lemma {:induction false} LongDecimal(n: nat, rest: string)
    requires n > 0 || rest != ""
    ensures |Decimal(n, rest)| > |rest| && (n >= 10 ==> |Decimal(n, rest)| > |rest| + 1)
    decreases n
  {
    if n >= 10 {
      LongDecimal(n / 10, [Digit(n % 10)] + rest);
    }
  }

  lemma {:induction false} DigitsPass(w: string, t: string, v: nat)
    requires AllDigits(w) && !AtDigit(t)
    ensures Digits(w + t, v).rest == t
    decreases w
  {
    if w == "" {
      assert w + t == t;
    } else {
      assert w[0] in w && (w + t)[1..] == w[1..] + t;
      DigitsPass(w[1..], t, (v * 10 + (w[0] - '0') as nat) % U32);
    }
  }

  /** Digits in front of an identifier are one number, and reading it stops at the identifier. */
  lemma NumberPasses(w: string, t: string)
    requires AllDigits(w) && w != "" && !AtDigit(t)
    ensures Number(w + t).Got? && Number(w + t).rest == t
  {
    DigitsPass(w, t, 0);
  }

  // ------------------------------------------------ what decoding makes of pieces

  lemma {:induction false} NoZero(id: Ident)
    requires id.Pieces()
    ensures '\0' !in id.Name()
  {
    if id.Piece? {
      NoZero(id.tail);
    }
  }

  lemma {:induction false} DecodeThrough(id: Ident, w: string, out: string)
    requires id.Pieces()
    ensures Decode(id.Encoded() + w, out) == Decode(w, out + id.Name())
  {
    if id.End? {
      assert id.Encoded() + w == w && out + id.Name() == out;
    } else {
      var s := id.Encoded() + w;
      var n := |id.head.Spelling()|;
      assert s[n..] == id.tail.Encoded() + w;
      assert id.head.Spelling() <= s;
      DecodePiece(id.head, s, out);
      DecodeThrough(id.tail, w, out + [id.head.Meaning()]);
      assert out + [id.head.Meaning()] + id.tail.Name() == out + id.Name();
    }
  }

  lemma {:induction false} DecodeExtends(s: string, out: string)
    ensures Decode(s, out).Got? ==> out <= Decode(s, out).value
    decreases |s|
  {
    if s != "" {
      if s[0] != '_' {
        DecodeExtends(s[1..], out + [s[0]]);
      } else if |s| >= 2 && s[1] == '_' {
        DecodeExtends(s[2..], out + "_");
      } else if |s| >= 3 && HexValue(s[1]) >= 0 && HexValue(s[2]) >= 0 {
        DecodeExtends(s[3..], out + [(HexValue(s[1]) * 16 + HexValue(s[2])) as char]);
      }
    }
  }

  lemma {:induction false} CStringKeeps(p: string, s: string)
    requires p <= s && '\0' !in p
    ensures p <= CString(s)
    decreases p
  {
    if p != "" {
      assert p[0] in p && p[0] == s[0];
      CStringKeeps(p[1..], s[1..]);
    }
  }

  lemma {:induction false} CStringWhole(s: string)
    requires '\0' !in s
    ensures CString(s) == s
  {
    if s != "" {
      assert s[0] in s;
      CStringWhole(s[1..]);
    }
  }

  /** A proper beginning of an identifier is decoded, if at all, to a proper beginning of its name; a digit behind
      it in the spelling is the next character of the name. */
  lemma {:induction false} DecodeCut(id: Ident, p: string, out: string)
    requires id.Pieces() && p < id.Encoded() && Decode(p, out).Got?
    ensures Decode(p, out).value < out + id.Name()
    ensures IsDigit(id.Encoded()[|p|]) ==> (out + id.Name())[|Decode(p, out).value|] == id.Encoded()[|p|]
    decreases id
  {
    hide Decode, Piece.Meaning, Piece.Spelling;
    if p == "" {
      DecodeNothing(out);
      CutInFront(id, out);
    } else {
      var k := |id.head.Spelling()|;
      if |p| < k {
        assert id.Encoded() == id.head.Spelling() + id.tail.Encoded();
        CutInsidePiece(id.head, p, out);
      } else {
        DropPiece(id, p, k);
        DecodePiece(id.head, p, out);
        DecodeCut(id.tail, p[k..], out + [id.head.Meaning()]);
        assert out + [id.head.Meaning()] + id.tail.Name() == out + id.Name();
      }
    }
  }

  lemma CutInFront(id: Ident, out: string)
    requires id.Pieces() && id.Piece?
    ensures out < out + id.Name() && id.Encoded() != ""
    ensures IsDigit(id.Encoded()[0]) ==> (out + id.Name())[|out|] == id.Encoded()[0]
  {
    assert id.Encoded()[0] == id.head.Spelling()[0];
  }

  lemma DropPiece(id: Ident, p: string, k: nat)
    requires id.Piece? && k == |id.head.Spelling()| <= |p| && p < id.Encoded()
    ensures id.head.Spelling() <= p && p[k..] < id.tail.Encoded() && id.Encoded()[|p|] == id.tail.Encoded()[|p| - k]
  {
    var s, e := id.head.Spelling(), id.tail.Encoded();
    assert id.Encoded() == s + e && p == (s + e)[..|p|];
    assert p[..k] == s && p[k..] == e[..|p| - k];
  }

  lemma DecodeNothing(out: string)
    ensures Decode("", out) == Got(out, "")
  {
  }

  lemma CutInsidePiece(p: Piece, s: string, out: string)
    requires p.Valid() && s < p.Spelling() && s != ""
    ensures Decode(s, out) == Fail
  {
    assert s[0] == p.Spelling()[0];
    if |s| == 2 {
      assert s[1] == p.Spelling()[1] && p.Hex?;
    }
  }

  // --------------------------------------------- what reading segments can give

  lemma {:induction false} SegmentsExtend(s: string, count: nat, i: nat, out: string)
    requires Segments(s, count, i, out).Got?
    ensures out <= Segments(s, count, i, out).value
    ensures 0 < i < count ==> out + "/" <= Segments(s, count, i, out).value && AtDigit(s)
    ensures i >= count ==> Segments(s, count, i, out).value == out
    decreases count - i
  {
    if i < count {
      var seg := Identifier(s);
      SegmentsExtend(seg.rest, count, i + 1, (if i > 0 then out + "/" else out) + seg.value);
    }
  }

  lemma {:induction false} JoinedExtends(ids: Idents, out: string, first: bool)
    requires ids.Valid()
    ensures out <= ids.Joined(out, first)
    ensures ids.Seg? && !first ==> out + "/" <= ids.Joined(out, first)
    decreases ids
  {
    if ids.Seg? {
      JoinedExtends(ids.tail, (if first then out else out + "/") + ids.head.Name(), false);
    }
  }

  lemma {:induction false} SpellLength(ids: Idents, rest: string)
    ensures |ids.Spell(rest)| >= |rest| && (ids.Seg? ==> |ids.Spell(rest)| > |rest|)
    decreases ids
  {
    if ids.Seg? {
      var e := ids.head.Encoded() + ids.tail.Spell(rest);
      SpellLength(ids.tail, rest);
      DecimalAppends(|ids.head.Encoded()|, "", e);
      assert "" + e == e;
      DecimalStartsWithDigit(|ids.head.Encoded()|, "");
    }
  }

  /** Reading fewer segments than there are leaves more ahead than the text behind them. */
  lemma {:induction false} TooFewRead(ids: Idents, rest: string, i: nat, k: nat, out: string)
    requires ids.Valid() && k < ids.Count()
    ensures var r := Segments(ids.Spell(rest), i + k, i, out); r.Got? && |r.rest| > |rest|
    decreases ids
  {
    if k == 0 {
      SpellLength(ids, rest);
    } else {
      IdentifierRoundTrip(ids.head, ids.tail.Spell(rest));
      TooFewRead(ids.tail, rest, i + 1, k - 1, (if i > 0 then out + "/" else out) + ids.head.Name());
    }
  }

  // ------------------------------------- ten and more segments are never read back

  /** The first segment of a package of at least two, and all behind it, is a proper extension of its name. */
  lemma JoinedStart(ids: Idents)
    requires ids.Valid() && ids.Count() >= 2
    ensures ids.head.Name() + "/" <= ids.Joined("", true)
  {
    assert "" + ids.head.Name() == ids.head.Name();
    JoinedExtends(ids.tail, ids.head.Name(), false);
  }

  lemma DifferAt(a: string, b: string, p: string, c: char, d: char)
    requires p + [c] <= a && p + [d] <= b && c != d
    ensures a != b
  {
    assert a[|p|] == (p + [c])[|p|] && b[|p|] == (p + [d])[|p|];
  }

  /** The first segment read goes on behind the true one: its name has a digit where the package has a slash. */
  lemma ReadTooFar(ids: Idents, tail: string, n: nat, count: nat)
    requires ids.Valid() && ids.Count() >= 2 && count >= 1
    requires |ids.head.Encoded()| < n <= |ids.head.Encoded() + ids.tail.Spell(tail)|
    ensures
      var t := ids.head.Encoded() + ids.tail.Spell(tail);
      var d := Decode(t[..n], "");
      d.Got? ==> var r := Segments(t[n..], count, 1, CString(d.value));
                 r.Got? ==> r.value != ids.Joined("", true)
  {
    var e, more, name := ids.head.Encoded(), ids.tail.Spell(tail), ids.head.Name();
    var t, w := e + more, more[..n - |e|];
    assert t[..n] == e + w;
    DecodeThrough(ids.head, w, "");
    assert "" + name == name;
    SpellStartsWithDigit(ids.tail, tail);
    assert w[0] == more[0];
    DecodeExtends(w[1..], name + [w[0]]);
    assert Decode(w, name) == Decode(w[1..], name + [w[0]]);
    if Decode(t[..n], "").Got? {
      var v := Decode(t[..n], "").value;
      NoZero(ids.head);
      CStringKeeps(name + [w[0]], v);
      if Segments(t[n..], count, 1, CString(v)).Got? {
        SegmentsExtend(t[n..], count, 1, CString(v));
        JoinedStart(ids);
        DifferAt(Segments(t[n..], count, 1, CString(v)).value, ids.Joined("", true), name, w[0], '/');
      }
    }
  }

  lemma SpellStartsWithDigit(ids: Idents, tail: string)
    requires ids.Seg?
    ensures ids.Spell(tail) != "" && AtDigit(ids.Spell(tail))
  {
    DecimalStartsWithDigit(|ids.head.Encoded()|, ids.head.Encoded() + ids.tail.Spell(tail));
  }

  /** The first segment read stops inside the true one: the name read so far is too short, or goes on with a slash
      where the package has a digit. */
  lemma ReadTooShort(ids: Idents, tail: string, n: nat, count: nat)
    requires ids.Valid() && ids.Count() >= 2 && count >= 1 && n < |ids.head.Encoded()|
    ensures
      var t := ids.head.Encoded() + ids.tail.Spell(tail);
      var d := Decode(t[..n], "");
      d.Got? ==> var r := Segments(t[n..], count, 1, CString(d.value));
                 r.Got? ==> r.value != ids.Joined("", true)
  {
    hide Decode, Segments, CString, Ident.Encoded, Ident.Name, Idents.Spell, Idents.Joined;
    var e := ids.head.Encoded();
    var t := e + ids.tail.Spell(tail);
    assert t[..n] == e[..n] && Head(t[n..]) == e[n];
    if Decode(e[..n], "").Got? {
      var v := Decode(e[..n], "").value;
      CutName(ids.head, e[..n], v);
      if Segments(t[n..], count, 1, v).Got? {
        SegmentsExtend(t[n..], count, 1, v);
        CutDiffers(Segments(t[n..], count, 1, v).value, ids, v, count > 1);
      }
    }
  }

  lemma CutName(id: Ident, p: string, v: string)
    requires id.Pieces() && p < id.Encoded() && Decode(p, "") == Got(v, "")
    ensures CString(v) == v && v < id.Name()
    ensures IsDigit(id.Encoded()[|p|]) ==> id.Name()[|v|] == id.Encoded()[|p|]
  {
    DecodeCut(id, p, "");
    assert "" + id.Name() == id.Name();
    NoZero(id);
    CStringWhole(v);
  }

  lemma CutDiffers(value: string, ids: Idents, v: string, slash: bool)
    requires ids.Valid() && ids.Count() >= 2 && v < ids.head.Name()
    requires if slash then v + "/" <= value && IsDigit(ids.head.Name()[|v|]) else value == v
    ensures value != ids.Joined("", true)
  {
    hide Idents.Joined, Ident.Name;
    JoinedStart(ids);
    if slash {
      var c := ids.head.Name()[|v|];
      assert v + [c] <= ids.Joined("", true);
      DifferAt(value, ids.Joined("", true), v, '/', c);
    }
  }

  /** Whatever number is taken for the length of the first segment, at most nine segments never are the package. */
  lemma FewSegments(ids: Idents, tail: string, w: string, count: nat)
    requires ids.Valid() && ids.Count() >= 10 && count < 10 && AllDigits(w) && w != ""
    ensures Segments(w + (ids.head.Encoded() + ids.tail.Spell(tail)), count, 0, "") != Got(ids.Joined("", true), tail)
  {
    var e, more := ids.head.Encoded(), ids.tail.Spell(tail);
    var t := e + more;
    JoinedNotEmpty(ids, "", true);
    if count > 0 {
      EncodedStart(ids.head);
      assert Head(t) == Head(e);
      NumberPasses(w, t);
      var n := Number(w + t).value;
      if n == |e| {
        FirstSegmentRight(ids, tail, w, count);
      } else if n <= |t| {
        if n < |e| {
          ReadTooShort(ids, tail, n, count);
        } else {
          ReadTooFar(ids, tail, n, count);
        }
        if Decode(t[..n], "").Got? {
          assert "" + CString(Decode(t[..n], "").value) == CString(Decode(t[..n], "").value);
        }
      }
    }
  }

  lemma IdentifierBehind(id: Ident, w: string, more: string)
    requires id.Valid() && Number(w + (id.Encoded() + more)) == Got(|id.Encoded()|, id.Encoded() + more)
    ensures Identifier(w + (id.Encoded() + more)) == Got(id.Name(), more)
  {
    var e := id.Encoded();
    assert (e + more)[..|e|] == e && (e + more)[|e|..] == more;
    DecodeEncoded(id, "");
    NameIsCString(id);
    assert "" + id.Name() == id.Name();
  }

  lemma FirstSegmentRight(ids: Idents, tail: string, w: string, count: nat)
    requires ids.Valid() && ids.Count() >= 10 && 0 < count < 10
    requires Number(w + (ids.head.Encoded() + ids.tail.Spell(tail)))
          == Got(|ids.head.Encoded()|, ids.head.Encoded() + ids.tail.Spell(tail))
    ensures Segments(w + (ids.head.Encoded() + ids.tail.Spell(tail)), count, 0, "") != Got(ids.Joined("", true), tail)
  {
    hide Identifier, Number;
    IdentifierBehind(ids.head, w, ids.tail.Spell(tail));
    assert "" + ids.head.Name() == ids.head.Name();
    TooFewRead(ids.tail, tail, 1, count - 1, ids.head.Name());
  }

  /** A count of several digits: the greedy reading takes it together with the next length and finds no segments,
      and one digit of it is too few. */
  lemma LongCount(ids: Idents, tail: string)
    requires ids.Valid() && ids.Count() >= 10
    ensures Counted(Decimal(ids.Count(), ids.Spell(tail))) != Got(ids.Joined("", true), tail)
  {
    hide Decimal, Segments, Idents.Joined, Ident.Encoded;
    var t := ids.head.Encoded() + ids.tail.Spell(tail);
    var s := Decimal(ids.Count(), ids.Spell(tail));
    var d, w := CountAndLength(ids.Count(), |ids.head.Encoded()|, t);
    EncodedStart(ids.head);
    assert Head(t) == Head(ids.head.Encoded());
    assert s == ([d] + w) + t;
    NumberPasses([d] + w, t);
    NoSegments(t, Number(s).value);
    JoinedNotEmpty(ids, "", true);
    assert s[1..] == w + t && s[0] == d;
    FewSegments(ids, tail, w, (d - '0') as nat);
  }

  /** A count, a length and what follows: one digit, more digits, and the rest. */
  lemma CountAndLength(count: nat, length: nat, t: string) returns (d: char, w: string)
    requires count >= 10
    ensures Decimal(count, Decimal(length, t)) == ([d] + w) + t
    ensures IsDigit(d) && w != "" && AllDigits(w)
  {
    var c, l := Decimal(count, ""), Decimal(length, "");
    assert "" + Decimal(length, t) == Decimal(length, t) && "" + t == t;
    DecimalAppends(count, "", Decimal(length, t));
    DecimalAppends(length, "", t);
    DecimalIsDigits(count, "");
    DecimalIsDigits(length, "");
    LongDecimal(count, "");
    d, w := c[0], c[1..] + l;
    assert c == [d] + c[1..] && d in c;
  }

  /** The main result: a package and the identifier behind it are read back exactly when it has fewer than ten
      segments and its greedy number does not wrap to zero. */
  lemma PackageRoundTrip(pkg: PackagePath, name: Ident, rest: string)
    requires pkg.Valid() && name.Valid()
    ensures Package(pkg.Spell(SpellIdent(name, rest))) == Got(pkg.Name(), SpellIdent(name, rest)) <==> pkg.Readable()
  {
    var tail := SpellIdent(name, rest);
    if pkg.Builtin? || pkg.segs.Count() < 10 {
      OneDigitPackage(pkg, name, rest);
      IdentifierRoundTrip(name, rest);
    } else {
      var counted := Decimal(pkg.segs.Count(), pkg.segs.Spell(tail));
      DecimalStartsWithDigit(pkg.segs.Count(), pkg.segs.Spell(tail));
      PackageMarks(counted);
      LongCount(pkg.segs, tail);
      JoinedNotEmpty(pkg.segs, "", true);
      CoreDiffers(pkg.segs.Joined("", true));
    }
  }

  lemma CoreDiffers(suffix: string)
    requires suffix != ""
    ensures forall other :: "moonbitlang/core/" + other == "moonbitlang/core/" + suffix ==> other == suffix
    ensures "moonbitlang/core" != "moonbitlang/core/" + suffix
  {
    forall other | "moonbitlang/core/" + other == "moonbitlang/core/" + suffix ensures other == suffix {
      assert other == ("moonbitlang/core/" + other)[17..];
      assert suffix == ("moonbitlang/core/" + suffix)[17..];
    }
  }

  // ---------------------------------------------------------- what the failures are

  lemma {:induction false} PowerBound(n: nat)
    requires 1 <= n
    ensures Power(n) <= 10 * n
  {
    if n >= 10 {
      PowerBound(n / 10);
    }
  }

  lemma GreedyBound(count: nat, power: nat, n: nat)
    requires 1 <= count <= 9 && power <= 10 * n && 1 <= n < 40_000_000
    ensures (count * power + n) % WORD != 0
  {
    assert count * power <= 9 * power;
  }

  /** With fewer than forty million encoded characters in the first segment nothing wraps: only the number of
      segments matters. */
  lemma ShortIsReadable(pkg: PackagePath)
    requires pkg.Valid()
    requires !pkg.Builtin? && pkg.segs.Seg? ==> |pkg.segs.head.Encoded()| < 40_000_000
    ensures pkg.Readable() <==> pkg.Builtin? || pkg.segs.Count() < 10
  {
    if !pkg.Builtin? && pkg.segs.Seg? && pkg.segs.Count() < 10 {
      var n := |pkg.segs.head.Encoded()|;
      EncodedStart(pkg.segs.head);
      PowerBound(n);
      GreedyBound(pkg.segs.Count(), Power(n), n);
    }
  }

  /** What is read of ten segments: of the count's two digits the backtracking keeps the first, the second becomes
      a leading zero of the first segment's length, and the package is that segment alone. */
  lemma TenSegmentsAreMisread(ids: Idents, rest: string)
    requires ids.Valid() && ids.Count() == 10
    requires Greedy(10, |ids.head.Encoded()|) % U32 != 0
    ensures Counted(Decimal(10, ids.Spell(rest))) == Got(ids.head.Name(), ids.tail.Spell(rest))
  {
    assert Decimal(10, ids.Spell(rest)) == "1" + ("0" + ids.Spell(rest));
    var more := ids.tail.Spell(rest);
    var zero := "0" + SpellIdent(ids.head, more);
    GreedyTen(ids.head, more);
    EncodedStart(ids.head);
    assert Head(ids.head.Encoded() + more) == Head(ids.head.Encoded());
    NoSegments(ids.head.Encoded() + more, Greedy(10, |ids.head.Encoded()|) % U32);
    LeadingZero(ids.head, more);
    assert ("1" + zero)[1..] == zero;
    OneSegment(zero, ids.head.Name(), more);
  }

  lemma GreedyTen(id: Ident, more: string)
    requires id.Valid()
    ensures Number("1" + ("0" + SpellIdent(id, more))) == Got(Greedy(10, |id.Encoded()|) % U32, id.Encoded() + more)
  {
    hide Digits, Decimal, Ident.Encoded, Power;
    var t := id.Encoded() + more;
    EncodedStart(id);
    assert Head(t) == Head(id.Encoded());
    OneDigit(1, "0" + SpellIdent(id, more), 0);
    OneDigit(0, SpellIdent(id, more), 1);
    DigitsOfDecimal(|id.Encoded()|, t, 10);
    DigitsStop(t, Greedy(10, |id.Encoded()|) % U32);
  }

  lemma DigitsStop(t: string, v: nat)
    requires !AtDigit(t)
    ensures Digits(t, v) == Got(v, t)
  {
  }

  lemma LeadingZero(id: Ident, more: string)
    requires id.Valid()
    ensures Identifier("0" + SpellIdent(id, more)) == Got(id.Name(), more)
  {
    var t := id.Encoded() + more;
    IdentifierRoundTrip(id, more);
    DecimalStartsWithDigit(|id.Encoded()|, t);
    OneDigit(0, SpellIdent(id, more), 0);
  }

  lemma OneSegment(s: string, name: string, rest: string)
    requires Identifier(s) == Got(name, rest)
    ensures Segments(s, 1, 0, "") == Got(name, rest)
  {
    assert "" + name == name;
  }

  function Letters(n: nat): Ident {
    if n == 0 then End else Piece(Raw('a'), Letters(n - 1))
  }

  lemma {:induction false} LettersEncoded(n: nat)
    ensures Letters(n).Pieces() && |Letters(n).Encoded()| == n
    ensures n > 0 ==> Letters(n).Piece? && Letters(n).head == Raw('a')
  {
    if n > 0 {
      LettersEncoded(n - 1);
    }
  }

  lemma PowerOfWrapping()
    ensures Power(294967296) == 1000000000
  {
    assert Power(29) == 100 && Power(2949) == 10000 && Power(294967) == 1000000;
  }

  /** Four segments, the first of 294967296 letters: the greedy number is two to the 32, so the package read is
      empty. */
  lemma WrappedPackageIsMisread(more: Idents, name: Ident, rest: string)
    requires more.Valid() && more.Count() == 3 && name.Valid()
    ensures
      var pkg := Plain(Seg(Letters(294967296), more));
      && pkg.Valid() && !pkg.Readable()
      && Package(pkg.Spell(SpellIdent(name, rest))) != Got(pkg.Name(), SpellIdent(name, rest))
  {
    var pkg := Plain(Seg(Letters(294967296), more));
    LettersEncoded(294967296);
    PowerOfWrapping();
    assert Greedy(4, 294967296) == WORD;
    PackageRoundTrip(pkg, name, rest);
  }
}
