/** Reading a mangled type gives its rendering back and stops where the mangled form ends. */
module MangleRoundTrip {
  import opened MangleGrammar
  import opened MangleReading

  // ------------------------------------------------------- numbers, identifiers

  lemma WrapStep(a: nat, d: nat)
    ensures (a % U32 * 10 + d) % U32 == (a * 10 + d) % U32
  {
    var q := a / U32;
    assert a * 10 + d == (a % U32 * 10 + d) + q * 10 * U32;
    WrapMultiple(a % U32 * 10 + d, q * 10);
  }

  lemma {:induction false} WrapMultiple(a: nat, k: nat)
    ensures (a + k * U32) % U32 == a % U32
  {
    if k > 0 {
      WrapMultiple(a, k - 1);
      assert a + k * U32 == (a + (k - 1) * U32) + U32;
    }
  }

  lemma TimesTen(v: nat, p: nat)
    ensures v * (10 * p) == v * p * 10
  {
  }

  lemma PowerStep(v: nat, n: nat)
    requires n >= 10
    ensures (v * Power(n / 10) + n / 10) * 10 + n % 10 == v * Power(n) + n
  {
    TimesTen(v, Power(n / 10));
  }

  lemma AppendDigit(v: nat, n: nat)
    requires n >= 10
    ensures ((v * Power(n / 10) + n / 10) % U32 * 10 + n % 10) % U32 == (v * Power(n) + n) % U32
  {
    WrapStep(v * Power(n / 10) + n / 10, n % 10);
    PowerStep(v, n);
  }

  lemma OneDigit(d: nat, rest: string, v: nat)
    requires d < 10
    ensures Digits([Digit(d)] + rest, v) == Digits(rest, (v * 10 + d) % U32)
  {
    assert ([Digit(d)] + rest)[1..] == rest;
  }

  /** Decimal digits after a value `v` read so far. */
  lemma {:induction false} DigitsOfDecimal(n: nat, rest: string, v: nat)
    ensures Digits(Decimal(n, rest), v % U32) == Digits(rest, (v * Power(n) + n) % U32)
    decreases n
  {
    if n < 10 {
      OneDigit(n, rest, v % U32);
      WrapStep(v, n);
    } else {
      DigitsOfDecimal(n / 10, [Digit(n % 10)] + rest, v);
      OneDigit(n % 10, rest, (v * Power(n / 10) + n / 10) % U32);
      AppendDigit(v, n);
    }
  }

  lemma {:induction false} DecimalStartsWithDigit(n: nat, rest: string)
    ensures Decimal(n, rest) != "" && AtDigit(Decimal(n, rest))
    decreases n
  {
    if n >= 10 {
      DecimalStartsWithDigit(n / 10, [Digit(n % 10)] + rest);
    }
  }

  lemma {:induction false} DecodeEncoded(id: Ident, out: string)
    requires id.Pieces()
    ensures Decode(id.Encoded(), out) == Got(out + id.Name(), "")
  {
    if id.End? {
      assert out + "" == out;
    } else {
      var s := id.Encoded();
      var n := |id.head.Spelling()|;
      assert s[n..] == id.tail.Encoded();
      DecodePiece(id.head, s, out);
      DecodeEncoded(id.tail, out + [id.head.Meaning()]);
      assert out + [id.head.Meaning()] + id.tail.Name() == out + id.Name();
    }
  }

  lemma DecodePiece(p: Piece, s: string, out: string)
    requires p.Valid() && p.Spelling() <= s
    ensures Decode(s, out) == Decode(s[|p.Spelling()|..], out + [p.Meaning()])
  {
    match p
    case Raw(_) => assert s[0] == p.Spelling()[0];
    case Underscore => assert s[0] == p.Spelling()[0] && s[1] == p.Spelling()[1];
    case Hex(hi, lo) =>
      assert s[0] == p.Spelling()[0] && s[1] == p.Spelling()[1] && s[2] == p.Spelling()[2];
      assert HexValue(hi) == Nibble(hi) && HexValue(lo) == Nibble(lo);
  }

  lemma {:induction false} NameIsCString(id: Ident)
    requires id.Pieces()
    ensures CString(id.Name()) == id.Name()
  {
    if id.Piece? {
      NameIsCString(id.tail);
      assert id.Name()[1..] == id.tail.Name();
    }
  }

  lemma EncodedStart(id: Ident)
    requires id.Valid()
    ensures id.Encoded() != "" && !AtDigit(id.Encoded()) && id.Name() != ""
  {
  }

  lemma SmallRemainder(n: nat)
    requires n < WORD
    ensures (0 * Power(n) + n) % U32 == n
  {
  }

  lemma LengthRead(n: nat, rest: string)
    requires n < WORD && !AtDigit(rest)
    ensures Number(Decimal(n, rest)) == Got(n, rest)
  {
    DecimalStartsWithDigit(n, rest);
    DigitsOfDecimal(n, rest, 0);
    SmallRemainder(n);
  }

  /** An identifier is read back whole, whatever follows it. */
  lemma IdentifierRoundTrip(id: Ident, rest: string)
    requires id.Valid()
    ensures Identifier(SpellIdent(id, rest)) == Got(id.Name(), rest)
  {
    var e := id.Encoded();
    var t := e + rest;
    EncodedStart(id);
    assert Head(t) == Head(e);
    LengthRead(|e|, t);
    assert t[..|e|] == e && t[|e|..] == rest;
    DecodeEncoded(id, "");
    NameIsCString(id);
    assert "" + id.Name() == id.Name();
  }

  // ------------------------------------------------------------------- packages

  lemma {:induction false} SegmentsRoundTrip(ids: Idents, rest: string, i: nat, out: string)
    requires ids.Valid()
    ensures Segments(ids.Spell(rest), i + ids.Count(), i, out) == Got(ids.Joined(out, i == 0), rest)
    decreases ids
  {
    if ids.Seg? {
      IdentifierRoundTrip(ids.head, ids.tail.Spell(rest));
      var sep := if i > 0 then out + "/" else out;
      SegmentsRoundTrip(ids.tail, rest, i + 1, sep + ids.head.Name());
    }
  }

  /** The identifier right behind a one-digit count. */
  function Next(ids: Idents, name: Ident): Ident {
    if ids.Seg? then ids.head else name
  }

  lemma NextSpelling(ids: Idents, name: Ident, rest: string) returns (more: string)
    requires ids.Valid() && name.Valid()
    ensures ids.Spell(SpellIdent(name, rest)) == SpellIdent(Next(ids, name), more)
  {
    more := if ids.Seg? then ids.tail.Spell(SpellIdent(name, rest)) else rest;
  }

  /** Taking every digit ahead for the count reads the greedy number and stops at the next identifier. */
  lemma GreedyCount(count: nat, id: Ident, more: string)
    requires count < 10 && id.Valid()
    ensures Number([Digit(count)] + SpellIdent(id, more)) ==
            Got(Greedy(count, |id.Encoded()|) % U32, id.Encoded() + more)
  {
    var t := id.Encoded() + more;
    var s := [Digit(count)] + SpellIdent(id, more);
    assert s[1..] == SpellIdent(id, more);
    DigitsOfDecimal(|id.Encoded()|, t, count);
    EncodedStart(id);
    assert Head(t) == Head(id.Encoded());
  }

  /** Segments cannot start where no digit is. */
  lemma NoSegments(s: string, count: nat)
    requires !AtDigit(s)
    ensures Segments(s, count, 0, "") == if count == 0 then Got("", s) else Fail
  {
  }

  /** A one-digit count and its segments are read exactly when the greedy number does not wrap to zero.  When it
      does, the greedy reading succeeds with no segment at all, and no identifier follows. */
  lemma CountedRoundTrip(ids: Idents, name: Ident, rest: string)
    requires ids.Valid() && ids.Count() < 10 && name.Valid()
    ensures
      var s := [Digit(ids.Count())] + ids.Spell(SpellIdent(name, rest));
      if Greedy(ids.Count(), |Next(ids, name).Encoded()|) % U32 != 0
      then Counted(s) == Got(ids.Joined("", true), SpellIdent(name, rest))
      else Counted(s).Got? && Identifier(Counted(s).rest) == Fail
  {
    var next := Next(ids, name);
    var more := NextSpelling(ids, name, rest);
    var s := [Digit(ids.Count())] + ids.Spell(SpellIdent(name, rest));
    assert s[1..] == ids.Spell(SpellIdent(name, rest));
    GreedyCount(ids.Count(), next, more);
    var t := next.Encoded() + more;
    EncodedStart(next);
    assert Head(t) == Head(next.Encoded());
    NoSegments(t, Greedy(ids.Count(), |next.Encoded()|) % U32);
    SegmentsRoundTrip(ids, SpellIdent(name, rest), 0, "");
  }

  lemma {:induction false} JoinedNotEmpty(ids: Idents, out: string, first: bool)
    requires ids.Valid()
    ensures out != "" || ids.Seg? ==> ids.Joined(out, first) != ""
    decreases ids
  {
    if ids.Seg? {
      EncodedStart(ids.head);
      JoinedNotEmpty(ids.tail, (if first then out else out + "/") + ids.head.Name(), false);
    }
  }

  /** An empty package has no wrapping greedy number: the length of the following identifier is below 2^32. */
  lemma EmptyUnwrapped(pkg: PackagePath, name: Ident)
    requires pkg.Valid() && !pkg.Builtin? && name.Valid()
    ensures pkg.Unwrapped() <==> Greedy(pkg.segs.Count(), |Next(pkg.segs, name).Encoded()|) % U32 != 0
  {
    if pkg.segs.NoIdent? {
      EncodedStart(name);
      assert Greedy(0, |name.Encoded()|) == |name.Encoded()|;
    }
  }

  lemma PackageMarks(s: string)
    ensures Package("PB" + s) == Got("moonbitlang/core/builtin", s)
    ensures Package("PC" + s) == match Counted(s)
      case Fail => Fail
      case Got(suffix, t) => Got(if suffix == "" then "moonbitlang/core" else "moonbitlang/core/" + suffix, t)
    ensures AtDigit(s) ==> Package("P" + s) == Counted(s)
  {
    assert ("PB" + s)[1..] == "B" + s && ("PB" + s)[2..] == s;
    assert ("PC" + s)[1..] == "C" + s && ("PC" + s)[2..] == s;
    assert ("P" + s)[1..] == s;
  }

  lemma OneDigitCount(n: nat, rest: string)
    requires n < 10
    ensures Decimal(n, rest) == [Digit(n)] + rest
  {
  }

  /** Up to nine segments: the package and the identifier after it are read back unless the greedy number wraps. */
  lemma OneDigitPackage(pkg: PackagePath, name: Ident, rest: string)
    requires pkg.Valid() && (pkg.Builtin? || pkg.segs.Count() < 10) && name.Valid()
    ensures
      var p := Package(pkg.Spell(SpellIdent(name, rest)));
      if pkg.Unwrapped() then p == Got(pkg.Name(), SpellIdent(name, rest))
      else p.Got? && Identifier(p.rest) == Fail
  {
    var tail := SpellIdent(name, rest);
    if pkg.Builtin? {
      PackageMarks(tail);
    } else {
      OneDigitCount(pkg.segs.Count(), pkg.segs.Spell(tail));
      PackageMarks(Decimal(pkg.segs.Count(), pkg.segs.Spell(tail)));
      CountedRoundTrip(pkg.segs, name, rest);
      EmptyUnwrapped(pkg, name);
      JoinedNotEmpty(pkg.segs, "", true);
    }
  }

  lemma PathRoundTrip(p: Path, rest: string, out: string)
    requires p.Valid()
    requires p.local.Absent? ==> Head(rest) != 'L'
    ensures TypePath(p.Spell(rest), out) == Got(out + p.Name(), rest)
  {
    var tail := if p.local.Absent? then rest else "L" + SpellIdent(p.local.id, rest);
    OneDigitPackage(p.pkg, p.name, tail);
    IdentifierRoundTrip(p.name, tail);
    if p.local.Local? {
      assert tail[1..] == SpellIdent(p.local.id, rest);
      IdentifierRoundTrip(p.local.id, rest);
    }
    AtIsQualified(out, p.pkg.Name(), if p.local.Absent? then p.name.Name() else p.name.Name() + "." + p.local.id.Name());
  }

  lemma AtIsQualified(out: string, package: string, name: string)
    ensures At(out, package, name) == out + Qualified(package, name)
  {
    assert out + "@" + name == out + ("@" + name);
    assert out + "@" + package + "." + name == out + ("@" + package + "." + name);
  }

  // ---------------------------------------------------------------------- types

  function First(t: Type): char {
    match t
    case Prim(p) => Code(p)
    case FixedArray(_) => 'A'
    case Option(_) => 'O'
    case Tuple(_) => 'U'
    case Fn(async, _, _, _) => if async then 'V' else 'W'
    case Ref(_, _) => 'R'
  }

  predicate StartsType(c: char) {
    c !in {'\0', 'E', 'G', 'H', 'L', 'Q', 'N', 'C'}
  }

  lemma SpellStart(t: Type, rest: string)
    requires Valid(t)
    ensures Spell(t, rest) != "" && Head(Spell(t, rest)) == First(t) && StartsType(First(t))
  {
  }

  lemma {:induction false} AbsorbsOnlyMarks(t: Type, c: char)
    requires Absorbs(t, c)
    ensures c in {'G', 'H', 'L', 'Q'}
  {
    match t
    case FixedArray(u) => AbsorbsOnlyMarks(u, c);
    case Option(u) => AbsorbsOnlyMarks(u, c);
    case Fn(_, _, r, NoRaise) => if c != 'Q' { AbsorbsOnlyMarks(r, c); }
    case Fn(_, _, _, Raises(e)) => AbsorbsOnlyMarks(e, c);
    case Ref(_, Bracketed(_, Raises(e))) => AbsorbsOnlyMarks(e, c);
    case _ =>
  }

  lemma PrimRoundTrip(p: Prim, rest: string, out: string)
    ensures TypeArg([Code(p)] + rest, out) == Got(out + Label(p), rest)
  {
    assert ([Code(p)] + rest)[1..] == rest;
  }

  /** Where each leading character leads. */
  lemma DispatchOne(s: string, out: string)
    ensures TypeArg("A" + s, out) == Wrapped(s, out + "FixedArray[")
    ensures TypeArg("O" + s, out) == Wrapped(s, out + "Option[")
    ensures TypeArg("U" + s, out) == Closed(s, out + "(", ")")
  {
    assert ("A" + s)[1..] == s;
    assert ("O" + s)[1..] == s;
    assert ("U" + s)[1..] == s;
  }

  lemma Dispatch(s: string, out: string)
    ensures TypeArg("V" + s, out) == FnType(s, out, true)
    ensures TypeArg("W" + s, out) == FnType("W" + s, out, false)
    ensures TypeArg("R" + s, out) == TypeRef("R" + s, out)
  {
    assert ("V" + s)[1..] == s;
  }

  /** The main result: a mangled type is read as its rendering, and the cursor stops right behind it, in front of
      any text the type would not absorb. */
  lemma {:induction false} TypeRoundTrip(t: Type, rest: string, out: string)
    requires Valid(t) && Settled(t) && !Absorbs(t, Head(rest))
    ensures TypeArg(Spell(t, rest), out) == Got(Render(t, out), rest)
    decreases t, 1
  {
    match t
    case Prim(p) => PrimRoundTrip(p, rest, out);
    case FixedArray(u) =>
      DispatchOne(Spell(u, rest), out);
      TypeRoundTrip(u, rest, out + "FixedArray[");
    case Option(u) =>
      DispatchOne(Spell(u, rest), out);
      TypeRoundTrip(u, rest, out + "Option[");
    case Tuple(ts) =>
      DispatchOne(SpellAll(ts, "E" + rest), out);
      ClosedRoundTrip(ts, rest, out + "(", ")");
    case Fn(_, _, _, _) => FnRoundTrip(t, rest, out);
    case Ref(_, _) => RefRoundTrip(t, rest, out);
  }

  lemma {:induction false} ListRoundTrip(ts: Types, rest: string, out: string, first: bool)
    requires AllValid(ts) && AllSettled(ts) && Head(rest) == 'E'
    ensures TypeList(SpellAll(ts, rest), out, first) == Got(RenderAll(ts, out, first), rest)
    decreases ts, 0
  {
    if ts.Cons? {
      var tail := SpellAll(ts.tail, rest);
      var text := if first then out else out + ", ";
      SpellStart(ts.head, tail);
      if ts.tail.Cons? {
        SpellStart(ts.tail.head, SpellAll(ts.tail.tail, rest));
      }
      if Absorbs(ts.head, Head(tail)) {
        AbsorbsOnlyMarks(ts.head, Head(tail));
      }
      TypeRoundTrip(ts.head, tail, text);
      ListRoundTrip(ts.tail, rest, Render(ts.head, text), false);
    }
  }

  lemma {:induction false} ClosedRoundTrip(ts: Types, rest: string, out: string, close: string)
    requires AllValid(ts) && AllSettled(ts)
    ensures Closed(SpellAll(ts, "E" + rest), out, close) == Got(RenderAll(ts, out, true) + close, rest)
    decreases ts, 1
  {
    ListRoundTrip(ts, "E" + rest, out, true);
    assert ("E" + rest)[1..] == rest;
  }

  lemma {:induction false} RaiseRoundTrip(e: Raise, mark: char, rest: string, out: string)
    requires RaiseValid(e) && RaiseSettled(e)
    requires if e.Raises? then !Absorbs(e.error, Head(rest)) else Head(rest) != mark
    ensures RaiseClause(SpellRaise(e, mark, rest), mark, out) == Got(RenderRaise(e, out), rest)
    decreases e, 0
  {
    if e.Raises? {
      assert ([mark] + Spell(e.error, rest))[1..] == Spell(e.error, rest);
      TypeRoundTrip(e.error, rest, out + " raise ");
    }
  }

  lemma {:induction false} FnRoundTrip(t: Type, rest: string, out: string)
    requires t.Fn? && Valid(t) && Settled(t) && !Absorbs(t, Head(rest))
    ensures TypeArg(Spell(t, rest), out) == Got(Render(t, out), rest)
    decreases t, 0
  {
    var tail := SpellRaise(t.raise, 'Q', rest);
    var body := SpellAll(t.params, "E" + Spell(t.result, tail));
    var text := (if t.async then out + "async " else out) + "(";
    assert "VW" + body == "V" + ("W" + body);
    Dispatch(if t.async then "W" + body else body, out);
    assert ("W" + body)[1..] == body;
    ClosedRoundTrip(t.params, Spell(t.result, tail), text, ") -> ");
    assert !Absorbs(t.result, Head(tail));
    var mid := RenderAll(t.params, text, true) + ") -> ";
    TypeRoundTrip(t.result, tail, mid);
    RaiseRoundTrip(t.raise, 'Q', rest, Render(t.result, mid));
  }

  lemma {:induction false} ArgsRoundTrip(a: Args, rest: string, out: string)
    requires a.Bracketed? && AllValid(a.types) && RaiseValid(a.raise)
    requires AllSettled(a.types) && RaiseSettled(a.raise)
    requires if a.raise.Raises? then !Absorbs(a.raise.error, Head(rest)) else Head(rest) != 'H'
    ensures TypeArgs("G" + SpellAll(a.types, "E" + SpellRaise(a.raise, 'H', rest)), out)
         == Got(RenderRaise(a.raise, RenderAll(a.types, out + "[", true) + "]"), rest)
    decreases a, 0
  {
    var tail := SpellRaise(a.raise, 'H', rest);
    var inner := SpellAll(a.types, "E" + tail);
    assert ("G" + inner)[1..] == inner;
    ClosedRoundTrip(a.types, tail, out + "[", "]");
    RaiseRoundTrip(a.raise, 'H', rest, RenderAll(a.types, out + "[", true) + "]");
  }

  lemma {:induction false} RefRoundTrip(t: Type, rest: string, out: string)
    requires t.Ref? && Valid(t) && Settled(t) && !Absorbs(t, Head(rest))
    ensures TypeArg(Spell(t, rest), out) == Got(Render(t, out), rest)
    decreases t, 0
  {
    if t.args.Bracketed? {
      var inner := "G" + SpellAll(t.args.types, "E" + SpellRaise(t.args.raise, 'H', rest));
      GenericRoundTrip(t.path, t.args, rest, out);
      Dispatch(t.path.Spell(inner), out);
    } else {
      assert ("R" + t.path.Spell(rest))[1..] == t.path.Spell(rest);
      Dispatch(t.path.Spell(rest), out);
      PathRoundTrip(t.path, rest, out);
    }
  }

  lemma {:induction false} GenericRoundTrip(p: Path, a: Args, rest: string, out: string)
    requires p.Valid() && a.Bracketed? && AllValid(a.types) && RaiseValid(a.raise)
    requires AllSettled(a.types) && RaiseSettled(a.raise)
    requires if a.raise.Raises? then !Absorbs(a.raise.error, Head(rest)) else Head(rest) != 'H'
    ensures TypeRef("R" + p.Spell("G" + SpellAll(a.types, "E" + SpellRaise(a.raise, 'H', rest))), out)
         == Got(RenderRaise(a.raise, RenderAll(a.types, out + p.Name() + "[", true) + "]"), rest)
    decreases a, 1
  {
    var inner := "G" + SpellAll(a.types, "E" + SpellRaise(a.raise, 'H', rest));
    assert ("R" + p.Spell(inner))[1..] == p.Spell(inner);
    PathRoundTrip(p, inner, out);
    ArgsRoundTrip(a, rest, out + p.Name());
  }
}
