/** Everything the demangler takes for a symbol, as a grammar: each predicate relates a mangled form to the text shown
    for it and mentions no parser.  Beyond the spelled symbols it has identifiers whose length is written with leading
    zeros or is too large by a multiple of two to the 32, empty identifiers, and identifiers with a zero byte, which
    ends their name. */
module MangleForms {
  import opened MangleGrammar
  import opened MangleReading
  import opened MangleRoundTrip

  // ---------------------------------------------------------- numbers, identifiers

  predicate DigitsOnly(d: string) {
    d != "" && forall c :: c in d ==> IsDigit(c)
  }

  /** The number written by `d` behind a number `v`. */
  function ValueOf(d: string, v: nat): nat
    decreases |d|
  {
    if d == "" then v else ValueOf(d[1..], v * 10 + (if IsDigit(d[0]) then (d[0] - '0') as nat else 0))
  }

  /** Pieces of any kind; unlike those of a valid identifier they may stand for a zero byte. */
  predicate PieceSpelled(p: Piece) {
    match p
    case Raw(c) => c != '_'
    case Underscore => true
    case Hex(hi, lo) => IsHex(hi) && IsHex(lo)
  }

  function Character(p: Piece): char
    requires PieceSpelled(p)
  {
    match p
    case Raw(c) => c
    case Underscore => '_'
    case Hex(hi, lo) => (Nibble(hi) * 16 + Nibble(lo)) as char
  }

  predicate Spelled(id: Ident) {
    id.Piece? ==> PieceSpelled(id.head) && Spelled(id.tail)
  }

  function AllCharacters(id: Ident): string
    requires Spelled(id)
  {
    if id.End? then "" else [Character(id.head)] + AllCharacters(id.tail)
  }

  /** `name` is `all` up to its first zero byte. */
  predicate UpToZero(all: string, name: string) {
    name <= all && '\0' !in name && (|name| < |all| ==> all[|name|] == '\0')
  }

  predicate IdentParts(w: string, name: string, d: string, id: Ident) {
    && DigitsOnly(d) && Spelled(id) && w == d + id.Encoded() && |id.Encoded()| == ValueOf(d, 0) % WORD
    && (id.Encoded() != "" ==> !IsDigit(id.Encoded()[0]))
    && UpToZero(AllCharacters(id), name)
  }

  /** A length and that many characters of spelling. */
  ghost predicate IsIdent(w: string, name: string) {
    exists d, id :: IdentParts(w, name, d, id)
  }

  lemma {:induction false} ValueWraps(d: string, a: nat, b: nat)
    requires a % U32 == b % U32
    ensures ValueOf(d, a) % U32 == ValueOf(d, b) % U32
    decreases |d|
  {
    if d != "" {
      var x := if IsDigit(d[0]) then (d[0] - '0') as nat else 0;
      WrapStep(a, x);
      WrapStep(b, x);
      ValueWraps(d[1..], a * 10 + x, b * 10 + x);
    }
  }

  lemma OneMoreDigit(c: char, e: string, v: nat)
    requires IsDigit(c) && (e == "" || DigitsOnly(e))
    ensures DigitsOnly([c] + e)
    ensures ValueOf([c] + e, v) % U32 == ValueOf(e, (v * 10 + (c - '0') as nat) % U32) % U32
  {
    var x := (c - '0') as nat;
    assert ([c] + e)[1..] == e;
    ValueWraps(e, (v * 10 + x) % U32, v * 10 + x);
  }

  lemma {:induction false} ReadsDigits(s: string, v: nat) returns (d: string)
    requires v < U32
    ensures s == d + Digits(s, v).rest && !AtDigit(Digits(s, v).rest)
    ensures if AtDigit(s) then DigitsOnly(d) else d == ""
    ensures Digits(s, v).value == ValueOf(d, v) % U32
    decreases |s|
  {
    hide DigitsOnly;
    if AtDigit(s) {
      hide ValueOf;
      var e := ReadsDigits(s[1..], (v * 10 + (s[0] - '0') as nat) % U32);
      d := [s[0]] + e;
      OneMoreDigit(s[0], e, v);
      Cut(s, s[0]);
      Chained(s, [s[0]], s[1..], e, Digits(s, v).rest);
    } else {
      d := "";
    }
  }

  /** The piece in front, and what decoding goes on with. */
  lemma FirstPiece(s: string, out: string) returns (p: Piece, t: string)
    requires s != "" && Decode(s, out).Got?
    ensures PieceSpelled(p) && s == p.Spelling() + t && |t| < |s|
    ensures Decode(s, out) == Decode(t, out + [Character(p)])
  {
    if s[0] != '_' {
      p, t := Raw(s[0]), s[1..];
    } else if s[1] == '_' {
      p, t := Underscore, s[2..];
    } else {
      p, t := Hex(s[1], s[2]), s[3..];
      assert HexValue(s[1]) == Nibble(s[1]) && HexValue(s[2]) == Nibble(s[2]);
    }
  }

  lemma {:induction false} ReadsPieces(s: string, out: string) returns (id: Ident)
    requires Decode(s, out).Got?
    ensures Spelled(id) && id.Encoded() == s && Decode(s, out).value == out + AllCharacters(id)
    decreases |s|
  {
    hide Decode, PieceSpelled, Character, Piece.Spelling;
    if s == "" {
      id := End;
      DecodesNothing(out);
    } else {
      var p, t := FirstPiece(s, out);
      var tail := ReadsPieces(t, out + [Character(p)]);
      id := Piece(p, tail);
      assert out + [Character(p)] + AllCharacters(tail) == out + AllCharacters(id);
    }
  }

  lemma DecodesNothing(out: string)
    ensures Decode("", out) == Got(out + "", "")
  {
    assert out + "" == out;
  }

  lemma {:induction false} CutAtZero(s: string)
    ensures UpToZero(s, CString(s))
  {
    if s != "" && s[0] != '\0' {
      CutAtZero(s[1..]);
      assert s == [s[0]] + s[1..];
    }
  }

  lemma Chained(s: string, a: string, t: string, b: string, u: string)
    requires s == a + t && t == b + u
    ensures s == (a + b) + u
  {
  }

  lemma IdentifierParts(s: string) returns (n: nat, t: string, all: string)
    requires Identifier(s).Got?
    ensures AtDigit(s) && n <= |t| && Digits(s, 0) == Got(n, t)
    ensures Decode(t[..n], "") == Got(all, "") && Identifier(s) == Got(CString(all), t[n..])
  {
    n, t := Number(s).value, Number(s).rest;
    all := Decode(t[..n], "").value;
  }

  lemma ReadsIdent(s: string) returns (w: string)
    requires Identifier(s).Got?
    ensures s == w + Identifier(s).rest && IsIdent(w, Identifier(s).value) && AtDigit(s) && w != ""
  {
    hide Identifier, Decode, Digits, CString, ValueOf, Spelled, AllCharacters, UpToZero;
    var n, t, all := IdentifierParts(s);
    var d := ReadsDigits(s, 0);
    var id := ReadsPieces(t[..n], "");
    assert all == AllCharacters(id);
    CutAtZero(all);
    w := d + t[..n];
    Chained(s, d, t, t[..n], t[n..]);
    assert t[..n] != "" ==> t[..n][0] == Head(t);
    assert IdentParts(w, Identifier(s).value, d, id);
  }

  // ------------------------------------------------------------------- packages

  /** `k` identifiers, shown with slashes between them. */
  ghost predicate IsIdents(w: string, k: nat, text: string)
    decreases k
  {
    if k == 0 then w == "" && text == ""
    else if k == 1 then IsIdent(w, text)
    else exists a, x, b, y :: IsIdent(a, x) && IsIdents(b, k - 1, y) && w == a + b && text == x + "/" + y
  }

  /** The builtin package, or a count of one digit and that many segments, marked or not as part of the core. */
  ghost predicate IsPackage(w: string, text: string) {
    || (w == "PB" && text == "moonbitlang/core/builtin")
    || exists c: nat, v, t :: IsIdents(v, c, t) && PackageParts(w, text, c, v, t)
  }

  predicate PackageParts(w: string, text: string, c: nat, v: string, t: string) {
    && c < 10
    && (|| (w == "P" + [Digit(c)] + v && text == t)
        || (w == "PC" + [Digit(c)] + v && text == if t == "" then "moonbitlang/core" else "moonbitlang/core/" + t))
  }

  lemma ConsIdents(a: string, x: string, b: string, k: nat, y: string)
    requires IsIdent(a, x) && IsIdents(b, k, y)
    ensures IsIdents(a + b, k + 1, if k == 0 then x else x + "/" + y)
  {
    hide IsIdent;
    if k == 0 {
      assert a + b == a;
    }
  }

  lemma {:induction false} ReadsIdents(s: string, count: nat, i: nat, out: string) returns (w: string, text: string)
    requires Segments(s, count, i, out).Got? && i <= count
    ensures s == w + Segments(s, count, i, out).rest && IsIdents(w, count - i, text)
    ensures Segments(s, count, i, out).value == if i == count then out else (if i > 0 then out + "/" else out) + text
    ensures i == count ==> text == ""
    decreases count - i
  {
    hide Identifier, IsIdent, IsIdents;
    if i == count {
      w, text := "", "";
      NoIdents();
    } else {
      var a := ReadsIdent(s);
      var x, t := Identifier(s).value, Identifier(s).rest;
      var sep := if i > 0 then out + "/" else out;
      var b, y := ReadsIdents(t, count, i + 1, sep + x);
      w, text := a + b, if i + 1 == count then x else x + "/" + y;
      ConsIdents(a, x, b, count - i - 1, y);
      Chained(s, a, t, b, Segments(t, count, i + 1, sep + x).rest);
      ThreeTexts(sep, x, "/", y);
    }
  }

  lemma NoIdents()
    ensures IsIdents("", 0, "")
  {
  }

  lemma ThreeTexts(a: string, b: string, c: string, d: string)
    ensures a + b + c + d == a + (b + c + d)
  {
  }

  /** In front of an identifier, only the reading with one digit is left. */
  lemma ReadsCounted(s: string) returns (c: nat, v: string, t: string)
    requires Counted(s).Got? && AtDigit(Counted(s).rest)
    ensures c < 10 && IsIdents(v, c, t) && s == [Digit(c)] + v + Counted(s).rest && Counted(s).value == t
  {
    hide Segments, Digits, IsIdents;
    var d := ReadsDigits(s, 0);
    NoSegments(Number(s).rest, Number(s).value);
    c := (s[0] - '0') as nat;
    v, t := ReadsIdents(s[1..], c, 0, "");
    NothingCounted(s[1..]);
    assert "" + t == t;
    Chained(s, [s[0]], s[1..], v, Counted(s).rest);
  }

  lemma NothingCounted(s: string)
    ensures Segments(s, 0, 0, "") == Got("", s)
  {
  }

  lemma ReadsPackage(s: string) returns (w: string)
    requires Package(s).Got? && AtDigit(Package(s).rest)
    ensures s == w + Package(s).rest && IsPackage(w, Package(s).value)
  {
    hide Counted, IsIdents;
    if Head(s[1..]) == 'B' {
      w := "PB";
    } else if Head(s[1..]) == 'C' {
      var c, v, t := ReadsCounted(s[2..]);
      w := "PC" + [Digit(c)] + v;
      Marked("PC", [Digit(c)], v, Package(s).rest);
      assert PackageParts(w, Package(s).value, c, v, t);
    } else {
      var c, v, t := ReadsCounted(s[1..]);
      w := "P" + [Digit(c)] + v;
      Marked("P", [Digit(c)], v, Package(s).rest);
      assert PackageParts(w, Package(s).value, c, v, t);
    }
  }

  lemma Marked(mark: string, c: string, v: string, rest: string)
    ensures mark + (c + v + rest) == mark + c + v + rest
  {
  }

  /** A package and an identifier. */
  ghost predicate IsNamed(w: string, p: string, n: string) {
    exists a, b :: IsPackage(a, p) && IsIdent(b, n) && w == a + b
  }

  lemma ReadsNamed(s: string) returns (w: string)
    requires Package(s).Got? && Identifier(Package(s).rest).Got?
    ensures s == w + Identifier(Package(s).rest).rest && IsNamed(w, Package(s).value, Identifier(Package(s).rest).value)
  {
    var b := ReadsIdent(Package(s).rest);
    var a := ReadsPackage(s);
    w := a + b;
  }

  ghost predicate IsPath(w: string, text: string) {
    exists a, p, n :: IsNamed(a, p, n) && PathParts(w, text, a, p, n)
  }

  /** The name alone, or with a local name behind it. */
  ghost predicate PathParts(w: string, text: string, a: string, p: string, n: string) {
    || (w == a && text == Qualified(p, n))
    || exists b, l :: IsIdent(b, l) && w == a + "L" + b && text == Qualified(p, n + "." + l)
  }

  lemma ReadsPath(s: string, out: string) returns (w: string, r: string)
    requires TypePath(s, out).Got?
    ensures s == w + TypePath(s, out).rest && TypePath(s, out).value == out + r && IsPath(w, r)
  {
    hide Package, Identifier, IsNamed, IsIdent, Qualified;
    var a := ReadsNamed(s);
    var p := Package(s).value;
    var n, u := Identifier(Package(s).rest).value, Identifier(Package(s).rest).rest;
    if Head(u) == 'L' {
      var b := ReadsIdent(u[1..]);
      var l := Identifier(u[1..]).value;
      w, r := a + "L" + b, Qualified(p, n + "." + l);
      assert u == "L" + u[1..];
      AtIsQualified(out, p, n + "." + l);
      assert PathParts(w, r, a, p, n);
    } else {
      w, r := a, Qualified(p, n);
      AtIsQualified(out, p, n);
      assert PathParts(w, r, a, p, n);
    }
  }

  // ---------------------------------------------------------------------- types

  ghost predicate IsType(w: string, r: string)
    decreases |w|, 1
  {
    || (exists p: Prim :: w == [Code(p)] && r == Label(p))
    || (exists v, q :: |v| < |w| && IsType(v, q) && BracketParts(w, r, v, q))
    || (exists v, q :: |v| < |w| && IsTypes(v, q) && w == "U" + v + "E" && r == "(" + q + ")")
    || IsFn(w, r)
    || (exists v, q :: |v| < |w| && IsFn(v, q) && w == "V" + v && r == "async " + q)
    || IsRef(w, r)
  }

  predicate BracketParts(w: string, r: string, v: string, q: string) {
    || (w == "A" + v && r == "FixedArray[" + q + "]")
    || (w == "O" + v && r == "Option[" + q + "]")
  }

  /** Types one after the other, shown with commas between them. */
  ghost predicate IsTypes(w: string, r: string)
    decreases |w|, 2
  {
    || (w == "" && r == "")
    || IsType(w, r)
    || exists a, x, b, y ::
         |a| < |w| && |b| < |w| && IsType(a, x) && IsTypes(b, y) && w == a + b && r == x + ", " + y
  }

  /** A raise clause behind its mark, or none. */
  ghost predicate IsRaise(mark: char, w: string, r: string)
    decreases |w|, 2
  {
    || (w == "" && r == "")
    || exists v, q :: |v| < |w| && IsType(v, q) && w == [mark] + v && r == " raise " + q
  }

  /** Parameters, result, and a raise clause or none. */
  ghost predicate IsFn(w: string, r: string)
    decreases |w|, 0
  {
    exists a, x, b, y, c, z ::
      && |a| < |w| && |b| < |w| && |c| < |w|
      && IsTypes(a, x) && IsType(b, y) && IsRaise('Q', c, z)
      && w == "W" + a + "E" + b + c && r == "(" + x + ") -> " + y + z
  }

  /** Type arguments in brackets, and a raise clause or none. */
  ghost predicate IsArgs(w: string, r: string)
    decreases |w|, 0
  {
    exists a, x, c, z ::
      |a| < |w| && |c| < |w| && IsTypes(a, x) && IsRaise('H', c, z) && w == "G" + a + "E" + c && r == "[" + x + "]" + z
  }

  ghost predicate IsRef(w: string, r: string)
    decreases |w|, 0
  {
    exists a, x, b, y ::
      IsPath(a, x) && |b| < |w| && ((b == "" && y == "") || IsArgs(b, y)) && w == "R" + a + b && r == x + y
  }

  // ------------------------------------------------------- what each parser reads

  lemma WrappedForm(v: string, q: string)
    requires IsType(v, q)
    ensures IsType("A" + v, "FixedArray[" + q + "]") && IsType("O" + v, "Option[" + q + "]")
  {
    hide IsType, IsTypes, IsFn, IsRef;
    BracketForm("A" + v, "FixedArray[" + q + "]", v, q);
    BracketForm("O" + v, "Option[" + q + "]", v, q);
  }

  lemma BracketForm(w: string, r: string, v: string, q: string)
    requires IsType(v, q) && |v| < |w| && BracketParts(w, r, v, q)
    ensures IsType(w, r)
  {
    hide BracketParts, IsTypes, IsFn, IsRef;
  }

  lemma TupleForm(v: string, q: string)
    requires IsTypes(v, q)
    ensures IsType("U" + v + "E", "(" + q + ")")
  {
    hide BracketParts, IsTypes, IsFn, IsRef;
  }

  lemma AsyncForm(v: string, q: string)
    requires IsFn(v, q)
    ensures IsType("V" + v, "async " + q)
  {
    hide BracketParts, IsTypes, IsFn, IsRef;
  }

  lemma PlainForms(w: string, r: string)
    ensures IsFn(w, r) || IsRef(w, r) ==> IsType(w, r)
    ensures forall p: Prim :: w == [Code(p)] && r == Label(p) ==> IsType(w, r)
    ensures IsType(w, r) ==> IsTypes(w, r)
  {
    hide BracketParts, IsFn, IsRef;
  }

  lemma FnForm(a: string, x: string, b: string, y: string, c: string, z: string)
    requires IsTypes(a, x) && IsType(b, y) && IsRaise('Q', c, z)
    ensures IsFn("W" + a + "E" + b + c, "(" + x + ") -> " + y + z)
  {
    hide IsTypes, IsType, IsRaise;
  }

  lemma ArgsForm(a: string, x: string, c: string, z: string)
    requires IsTypes(a, x) && IsRaise('H', c, z)
    ensures IsArgs("G" + a + "E" + c, "[" + x + "]" + z)
  {
    hide IsTypes, IsType, IsRaise;
  }

  lemma RefForm(a: string, x: string, b: string, y: string)
    requires IsPath(a, x) && ((b == "" && y == "") || IsArgs(b, y))
    ensures IsRef("R" + a + b, x + y)
  {
    hide IsArgs, IsPath;
  }

  lemma RaiseForm(mark: char, v: string, q: string)
    requires IsType(v, q)
    ensures IsRaise(mark, [mark] + v, " raise " + q) && IsRaise(mark, "", "")
  {
    hide IsType;
  }

  lemma NoRaiseForm(mark: char)
    ensures IsRaise(mark, "", "") && IsTypes("", "")
  {
    hide IsType;
  }

  lemma ListForm(a: string, x: string, b: string, y: string)
    requires IsType(a, x) && IsTypes(b, y) && a != "" && b != ""
    ensures IsTypes(a + b, x + ", " + y)
  {
    hide IsType;
  }

  lemma Continued(out: string, text: string, r: string, close: string)
    requires text == out + r
    ensures text + close == out + (r + close)
  {
  }

  lemma Further(out: string, p: string, text: string, r: string)
    requires text == out + p + r
    ensures text == out + (p + r)
  {
  }

  lemma Cut(s: string, c: char)
    requires s != "" && s[0] == c
    ensures s == [c] + s[1..]
  {
  }

  /** The common shape: a mark in front of what is read. */
  lemma Led(s: string, c: char, w: string, rest: string)
    requires s != "" && s[0] == c && s[1..] == w + rest
    ensures s == ([c] + w) + rest
  {
    Cut(s, c);
  }

  lemma {:induction false} ReadsType(s: string, out: string) returns (w: string, r: string)
    requires TypeArg(s, out).Got?
    ensures s == w + TypeArg(s, out).rest && TypeArg(s, out).value == out + r && IsType(w, r) && w != ""
    decreases |s|, 1
  {
    hide IsType, IsTypes, IsFn, IsRef, IsArgs, IsRaise, IsPath, Wrapped, Closed, FnType, TypeRef;
    match Head(s)
    case 'A' =>
      w, r := ReadsBrackets(s, 'A', "FixedArray[", out);
    case 'O' =>
      w, r := ReadsBrackets(s, 'O', "Option[", out);
    case 'U' =>
      var v, q := ReadsClosed(s[1..], out + "(", ")");
      w, r := "U" + v + "E", "(" + q + ")";
      TupleForm(v, q);
      Led(s, 'U', v + "E", TypeArg(s, out).rest);
      Further(out, "(", TypeArg(s, out).value, q + ")");
    case 'V' =>
      var v, q := ReadsFn(s[1..], out, true);
      w, r := "V" + v, "async " + q;
      AsyncForm(v, q);
      Led(s, 'V', v, TypeArg(s, out).rest);
      Further(out, "async ", TypeArg(s, out).value, q);
    case 'W' =>
      w, r := ReadsFn(s, out, false);
      PlainForms(w, r);
    case 'R' =>
      w, r := ReadsRef(s, out);
      PlainForms(w, r);
    case _ =>
      w, r := [s[0]], PrimName(s[0]);
      NamesPrim(s[0]);
      PlainForms(w, r);
      Cut(s, s[0]);
  }

  lemma NamesPrim(c: char)
    requires PrimName(c) != ""
    ensures exists p: Prim :: Code(p) == c && Label(p) == PrimName(c)
  {
    var p :=
      match c
      case 'i' => Int case 'l' => Int64 case 'h' => Int16 case 'j' => UInt case 'k' => UInt16
      case 'm' => UInt64 case 'd' => Double case 'f' => Float case 'b' => Bool case 'c' => Char
      case 's' => String case 'u' => Unit case 'y' => Byte case 'z' => Bytes case _ => V128;
    assert Code(p) == c && Label(p) == PrimName(c);
  }

  lemma {:induction false} ReadsBrackets(s: string, c: char, open: string, out: string) returns (w: string, r: string)
    requires s != "" && s[0] == c && Wrapped(s[1..], out + open).Got?
    requires (c == 'A' && open == "FixedArray[") || (c == 'O' && open == "Option[")
    ensures s == w + Wrapped(s[1..], out + open).rest && Wrapped(s[1..], out + open).value == out + r
    ensures IsType(w, r) && w != ""
    decreases |s|, 0
  {
    hide IsType, TypeArg;
    var v, q := ReadsType(s[1..], out + open);
    var text := TypeArg(s[1..], out + open).value;
    w, r := [c] + v, open + q + "]";
    WrappedForm(v, q);
    Led(s, c, v, Wrapped(s[1..], out + open).rest);
    Further(out, open, text, q);
    Continued(out, text, open + q, "]");
  }

  lemma {:induction false} ReadsTypes(s: string, out: string, first: bool) returns (w: string, r: string)
    requires TypeList(s, out, first).Got?
    ensures s == w + TypeList(s, out, first).rest && IsTypes(w, r)
    ensures TypeList(s, out, first).value == if w == "" then out else (if first then out else out + ", ") + r
    ensures w == "" ==> r == ""
    decreases |s|, 2
  {
    hide IsType, IsTypes, TypeArg;
    if Head(s) == '\0' || Head(s) == 'E' {
      w, r := "", "";
      NoRaiseForm('Q');
    } else {
      var start := if first then out else out + ", ";
      var a, x := ReadsType(s, start);
      var text, t := TypeArg(s, start).value, TypeArg(s, start).rest;
      var b, y := ReadsTypes(t, text, false);
      PlainForms(a, x);
      Chained(s, a, t, b, TypeList(s, out, first).rest);
      w := a + b;
      if b == "" {
        r := x;
        assert w == a;
      } else {
        r := x + ", " + y;
        ListForm(a, x, b, y);
        ThreeTexts(start, x, ", ", y);
      }
    }
  }

  lemma {:induction false} ReadsClosed(s: string, out: string, close: string) returns (v: string, q: string)
    requires Closed(s, out, close).Got?
    ensures s == (v + "E") + Closed(s, out, close).rest && IsTypes(v, q)
    ensures Closed(s, out, close).value == out + (q + close)
    decreases |s|, 3
  {
    hide IsTypes, TypeList;
    v, q := ReadsTypes(s, out, true);
    var text, t := TypeList(s, out, true).value, TypeList(s, out, true).rest;
    Cut(t, 'E');
    Chained(s, v, t, "E", t[1..]);
    assert out + "" == out;
    Continued(out, text, q, close);
  }

  lemma {:induction false} ReadsRaise(s: string, mark: char, out: string) returns (w: string, r: string)
    requires RaiseClause(s, mark, out).Got?
    ensures s == w + RaiseClause(s, mark, out).rest && RaiseClause(s, mark, out).value == out + r && IsRaise(mark, w, r)
    decreases |s|, 2
  {
    hide IsRaise, IsType, TypeArg;
    if Head(s) != mark || s == "" {
      w, r := "", "";
      NoRaiseForm(mark);
      assert out + "" == out;
    } else {
      var v, q := ReadsType(s[1..], out + " raise ");
      w, r := [mark] + v, " raise " + q;
      RaiseForm(mark, v, q);
      Led(s, mark, v, RaiseClause(s, mark, out).rest);
      Further(out, " raise ", RaiseClause(s, mark, out).value, q);
    }
  }

  /** What a function type adds behind the text so far, and behind `async`. */
  lemma {:induction false} ReadsFn(s: string, out: string, async: bool) returns (w: string, r: string)
    requires FnType(s, out, async).Got?
    ensures s == w + FnType(s, out, async).rest && IsFn(w, r) && w != ""
    ensures FnType(s, out, async).value == (if async then out + "async " else out) + r
    decreases |s|, 0
  {
    hide IsFn, IsTypes, IsType, IsRaise, Closed, TypeArg, RaiseClause;
    var start := if async then out + "async " else out;
    var a, x := ReadsClosed(s[1..], start + "(", ") -> ");
    var text, t := Closed(s[1..], start + "(", ") -> ").value, Closed(s[1..], start + "(", ") -> ").rest;
    var b, y := ReadsType(t, text);
    var full, u := TypeArg(t, text).value, TypeArg(t, text).rest;
    var c, z := ReadsRaise(u, 'Q', full);
    FnForm(a, x, b, y, c, z);
    w, r := "W" + a + "E" + b + c, "(" + x + ") -> " + y + z;
    FnTexts(s, a, t, b, u, c, FnType(s, out, async).rest);
    FnShown(start, x, y, z);
  }

  lemma FnTexts(s: string, a: string, t: string, b: string, u: string, c: string, rest: string)
    requires s != "" && s[0] == 'W' && s[1..] == (a + "E") + t && t == b + u && u == c + rest
    ensures s == ("W" + a + "E" + b + c) + rest
  {
    Led(s, 'W', a + "E", t);
    assert "W" + (a + "E") == "W" + a + "E";
    Chained(s, "W" + a + "E", t, b, u);
    Chained(s, "W" + a + "E" + b, u, c, rest);
  }

  lemma FnShown(start: string, x: string, y: string, z: string)
    ensures start + "(" + (x + ") -> ") + y + z == start + ("(" + x + ") -> " + y + z)
  {
  }

  lemma {:induction false} ReadsArgs(s: string, out: string) returns (w: string, r: string)
    requires Head(s) == 'G' && TypeArgs(s, out).Got?
    ensures s == w + TypeArgs(s, out).rest && TypeArgs(s, out).value == out + r && IsArgs(w, r)
    decreases |s|, 3
  {
    hide IsArgs, IsTypes, IsRaise, Closed, RaiseClause;
    var a, x := ReadsClosed(s[1..], out + "[", "]");
    var text, t := Closed(s[1..], out + "[", "]").value, Closed(s[1..], out + "[", "]").rest;
    var c, z := ReadsRaise(t, 'H', text);
    ArgsForm(a, x, c, z);
    w, r := "G" + a + "E" + c, "[" + x + "]" + z;
    Led(s, 'G', a + "E", t);
    assert "G" + (a + "E") == "G" + a + "E";
    Chained(s, "G" + a + "E", t, c, TypeArgs(s, out).rest);
    ArgsShown(out, x, z);
  }

  lemma ArgsShown(out: string, x: string, z: string)
    ensures out + "[" + (x + "]") + z == out + ("[" + x + "]" + z)
  {
  }

  lemma {:induction false} ReadsRef(s: string, out: string) returns (w: string, r: string)
    requires TypeRef(s, out).Got?
    ensures s == w + TypeRef(s, out).rest && TypeRef(s, out).value == out + r && IsRef(w, r) && w != ""
    decreases |s|, 0
  {
    hide IsRef, IsPath, IsArgs, TypePath, TypeArgs;
    var a, x := ReadsPath(s[1..], out);
    var text, t := TypePath(s[1..], out).value, TypePath(s[1..], out).rest;
    Led(s, 'R', a, t);
    if Head(t) == 'G' {
      var b, y := ReadsArgs(t, text);
      RefForm(a, x, b, y);
      w, r := "R" + a + b, x + y;
      Chained(s, "R" + a, t, b, TypeRef(s, out).rest);
      Continued(out, text, x, y);
    } else {
      RefForm(a, x, "", "");
      w, r := "R" + a, x;
      assert "R" + a + "" == w && x + "" == r;
    }
  }
}
