/** Symbols as a grammar over mangled form and shown text, and the converse of the round trip: whatever is shown
    differently from its name is such a symbol. */
module MangleSymbolForms {
  import opened MangleGrammar
  import opened MangleReading
  import opened MangleRoundTrip
  import opened MangleForms

  // --------------------------------------------------------- the tail of functions

  /** Lifted functions, outermost first; their numbers are not shown. */
  ghost predicate IsLifted(w: string, r: string)
    decreases |w|
  {
    || (w == "" && r == "")
    || exists a, x, d, b, y ::
         |b| < |w| && IsIdent(a, x) && DigitsOnly(d) && IsLifted(b, y) && w == "N" + a + "S" + d + b && r == "." + x + y
  }

  /** A closure, of which at most the line is shown. */
  ghost predicate IsClosure(w: string, r: string) {
    || (w == "" && r == "")
    || (exists d :: DigitsOnly(d) && w == "C" + d && r == ".anon")
    || (exists d, l :: DigitsOnly(d) && DigitsOnly(l) && w == "C" + d + "l" + l && r == ".anon(l" + l + ")")
  }

  ghost predicate IsSuffixes(w: string, r: string) {
    exists a, x, b, y :: IsLifted(a, x) && IsClosure(b, y) && w == a + b && r == x + y
  }

  /** Type arguments, a raise clause alone, or nothing. */
  ghost predicate IsFnArgs(w: string, r: string) {
    IsRaise('H', w, r) || IsArgs(w, r)
  }

  /** Suffixes shown as `x`, type arguments shown as `y` and suffixes shown as `z`. */
  ghost predicate IsTail(w: string, x: string, y: string, z: string) {
    exists a, b, c :: IsSuffixes(a, x) && IsFnArgs(b, y) && IsSuffixes(c, z) && w == a + b + c
  }

  // -------------------------------------------------------------------- symbols

  ghost predicate IsFunction(w: string, r: string) {
    exists a, p, n, t, x, y, z ::
      IsNamed(a, p, n) && IsTail(t, x, y, z) && w == "F" + a + t && r == Qualified(p, n) + x + y + z
  }

  ghost predicate IsMethod(w: string, r: string) {
    exists a, p, o, b, n, t, x, y, z ::
      && IsNamed(a, p, o) && IsIdent(b, n) && IsTail(t, x, y, z)
      && w == "M" + a + b + t && r == Qualified(p, o) + "::" + n + x + y + z
  }

  /** The interface comes second and is shown first; type arguments belong to the implementing type. */
  ghost predicate IsImpl(w: string, r: string) {
    exists a, i, b, f, c, n, t, x, y, z ::
      && IsPath(a, i) && IsPath(b, f) && IsIdent(c, n) && IsTail(t, x, y, z)
      && w == "I" + a + b + c + t && r == "impl " + f + " for " + i + y + " with " + n + x + z
  }

  /** The owner's package is shown only when it is neither empty nor part of the core. */
  ghost predicate IsExtension(w: string, r: string) {
    exists a, p, o, b, q, n, t, x, y, z ::
      && IsNamed(a, p, o) && IsNamed(b, q, n) && IsTail(t, x, y, z) && w == "E" + a + b + t
      && r == Qualified(q, (if OfCore(p) then o else p + "." + o) + "::" + n) + x + y + z
  }

  predicate OfCore(p: string) {
    p == "" || p == "moonbitlang/core" || "moonbitlang/core/" <= p
  }

  ghost predicate IsTypeSymbol(w: string, r: string) {
    exists a, x :: IsPath(a, x) && w == "T" + a && r == x
  }

  /** A local; a leading `$` of its name is not shown. */
  ghost predicate IsLocal(w: string, r: string) {
    exists a, n, d ::
      && IsIdent(a, n) && DigitsOnly(d) && (w == "L" + a + "S" + d || w == "Lm" + a + "S" + d)
      && r == "@" + if n != "" && n[0] == '$' then n[1..] else n
  }

  ghost predicate IsSymbol(w: string, r: string) {
    || IsFunction(w, r) || IsMethod(w, r) || IsImpl(w, r) || IsExtension(w, r) || IsTypeSymbol(w, r) || IsLocal(w, r)
  }

  // ------------------------------------------------------ what the suffixes read

  lemma {:induction false} ReadsSpan(s: string)
    requires Span(s).Got?
    ensures s == Span(s).value + Span(s).rest && DigitsOnly(Span(s).value)
    decreases |s|
  {
    if Span(s[1..]).Got? {
      ReadsSpan(s[1..]);
    }
    Cut(s, s[0]);
  }

  lemma LiftedForm(a: string, x: string, d: string, b: string, y: string)
    requires IsIdent(a, x) && DigitsOnly(d) && IsLifted(b, y)
    ensures IsLifted("N" + a + "S" + d + b, "." + x + y)
  {
    hide IsIdent, DigitsOnly;
  }

  lemma ReadsLiftedPart(s: string) returns (a: string, d: string)
    requires LiftedPart(s).Got?
    ensures IsIdent(a, LiftedPart(s).value) && DigitsOnly(d) && s == (a + "S" + d) + LiftedPart(s).rest
  {
    hide Identifier, Span, IsIdent, DigitsOnly;
    a := ReadsIdent(s);
    var t := Identifier(s).rest;
    ReadsSpan(t[1..]);
    d := Span(t[1..]).value;
    Led(t, 'S', d, Span(t[1..]).rest);
    Chained(s, a, t, "S" + d, Span(t[1..]).rest);
    assert a + ("S" + d) == a + "S" + d;
  }

  lemma {:induction false} ReadsLifted(s: string, out: string) returns (w: string, r: string)
    requires LiftedSuffixes(s, out).Got?
    ensures s == w + LiftedSuffixes(s, out).rest && LiftedSuffixes(s, out).value == out + r && IsLifted(w, r)
    decreases |s|
  {
    hide LiftedPart, IsIdent, DigitsOnly, IsLifted;
    if Head(s) != 'N' {
      w, r := "", "";
      NoSuffixForms();
      assert out + "" == out;
    } else {
      var a, d := ReadsLiftedPart(s[1..]);
      var x, t := LiftedPart(s[1..]).value, LiftedPart(s[1..]).rest;
      var b, y := ReadsLifted(t, out + "." + x);
      LiftedForm(a, x, d, b, y);
      w, r := "N" + a + "S" + d + b, "." + x + y;
      Led(s, 'N', a + "S" + d, t);
      Chained(s, "N" + (a + "S" + d), t, b, LiftedSuffixes(s, out).rest);
      assert "N" + (a + "S" + d) == "N" + a + "S" + d;
      ThreeTexts(out, ".", x, y);
    }
  }

  lemma NoSuffixForms()
    ensures IsLifted("", "") && IsClosure("", "")
  {
  }

  lemma ReadsClosure(s: string, out: string) returns (w: string, r: string)
    requires ClosureSuffix(s, out).Got?
    ensures s == w + ClosureSuffix(s, out).rest && ClosureSuffix(s, out).value == out + r && IsClosure(w, r)
  {
    hide Span, DigitsOnly;
    if Head(s) != 'C' {
      w, r := "", "";
      assert out + "" == out;
    } else {
      ReadsSpan(s[1..]);
      var d, t := Span(s[1..]).value, Span(s[1..]).rest;
      Led(s, 'C', d, t);
      if Head(t) != 'l' {
        w, r := "C" + d, ".anon";
      } else {
        ReadsSpan(t[1..]);
        var l := Span(t[1..]).value;
        w, r := "C" + d + "l" + l, ".anon(l" + l + ")";
        Led(t, 'l', l, Span(t[1..]).rest);
        Chained(s, "C" + d, t, "l" + l, Span(t[1..]).rest);
        assert "C" + d + ("l" + l) == w;
        ThreeTexts(out, ".anon(l", l, ")");
      }
    }
  }

  lemma ReadsSuffixes(s: string, out: string) returns (w: string, r: string)
    requires FnSuffixes(s, out).Got?
    ensures s == w + FnSuffixes(s, out).rest && FnSuffixes(s, out).value == out + r && IsSuffixes(w, r)
  {
    hide LiftedSuffixes, ClosureSuffix, IsLifted, IsClosure;
    var a, x := ReadsLifted(s, out);
    var text, t := LiftedSuffixes(s, out).value, LiftedSuffixes(s, out).rest;
    var b, y := ReadsClosure(t, text);
    w, r := a + b, x + y;
    Chained(s, a, t, b, FnSuffixes(s, out).rest);
    Continued(out, text, x, y);
  }

  lemma ReadsFnArgs(s: string, out: string) returns (w: string, r: string)
    requires TypeArgs(s, out).Got?
    ensures s == w + TypeArgs(s, out).rest && TypeArgs(s, out).value == out + r && IsFnArgs(w, r)
  {
    hide IsRaise, IsArgs, IsType, TypeArg, Closed;
    if Head(s) == 'G' {
      w, r := ReadsArgs(s, out);
    } else if Head(s) == 'H' {
      assert TypeArgs(s, out) == RaiseClause(s, 'H', out);
      w, r := ReadsRaise(s, 'H', out);
    } else {
      w, r := "", "";
      NoRaiseForm('H');
      assert out + "" == out;
    }
  }

  lemma TailForm(a: string, x: string, b: string, y: string, c: string, z: string)
    requires IsSuffixes(a, x) && IsFnArgs(b, y) && IsSuffixes(c, z)
    ensures IsTail(a + b + c, x, y, z)
  {
    hide IsSuffixes, IsFnArgs;
  }

  lemma ReadsTail(s: string, out: string) returns (w: string, x: string, y: string, z: string)
    requires FnTail(s, out).Got?
    ensures s == w + FnTail(s, out).rest && FnTail(s, out).value == out + x + y + z && IsTail(w, x, y, z)
  {
    hide FnSuffixes, TypeArgs, IsSuffixes, IsFnArgs, IsTail;
    var a, b, c;
    a, x := ReadsSuffixes(s, out);
    var text, t := FnSuffixes(s, out).value, FnSuffixes(s, out).rest;
    b, y := ReadsFnArgs(t, text);
    var full, u := TypeArgs(t, text).value, TypeArgs(t, text).rest;
    c, z := ReadsSuffixes(u, full);
    TailForm(a, x, b, y, c, z);
    w := a + b + c;
    Chained(s, a, t, b, u);
    Chained(s, a + b, u, c, FnTail(s, out).rest);
  }

  lemma ReadsImplTail(s: string) returns (w: string, x: string, y: string, z: string)
    requires ImplTail(s).Got?
    ensures s == w + ImplTail(s).rest && ImplTail(s).value == (y, x + z) && IsTail(w, x, y, z)
  {
    hide FnSuffixes, TypeArgs, IsSuffixes, IsFnArgs, IsTail;
    var a, b, c;
    a, x := ReadsSuffixes(s, "");
    var before, t := FnSuffixes(s, "").value, FnSuffixes(s, "").rest;
    b, y := ReadsFnArgs(t, "");
    var u := TypeArgs(t, "").rest;
    c, z := ReadsSuffixes(u, before);
    TailForm(a, x, b, y, c, z);
    w := a + b + c;
    Chained(s, a, t, b, u);
    Chained(s, a + b, u, c, ImplTail(s).rest);
    assert "" + x == x && "" + y == y;
  }

  // ------------------------------------------------------------- what each tag reads

  lemma ReadsPackageAndName(s: string) returns (a: string)
    requires PackageAndName(s).Got?
    ensures s == a + PackageAndName(s).rest && IsNamed(a, PackageAndName(s).value.0, PackageAndName(s).value.1)
  {
    hide Package, Identifier, IsNamed;
    a := ReadsNamed(s);
  }

  lemma ReadsFunction(s: string) returns (w: string)
    requires TagF(s).Got?
    ensures s == w + TagF(s).rest && IsFunction("F" + w, TagF(s).value)
  {
    hide PackageAndName, FnTail, IsNamed, IsTail, Qualified, At;
    var a := ReadsPackageAndName(s);
    var p, n, t := PackageAndName(s).value.0, PackageAndName(s).value.1, PackageAndName(s).rest;
    var b, x, y, z := ReadsTail(t, At("", p, n));
    AtIsQualified("", p, n);
    assert "" + Qualified(p, n) == Qualified(p, n);
    w := a + b;
    Chained(s, a, t, b, TagF(s).rest);
    assert "F" + w == "F" + a + b;
  }

  lemma ReadsMethod(s: string) returns (w: string)
    requires TagM(s).Got?
    ensures s == w + TagM(s).rest && IsMethod("M" + w, TagM(s).value)
  {
    hide PackageAndName, Identifier, FnTail, IsNamed, IsIdent, IsTail, Qualified, At;
    var a := ReadsPackageAndName(s);
    var p, o, t := PackageAndName(s).value.0, PackageAndName(s).value.1, PackageAndName(s).rest;
    var b := ReadsIdent(t);
    var n, u := Identifier(t).value, Identifier(t).rest;
    var c, x, y, z := ReadsTail(u, At("", p, o) + "::" + n);
    AtIsQualified("", p, o);
    assert "" + Qualified(p, o) == Qualified(p, o);
    w := a + b + c;
    Chained(s, a, t, b, u);
    Chained(s, a + b, u, c, TagM(s).rest);
    assert "M" + w == "M" + a + b + c;
  }

  lemma ImplForm(a: string, i: string, b: string, f: string, c: string, n: string,
                 t: string, x: string, y: string, z: string)
    requires IsPath(a, i) && IsPath(b, f) && IsIdent(c, n) && IsTail(t, x, y, z)
    ensures IsImpl("I" + (a + b + c + t), "impl " + f + " for " + i + y + " with " + n + (x + z))
  {
    hide IsPath, IsIdent, IsTail;
    assert "I" + (a + b + c + t) == "I" + a + b + c + t;
    ThreeTexts("impl " + f + " for " + i + y + " with " + n, x, z, "");
  }

  lemma ReadsImpl(s: string) returns (w: string)
    requires TagI(s).Got?
    ensures s == w + TagI(s).rest && IsImpl("I" + w, TagI(s).value)
  {
    hide TypePath, Identifier, ImplTail, IsPath, IsIdent, IsTail, IsImpl;
    var a, i := ReadsPath(s, "");
    var t := TypePath(s, "").rest;
    var b, f := ReadsPath(t, "");
    var u := TypePath(t, "").rest;
    var c := ReadsIdent(u);
    var n, v := Identifier(u).value, Identifier(u).rest;
    var d, x, y, z := ReadsImplTail(v);
    assert "" + i == i && "" + f == f;
    ImplForm(a, i, b, f, c, n, d, x, y, z);
    w := a + b + c + d;
    Chained(s, a, t, b, u);
    Chained(s, a + b, u, c, v);
    Chained(s, a + b + c, v, d, TagI(s).rest);
  }

  lemma CoreIsOfCore(p: string)
    ensures IsCore(p) || p == "" <==> OfCore(p)
  {
    if "moonbitlang/core" <= p && |p| > 16 {
      assert "moonbitlang/core/" <= p <==> p[16] == '/';
    }
  }

  lemma ExtensionShown(q: string, p: string, o: string, n: string)
    ensures (var out := if q == "" then "@" else "@" + q + ".";
             (if IsCore(p) || p == "" then out else out + p + ".") + o + "::" + n)
         == Qualified(q, (if OfCore(p) then o else p + "." + o) + "::" + n)
  {
    hide IsCore, OfCore;
    CoreIsOfCore(p);
  }

  lemma ReadsExtension(s: string) returns (w: string)
    requires TagE(s).Got?
    ensures s == w + TagE(s).rest && IsExtension("E" + w, TagE(s).value)
  {
    hide PackageAndName, FnTail, IsNamed, IsTail, Qualified, IsCore, OfCore;
    var a := ReadsPackageAndName(s);
    var p, o, t := PackageAndName(s).value.0, PackageAndName(s).value.1, PackageAndName(s).rest;
    var b := ReadsPackageAndName(t);
    var q, n, u := PackageAndName(t).value.0, PackageAndName(t).value.1, PackageAndName(t).rest;
    ExtensionShown(q, p, o, n);
    var c, x, y, z := ReadsTail(u, Qualified(q, (if OfCore(p) then o else p + "." + o) + "::" + n));
    w := a + b + c;
    Chained(s, a, t, b, u);
    Chained(s, a + b, u, c, TagE(s).rest);
    assert "E" + w == "E" + a + b + c;
  }

  lemma ReadsTypeSymbol(s: string) returns (w: string)
    requires TypePath(s, "").Got?
    ensures s == w + TypePath(s, "").rest && IsTypeSymbol("T" + w, TypePath(s, "").value)
  {
    hide TypePath, IsPath;
    var x;
    w, x := ReadsPath(s, "");
    assert "" + x == x;
  }

  lemma LocalForm(a: string, n: string, d: string)
    requires IsIdent(a, n) && DigitsOnly(d)
    ensures IsLocal("L" + (a + "S" + d), "@" + if n != "" && n[0] == '$' then n[1..] else n)
    ensures IsLocal("L" + ("m" + (a + "S" + d)), "@" + if n != "" && n[0] == '$' then n[1..] else n)
  {
    hide IsIdent, DigitsOnly;
    assert "L" + (a + "S" + d) == "L" + a + "S" + d;
    assert "L" + ("m" + (a + "S" + d)) == "Lm" + a + "S" + d;
  }

  lemma ReadsLocal(s: string) returns (w: string)
    requires TagL(s).Got?
    ensures s == w + TagL(s).rest && IsLocal("L" + w, TagL(s).value)
  {
    hide Identifier, Span, IsIdent, DigitsOnly, IsLocal;
    var t := if Head(s) == 'm' then s[1..] else s;
    var a := ReadsIdent(t);
    var n, u := Identifier(t).value, Identifier(t).rest;
    ReadsSpan(u[1..]);
    var d := Span(u[1..]).value;
    LocalForm(a, n, d);
    Led(u, 'S', d, Span(u[1..]).rest);
    Chained(t, a, u, "S" + d, TagL(s).rest);
    assert a + ("S" + d) == a + "S" + d;
    if Head(s) == 'm' {
      w := "m" + (a + "S" + d);
      Led(s, 'm', a + "S" + d, TagL(s).rest);
    } else {
      w := a + "S" + d;
    }
  }

  lemma ReadsSymbol(s: string) returns (w: string)
    requires Tagged(s).Got?
    ensures s == w + Tagged(s).rest && IsSymbol(w, Tagged(s).value)
  {
    hide TagF, TagM, TagI, TagE, TagL, TypePath, IsFunction, IsMethod, IsImpl, IsExtension, IsTypeSymbol, IsLocal;
    var v;
    match s[0] {
      case 'F' => v := ReadsFunction(s[1..]);
      case 'M' => v := ReadsMethod(s[1..]);
      case 'I' => v := ReadsImpl(s[1..]);
      case 'E' => v := ReadsExtension(s[1..]);
      case 'T' => v := ReadsTypeSymbol(s[1..]);
      case _ => v := ReadsLocal(s[1..]);
    }
    w := [s[0]] + v;
    Led(s, s[0], v, Tagged(s).rest);
  }

  // --------------------------------------------------------------------- the result

  /** Whatever is shown differently from its name is a symbol with its mark in front and, behind it, nothing or one
      of the three marks that symbols are continued with. */
  lemma ShownIsSymbol(name: string) returns (w: string, rest: string)
    requires Demangle(name) != name
    ensures name == "_M0" + w + rest || name == "$_M0" + w + rest
    ensures IsSymbol(w, Demangle(name))
    ensures rest == "" || rest[0] == '.' || rest[0] == '$' || rest[0] == '@'
  {
    hide Demangle, Tagged, Stops, IsSymbol;
    var t := BehindTheMark(name);
    w := ReadsSymbol(t);
    rest := Tagged(t).rest;
    Behind("_M0", t, w, rest);
    Behind("$_M0", t, w, rest);
    MarksWrittenOut(rest);
  }

  lemma BehindTheMark(name: string) returns (t: string)
    requires Demangle(name) != name
    ensures name == "_M0" + t || name == "$_M0" + t
    ensures Tagged(t).Got? && Demangle(name) == Tagged(t).value && Stops(Tagged(t).rest)
  {
    hide Tagged, Stops;
    var s := if Head(name) == '$' then name[1..] else name;
    t := s[3..];
    assert s == "_M0" + t;
    if Head(name) == '$' {
      Cut(name, '$');
      assert "$" + ("_M0" + t) == "$_M0" + t;
    }
  }

  lemma Behind(mark: string, t: string, w: string, rest: string)
    requires t == w + rest
    ensures mark + t == mark + w + rest
  {
  }

  lemma MarksWrittenOut(rest: string)
    requires Stops(rest)
    ensures rest == "" || rest[0] == '.' || rest[0] == '$' || rest[0] == '@'
  {
  }

  /** A name without the mark in front, as any C function has, comes back unchanged. */
  lemma OtherNamesUnchanged(name: string)
    requires !("_M0" <= name) && !("$_M0" <= name)
    ensures Demangle(name) == name
  {
    hide Tagged;
    if Head(name) == '$' {
      Cut(name, '$');
    }
  }
}
