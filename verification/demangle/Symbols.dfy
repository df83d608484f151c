/** Whole mangled symbols and the names shown for them. */
module MangleSymbols {
  import opened MangleGrammar
  import opened MangleReading
  import opened MangleRoundTrip
  import opened MangleSettle
  import opened MangleClauses

  predicate Numeral(s: string) {
    s != "" && forall i :: 0 <= i < |s| ==> IsDigit(s[i])
  }

  /** Functions lifted out of functions: a name and a number each. */
  datatype Lifted = NoLift | Lift(id: Ident, number: string, tail: Lifted) {
    predicate Valid() {
      Lift? ==> id.Valid() && Numeral(number) && tail.Valid()
    }

    function Spell(rest: string): string {
      if NoLift? then rest else "N" + SpellIdent(id, "S" + (number + tail.Spell(rest)))
    }

    function Render(out: string): string
      requires Valid()
    {
      if NoLift? then out else tail.Render(out + "." + id.Name())
    }
  }

  /** An anonymous function: a number, and a line that may be missing. */
  datatype Closure = NoClosure | Anon(uuid: string) | AnonAt(uuid: string, line: string) {
    predicate Valid() {
      match this
      case NoClosure => true
      case Anon(uuid) => Numeral(uuid)
      case AnonAt(uuid, line) => Numeral(uuid) && Numeral(line)
    }

    function Spell(rest: string): string {
      match this
      case NoClosure => rest
      case Anon(uuid) => "C" + (uuid + rest)
      case AnonAt(uuid, line) => "C" + (uuid + ("l" + (line + rest)))
    }

    function Render(out: string): string {
      match this
      case NoClosure => out
      case Anon(_) => out + ".anon"
      case AnonAt(_, line) => out + ".anon(l" + line + ")"
    }
  }

  datatype Suffixes = Suffixes(lifted: Lifted, closure: Closure) {
    predicate Valid() {
      lifted.Valid() && closure.Valid()
    }

    function Spell(rest: string): string {
      lifted.Spell(closure.Spell(rest))
    }

    function Render(out: string): string
      requires Valid()
    {
      closure.Render(lifted.Render(out))
    }
  }

  const NO_SUFFIXES := Suffixes(NoLift, NoClosure)

  /** Type arguments of a function; unlike a type's, a raise clause may stand alone. */
  datatype FnArgs = NoFnArgs | RaiseOnly(error: Type) | Generic(types: Types, raise: Raise) {
    predicate Valid() {
      match this
      case NoFnArgs => true
      case RaiseOnly(e) => MangleGrammar.Valid(e)
      case Generic(ts, e) => AllValid(ts) && RaiseValid(e)
    }

    /** No raise clause inside moves past a bracket. */
    predicate Readable() {
      match this
      case NoFnArgs => true
      case RaiseOnly(e) => MangleClauses.Readable(e)
      case Generic(ts, e) => AllReadable(ts) && RaiseReadable(e)
    }

    /** What is read of them. */
    function Settled(): FnArgs {
      match this
      case NoFnArgs => NoFnArgs
      case RaiseOnly(e) => RaiseOnly(Settle(e))
      case Generic(ts, e) => Generic(SettleAll(ts), SettleRaise(e))
    }

    function Spell(rest: string): string
      requires Valid()
    {
      match this
      case NoFnArgs => rest
      case RaiseOnly(e) => "H" + MangleGrammar.Spell(e, rest)
      case Generic(ts, e) => "G" + SpellAll(ts, "E" + SpellRaise(e, 'H', rest))
    }

    function Render(out: string): string
      requires Valid()
    {
      match this
      case NoFnArgs => out
      case RaiseOnly(e) => MangleGrammar.Render(e, out + " raise ")
      case Generic(ts, e) => RenderRaise(e, RenderAll(ts, out + "[", true) + "]")
    }
  }

  /** Suffixes, arguments, suffixes; without arguments all suffixes are the first ones. */
  datatype Tail = Tail(before: Suffixes, args: FnArgs, after: Suffixes) {
    predicate Valid() {
      before.Valid() && args.Valid() && after.Valid() && (args.NoFnArgs? ==> after == NO_SUFFIXES)
    }

    function Settled(): Tail {
      Tail(before, args.Settled(), after)
    }

    function Spell(rest: string): string
      requires Valid()
    {
      before.Spell(args.Spell(after.Spell(rest)))
    }

    function Render(out: string): string
      requires Valid()
    {
      after.Render(args.Render(before.Render(out)))
    }
  }

  datatype Symbol =
    | Function(pkg: PackagePath, name: Ident, tail: Tail)
    | Method(pkg: PackagePath, owner: Ident, name: Ident, tail: Tail)
    | Impl(impl: Path, iface: Path, name: Ident, tail: Tail)
    | Extension(pkg: PackagePath, owner: Ident, methodPkg: PackagePath, name: Ident, tail: Tail)
    | TypeSymbol(path: Path)
    | LocalSymbol(marked: bool, name: Ident, number: string)
  {
    predicate Valid() {
      match this
      case Function(p, n, t) => Named(p, n) && t.Valid()
      case Method(p, o, n, t) => Named(p, o) && n.Valid() && t.Valid()
      case Impl(i, f, n, t) => i.Valid() && f.Valid() && n.Valid() && t.Valid()
      case Extension(p, o, q, n, t) => Named(p, o) && Named(q, n) && t.Valid()
      case TypeSymbol(p) => p.Valid()
      case LocalSymbol(_, n, number) => n.Valid() && Numeral(number)
    }

    /** No raise clause in its type arguments moves past a bracket. */
    predicate Readable() {
      match this
      case TypeSymbol(_) => true
      case LocalSymbol(_, _, _) => true
      case _ => tail.args.Readable()
    }

    function Settled(): Symbol {
      match this
      case Function(p, n, t) => Function(p, n, t.Settled())
      case Method(p, o, n, t) => Method(p, o, n, t.Settled())
      case Impl(i, f, n, t) => Impl(i, f, n, t.Settled())
      case Extension(p, o, q, n, t) => Extension(p, o, q, n, t.Settled())
      case TypeSymbol(_) => this
      case LocalSymbol(_, _, _) => this
    }

    function Spell(rest: string): string
      requires Valid()
    {
      match this
      case Function(p, n, t) => "F" + p.Spell(SpellIdent(n, t.Spell(rest)))
      case Method(p, o, n, t) => "M" + p.Spell(SpellIdent(o, SpellIdent(n, t.Spell(rest))))
      case Impl(i, f, n, t) => "I" + i.Spell(f.Spell(SpellIdent(n, t.Spell(rest))))
      case Extension(p, o, q, n, t) => "E" + p.Spell(SpellIdent(o, q.Spell(SpellIdent(n, t.Spell(rest)))))
      case TypeSymbol(p) => "T" + p.Spell(rest)
      case LocalSymbol(marked, n, number) => "L" + ((if marked then "m" else "") + SpellIdent(n, "S" + (number + rest)))
    }

    function Render(): string
      requires Valid()
    {
      match this
      case Function(p, n, t) => t.Render(Qualified(p.Name(), n.Name()))
      case Method(p, o, n, t) => t.Render(Qualified(p.Name(), o.Name()) + "::" + n.Name())
      case Impl(i, f, n, t) =>
        "impl " + f.Name() + " for " + i.Name() + t.args.Render("") + " with " + n.Name()
        + t.after.Render(t.before.Render(""))
      case Extension(p, o, q, n, t) =>
        t.Render(Qualified(q.Name(), if InCore(p) then o.Name() else p.Name() + "." + o.Name()) + "::" + n.Name())
      case TypeSymbol(p) => p.Name()
      case LocalSymbol(_, n, _) => "@" + if n.Name()[0] == '$' then n.Name()[1..] else n.Name()
    }
  }

  predicate Named(p: PackagePath, n: Ident) {
    p.Valid() && p.Readable() && n.Valid()
  }

  /** Core packages, and the empty one, are not shown in front of an extended type. */
  predicate InCore(p: PackagePath)
    requires p.Valid()
  {
    p.Name() == "" || p.Name() == "moonbitlang/core" || "moonbitlang/core/" <= p.Name()
  }

  // ------------------------------------------------------------------- suffixes

  lemma {:induction false} SpanRoundTrip(n: string, rest: string)
    requires Numeral(n) && !AtDigit(rest)
    ensures Span(n + rest) == Got(n, rest)
  {
    assert (n + rest)[1..] == n[1..] + rest;
    if |n| == 1 {
      assert n + rest == n + rest && n[1..] + rest == rest;
      assert n == [n[0]];
    } else {
      assert Numeral(n[1..]);
      SpanRoundTrip(n[1..], rest);
      assert n == [n[0]] + n[1..];
    }
  }

  /** What may follow suffixes: not a digit, and nothing a suffix goes on with. */
  predicate EndsSuffix(s: string) {
    !AtDigit(s) && Head(s) !in {'N', 'C', 'l'}
  }

  lemma ClosureRoundTrip(c: Closure, rest: string, out: string)
    requires c.Valid() && EndsSuffix(rest)
    ensures ClosureSuffix(c.Spell(rest), out) == Got(c.Render(out), rest)
  {
    match c
    case NoClosure =>
    case Anon(uuid) =>
      assert c.Spell(rest)[1..] == uuid + rest;
      SpanRoundTrip(uuid, rest);
    case AnonAt(uuid, line) =>
      var more := "l" + (line + rest);
      assert c.Spell(rest)[1..] == uuid + more;
      assert more[1..] == line + rest;
      SpanRoundTrip(uuid, more);
      SpanRoundTrip(line, rest);
  }

  lemma {:induction false} LiftedRoundTrip(l: Lifted, rest: string, out: string)
    requires l.Valid() && !AtDigit(rest) && Head(rest) != 'N'
    ensures LiftedSuffixes(l.Spell(rest), out) == Got(l.Render(out), rest)
    decreases l
  {
    if l.Lift? {
      var next := l.tail.Spell(rest);
      var more := "S" + (l.number + next);
      assert l.Spell(rest)[1..] == SpellIdent(l.id, more);
      IdentifierRoundTrip(l.id, more);
      assert more[1..] == l.number + next;
      SpanRoundTrip(l.number, next);
      LiftedRoundTrip(l.tail, rest, out + "." + l.id.Name());
    }
  }

  lemma SuffixesRoundTrip(f: Suffixes, rest: string, out: string)
    requires f.Valid() && EndsSuffix(rest)
    ensures FnSuffixes(f.Spell(rest), out) == Got(f.Render(out), rest)
  {
    LiftedRoundTrip(f.lifted, f.closure.Spell(rest), out);
    ClosureRoundTrip(f.closure, rest, f.lifted.Render(out));
  }

  // ------------------------------------------------------------ tails, symbols

  /** Type arguments are read as their settled form. */
  lemma FnArgsRead(a: FnArgs, rest: string, out: string)
    requires a.Valid() && Head(rest) !in {'G', 'H', 'L', 'Q'}
    ensures a.Settled().Valid() && TypeArgs(a.Spell(rest), out) == Got(a.Settled().Render(out), rest)
  {
    match a
    case NoFnArgs =>
    case RaiseOnly(e) =>
      if Absorbs(Settle(e), Head(rest)) { AbsorbsOnlyMarks(Settle(e), Head(rest)); }
      assert a.Spell(rest)[1..] == MangleGrammar.Spell(e, rest);
      ReadsSettled(e, rest, out + " raise ");
    case Generic(ts, e) =>
      SettleKeepsRaise(e, 'H', rest);
      SettleKeepsAll(ts, "E" + SpellRaise(e, 'H', rest));
      SettleSettlesAll(ts);
      if e.Raises? {
        SettleSettles(e.error);
        if Absorbs(Settle(e.error), Head(rest)) { AbsorbsOnlyMarks(Settle(e.error), Head(rest)); }
      }
      ArgsRoundTrip(Bracketed(SettleAll(ts), SettleRaise(e)), rest, out);
  }

  /** What is read of type arguments agrees with their rendering while they are readable, and comes apart otherwise. */
  lemma FnArgsRendered(a: FnArgs, same: bool, x: string, y: string)
    requires a.Valid() && Agree(same, x, y)
    ensures a.Settled().Valid() && Agree(same && a.Readable(), a.Render(x), a.Settled().Render(y))
  {
    hide Apart, Agree;
    match a
    case NoFnArgs =>
    case RaiseOnly(e) =>
      AgreeExtends(same, x, y, " raise ");
      SettledRendered(e, same, x + " raise ", y + " raise ");
    case Generic(ts, e) =>
      ListRendered(ts, same, x, y, "[", "]");
      RaiseRendered(e, same && AllReadable(ts), RenderAll(ts, x + "[", true) + "]",
                    RenderAll(SettleAll(ts), y + "[", true) + "]");
  }

  lemma {:induction false} LiftedRendered(l: Lifted, same: bool, x: string, y: string)
    requires l.Valid() && Agree(same, x, y)
    ensures Agree(same, l.Render(x), l.Render(y))
    decreases l
  {
    if l.Lift? {
      AgreeExtends(same, x, y, ".");
      AgreeExtends(same, x + ".", y + ".", l.id.Name());
      LiftedRendered(l.tail, same, x + "." + l.id.Name(), y + "." + l.id.Name());
    }
  }

  lemma SuffixesRendered(f: Suffixes, same: bool, x: string, y: string)
    requires f.Valid() && Agree(same, x, y)
    ensures Agree(same, f.Render(x), f.Render(y))
  {
    hide Agree;
    LiftedRendered(f.lifted, same, x, y);
    var a, b := f.lifted.Render(x), f.lifted.Render(y);
    match f.closure
    case NoClosure =>
    case Anon(_) => AgreeExtends(same, a, b, ".anon");
    case AnonAt(_, line) =>
      AgreeExtends(same, a, b, ".anon(l");
      AgreeExtends(same, a + ".anon(l", b + ".anon(l", line);
      AgreeExtends(same, a + ".anon(l" + line, b + ".anon(l" + line, ")");
  }

  lemma TailRendered(t: Tail, out: string)
    requires t.Valid()
    ensures t.Settled().Valid() && Agree(t.args.Readable(), t.Render(out), t.Settled().Render(out))
  {
    hide FnArgs.Valid, FnArgs.Render, FnArgs.Readable;
    var x := t.before.Render(out);
    FnArgsRendered(t.args, true, x, x);
    SuffixesRendered(t.after, t.args.Readable(), t.args.Render(x), t.args.Settled().Render(x));
  }

  lemma TailRead(t: Tail, rest: string, out: string)
    requires t.Valid() && Stops(rest)
    ensures t.Settled().Valid() && FnTail(t.Spell(rest), out) == Got(t.Settled().Render(out), rest)
  {
    SuffixesRoundTrip(t.before, t.args.Spell(t.after.Spell(rest)), out);
    FnArgsRead(t.args, t.after.Spell(rest), t.before.Render(out));
    SuffixesRoundTrip(t.after, rest, t.args.Settled().Render(t.before.Render(out)));
  }

  /** Suffixes and type arguments are read as their rendering exactly when the type arguments are readable. */
  lemma TailReadBackIff(t: Tail, rest: string, out: string)
    requires t.Valid() && Stops(rest)
    ensures FnTail(t.Spell(rest), out) == Got(t.Render(out), rest) <==> t.args.Readable()
  {
    TailRead(t, rest, out);
    TailRendered(t, out);
    if !t.args.Readable() {
      ApartDiffer(t.Render(out), t.Settled().Render(out));
    }
  }

  lemma ImplTailRead(t: Tail, rest: string)
    requires t.Valid() && Stops(rest)
    ensures t.Settled().Valid()
    ensures ImplTail(t.Spell(rest)) == Got((t.args.Settled().Render(""), t.after.Render(t.before.Render(""))), rest)
  {
    SuffixesRoundTrip(t.before, t.args.Spell(t.after.Spell(rest)), "");
    FnArgsRead(t.args, t.after.Spell(rest), "");
    SuffixesRoundTrip(t.after, rest, t.before.Render(""));
  }

  lemma NamedRoundTrip(p: PackagePath, n: Ident, rest: string)
    requires Named(p, n)
    ensures PackageAndName(p.Spell(SpellIdent(n, rest))) == Got((p.Name(), n.Name()), rest)
    ensures At("", p.Name(), n.Name()) == Qualified(p.Name(), n.Name())
  {
    OneDigitPackage(p, n, rest);
    IdentifierRoundTrip(n, rest);
    AtIsQualified("", p.Name(), n.Name());
  }

  lemma FunctionRead(p: PackagePath, n: Ident, t: Tail, rest: string)
    requires Named(p, n) && t.Valid() && Stops(rest)
    ensures t.Settled().Valid()
    ensures TagF(p.Spell(SpellIdent(n, t.Spell(rest)))) == Got(t.Settled().Render(Qualified(p.Name(), n.Name())), rest)
  {
    NamedRoundTrip(p, n, t.Spell(rest));
    TailRead(t, rest, Qualified(p.Name(), n.Name()));
  }

  lemma MethodRead(p: PackagePath, o: Ident, n: Ident, t: Tail, rest: string)
    requires Named(p, o) && n.Valid() && t.Valid() && Stops(rest)
    ensures t.Settled().Valid()
    ensures TagM(p.Spell(SpellIdent(o, SpellIdent(n, t.Spell(rest)))))
         == Got(t.Settled().Render(Qualified(p.Name(), o.Name()) + "::" + n.Name()), rest)
  {
    NamedRoundTrip(p, o, SpellIdent(n, t.Spell(rest)));
    IdentifierRoundTrip(n, t.Spell(rest));
    TailRead(t, rest, Qualified(p.Name(), o.Name()) + "::" + n.Name());
  }

  lemma PathAlone(p: Path, rest: string)
    requires p.Valid() && Head(rest) != 'L'
    ensures TypePath(p.Spell(rest), "") == Got(p.Name(), rest)
  {
    PathRoundTrip(p, rest, "");
    assert "" + p.Name() == p.Name();
  }

  lemma ImplRead(i: Path, f: Path, n: Ident, t: Tail, rest: string)
    requires i.Valid() && f.Valid() && n.Valid() && t.Valid() && Stops(rest)
    ensures t.Settled().Valid()
    ensures TagI(i.Spell(f.Spell(SpellIdent(n, t.Spell(rest)))))
         == Got("impl " + f.Name() + " for " + i.Name() + t.args.Settled().Render("") + " with " + n.Name()
                + t.after.Render(t.before.Render("")), rest)
  {
    var tail := SpellIdent(n, t.Spell(rest));
    DecimalStartsWithDigit(|n.Encoded()|, n.Encoded() + t.Spell(rest));
    PathAlone(i, f.Spell(tail));
    PathAlone(f, tail);
    IdentifierRoundTrip(n, t.Spell(rest));
    ImplTailRead(t, rest);
  }

  lemma CoreCheck(p: PackagePath)
    requires p.Valid()
    ensures IsCore(p.Name()) || p.Name() == "" <==> InCore(p)
  {
    var core := "moonbitlang/core";
    assert |core| == 16;
    if IsCore(p.Name()) && |p.Name()| > 16 {
      assert p.Name()[..17] == core + "/";
    }
  }

  /** The two ways of putting the shown package in front of an extended type. */
  lemma ExtensionText(methodPkg: string, shown: bool, pkg: string, owner: string)
    ensures
      var out := if methodPkg == "" then "@" else "@" + methodPkg + ".";
      (if shown then out + pkg + "." else out) + owner
      == Qualified(methodPkg, if shown then pkg + "." + owner else owner)
  {
    var out := if methodPkg == "" then "@" else "@" + methodPkg + ".";
    assert out + pkg + "." + owner == out + (pkg + "." + owner);
  }

  lemma ExtensionRead(p: PackagePath, o: Ident, q: PackagePath, n: Ident, t: Tail, rest: string)
    requires Named(p, o) && Named(q, n) && t.Valid() && Stops(rest)
    ensures t.Settled().Valid()
    ensures TagE(p.Spell(SpellIdent(o, q.Spell(SpellIdent(n, t.Spell(rest))))))
         == Got(t.Settled().Render(Qualified(q.Name(), if InCore(p) then o.Name() else p.Name() + "." + o.Name())
                         + "::" + n.Name()), rest)
  {
    NamedRoundTrip(p, o, q.Spell(SpellIdent(n, t.Spell(rest))));
    NamedRoundTrip(q, n, t.Spell(rest));
    CoreCheck(p);
    ExtensionText(q.Name(), !InCore(p), p.Name(), o.Name());
    TailRead(t, rest,
      Qualified(q.Name(), if InCore(p) then o.Name() else p.Name() + "." + o.Name()) + "::" + n.Name());
  }

  lemma LocalRoundTrip(marked: bool, n: Ident, number: string, rest: string)
    requires n.Valid() && Numeral(number) && Stops(rest)
    ensures TagL((if marked then "m" else "") + SpellIdent(n, "S" + (number + rest)))
         == Got("@" + if n.Name()[0] == '$' then n.Name()[1..] else n.Name(), rest)
  {
    var tail := "S" + (number + rest);
    var s := SpellIdent(n, tail);
    DecimalStartsWithDigit(|n.Encoded()|, n.Encoded() + tail);
    assert ("m" + s)[1..] == s && "" + s == s;
    IdentifierRoundTrip(n, tail);
    assert tail[1..] == number + rest;
    SpanRoundTrip(number, rest);
  }

  /** Where a tag leads. */
  lemma TagOf(c: char, s: string)
    ensures Tagged([c] + s) ==
      match c
      case 'F' => TagF(s)
      case 'M' => TagM(s)
      case 'I' => TagI(s)
      case 'E' => TagE(s)
      case 'T' => TypePath(s, "")
      case 'L' => TagL(s)
      case _ => Fail
  {
  }

  lemma TaggedRead(sym: Symbol, rest: string)
    requires sym.Valid() && Stops(rest)
    ensures sym.Settled().Valid() && Tagged(sym.Spell(rest)) == Got(sym.Settled().Render(), rest)
  {
    match sym
    case Function(p, n, t) =>
      FunctionRead(p, n, t, rest);
      TagOf('F', p.Spell(SpellIdent(n, t.Spell(rest))));
    case Method(p, o, n, t) =>
      MethodRead(p, o, n, t, rest);
      TagOf('M', p.Spell(SpellIdent(o, SpellIdent(n, t.Spell(rest)))));
    case Impl(i, f, n, t) =>
      ImplRead(i, f, n, t, rest);
      TagOf('I', i.Spell(f.Spell(SpellIdent(n, t.Spell(rest)))));
    case Extension(p, o, q, n, t) =>
      ExtensionRead(p, o, q, n, t, rest);
      TagOf('E', p.Spell(SpellIdent(o, q.Spell(SpellIdent(n, t.Spell(rest))))));
    case TypeSymbol(p) =>
      PathAlone(p, rest);
      TagOf('T', p.Spell(rest));
    case LocalSymbol(marked, n, number) =>
      LocalRoundTrip(marked, n, number, rest);
      TagOf('L', (if marked then "m" else "") + SpellIdent(n, "S" + (number + rest)));
  }

  lemma DemangleTagged(s: string, dollar: bool, text: string, rest: string)
    requires Tagged(s) == Got(text, rest) && Stops(rest)
    ensures Demangle((if dollar then "$_M0" else "_M0") + s) == text
  {
    var mangled := "_M0" + s;
    assert mangled[3..] == s;
    assert "$_M0" + s == ['$'] + mangled;
  }

  lemma ApartBehind(same: bool, p: string, x: string, y: string)
    requires Agree(same, x, y)
    ensures Agree(same, p + x, p + y)
  {
    if !same {
      var w :| PartAfter(x, y, w);
      assert p + w + "]" == p + (w + "]") && p + w + " " == p + (w + " ");
      assert PartAfter(p + x, p + y, p + w);
    }
  }

  lemma ImplRendered(i: Path, f: Path, n: Ident, t: Tail)
    requires i.Valid() && f.Valid() && n.Valid() && t.Valid()
    ensures t.Settled().Valid()
    ensures Agree(t.args.Readable(), Impl(i, f, n, t).Render(), Impl(i, f, n, t.Settled()).Render())
  {
    var start, same := "impl " + f.Name() + " for " + i.Name(), t.args.Readable();
    FnArgsRendered(t.args, true, "", "");
    var x, y := t.args.Render(""), t.args.Settled().Render("");
    ApartBehind(same, start, x, y);
    AgreeExtends(same, start + x, start + y, " with ");
    AgreeExtends(same, start + x + " with ", start + y + " with ", n.Name());
    AgreeExtends(same, start + x + " with " + n.Name(), start + y + " with " + n.Name(),
                 t.after.Render(t.before.Render("")));
  }

  /** A symbol and what is read of it agree while the symbol is readable, and come apart otherwise. */
  lemma SymbolRendered(sym: Symbol)
    requires sym.Valid()
    ensures sym.Settled().Valid() && Agree(sym.Readable(), sym.Render(), sym.Settled().Render())
  {
    hide Tail.Render, FnArgs.Valid, FnArgs.Readable, FnArgs.Settled, InCore;
    match sym
    case Function(p, n, t) => TailRendered(t, Qualified(p.Name(), n.Name()));
    case Method(p, o, n, t) => TailRendered(t, Qualified(p.Name(), o.Name()) + "::" + n.Name());
    case Impl(i, f, n, t) => ImplRendered(i, f, n, t);
    case Extension(p, o, q, n, t) =>
      TailRendered(t, Qualified(q.Name(), if InCore(p) then o.Name() else p.Name() + "." + o.Name()) + "::" + n.Name());
    case TypeSymbol(_) =>
    case LocalSymbol(_, _, _) =>
  }

  /** The main result: the demangler undoes the mangling of a symbol, with or without a leading dollar and whatever
      stands behind the mark where it stops, exactly when its type arguments are readable. */
  lemma DemangleInvertsMangling(sym: Symbol, dollar: bool, rest: string)
    requires sym.Valid() && (rest == "" || rest[0] == '.' || rest[0] == '$' || rest[0] == '@')
    ensures Demangle((if dollar then "$_M0" else "_M0") + sym.Spell(rest)) == sym.Render() <==> sym.Readable()
  {
    hide Tagged, Demangle, Symbol.Valid, Symbol.Render, Symbol.Spell, Symbol.Readable;
    TaggedRead(sym, rest);
    DemangleTagged(sym.Spell(rest), dollar, sym.Settled().Render(), rest);
    SymbolRendered(sym);
    if !sym.Readable() {
      ApartDiffer(sym.Render(), sym.Settled().Render());
    }
  }
}
