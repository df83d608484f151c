/** Writing a mangled form in front of a text, or a rendering behind one, is concatenation. */
module MangleConcatenation {
  import opened MangleGrammar

  lemma {:induction false} DecimalAppends(n: nat, a: string, b: string)
    ensures Decimal(n, a + b) == Decimal(n, a) + b
    decreases n
  {
    if n < 10 {
      assert [Digit(n)] + (a + b) == [Digit(n)] + a + b;
    } else {
      assert [Digit(n % 10)] + (a + b) == [Digit(n % 10)] + a + b;
      DecimalAppends(n / 10, [Digit(n % 10)] + a, b);
    }
  }

  lemma IdentAppends(id: Ident, a: string, b: string)
    ensures SpellIdent(id, a + b) == SpellIdent(id, a) + b
  {
    assert id.Encoded() + (a + b) == id.Encoded() + a + b;
    DecimalAppends(|id.Encoded()|, id.Encoded() + a, b);
  }

  lemma {:induction false} SegmentsAppend(ids: Idents, a: string, b: string)
    ensures ids.Spell(a + b) == ids.Spell(a) + b
    decreases ids
  {
    if ids.Seg? {
      SegmentsAppend(ids.tail, a, b);
      IdentAppends(ids.head, ids.tail.Spell(a), b);
    }
  }

  lemma Behind(a: string, b: string, c: string)
    ensures a + (b + c) == (a + b) + c
  {
  }

  lemma PackageAppends(p: PackagePath, a: string, b: string)
    requires p.Valid()
    ensures p.Spell(a + b) == p.Spell(a) + b
  {
    match p
    case Builtin => Behind("PB", a, b);
    case Core(segs) =>
      SegmentsAppend(segs, a, b);
      DecimalAppends(segs.Count(), segs.Spell(a), b);
      Behind("PC", Decimal(segs.Count(), segs.Spell(a)), b);
    case Plain(segs) =>
      SegmentsAppend(segs, a, b);
      DecimalAppends(segs.Count(), segs.Spell(a), b);
      Behind("P", Decimal(segs.Count(), segs.Spell(a)), b);
  }

  lemma PathAppends(p: Path, a: string, b: string)
    requires p.Valid()
    ensures p.Spell(a + b) == p.Spell(a) + b
  {
    var tail := a;
    if p.local.Local? {
      IdentAppends(p.local.id, a, b);
      Behind("L", SpellIdent(p.local.id, a), b);
      tail := "L" + SpellIdent(p.local.id, a);
    }
    IdentAppends(p.name, tail, b);
    PackageAppends(p.pkg, SpellIdent(p.name, tail), b);
  }

  lemma {:induction false} SpellAppends(t: Type, a: string, b: string)
    requires Valid(t)
    ensures Spell(t, a + b) == Spell(t, a) + b
    decreases t, 1
  {
    match t
    case Prim(p) => Behind([Code(p)], a, b);
    case FixedArray(u) => SpellAppends(u, a, b); Behind("A", Spell(u, a), b);
    case Option(u) => SpellAppends(u, a, b); Behind("O", Spell(u, a), b);
    case Tuple(ts) => TupleAppends(ts, a, b);
    case Fn(async, ps, r, e) => FnAppends(t, a, b);
    case Ref(p, NoArgs) => PathAppends(p, a, b); Behind("R", p.Spell(a), b);
    case Ref(p, Bracketed(ts, e)) => RefAppends(p, ts, e, a, b);
  }

  lemma {:induction false} TupleAppends(ts: Types, a: string, b: string)
    requires AllValid(ts)
    ensures "U" + SpellAll(ts, "E" + (a + b)) == "U" + SpellAll(ts, "E" + a) + b
    decreases ts, 1
  {
    Behind("E", a, b);
    ListAppends(ts, "E" + a, b);
    Behind("U", SpellAll(ts, "E" + a), b);
  }

  lemma {:induction false} FnAppends(t: Type, a: string, b: string)
    requires t.Fn? && Valid(t)
    ensures Spell(t, a + b) == Spell(t, a) + b
    decreases t, 0
  {
    var tail := SpellRaise(t.raise, 'Q', a);
    RaiseAppends(t.raise, 'Q', a, b);
    SpellAppends(t.result, tail, b);
    Behind("E", Spell(t.result, tail), b);
    ListAppends(t.params, "E" + Spell(t.result, tail), b);
    Behind(if t.async then "VW" else "W", SpellAll(t.params, "E" + Spell(t.result, tail)), b);
  }

  lemma {:induction false} RefAppends(p: Path, ts: Types, e: Raise, a: string, b: string)
    requires p.Valid() && AllValid(ts) && RaiseValid(e)
    ensures "R" + p.Spell("G" + SpellAll(ts, "E" + SpellRaise(e, 'H', a + b)))
         == "R" + p.Spell("G" + SpellAll(ts, "E" + SpellRaise(e, 'H', a))) + b
    decreases Bracketed(ts, e), 1
  {
    var tail := SpellRaise(e, 'H', a);
    RaiseAppends(e, 'H', a, b);
    Behind("E", tail, b);
    ListAppends(ts, "E" + tail, b);
    Behind("G", SpellAll(ts, "E" + tail), b);
    PathAppends(p, "G" + SpellAll(ts, "E" + tail), b);
    Behind("R", p.Spell("G" + SpellAll(ts, "E" + tail)), b);
  }

  lemma {:induction false} RaiseAppends(e: Raise, mark: char, a: string, b: string)
    requires RaiseValid(e)
    ensures SpellRaise(e, mark, a + b) == SpellRaise(e, mark, a) + b
    decreases e, 0
  {
    if e.Raises? {
      SpellAppends(e.error, a, b);
      Behind([mark], Spell(e.error, a), b);
    }
  }

  lemma {:induction false} ListAppends(ts: Types, a: string, b: string)
    requires AllValid(ts)
    ensures SpellAll(ts, a + b) == SpellAll(ts, a) + b
    decreases ts, 0
  {
    if ts.Cons? {
      ListAppends(ts.tail, a, b);
      SpellAppends(ts.head, SpellAll(ts.tail, a), b);
    }
  }

  /** The mangled form of a type stands in front of the rest. */
  lemma SpellIsPrefix(t: Type, rest: string)
    requires Valid(t)
    ensures Spell(t, rest) == Spell(t, "") + rest
  {
    assert "" + rest == rest;
    SpellAppends(t, "", rest);
  }

  lemma {:induction false} RenderAppends(t: Type, a: string, b: string)
    requires Valid(t)
    ensures Render(t, a + b) == a + Render(t, b)
    decreases t, 1
  {
    match t
    case Prim(p) => Behind(a, b, Label(p));
    case FixedArray(u) =>
      Behind(a, b, "FixedArray[");
      RenderAppends(u, a, b + "FixedArray[");
      Behind(a, Render(u, b + "FixedArray["), "]");
    case Option(u) =>
      Behind(a, b, "Option[");
      RenderAppends(u, a, b + "Option[");
      Behind(a, Render(u, b + "Option["), "]");
    case Tuple(ts) => RenderClosed(ts, a, b, "(", ")");
    case Fn(async, ps, r, e) => RenderFnAppends(t, a, b);
    case Ref(p, NoArgs) => Behind(a, b, p.Name());
    case Ref(p, Bracketed(ts, e)) =>
      Behind(a, b, p.Name());
      RenderClosed(ts, a, b + p.Name(), "[", "]");
      RenderRaiseAppends(e, a, RenderAll(ts, b + p.Name() + "[", true) + "]");
  }

  lemma {:induction false} RenderClosed(ts: Types, a: string, b: string, open: string, close: string)
    requires AllValid(ts)
    ensures RenderAll(ts, a + b + open, true) + close == a + (RenderAll(ts, b + open, true) + close)
    decreases ts, 1
  {
    Behind(a, b, open);
    RenderListAppends(ts, a, b + open, true);
    Behind(a, RenderAll(ts, b + open, true), close);
  }

  lemma {:induction false} RenderFnAppends(t: Type, a: string, b: string)
    requires t.Fn? && Valid(t)
    ensures Render(t, a + b) == a + Render(t, b)
    decreases t, 0
  {
    var start := if t.async then b + "async " else b;
    Behind(a, b, "async ");
    assert (if t.async then a + b + "async " else a + b) == a + start;
    RenderClosed(t.params, a, start, "(", ") -> ");
    var mid := RenderAll(t.params, start + "(", true) + ") -> ";
    RenderAppends(t.result, a, mid);
    RenderRaiseAppends(t.raise, a, Render(t.result, mid));
  }

  lemma {:induction false} RenderRaiseAppends(e: Raise, a: string, b: string)
    requires RaiseValid(e)
    ensures RenderRaise(e, a + b) == a + RenderRaise(e, b)
    decreases e, 0
  {
    if e.Raises? {
      Behind(a, b, " raise ");
      RenderAppends(e.error, a, b + " raise ");
    }
  }

  lemma {:induction false} RenderListAppends(ts: Types, a: string, b: string, first: bool)
    requires AllValid(ts)
    ensures RenderAll(ts, a + b, first) == a + RenderAll(ts, b, first)
    decreases ts, 0
  {
    if ts.Cons? {
      var start := if first then b else b + ", ";
      Behind(a, b, ", ");
      RenderAppends(ts.head, a, start);
      RenderListAppends(ts.tail, a, Render(ts.head, start), false);
    }
  }

  /** The rendering of a type stands behind what is already written. */
  lemma RenderIsSuffix(t: Type, out: string)
    requires Valid(t)
    ensures Render(t, out) == out + Render(t, "")
  {
    assert out + "" == out;
    RenderAppends(t, out, "");
  }
}
