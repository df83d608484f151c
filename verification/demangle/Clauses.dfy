/** Which types are read back: a raise clause that a result type takes may only move past the end of types that close
    no bracket there. */
module MangleClauses {
  import opened MangleGrammar
  import opened MangleReading
  import opened MangleRoundTrip
  import opened MangleConcatenation
  import opened MangleSettle

  /** The function types that would still take a raise clause behind `t`, the innermost first; for each, whether no
      bracket has been closed since its result. */
  function Open(t: Type): seq<bool> {
    match t
    case Prim(_) => []
    case FixedArray(u) => Under(false, Open(u))
    case Option(u) => Under(false, Open(u))
    case Tuple(_) => []
    case Fn(_, _, r, NoRaise) => Open(r) + [true]
    case Fn(_, _, r, Raises(e)) => if Open(r) == [] then Open(e) else Taken(Open(r), Open(e)) + [true]
    case Ref(_, NoArgs) => []
    case Ref(_, Bracketed(_, NoRaise)) => []
    case Ref(_, Bracketed(_, Raises(e))) => Open(e)
  }

  function Under(clear: bool, open: seq<bool>): seq<bool> {
    seq(|open|, i requires 0 <= i < |open| => clear && open[i])
  }

  /** The innermost takes a clause whose own open function types are `more`. */
  function Taken(open: seq<bool>, more: seq<bool>): seq<bool>
    requires open != []
  {
    Under(open[0], more) + open[1..]
  }

  /** No raise clause follows a result in which brackets are closed behind the function type that takes it. */
  predicate Readable(t: Type) {
    match t
    case Prim(_) => true
    case FixedArray(u) => Readable(u)
    case Option(u) => Readable(u)
    case Tuple(ts) => AllReadable(ts)
    case Fn(_, ps, r, e) =>
      AllReadable(ps) && Readable(r) && RaiseReadable(e) && (e.Raises? && Open(r) != [] ==> Open(r)[0])
    case Ref(_, NoArgs) => true
    case Ref(_, Bracketed(ts, e)) => AllReadable(ts) && RaiseReadable(e)
  }

  predicate AllReadable(ts: Types) {
    ts.Cons? ==> Readable(ts.head) && AllReadable(ts.tail)
  }

  predicate RaiseReadable(e: Raise) {
    e.Raises? ==> Readable(e.error)
  }

  // -------------------------------------------- open function types and settling

  lemma {:induction false} OpenAbsorbs(t: Type)
    requires Settled(t)
    ensures Absorbs(t, 'Q') <==> Open(t) != []
  {
    match t
    case FixedArray(u) => OpenAbsorbs(u);
    case Option(u) => OpenAbsorbs(u);
    case Fn(_, _, r, Raises(e)) =>
      OpenAbsorbs(r);
      OpenAbsorbs(e);
    case Ref(_, Bracketed(_, Raises(e))) => OpenAbsorbs(e);
    case _ =>
  }

  lemma TakenUnder(open: seq<bool>, more: seq<bool>)
    requires open != []
    ensures Under(false, open) != [] && Under(false, Taken(open, more)) == Taken(Under(false, open), more)
  {
  }

  lemma TakenBelow(open: seq<bool>, more: seq<bool>)
    ensures Taken(open + [true], more) == if open == [] then more else Taken(open, more) + [true]
  {
    assert Under(true, more) == more;
  }

  lemma {:induction false} OpenAttached(t: Type, e: Type)
    requires Settled(t) && Absorbs(t, 'Q')
    ensures Open(t) != [] && Open(Attach(t, e)) == Taken(Open(t), Open(e))
  {
    hide Under, Taken;
    OpenAbsorbs(t);
    match t
    case FixedArray(u) =>
      OpenAttached(u, e);
      TakenUnder(Open(u), Open(e));
    case Option(u) =>
      OpenAttached(u, e);
      TakenUnder(Open(u), Open(e));
    case Fn(_, _, r, NoRaise) =>
      OpenAbsorbs(r);
      TakenBelow(Open(r), Open(e));
      if Absorbs(r, 'Q') {
        OpenAttached(r, e);
      }
    case Fn(_, _, r, Raises(x)) =>
      OpenAbsorbs(r);
      OpenAttached(x, e);
    case Ref(_, Bracketed(_, Raises(x))) => OpenAttached(x, e);
  }

  lemma {:induction false} OpenSettled(t: Type)
    ensures Open(Settle(t)) == Open(t)
  {
    match t
    case FixedArray(u) => OpenSettled(u);
    case Option(u) => OpenSettled(u);
    case Fn(_, _, r, e) =>
      OpenSettled(r);
      SettleSettles(r);
      OpenAbsorbs(Settle(r));
      if e.Raises? {
        OpenSettled(e.error);
        if Absorbs(Settle(r), 'Q') {
          OpenAttached(Settle(r), Settle(e.error));
        }
      }
    case Ref(_, Bracketed(_, Raises(e))) => OpenSettled(e);
    case _ =>
  }

  // ------------------------------------------------------- texts that come apart

  /** At the first place where the texts differ, `a` closes a bracket and `b` goes on with a blank. */
  ghost predicate Apart(a: string, b: string) {
    exists x :: PartAfter(a, b, x)
  }

  predicate PartAfter(a: string, b: string, x: string) {
    x + "]" <= a && x + " " <= b
  }

  ghost predicate Agree(same: bool, a: string, b: string) {
    if same then a == b else Apart(a, b)
  }

  lemma ApartExtends(a: string, b: string, x: string, y: string)
    requires Apart(a, b)
    ensures Apart(a + x, b + y)
  {
    var p :| PartAfter(a, b, p);
    assert PartAfter(a + x, b + y, p);
  }

  lemma AgreeExtends(same: bool, a: string, b: string, x: string)
    requires Agree(same, a, b)
    ensures Agree(same, a + x, b + x)
  {
    if !same {
      ApartExtends(a, b, x, x);
    }
  }

  lemma ApartDiffer(a: string, b: string)
    requires Apart(a, b)
    ensures a != b
  {
    var x :| PartAfter(a, b, x);
    assert a[|x|] == (x + "]")[|x|] && b[|x|] == (x + " ")[|x|];
  }

  lemma ApartTransitive(a: string, b: string, c: string)
    requires Apart(a, b) && Apart(b, c)
    ensures Apart(a, c)
  {
    var x :| PartAfter(a, b, x);
    var y :| PartAfter(b, c, y);
    if |x| < |y| {
      assert x + " " == b[..|x| + 1] == y[..|x| + 1];
      assert PartAfter(a, c, x);
    } else {
      assert b[|y|] == (y + "]")[|y|] && b[|x|] == (x + " ")[|x|];
      assert y + "]" == b[..|y| + 1] == x[..|y| + 1];
      assert PartAfter(a, c, y);
    }
  }

  lemma ApartAtBracket(x: string, c: string)
    requires x + " raise " <= c
    ensures Apart(x + "]", c)
  {
    assert x + " " <= x + " raise ";
    assert PartAfter(x + "]", c, x);
  }

  lemma RenderStarts(t: Type, out: string)
    requires Valid(t)
    ensures out <= Render(t, out)
  {
    RenderIsSuffix(t, out);
  }

  // ------------------------------------------------------ where a clause ends up

  /** A clause taken inside `t` is written behind it when no bracket is closed there, and in front of a bracket
      otherwise. */
  lemma {:induction false} AttachRendered(t: Type, e: Type, out: string)
    requires Valid(t) && Valid(e) && Settled(t) && Absorbs(t, 'Q')
    ensures Open(t) != [] && Valid(Attach(t, e)) && Moved(t, e, out)
    decreases t, 0
  {
    hide RenderAll, Spell, SpellAll, Path.Valid, Path.Name, Under, Apart;
    OpenAbsorbs(t);
    AttachKeepsSpelling(t, e, "");
    match t
    case FixedArray(u) =>
      NoneUnder(Open(u));
      AttachInBrackets(u, e, out + "FixedArray[");
    case Option(u) =>
      NoneUnder(Open(u));
      AttachInBrackets(u, e, out + "Option[");
    case Fn(async, ps, r, NoRaise) =>
      OpenAbsorbs(r);
      var mid := RenderAll(ps, (if async then out + "async " else out) + "(", true) + ") -> ";
      if Absorbs(r, 'Q') {
        AttachRendered(r, e, mid);
        assert Open(t)[0] == Open(r)[0] && Render(t, out) == Render(r, mid);
        assert Render(Attach(t, e), out) == Render(Attach(r, e), mid);
      } else {
        assert Open(t)[0];
        assert Render(t, out) == RenderRaise(NoRaise, Render(r, mid));
        RaiseText(e, Render(r, mid));
        assert Render(Attach(t, e), out) == RenderRaise(Raises(e), Render(r, mid));
      }
    case Fn(async, ps, r, Raises(x)) =>
      OpenAbsorbs(r);
      var text := Render(r, RenderAll(ps, (if async then out + "async " else out) + "(", true) + ") -> ");
      AttachRendered(x, e, text + " raise ");
      RaiseText(x, text);
      RaiseText(Attach(x, e), text);
    case Ref(p, Bracketed(ts, Raises(x))) =>
      var text := RenderAll(ts, out + p.Name() + "[", true) + "]";
      AttachRendered(x, e, text + " raise ");
      RaiseText(x, text);
      RaiseText(Attach(x, e), text);
  }

  lemma RaiseText(e: Type, out: string)
    requires Valid(e)
    ensures RenderRaise(Raises(e), out) == Render(e, out + " raise ") && RenderRaise(NoRaise, out) == out
  {
  }

  lemma NoneUnder(open: seq<bool>)
    ensures |Under(false, open)| == |open| && (open != [] ==> !Under(false, open)[0])
  {
  }

  ghost predicate Moved(t: Type, e: Type, out: string)
    requires Valid(t) && Valid(e) && Absorbs(t, 'Q') && Open(t) != [] && Valid(Attach(t, e))
  {
    if Open(t)[0] then Render(Attach(t, e), out) == Render(e, Render(t, out) + " raise ")
    else Apart(Render(t, out), Render(Attach(t, e), out))
  }

  lemma {:induction false} AttachInBrackets(u: Type, e: Type, out: string)
    requires Valid(u) && Valid(e) && Settled(u) && Absorbs(u, 'Q')
    ensures Valid(Attach(u, e)) && Apart(Render(u, out) + "]", Render(Attach(u, e), out) + "]")
    decreases u, 1
  {
    AttachRendered(u, e, out);
    if Open(u)[0] {
      RenderStarts(e, Render(u, out) + " raise ");
      ApartAtBracket(Render(u, out), Render(Attach(u, e), out));
      ApartExtends(Render(u, out) + "]", Render(Attach(u, e), out), "", "]");
      assert Render(u, out) + "]" + "" == Render(u, out) + "]";
    } else {
      ApartExtends(Render(u, out), Render(Attach(u, e), out), "]", "]");
    }
  }

  // -------------------------------------------------- rendering a settled type

  /** Rendering a type and its settled form: equal while everything is readable, apart for good from the first
      clause that is not. */
  lemma {:induction false} SettledRendered(t: Type, same: bool, a: string, b: string)
    requires Valid(t) && Agree(same, a, b)
    ensures Valid(Settle(t)) && Agree(same && Readable(t), Render(t, a), Render(Settle(t), b))
    decreases t, 2
  {
    SettleKeepsSpelling(t, "");
    match t
    case Prim(p) => AgreeExtends(same, a, b, Label(p));
    case FixedArray(u) => BracketsRendered(u, same, a, b, "FixedArray[");
    case Option(u) => BracketsRendered(u, same, a, b, "Option[");
    case Tuple(ts) => ListRendered(ts, same, a, b, "(", ")");
    case Fn(_, _, _, _) => FnRendered(t, same, a, b);
    case Ref(p, NoArgs) => AgreeExtends(same, a, b, p.Name());
    case Ref(p, Bracketed(ts, e)) => RefRendered(p, ts, e, same, a, b);
  }

  lemma {:induction false} BracketsRendered(u: Type, same: bool, a: string, b: string, open: string)
    requires Valid(u) && Agree(same, a, b)
    ensures Valid(Settle(u)) && Agree(same && Readable(u), Render(u, a + open) + "]", Render(Settle(u), b + open) + "]")
    decreases u, 3
  {
    AgreeExtends(same, a, b, open);
    SettledRendered(u, same, a + open, b + open);
    AgreeExtends(same && Readable(u), Render(u, a + open), Render(Settle(u), b + open), "]");
  }

  lemma {:induction false} ListRendered(ts: Types, same: bool, a: string, b: string, open: string, close: string)
    requires AllValid(ts) && Agree(same, a, b)
    ensures AllValid(SettleAll(ts))
    ensures Agree(same && AllReadable(ts), RenderAll(ts, a + open, true) + close,
                  RenderAll(SettleAll(ts), b + open, true) + close)
    decreases ts, 1
  {
    AgreeExtends(same, a, b, open);
    AllRendered(ts, same, a + open, b + open, true);
    AgreeExtends(same && AllReadable(ts), RenderAll(ts, a + open, true), RenderAll(SettleAll(ts), b + open, true),
                 close);
  }

  lemma {:induction false} AllRendered(ts: Types, same: bool, a: string, b: string, first: bool)
    requires AllValid(ts) && Agree(same, a, b)
    ensures AllValid(SettleAll(ts))
    ensures Agree(same && AllReadable(ts), RenderAll(ts, a, first), RenderAll(SettleAll(ts), b, first))
    decreases ts, 0
  {
    if ts.Cons? {
      AgreeExtends(same, a, b, ", ");
      var a', b' := if first then a else a + ", ", if first then b else b + ", ";
      SettledRendered(ts.head, same, a', b');
      AllRendered(ts.tail, same && Readable(ts.head), Render(ts.head, a'), Render(Settle(ts.head), b'), false);
    }
  }

  lemma {:induction false} RaiseRendered(e: Raise, same: bool, a: string, b: string)
    requires RaiseValid(e) && Agree(same, a, b)
    ensures RaiseValid(SettleRaise(e))
    ensures Agree(same && RaiseReadable(e), RenderRaise(e, a), RenderRaise(SettleRaise(e), b))
    decreases e, 0
  {
    if e.Raises? {
      AgreeExtends(same, a, b, " raise ");
      SettledRendered(e.error, same, a + " raise ", b + " raise ");
    }
  }

  lemma {:induction false} RefRendered(p: Path, ts: Types, e: Raise, same: bool, a: string, b: string)
    requires p.Valid() && AllValid(ts) && RaiseValid(e) && Agree(same, a, b)
    ensures AllValid(SettleAll(ts)) && RaiseValid(SettleRaise(e))
    ensures Agree(same && AllReadable(ts) && RaiseReadable(e),
                  RenderRaise(e, RenderAll(ts, a + p.Name() + "[", true) + "]"),
                  RenderRaise(SettleRaise(e), RenderAll(SettleAll(ts), b + p.Name() + "[", true) + "]"))
    decreases Bracketed(ts, e), 2
  {
    AgreeExtends(same, a, b, p.Name());
    ListRendered(ts, same, a + p.Name(), b + p.Name(), "[", "]");
    RaiseRendered(e, same && AllReadable(ts), RenderAll(ts, a + p.Name() + "[", true) + "]",
                  RenderAll(SettleAll(ts), b + p.Name() + "[", true) + "]");
  }

  lemma {:induction false} FnRendered(t: Type, same: bool, a: string, b: string)
    requires t.Fn? && Valid(t) && Agree(same, a, b)
    ensures Valid(Settle(t)) && Agree(same && Readable(t), Render(t, a), Render(Settle(t), b))
    decreases t, 1
  {
    SettleKeepsSpelling(t, "");
    AgreeExtends(same, a, b, "async ");
    var a', b' := if t.async then a + "async " else a, if t.async then b + "async " else b;
    ListRendered(t.params, same, a', b', "(", ") -> ");
    ResultRendered(t, same && AllReadable(t.params), RenderAll(t.params, a' + "(", true) + ") -> ",
                   RenderAll(SettleAll(t.params), b' + "(", true) + ") -> ");
    PlaceRendered(t.async, SettleAll(t.params), Settle(t.result), SettleRaise(t.raise), b);
  }

  /** The settled form of a result and its clause, without the parameters. */
  function ResultText(r: Type, e: Raise, out: string): string
    requires Valid(r) && RaiseValid(e)
  {
    if e.Raises? && Absorbs(r, 'Q') then AttachedText(r, e.error, out) else RenderRaise(e, Render(r, out))
  }

  function AttachedText(r: Type, e: Type, out: string): string
    requires Valid(r) && Valid(e) && Absorbs(r, 'Q')
  {
    AttachKeepsSpelling(r, e, "");
    Render(Attach(r, e), out)
  }

  lemma PlaceRendered(async: bool, ps: Types, r: Type, e: Raise, out: string)
    requires AllValid(ps) && Valid(r) && RaiseValid(e) && Valid(Place(async, ps, r, e))
    ensures Render(Place(async, ps, r, e), out)
         == ResultText(r, e, RenderAll(ps, (if async then out + "async " else out) + "(", true) + ") -> ")
  {
  }

  lemma {:induction false} ResultRendered(t: Type, same: bool, a: string, b: string)
    requires t.Fn? && Valid(t) && Agree(same, a, b)
    ensures Valid(Settle(t.result)) && RaiseValid(SettleRaise(t.raise))
    ensures Agree(same && Readable(t.result) && RaiseReadable(t.raise) &&
                  (t.raise.Raises? && Open(t.result) != [] ==> Open(t.result)[0]),
                  RenderRaise(t.raise, Render(t.result, a)), ResultText(Settle(t.result), SettleRaise(t.raise), b))
    decreases t, 0
  {
    var r, r', ok := t.result, Settle(t.result), same && Readable(t.result);
    SettledRendered(r, same, a, b);
    SettleSettles(r);
    OpenSettled(r);
    OpenAbsorbs(r');
    RaiseRendered(t.raise, ok, Render(r, a), Render(r', b));
    if t.raise.Raises? && Absorbs(r', 'Q') {
      var e := t.raise.error;
      AttachRendered(r', Settle(e), b);
      if !Open(r)[0] {
        ClauseInside(ok, Render(r, a), Render(r', b), AttachedText(r', Settle(e), b), e);
      }
    }
  }

  lemma ClauseInside(same: bool, a: string, b: string, c: string, e: Type)
    requires Valid(e) && Agree(same, a, b) && Apart(b, c)
    ensures Apart(Render(e, a + " raise "), c)
  {
    if !same {
      ApartTransitive(a, b, c);
    }
    RenderStarts(e, a + " raise ");
    var x :| PartAfter(a, c, x);
    assert a <= a + " raise ";
    assert PartAfter(Render(e, a + " raise "), c, x);
  }

  // ---------------------------------------------------------------- main results

  /** A type is read as its rendering exactly when it is readable, whatever is written before it and follows it. */
  lemma ReadBackIff(t: Type, rest: string, out: string)
    requires Valid(t) && !Absorbs(Settle(t), Head(rest))
    ensures TypeArg(Spell(t, rest), out) == Got(Render(t, out), rest) <==> Readable(t)
  {
    ReadsSettled(t, rest, out);
    SettledRendered(t, true, out, out);
    if !Readable(t) {
      ApartDiffer(Render(t, out), Render(Settle(t), out));
    }
  }

  /** What is read instead: the rendering up to a closing bracket, and there a raise clause. */
  lemma UnreadableIsMisread(t: Type, rest: string, out: string)
    requires Valid(t) && !Absorbs(Settle(t), Head(rest)) && !Readable(t)
    ensures TypeArg(Spell(t, rest), out).Got? && TypeArg(Spell(t, rest), out).rest == rest
    ensures Apart(Render(t, out), TypeArg(Spell(t, rest), out).value)
  {
    ReadsSettled(t, rest, out);
    SettledRendered(t, true, out, out);
  }

  /** Every function type that raises behind an array or option of an open function type is misread. */
  lemma BracketedResultIsMisread(async: bool, ps: Types, r: Type, e: Type, rest: string, out: string)
    requires AllValid(ps) && Valid(r) && Valid(e) && (r.FixedArray? || r.Option?) && Open(r.elem) != []
    requires !Absorbs(Settle(Fn(async, ps, r, Raises(e))), Head(rest))
    ensures
      var t := Fn(async, ps, r, Raises(e));
      TypeArg(Spell(t, rest), out).Got? && TypeArg(Spell(t, rest), out).value != Render(t, out)
  {
    var t := Fn(async, ps, r, Raises(e));
    UnreadableIsMisread(t, rest, out);
    ApartDiffer(Render(t, out), TypeArg(Spell(t, rest), out).value);
  }

  /** Being settled is not needed: a clause behind two function results moves without a trace. */
  lemma UnsettledYetReadBack(out: string)
    ensures
      var t := Fn(false, Nil, Fn(false, Nil, Prim(Int), NoRaise), Raises(Prim(String)));
      !Settled(t) && TypeArg(Spell(t, ""), out) == Got(Render(t, out), "")
  {
    var t := Fn(false, Nil, Fn(false, Nil, Prim(Int), NoRaise), Raises(Prim(String)));
    if Absorbs(Settle(t), '\0') {
      AbsorbsOnlyMarks(Settle(t), '\0');
    }
    ReadBackIff(t, "", out);
  }

  /** Whatever is settled is readable, so the round trip of settled types is a special case. */
  lemma {:induction false} SettledIsReadable(t: Type)
    requires Settled(t)
    ensures Readable(t)
    decreases t, 1
  {
    match t
    case Prim(_) =>
    case FixedArray(u) => SettledIsReadable(u);
    case Option(u) => SettledIsReadable(u);
    case Tuple(ts) => SettledAreReadable(ts);
    case Fn(_, ps, r, e) =>
      SettledAreReadable(ps);
      SettledIsReadable(r);
      OpenAbsorbs(r);
      if e.Raises? { SettledIsReadable(e.error); }
    case Ref(_, NoArgs) =>
    case Ref(_, Bracketed(ts, e)) =>
      SettledAreReadable(ts);
      if e.Raises? { SettledIsReadable(e.error); }
  }

  lemma {:induction false} SettledAreReadable(ts: Types)
    requires AllSettled(ts)
    ensures AllReadable(ts)
    decreases ts, 0
  {
    if ts.Cons? {
      SettledIsReadable(ts.head);
      SettledAreReadable(ts.tail);
    }
  }
}
