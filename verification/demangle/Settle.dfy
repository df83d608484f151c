/** What the demangler makes of a type whose raise clause follows a result type that goes on reading: the clause
    settles on the innermost function type still open. */
module MangleSettle {
  import opened MangleGrammar
  import opened MangleReading
  import opened MangleRoundTrip

  /** Give the raise clause `e` to the function type inside `t` that takes it. */
  function Attach(t: Type, e: Type): Type
    requires Absorbs(t, 'Q')
  {
    match t
    case FixedArray(u) => FixedArray(Attach(u, e))
    case Option(u) => Option(Attach(u, e))
    case Fn(async, ps, r, NoRaise) =>
      if Absorbs(r, 'Q') then Fn(async, ps, Attach(r, e), NoRaise) else Fn(async, ps, r, Raises(e))
    case Fn(async, ps, r, Raises(x)) => Fn(async, ps, r, Raises(Attach(x, e)))
    case Ref(p, Bracketed(ts, Raises(x))) => Ref(p, Bracketed(ts, Raises(Attach(x, e))))
  }

  function Settle(t: Type): Type {
    match t
    case Prim(_) => t
    case FixedArray(u) => FixedArray(Settle(u))
    case Option(u) => Option(Settle(u))
    case Tuple(ts) => Tuple(SettleAll(ts))
    case Fn(async, ps, r, e) => Place(async, SettleAll(ps), Settle(r), SettleRaise(e))
    case Ref(p, NoArgs) => t
    case Ref(p, Bracketed(ts, e)) => Ref(p, Bracketed(SettleAll(ts), SettleRaise(e)))
  }

  function Place(async: bool, ps: Types, r: Type, e: Raise): Type {
    if e.Raises? && Absorbs(r, 'Q') then Fn(async, ps, Attach(r, e.error), NoRaise) else Fn(async, ps, r, e)
  }

  function SettleAll(ts: Types): Types {
    if ts.Nil? then Nil else Cons(Settle(ts.head), SettleAll(ts.tail))
  }

  function SettleRaise(e: Raise): Raise {
    if e.NoRaise? then NoRaise else Raises(Settle(e.error))
  }

  lemma {:induction false} AttachKeepsSpelling(t: Type, e: Type, rest: string)
    requires Valid(t) && Valid(e) && Absorbs(t, 'Q')
    ensures Valid(Attach(t, e)) && Spell(Attach(t, e), rest) == Spell(t, "Q" + Spell(e, rest))
  {
    match t
    case FixedArray(u) => AttachKeepsSpelling(u, e, rest);
    case Option(u) => AttachKeepsSpelling(u, e, rest);
    case Fn(_, _, r, NoRaise) => if Absorbs(r, 'Q') { AttachKeepsSpelling(r, e, rest); }
    case Fn(_, _, _, Raises(x)) => AttachKeepsSpelling(x, e, rest);
    case Ref(_, Bracketed(_, Raises(x))) => AttachKeepsSpelling(x, e, rest);
  }

  lemma {:induction false} AttachSettles(t: Type, e: Type)
    requires Settled(t) && Settled(e) && Absorbs(t, 'Q')
    ensures Settled(Attach(t, e))
  {
    match t
    case FixedArray(u) => AttachSettles(u, e);
    case Option(u) => AttachSettles(u, e);
    case Fn(_, _, r, NoRaise) => if Absorbs(r, 'Q') { AttachSettles(r, e); }
    case Fn(_, _, r, Raises(x)) => AttachSettles(x, e);
    case Ref(_, Bracketed(_, Raises(x))) => AttachSettles(x, e);
  }

  lemma {:induction false} SettleSettles(t: Type)
    ensures Settled(Settle(t))
    decreases t, 1
  {
    match t
    case Prim(_) =>
    case FixedArray(u) => SettleSettles(u);
    case Option(u) => SettleSettles(u);
    case Tuple(ts) => SettleSettlesAll(ts);
    case Fn(_, ps, r, e) =>
      SettleSettlesAll(ps);
      SettleSettles(r);
      if e.Raises? {
        SettleSettles(e.error);
        if Absorbs(Settle(r), 'Q') {
          AttachSettles(Settle(r), Settle(e.error));
        }
      }
    case Ref(_, NoArgs) =>
    case Ref(_, Bracketed(ts, e)) =>
      SettleSettlesAll(ts);
      if e.Raises? { SettleSettles(e.error); }
  }

  lemma {:induction false} SettleSettlesAll(ts: Types)
    ensures AllSettled(SettleAll(ts))
    decreases ts, 0
  {
    if ts.Cons? {
      SettleSettles(ts.head);
      SettleSettlesAll(ts.tail);
    }
  }

  lemma {:induction false} SettledIsFixed(t: Type)
    requires Settled(t)
    ensures Settle(t) == t
    decreases t, 1
  {
    match t
    case Prim(_) =>
    case FixedArray(u) => SettledIsFixed(u);
    case Option(u) => SettledIsFixed(u);
    case Tuple(ts) => SettledAreFixed(ts);
    case Fn(_, ps, r, e) =>
      SettledAreFixed(ps);
      SettledIsFixed(r);
      if e.Raises? { SettledIsFixed(e.error); }
    case Ref(_, NoArgs) =>
    case Ref(_, Bracketed(ts, e)) =>
      SettledAreFixed(ts);
      if e.Raises? { SettledIsFixed(e.error); }
  }

  lemma {:induction false} SettledAreFixed(ts: Types)
    requires AllSettled(ts)
    ensures SettleAll(ts) == ts
    decreases ts, 0
  {
    if ts.Cons? {
      SettledIsFixed(ts.head);
      SettledAreFixed(ts.tail);
    }
  }

  /** A type is left alone exactly when no raise clause follows a result that would take it. */
  lemma SettledIffFixed(t: Type)
    ensures Settled(t) <==> Settle(t) == t
  {
    SettleSettles(t);
    if Settled(t) {
      SettledIsFixed(t);
    }
  }

  /** Settling changes the tree but not its mangled form. */
  lemma {:induction false} SettleKeepsSpelling(t: Type, rest: string)
    requires Valid(t)
    ensures Valid(Settle(t)) && Spell(Settle(t), rest) == Spell(t, rest)
    decreases t, 1
  {
    match t
    case Prim(_) =>
    case FixedArray(u) => SettleKeepsSpelling(u, rest);
    case Option(u) => SettleKeepsSpelling(u, rest);
    case Tuple(ts) => SettleKeepsAll(ts, "E" + rest);
    case Fn(async, ps, r, e) =>
      SettleKeepsRaise(e, 'Q', rest);
      SettleKeepsSpelling(r, SpellRaise(e, 'Q', rest));
      SettleKeepsAll(ps, "E" + Spell(r, SpellRaise(e, 'Q', rest)));
      PlaceKeepsSpelling(async, SettleAll(ps), Settle(r), SettleRaise(e), rest);
    case Ref(_, NoArgs) =>
    case Ref(_, Bracketed(ts, e)) =>
      SettleKeepsRaise(e, 'H', rest);
      SettleKeepsAll(ts, "E" + SpellRaise(e, 'H', rest));
  }

  lemma PlaceKeepsSpelling(async: bool, ps: Types, r: Type, e: Raise, rest: string)
    requires AllValid(ps) && Valid(r) && RaiseValid(e)
    ensures Valid(Place(async, ps, r, e))
    ensures Spell(Place(async, ps, r, e), rest) == Spell(Fn(async, ps, r, e), rest)
  {
    if e.Raises? && Absorbs(r, 'Q') {
      AttachKeepsSpelling(r, e.error, rest);
      assert SpellRaise(e, 'Q', rest) == "Q" + Spell(e.error, rest);
    }
  }

  lemma {:induction false} SettleKeepsAll(ts: Types, rest: string)
    requires AllValid(ts)
    ensures AllValid(SettleAll(ts)) && SpellAll(SettleAll(ts), rest) == SpellAll(ts, rest)
    decreases ts, 0
  {
    if ts.Cons? {
      SettleKeepsAll(ts.tail, rest);
      SettleKeepsSpelling(ts.head, SpellAll(ts.tail, rest));
    }
  }

  lemma {:induction false} SettleKeepsRaise(e: Raise, mark: char, rest: string)
    requires RaiseValid(e)
    ensures RaiseValid(SettleRaise(e)) && SpellRaise(SettleRaise(e), mark, rest) == SpellRaise(e, mark, rest)
    decreases e, 0
  {
    if e.Raises? {
      SettleKeepsSpelling(e.error, rest);
    }
  }

  /** Every mangled type, settled or not, is read as its settled form. */
  lemma ReadsSettled(t: Type, rest: string, out: string)
    requires Valid(t)
    requires !Absorbs(Settle(t), Head(rest))
    ensures Valid(Settle(t)) && TypeArg(Spell(t, rest), out) == Got(Render(Settle(t), out), rest)
  {
    SettleKeepsSpelling(t, rest);
    SettleSettles(t);
    TypeRoundTrip(Settle(t), rest, out);
  }

  /** Two mangled forms that agree up to where they end are read alike and end at the same place. */
  lemma SpellingDeterminesRendering(t: Type, u: Type, rest: string, more: string)
    requires Valid(t) && Valid(u) && !Absorbs(Settle(t), Head(rest)) && !Absorbs(Settle(u), Head(more))
    requires Spell(t, rest) == Spell(u, more)
    ensures Valid(Settle(t)) && Valid(Settle(u)) && Render(Settle(t), "") == Render(Settle(u), "") && rest == more
  {
    ReadsSettled(t, rest, "");
    ReadsSettled(u, more, "");
  }
}
