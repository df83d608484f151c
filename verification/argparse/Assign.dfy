/** Handing the collected positional values to the positionals. */
module Assign {
  import opened Args
  import opened Globals
  import opened Positionals
  import M = Matches

  /** The entries of a positional after it takes a run of values. */
  function Given(p: Arg, run: seq<string>, c: Cell): Cell {
    if run == [] then c
    else c.(values := Some(if p.multiple then c.Values() + run else [run[|run| - 1]]), valueSource := Some(Argv))
  }

  /** The entries of `n` when consecutive runs of `values` go to the positionals in order. */
  function AssignedTo(ps: seq<Arg>, takes: seq<nat>, values: seq<string>, n: string, c: Cell): Cell
    requires |takes| == |ps| && Positionals.Sum(takes) <= |values|
    decreases |ps|
  {
    if ps == [] then c
    else if ps[0].name == n then Given(ps[0], values[..takes[0]], c)
    else AssignedTo(ps[1..], takes[1..], values[takes[0]..], n, c)
  }

  function Outcome(ps: seq<Arg>, values: seq<string>, n: string, c: Cell): Cell
    requires Positionals.AllValid(ps)
  {
    TakesSum(ps, |values|);
    AssignedTo(ps, Takes(ps, |values|), values, n, c)
  }

  lemma OutcomeStep(ps: seq<Arg>, i: nat, values: seq<string>, n: string, c: Cell, take: nat)
    requires Positionals.AllValid(ps) && i < |ps|
    requires take == Take(ps[i], |values|, MinimumOf(ps[i + 1..])) && take <= |values|
    ensures Outcome(ps[i..], values, n, c) ==
      if ps[i].name == n then Given(ps[i], values[..take], c) else Outcome(ps[i + 1..], values[take..], n, c)
  {
    hide Take, MinimumOf, Given;
    var rest := Takes(ps[i + 1..], |values| - take);
    assert ps[i..][0] == ps[i] && ps[i..][1..] == ps[i + 1..];
    assert Takes(ps[i..], |values|) == [take] + rest;
    assert ([take] + rest)[1..] == rest;
    assert |values[take..]| == |values| - take;
  }

  /** A name that is no positional keeps its entries. */
  lemma {:induction false} NotAssigned(ps: seq<Arg>, values: seq<string>, n: string, c: Cell)
    requires Positionals.AllValid(ps) && Find(ps, n) == None
    ensures Outcome(ps, values, n, c) == c
    decreases |ps|
  {
    if ps != [] {
      var take := Take(ps[0], |values|, MinimumOf(ps[1..]));
      assert ps[0..] == ps;
      OutcomeStep(ps, 0, values, n, c, take);
      NotAssigned(ps[1..], values[take..], n, c);
    }
  }

  method AddRun(m: M.Matches, p: Arg, run: seq<string>)
    requires Positionals.Valid(p) && (p.multiple || |run| <= 1)
    modifies m
    ensures m.Became(p.name, Given(p, run, old(m.CellOf(p.name))))
  {
    hide Given, KindOf;
    var taken := 0;
    ghost var c := m.CellOf(p.name);
    GivenNothing(p, c);
    assert run[..0] == [];
    while taken < |run|
      invariant taken <= |run|
      invariant m.Became(p.name, Given(p, run[..taken], c))
    {
      m.AddValue(p, run[taken], Argv);
      GivenMore(p, run, taken, c);
      taken := taken + 1;
    }
    assert run[..taken] == run;
  }

  lemma GivenNothing(p: Arg, c: Cell)
    ensures Given(p, [], c) == c
  {
  }

  lemma GivenMore(p: Arg, run: seq<string>, taken: nat, c: Cell)
    requires Positionals.Valid(p) && (p.multiple || |run| <= 1) && taken < |run|
    ensures !p.info.FlagInfo? && KindOf(p).ValueKind?
    ensures Given(p, run[..taken + 1], c) == Given(p, run[..taken], c).(
      values := Some(if KindOf(p).append then Given(p, run[..taken], c).Values() + [run[taken]] else [run[taken]]),
      valueSource := Some(Argv))
  {
    assert run[..0] == [] && c.Values() + [] == c.Values();
    assert run[..taken + 1] == run[..taken] + [run[taken]];
    assert c.Values() + run[..taken] + [run[taken]] == c.Values() + run[..taken + 1];
  }

  ghost predicate Passed(ps: seq<Arg>, i: nat, n: string)
    requires i <= |ps|
  {
    exists k :: 0 <= k < i && ps[k].name == n
  }

  /** Consecutive runs of the values go to the positionals in order.  The error names the first value beyond the
      capacity. */
  method AssignPositionals(m: M.Matches, ps: seq<Arg>, values: seq<string>) returns (overflow: Option<string>)
    requires Positionals.AllValid(ps)
    modifies m
    ensures m.sub == old(m.sub)
    ensures forall n :: Once(ps, n) ==> m.CellOf(n) == Outcome(ps, values, n, old(m.CellOf(n)))
    ensures forall n :: Once(ps, n) && Find(ps, n) == None ==> m.CellOf(n) == old(m.CellOf(n))
    ensures old(AllEmpty(m, ps)) && DifferentNames(ps) ==> InOrder(m, ps, Takes(ps, |values|), values)
    ensures overflow ==
      if Capacity(ps).Some? && 0 <= Capacity(ps).value < |values| then Some(values[Capacity(ps).value]) else None
  {
    hide Outcome, Given, Capacity, Within, Take, MinimumOf, Find, KindOf, Takes, InOrder, Once, Pending, Passed;
    var cursor := 0;
    assert ps[0..] == ps && values[0..] == values;
    forall n ensures Pending(ps[0..], values[0..], n, m.CellOf(n), Passed(ps, 0, n)) == Outcome(ps, values, n, m.CellOf(n)) {
      NonePassed(ps, values, n, m.CellOf(n));
    }
    for i := 0 to |ps|
      invariant cursor <= |values| && m.sub == old(m.sub)
      invariant cursor + Within(Capacity(ps[i..]), |values| - cursor) == Within(Capacity(ps), |values|)
      invariant forall n :: Once(ps, n) ==>
        Pending(ps[i..], values[cursor..], n, m.CellOf(n), Passed(ps, i, n)) == Outcome(ps, values, n, old(m.CellOf(n)))
    {
      var take := TakeMany(ps, i, |values| - cursor);
      CapacityLeft(ps, i, |values| - cursor, take);
      TakesOne(ps[i], |values| - cursor, MinimumOf(ps[i + 1..]));
      assert values[cursor..][..take] == values[cursor..cursor + take];
      assert values[cursor..][take..] == values[cursor + take..];
      forall n | Once(ps, n)
        ensures Pending(ps[i + 1..], values[cursor + take..], n,
                        if ps[i].name == n then Given(ps[i], values[cursor..cursor + take], m.CellOf(n)) else m.CellOf(n),
                        Passed(ps, i + 1, n)) == Outcome(ps, values, n, old(m.CellOf(n)))
      {
        PendingStep(ps, i, values[cursor..], n, m.CellOf(n), take);
      }
      AddRun(m, ps[i], values[cursor..cursor + take]);
      cursor := cursor + take;
    }
    forall n | Once(ps, n) ensures m.CellOf(n) == Outcome(ps, values, n, old(m.CellOf(n))) {
      NothingPending(ps[|ps|..], values[cursor..], n, m.CellOf(n), Passed(ps, |ps|, n));
    }
    forall n | Once(ps, n) && Find(ps, n) == None ensures m.CellOf(n) == old(m.CellOf(n)) {
      NotAssigned(ps, values, n, old(m.CellOf(n)));
    }
    if old(AllEmpty(m, ps)) && DifferentNames(ps) {
      forall k | 0 <= k < |ps| ensures m.CellOf(ps[k].name) == Outcome(ps, values, ps[k].name, EMPTY) {
        NamedOnce(ps, ps[k].name);
      }
      OutcomesInOrder(m, ps, values);
    }
    CapacityOfNone(ps, |values|, cursor);
    return if cursor < |values| then Some(values[cursor]) else None;
  }

  // ----------------------------------------------------- what the positionals end with

  ghost predicate DifferentNames(ps: seq<Arg>) {
    forall i, j :: 0 <= i < j < |ps| ==> ps[i].name != ps[j].name
  }

  ghost predicate AllEmpty(m: M.Matches, ps: seq<Arg>)
    reads m
  {
    forall k :: 0 <= k < |ps| ==> m.CellOf(ps[k].name) == EMPTY
  }

  /** The values of the positionals, one after the other. */
  ghost function AllValues(m: M.Matches, ps: seq<Arg>): seq<string>
    reads m
  {
    if ps == [] then [] else m.CellOf(ps[0].name).Values() + AllValues(m, ps[1..])
  }

  /** Read in the order of the positionals, their values are the first ones given, in the order given; each has as
      many as it takes, from argv. */
  ghost predicate InOrder(m: M.Matches, ps: seq<Arg>, takes: seq<nat>, values: seq<string>)
    reads m
  {
    && |takes| == |ps| && Positionals.Sum(takes) <= |values|
    && AllValues(m, ps) == values[..Positionals.Sum(takes)]
    && forall k :: 0 <= k < |ps| ==>
         && |m.CellOf(ps[k].name).Values()| == takes[k]
         && (takes[k] > 0 ==> m.CellOf(ps[k].name).valueSource == Some(Argv))
  }

  lemma NamedOnce(ps: seq<Arg>, n: string)
    requires DifferentNames(ps)
    ensures Once(ps, n)
  {
  }

  lemma GivenToEmpty(p: Arg, run: seq<string>)
    requires p.multiple || |run| <= 1
    ensures Given(p, run, EMPTY).Values() == run
    ensures run != [] ==> Given(p, run, EMPTY).valueSource == Some(Argv)
  {
    assert [] + run == run;
    assert |run| == 1 ==> [run[0]] == run;
  }

  lemma InOrderCons(m: M.Matches, ps: seq<Arg>, take: nat, takes: seq<nat>, values: seq<string>)
    requires ps != [] && take <= |values| && InOrder(m, ps[1..], takes, values[take..])
    requires m.CellOf(ps[0].name).Values() == values[..take]
    requires take > 0 ==> m.CellOf(ps[0].name).valueSource == Some(Argv)
    ensures InOrder(m, ps, [take] + takes, values)
  {
    var all := [take] + takes;
    assert all[1..] == takes;
    assert values[..take] + values[take..][..Positionals.Sum(takes)] == values[..Positionals.Sum(all)];
    forall k | 0 <= k < |ps|
      ensures |m.CellOf(ps[k].name).Values()| == all[k]
      ensures all[k] > 0 ==> m.CellOf(ps[k].name).valueSource == Some(Argv)
    {
      if k > 0 {
        assert ps[k] == ps[1..][k - 1] && all[k] == takes[k - 1];
      }
    }
  }

  lemma {:induction false} OutcomesInOrder(m: M.Matches, ps: seq<Arg>, values: seq<string>)
    requires Positionals.AllValid(ps) && DifferentNames(ps)
    requires forall k :: 0 <= k < |ps| ==> m.CellOf(ps[k].name) == Outcome(ps, values, ps[k].name, EMPTY)
    ensures InOrder(m, ps, Takes(ps, |values|), values)
    decreases |ps|
  {
    hide Outcome, Given, Take, MinimumOf;
    if ps != [] {
      var take := Take(ps[0], |values|, MinimumOf(ps[1..]));
      TakesSum(ps, |values|);
      TakesOne(ps[0], |values|, MinimumOf(ps[1..]));
      FirstTake(ps, |values|);
      assert ps[0..] == ps;
      forall k | 0 <= k < |ps|
        ensures m.CellOf(ps[k].name) ==
          if k == 0 then Given(ps[0], values[..take], EMPTY) else Outcome(ps[1..], values[take..], ps[k].name, EMPTY)
      {
        OutcomeStep(ps, 0, values, ps[k].name, EMPTY, take);
      }
      forall k | 0 <= k < |ps[1..]|
        ensures m.CellOf(ps[1..][k].name) == Outcome(ps[1..], values[take..], ps[1..][k].name, EMPTY)
      {
        assert ps[1..][k] == ps[k + 1];
      }
      OutcomesInOrder(m, ps[1..], values[take..]);
      GivenToEmpty(ps[0], values[..take]);
      InOrderCons(m, ps, take, Takes(ps[1..], |values| - take), values);
    }
  }

  lemma FirstTake(ps: seq<Arg>, n: nat)
    requires ps != [] && Positionals.AllValid(ps)
    ensures Take(ps[0], n, MinimumOf(ps[1..])) <= n
  {
  }

  lemma NonePassed(ps: seq<Arg>, values: seq<string>, n: string, c: Cell)
    requires Positionals.AllValid(ps)
    ensures Pending(ps[0..], values[0..], n, c, Passed(ps, 0, n)) == Outcome(ps, values, n, c)
  {
    hide Outcome;
    assert ps[0..] == ps && values[0..] == values;
  }

  /** The entries of `n` at the end, `done` if its positional already had its turn. */
  function Pending(ps: seq<Arg>, values: seq<string>, n: string, c: Cell, done: bool): Cell
    requires Positionals.AllValid(ps)
  {
    if done then c else Outcome(ps, values, n, c)
  }

  lemma PendingStep(ps: seq<Arg>, i: nat, values: seq<string>, n: string, c: Cell, take: nat)
    requires Positionals.AllValid(ps) && i < |ps| && Once(ps, n)
    requires take == Take(ps[i], |values|, MinimumOf(ps[i + 1..])) && take <= |values|
    ensures Pending(ps[i..], values, n, c, Passed(ps, i, n)) ==
      Pending(ps[i + 1..], values[take..], n, if ps[i].name == n then Given(ps[i], values[..take], c) else c,
              Passed(ps, i + 1, n))
  {
    hide Outcome, Take, Given;
    OutcomeStep(ps, i, values, n, c, take);
  }

  lemma NothingPending(ps: seq<Arg>, values: seq<string>, n: string, c: Cell, done: bool)
    requires ps == []
    ensures Pending(ps, values, n, c, done) == c
  {
  }

  lemma TakesOne(p: Arg, remaining: nat, reserve: nat)
    ensures p.multiple || Take(p, remaining, reserve) <= 1
  {
  }

  lemma CapacityLeft(ps: seq<Arg>, i: nat, left: nat, take: nat)
    requires Positionals.AllValid(ps) && i < |ps| && take == Take(ps[i], left, MinimumOf(ps[i + 1..]))
    ensures take <= left && take + Within(Capacity(ps[i + 1..]), left - take) == Within(Capacity(ps[i..]), left)
  {
    MinimumWithinCapacity(ps[i + 1..]);
    CapacityStep(ps, i);
    TakeThenRest(ps[i], left, MinimumOf(ps[i + 1..]), Capacity(ps[i + 1..]));
  }

  lemma CapacityOfNone(ps: seq<Arg>, n: nat, cursor: nat)
    requires cursor <= n && cursor + Within(Capacity(ps[|ps|..]), n - cursor) == Within(Capacity(ps), n)
    ensures if Capacity(ps).Some? && 0 <= Capacity(ps).value < n then cursor == Capacity(ps).value else cursor == n
  {
  }

  lemma CapacityStep(ps: seq<Arg>, i: nat)
    requires i < |ps|
    ensures Capacity(ps[i..]) ==
      match (Maximum(ps[i]), Capacity(ps[i + 1..]))
      case (Some(m), Some(rest)) => Some(m + rest)
      case (_, _) => None
  {
    assert ps[i..][0] == ps[i] && ps[i..][1..] == ps[i + 1..];
  }
}
