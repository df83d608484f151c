/** Global options that take one value, and global flags that are set or cleared, over a path of subcommands. */
module SingleGlobals {
  import opened Args
  import opened Globals

  const SINGLE := ValueKind(false)

  ghost predicate AllOfKind(levels: seq<Level>, kind: Kind) {
    forall i :: 0 <= i < |levels| ==> KindOf(levels[i].definition) == kind
  }

  // ---------------------------------------------------------------- one value

  /** The entries while at most one value has been given: none, a presence marker, or the value. */
  predicate AtMostOne(c: Cell) {
    c == EMPTY || (c == Collected(c.Values()) && |c.Values()| <= 1)
  }

  lemma {:induction false} SingleOwn(seed: Cell, events: seq<Event>)
    requires forall j :: 0 <= j < |events| ==> events[j].Gives?
    requires seed == EMPTY || seed == Collected([])
    ensures ApplyAll(SINGLE, seed, events) ==
      if |Given(events)| > 1 then None else if events == [] then Some(seed) else Some(Collected(Given(events)))
    decreases |events|
  {
    if events != [] {
      var first := Collected([events[0].value]);
      assert Apply(SINGLE, seed, events[0]) == Some(first);
      if |events| > 1 {
        assert Apply(SINGLE, first, events[1]) == None;
        assert ApplyAll(SINGLE, first, events[1..]) == None;
        GivenLength(events);
      } else {
        assert events[1..] == [] && Given(events[1..]) == [];
        assert Given(events) == [events[0].value] && ApplyAll(SINGLE, first, []) == Some(first);
      }
    }
  }

  lemma {:induction false} GivenLength(events: seq<Event>)
    requires forall j :: 0 <= j < |events| ==> events[j].Gives?
    ensures |Given(events)| == |events|
  {
    if events != [] {
      GivenLength(events[1..]);
    }
  }

  /** Merging into a parent: two values are refused, one is kept wherever it was given. */
  lemma SingleMerge(p: Cell, c: Cell)
    requires AtMostOne(p) && AtMostOne(c) && (c == EMPTY ==> p == EMPTY)
    ensures MergedValue(false, p, c) ==
      if |p.Values()| + |c.Values()| > 1 then None
      else if c.HasValues() then Some(c) else Some(p)
  {
  }

  lemma PropagateSingle(p: Cell, cells: seq<Cell>, c: Cell)
    requires AllEqual(cells, c) && p == Collected(p.Values()) && c == Collected(c.Values())
    ensures AllEqual([p] + PropagatedAll(SINGLE, p, cells), p)
  {
  }

  /** Under a presence marker, or with a value further down. */
  lemma {:induction false} SingleRun(levels: seq<Level>, seed: Cell, env: Env)
    requires levels != [] && OnlyGives(levels)
    requires seed == Collected([]) || (seed == EMPTY && AllGiven(levels) != [])
    ensures Run(SINGLE, levels, seed, env).Some? <==> |AllGiven(levels)| <= 1
    ensures |AllGiven(levels)| <= 1 ==> AllEqual(Run(SINGLE, levels, seed, env).value, Collected(AllGiven(levels)))
    decreases |levels|, 1
  {
    if |levels| == 1 {
      SingleOwn(seed, levels[0].events);
      assert levels[1..] == [];
      assert AllGiven(levels) == Given(levels[0].events);
    } else {
      SingleRunDeeper(levels, seed, env);
    }
  }

  /** A level that refuses, or a refusal below or in between, refuses the whole run. */
  lemma RunRefused(kind: Kind, levels: seq<Level>, seed: Cell, env: Env)
    requires levels != []
    ensures ApplyAll(kind, seed, levels[0].events) == None ==> Run(kind, levels, seed, env) == None
    ensures ApplyAll(kind, seed, levels[0].events).Some? ==>
      var own := ApplyAll(kind, seed, levels[0].events).value;
      var below := Run(kind, levels[1..], Seeded(kind, own), env);
      && (below == None ==> Run(kind, levels, seed, env) == None)
      && (below.Some? && below.value != [] && Merged(kind, own, below.value[0]) == None ==>
            Run(kind, levels, seed, env) == None)
  {
    hide ApplyAll, Seeded, Merged, Finalized, PropagatedAll;
  }

  /** What a level has after its own tokens and those below, given what it had before. */
  lemma SingleStep(levels: seq<Level>, seed: Cell, start: Cell, c: Cell)
    requires |levels| >= 2 && OnlyGives(levels) && |Given(levels[0].events)| <= 1 && |AllGiven(levels[1..])| <= 1
    requires seed == Collected([]) || (seed == EMPTY && AllGiven(levels) != [])
    requires start == if levels[0].events == [] then seed else Collected(Given(levels[0].events))
    requires c == Collected(AllGiven(levels[1..]))
    ensures AllGiven(levels) == Given(levels[0].events) + AllGiven(levels[1..])
    ensures Merged(SINGLE, start, c) == if |AllGiven(levels)| > 1 then None else Some(Collected(AllGiven(levels)))
  {
    var given, rest := Given(levels[0].events), AllGiven(levels[1..]);
    GivenLength(levels[0].events);
    SingleMerge(start, c);
    assert [] + rest == rest && given + [] == given;
    assert given == [] ==> levels[0].events == [];
  }

  lemma {:induction false} SingleRunDeeper(levels: seq<Level>, seed: Cell, env: Env)
    requires |levels| >= 2 && OnlyGives(levels)
    requires seed == Collected([]) || (seed == EMPTY && AllGiven(levels) != [])
    ensures Run(SINGLE, levels, seed, env).Some? <==> |AllGiven(levels)| <= 1
    ensures |AllGiven(levels)| <= 1 ==> AllEqual(Run(SINGLE, levels, seed, env).value, Collected(AllGiven(levels)))
    decreases |levels|, 0
  {
    hide Run, Merged, ApplyAll, PropagatedAll, Finalized, Given;
    var given, rest := Given(levels[0].events), AllGiven(levels[1..]);
    assert AllGiven(levels) == given + rest;
    SingleOwn(seed, levels[0].events);
    RunRefused(SINGLE, levels, seed, env);
    if |given| <= 1 {
      var start := if levels[0].events == [] then seed else Collected(given);
      GivenLength(levels[0].events);
      SingleRun(levels[1..], Seeded(SINGLE, start), env);
      if |rest| <= 1 {
        var below := Run(SINGLE, levels[1..], Seeded(SINGLE, start), env).value;
        SingleStep(levels, seed, start, below[0]);
        if |AllGiven(levels)| <= 1 {
          PropagateSingle(Collected(AllGiven(levels)), below, below[0]);
          RunStep(SINGLE, levels, seed, start, below, Collected(AllGiven(levels)), env);
        }
      }
    }
  }

  // ------------------------------------------------- no value: environment and defaults

  predicate NotFromArgv(c: Cell) {
    c.valueSource != Some(Argv)
  }

  lemma IdleStep(arg: Arg, c: Cell, env: Env)
    requires KindOf(arg) == SINGLE && NotFromArgv(c)
    ensures Finalized(arg, c, env).Some? && NotFromArgv(Finalized(arg, c, env).value)
  {
  }

  lemma IdleMerge(c: Cell)
    requires NotFromArgv(c)
    ensures MergedValue(false, EMPTY, c).Some? && NotFromArgv(MergedValue(false, EMPTY, c).value)
  {
  }

  lemma IdleAbove(levels: seq<Level>, below: seq<Cell>, merged: Cell, env: Env)
    requires levels != [] && levels[0].events == [] && KindOf(levels[0].definition) == SINGLE
    requires Run(SINGLE, levels[1..], EMPTY, env) == Some(below)
    requires Some(merged) == if below == [] then Some(EMPTY) else Merged(SINGLE, EMPTY, below[0])
    requires NotFromArgv(merged) && forall k :: 0 <= k < |below| ==> NotFromArgv(below[k])
    ensures Run(SINGLE, levels, EMPTY, env).Some?
    ensures forall k :: 0 <= k < |levels| ==> NotFromArgv(Run(SINGLE, levels, EMPTY, env).value[k])
  {
    hide Merged, Finalized, KindOf;
    assert Seeded(SINGLE, EMPTY) == EMPTY && ApplyAll(SINGLE, EMPTY, []) == Some(EMPTY);
    IdleStep(levels[0].definition, merged, env);
  }

  /** Without a value on the command line nothing is from there, and nothing is refused. */
  lemma {:induction false} IdleRun(levels: seq<Level>, env: Env)
    requires OnlyGives(levels) && AllGiven(levels) == [] && AllOfKind(levels, SINGLE)
    ensures Run(SINGLE, levels, EMPTY, env).Some?
    ensures forall k :: 0 <= k < |levels| ==> NotFromArgv(Run(SINGLE, levels, EMPTY, env).value[k])
    decreases |levels|
  {
    hide Run, Finalized, KindOf, NotFromArgv, Seeded;
    if levels == [] {
      NoLevels(env);
    } else {
      GivenLength(levels[0].events);
      assert levels[0].events == [];
      IdleRun(levels[1..], env);
      var below := Run(SINGLE, levels[1..], EMPTY, env).value;
      NotFromArgvEmpty();
      if below != [] {
        IdleMerge(below[0]);
      }
      IdleAbove(levels, below, if below == [] then EMPTY else MergedValue(false, EMPTY, below[0]).value, env);
    }
  }

  lemma NoLevels(env: Env)
    ensures Run(SINGLE, [], EMPTY, env) == Some([])
  {
  }

  lemma NotFromArgvEmpty()
    ensures NotFromArgv(EMPTY)
  {
  }

  /** A global option that takes one value: a parse is refused exactly when it is given more than one on the whole
      path, and one value, wherever it is given, is the value at every level, from argv. */
  lemma GlobalSingle(levels: seq<Level>, env: Env)
    requires levels != [] && OnlyGives(levels) && AllOfKind(levels, SINGLE)
    ensures Run(SINGLE, levels, EMPTY, env).Some? <==> |AllGiven(levels)| <= 1
    ensures |AllGiven(levels)| == 1 ==> AllEqual(Run(SINGLE, levels, EMPTY, env).value, Collected(AllGiven(levels)))
  {
    if AllGiven(levels) == [] {
      IdleRun(levels, env);
    } else {
      SingleRun(levels, EMPTY, env);
    }
  }

  // ------------------------------------------------------------------- flags

  /** Flags that are set or cleared, by their plain or their negated form. */
  predicate IsSwitch(kind: Kind) {
    kind == FlagKind(SetTrue) || kind == FlagKind(SetFalse)
  }

  ghost predicate OnlySwitches(levels: seq<Level>) {
    forall i, j :: 0 <= i < |levels| && 0 <= j < |levels[i].events| ==> !levels[i].events[j].Gives?
  }

  /** All occurrences in argv order. */
  function AllEvents(levels: seq<Level>): seq<Event> {
    if levels == [] then [] else levels[0].events + AllEvents(levels[1..])
  }

  /** What one occurrence says: `--flag` sets or clears, `--no-flag` does the opposite. */
  predicate Says(kind: Kind, e: Event) {
    (kind == FlagKind(SetTrue)) == e.Occurs?
  }

  function Switched(flag: bool): Cell {
    Cell(Some(flag), None, Some(Argv), None, None)
  }

  lemma {:induction false} SwitchOwn(kind: Kind, seed: Cell, events: seq<Event>)
    requires IsSwitch(kind) && forall j :: 0 <= j < |events| ==> !events[j].Gives?
    requires seed == EMPTY || (seed.flag.Some? && seed == Switched(seed.flag.value))
    ensures ApplyAll(kind, seed, events) ==
      Some(if events == [] then seed else Switched(Says(kind, events[|events| - 1])))
    decreases |events|
  {
    if events != [] {
      SwitchOwn(kind, Switched(Says(kind, events[0])), events[1..]);
    }
  }

  lemma PropagateSwitch(kind: Kind, p: bool, cells: seq<Cell>, c: bool)
    requires IsSwitch(kind) && AllEqual(cells, Switched(c))
    ensures AllEqual([Switched(p)] + PropagatedAll(kind, Switched(p), cells), Switched(p))
  {
  }

  /** What counts in the end: the last occurrence, or what was said above. */
  function Outcome(kind: Kind, levels: seq<Level>, seed: Cell): bool
    requires AllEvents(levels) != [] || seed.flag.Some?
  {
    var all := AllEvents(levels);
    if all == [] then seed.flag.value else Says(kind, all[|all| - 1])
  }

  lemma OutcomeStep(kind: Kind, levels: seq<Level>, seed: Cell, start: Cell)
    requires levels != [] && IsSwitch(kind) && OnlySwitches(levels)
    requires (seed.flag.Some? && seed == Switched(seed.flag.value)) || (seed == EMPTY && AllEvents(levels) != [])
    requires var events := levels[0].events;
      start == if events == [] then seed else Switched(Says(kind, events[|events| - 1]))
    ensures AllEvents(levels[1..]) != [] || Seeded(kind, start).flag.Some?
    ensures Outcome(kind, levels, seed) == Outcome(kind, levels[1..], Seeded(kind, start))
    ensures Seeded(kind, start) == if start == EMPTY then EMPTY else Switched(start.flag.value)
    ensures |levels| == 1 ==> start == Switched(Outcome(kind, levels, seed))
  {
    var events, rest := levels[0].events, AllEvents(levels[1..]);
    assert AllEvents(levels) == events + rest;
    assert |levels| == 1 ==> rest == [] && AllEvents(levels) == events;
  }

  lemma SwitchMerge(kind: Kind, start: Cell, c: bool)
    requires IsSwitch(kind) && (start == EMPTY || (start.flag.Some? && start == Switched(start.flag.value)))
    ensures Merged(kind, start, Switched(c)) == Some(Switched(c))
  {
  }

  lemma LastLevel(kind: Kind, levels: seq<Level>, seed: Cell, own: Cell, env: Env)
    requires |levels| == 1 && ApplyAll(kind, seed, levels[0].events) == Some(own) && own.Present()
    ensures Run(kind, levels, seed, env) == Some([own])
  {
    assert levels[1..] == [] && [own] + PropagatedAll(kind, own, []) == [own];
    assert ApplyAll(kind, own, []) == Some(own);
  }

  lemma {:induction false} SwitchRun(kind: Kind, levels: seq<Level>, seed: Cell, env: Env)
    requires levels != [] && IsSwitch(kind) && OnlySwitches(levels)
    requires (seed.flag.Some? && seed == Switched(seed.flag.value)) || (seed == EMPTY && AllEvents(levels) != [])
    ensures Run(kind, levels, seed, env).Some?
    ensures AllEqual(Run(kind, levels, seed, env).value, Switched(Outcome(kind, levels, seed)))
    decreases |levels|
  {
    hide Run, Merged, ApplyAll, PropagatedAll, Finalized, Seeded, Outcome, AllEvents;
    var events := levels[0].events;
    SwitchOwn(kind, seed, events);
    var start := if events == [] then seed else Switched(Says(kind, events[|events| - 1]));
    var final := Outcome(kind, levels, seed);
    OutcomeStep(kind, levels, seed, start);
    if |levels| == 1 {
      LastLevel(kind, levels, seed, start, env);
    } else {
      SwitchRun(kind, levels[1..], Seeded(kind, start), env);
      var below := Run(kind, levels[1..], Seeded(kind, start), env).value;
      SwitchMerge(kind, start, final);
      RunStep(kind, levels, seed, start, below, Switched(final), env);
      PropagateSwitch(kind, final, below, final);
    }
  }

  /** A global flag that is set or cleared, given at least once in its plain or negated form: every level of the path
      ends with what the last occurrence on the command line says, from argv. */
  lemma GlobalSwitch(kind: Kind, levels: seq<Level>, env: Env)
    requires IsSwitch(kind) && OnlySwitches(levels) && AllEvents(levels) != []
    ensures Run(kind, levels, EMPTY, env).Some?
    ensures var all := AllEvents(levels);
      AllEqual(Run(kind, levels, EMPTY, env).value,
               Cell(Some((kind == FlagKind(SetTrue)) == all[|all| - 1].Occurs?), None, Some(Argv), None, None))
  {
    SwitchRun(kind, levels, EMPTY, env);
  }

  // ------------------------------------------------------- environment and defaults

  lemma IdleLevel(kind: Kind, arg: Arg, env: Env)
    ensures Run(kind, [Level([], arg)], EMPTY, env) ==
      match Finalized(arg, EMPTY, env)
      case None => None
      case Some(c) => Some([c])
  {
    assert [Level([], arg)][1..] == [];
    if Finalized(arg, EMPTY, env).Some? {
      var c := Finalized(arg, EMPTY, env).value;
      assert [c] + PropagatedAll(kind, c, []) == [c];
    }
  }

  /** An argument that is not on the command line of its one level takes the text of its variable, all of its defaults
      if it appends, or else the last. */
  lemma AbsentValue(arg: Arg, env: Env)
    requires arg.info.OptionInfo? && arg.Constructed()
    ensures
      var run := Run(KindOf(arg), [Level([], arg)], EMPTY, env);
      run == Some([
        if arg.env.Some? && arg.env.value in env.vars
        then Cell(None, None, None, Some([env.vars[arg.env.value]]), Some(Source.Env))
        else if arg.info.defaults == [] then EMPTY
        else Cell(None, None, None,
                  Some(if arg.info.action.Append? then arg.info.defaults else [arg.info.defaults[|arg.info.defaults| - 1]]),
                  Some(Default))])
  {
    IdleLevel(KindOf(arg), arg, env);
    assert [] + [if arg.env.Some? && arg.env.value in env.vars then env.vars[arg.env.value] else ""]
        == [if arg.env.Some? && arg.env.value in env.vars then env.vars[arg.env.value] else ""];
  }

  /** The texts that stand for true and false, and what each action makes of them. */
  lemma AbsentSwitch(arg: Arg, env: Env)
    requires arg.info.FlagInfo? && IsSwitch(KindOf(arg))
    ensures
      var run := Run(KindOf(arg), [Level([], arg)], EMPTY, env);
      if arg.env == None || arg.env.value !in env.vars then run == Some([EMPTY])
      else
        var text, sets := env.vars[arg.env.value], KindOf(arg) == FlagKind(SetTrue);
        && (text == "1" || text == "true" || text == "yes" || text == "on" ==>
              run == Some([Cell(Some(sets), None, Some(Source.Env), None, None)]))
        && (text == "0" || text == "false" || text == "no" || text == "off" ==>
              run == Some([Cell(Some(!sets), None, Some(Source.Env), None, None)]))
        && (text !in ["1", "true", "yes", "on", "0", "false", "no", "off"] ==> run == None)
  {
    IdleLevel(KindOf(arg), arg, env);
  }

  /** A count is taken from its variable when the text is one. */
  lemma AbsentCount(arg: Arg, env: Env)
    requires arg.info.FlagInfo? && KindOf(arg) == COUNT && arg.env.Some? && arg.env.value in env.vars
    ensures
      var run := Run(KindOf(arg), [Level([], arg)], EMPTY, env);
      var text := env.vars[arg.env.value];
      run == if text !in env.counts then None
             else Some([Cell(Some(env.counts[text] > 0), Some(env.counts[text]), Some(Source.Env), None, None)])
  {
    IdleLevel(KindOf(arg), arg, env);
  }
}
