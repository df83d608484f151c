/** What one global argument goes through on the selected path of subcommands: argv occurrences at every level,
    seeding of the child, merging back into the parent, fallbacks, and propagation down.  All of it is per name, so
    it is described on the entries the parse maps hold for one name. */
module Globals {
  import opened Args

  datatype Source = Argv | Env | Default

  /** The entries of one name in the five maps of a parse state. */
  datatype Cell = Cell(flag: Option<bool>, count: Option<nat>, flagSource: Option<Source>,
                       values: Option<seq<string>>, valueSource: Option<Source>) {
    predicate Present() {
      flag.Some? || values.Some?
    }

    predicate HasValues() {
      values.Some? && values.value != []
    }

    function Values(): seq<string> {
      if values.Some? then values.value else []
    }

    function Count(): nat {
      if count.Some? then count.value else 0
    }
  }

  const EMPTY := Cell(None, None, None, None, None)

  /** What merging looks at in a definition. */
  datatype Kind = FlagKind(action: FlagAction) | ValueKind(append: bool)

  function KindOf(arg: Arg): Kind {
    match arg.info
    case FlagInfo(_, _, action, _) => FlagKind(action)
    case OptionInfo(_, _, action, _) => ValueKind(arg.multiple || action.Append?)
    case PositionalInfo(_, _) => ValueKind(arg.multiple)
  }

  function Priority(source: Option<Source>): nat {
    match source
    case Some(Argv) => 3
    case Some(Env) => 2
    case Some(Default) => 1
    case None => 0
  }

  function PreferChild(parent: Option<Source>, child: Option<Source>): bool {
    if Priority(child) > Priority(parent) then true
    else if Priority(child) < Priority(parent) then false
    else child == Some(Argv)
  }

  function Stronger(parent: Option<Source>, child: Option<Source>): Option<Source> {
    if PreferChild(parent, child) then child else if parent.Some? then parent else child
  }

  function Known(source: Option<Source>, other: Option<Source>): Option<Source> {
    if source.Some? then source else other
  }

  // --------------------------------------------------------- one level's tokens

  /** One occurrence on the command line: the flag, its negated form, or a value. */
  datatype Event = Occurs | Negates | Gives(value: string)

  /** `apply_flag`, the `--no-` branch and `assign_value`; nothing when an option is given twice. */
  function Apply(kind: Kind, c: Cell, e: Event): Option<Cell> {
    match kind
    case FlagKind(action) =>
      if e.Negates? then
        Some(c.(flag := Some(action.SetFalse?), flagSource := Some(Argv),
                count := if action.Count? then Some(0) else c.count))
      else (match action
        case SetTrue => Some(c.(flag := Some(true), flagSource := Some(Argv)))
        case SetFalse => Some(c.(flag := Some(false), flagSource := Some(Argv)))
        case Count => Some(c.(flag := Some(true), flagSource := Some(Argv), count := Some(c.Count() + 1)))
        case _ => Some(c.(flagSource := Some(Argv))))
    case ValueKind(append) =>
      if !e.Gives? then Some(c)
      else if append then Some(c.(values := Some(c.Values() + [e.value]), valueSource := Some(Argv)))
      else if c.HasValues() then None
      else Some(c.(values := Some([e.value]), valueSource := Some(Argv)))
  }

  function ApplyAll(kind: Kind, c: Cell, events: seq<Event>): Option<Cell>
    decreases |events|
  {
    if events == [] then Some(c)
    else match Apply(kind, c, events[0])
      case None => None
      case Some(d) => ApplyAll(kind, d, events[1..])
  }

  // --------------------------------------------------------- between two levels

  /** `seed_child_globals_from_parent`: presence markers only. */
  function Seeded(kind: Kind, p: Cell): Cell {
    match kind
    case ValueKind(_) =>
      if p.values.Some? && p.valueSource == Some(Argv) then EMPTY.(values := Some([]), valueSource := Some(Argv))
      else EMPTY
    case FlagKind(action) =>
      if p.flag.Some? && p.flagSource == Some(Argv)
      then EMPTY.(flag := p.flag, flagSource := Some(Argv), count := if action.Count? then Some(0) else None)
      else EMPTY
  }

  /** `merge_global_value_from_child`: nothing when both levels set a single-valued option. */
  function MergedValue(append: bool, p: Cell, c: Cell): Option<Cell> {
    var bothArgv := p.valueSource == Some(Argv) && c.valueSource == Some(Argv);
    if !p.HasValues() && !c.HasValues() then Some(p)
    else if append && bothArgv then Some(p.(values := Some(p.Values() + c.Values()), valueSource := Some(Argv)))
    else if !append && bothArgv && p.HasValues() && c.HasValues() then None
    else if c.HasValues() && (!p.HasValues() || PreferChild(p.valueSource, c.valueSource))
    then Some(p.(values := c.values, valueSource := Known(c.valueSource, p.valueSource)))
    else Some(p)
  }

  /** `merge_global_flag_from_child` */
  function MergedFlag(action: FlagAction, p: Cell, c: Cell): Cell {
    if c.flag.None? then p
    else if action.Count? then
      if p.flagSource == Some(Argv) && c.flagSource == Some(Argv) then
        var total := if c.Count() == 0 && !c.flag.value then 0 else p.Count() + c.Count();
        p.(count := Some(total), flag := Some(total > 0), flagSource := Stronger(p.flagSource, c.flagSource))
      else if p.flag.None? || PreferChild(p.flagSource, c.flagSource) then
        p.(count := Some(c.Count()), flag := Some(c.Count() > 0), flagSource := Known(c.flagSource, p.flagSource))
      else p
    else if p.flag.None? || PreferChild(p.flagSource, c.flagSource) then
      p.(flag := c.flag, flagSource := Known(c.flagSource, p.flagSource))
    else p
  }

  function Merged(kind: Kind, p: Cell, c: Cell): Option<Cell> {
    match kind
    case ValueKind(append) => MergedValue(append, p, c)
    case FlagKind(action) => Some(MergedFlag(action, p, c))
  }

  /** `propagate_globals_to_child` */
  function Propagated(kind: Kind, p: Cell, c: Cell): Cell {
    match kind
    case ValueKind(_) =>
      if p.values.None? then c else c.(values := p.values, valueSource := Known(p.valueSource, c.valueSource))
    case FlagKind(action) =>
      if p.flag.None? then c
      else c.(flag := p.flag, flagSource := Known(p.flagSource, c.flagSource),
              count := if action.Count? && p.count.Some? then p.count else c.count)
  }

  // ------------------------------------------------------------- the whole path

  /** One level of the path, for one name: what argv says there, and the definition in force. */
  datatype Level = Level(events: seq<Event>, definition: Arg)

  /** The environment, with the numbers of the texts that are counts. */
  datatype Env = Env(vars: map<string, string>, counts: map<string, nat>)

  /** `parse_bool` */
  function ParseBool(text: string): Option<bool> {
    if text in {"1", "true", "yes", "on"} then Some(true)
    else if text in {"0", "false", "no", "off"} then Some(false)
    else None
  }

  function FromText(kind: Kind, c: Cell, text: string, env: Env): Option<Cell> {
    match kind
    case ValueKind(append) =>
      Some(c.(values := Some(if append then c.Values() + [text] else [text]), valueSource := Some(Source.Env)))
    case FlagKind(Count) =>
      if text !in env.counts then None
      else Some(c.(count := Some(env.counts[text]), flag := Some(env.counts[text] > 0), flagSource := Some(Source.Env)))
    case FlagKind(SetTrue) =>
      if ParseBool(text).None? then None
      else Some(c.(flag := ParseBool(text), flagSource := Some(Source.Env)))
    case FlagKind(SetFalse) =>
      if ParseBool(text).None? then None
      else Some(c.(flag := Some(!ParseBool(text).value), flagSource := Some(Source.Env)))
    case FlagKind(_) => Some(c)
  }

  /** `apply_env` */
  function FromEnv(arg: Arg, c: Cell, env: Env): Option<Cell> {
    if c.Present() || arg.env.None? || arg.env.value !in env.vars then Some(c)
    else FromText(KindOf(arg), c, env.vars[arg.env.value], env)
  }

  function Kept(kind: Kind, given: seq<string>): seq<string> {
    if given == [] || kind == ValueKind(true) then given else [given[|given| - 1]]
  }

  /** `apply_defaults`: a single value keeps the last default. */
  function FromDefaults(arg: Arg, c: Cell): Cell {
    if c.Present() || arg.info.FlagInfo? || arg.info.defaults == [] then c
    else c.(values := Some(Kept(KindOf(arg), arg.info.defaults)), valueSource := Some(Default))
  }

  /** Environment, then defaults; both leave alone what is already present. */
  function Finalized(arg: Arg, c: Cell, env: Env): Option<Cell> {
    match FromEnv(arg, c, env)
    case None => None
    case Some(d) => Some(FromDefaults(arg, d))
  }

  function PropagatedAll(kind: Kind, p: Cell, cells: seq<Cell>): (r: seq<Cell>)
    ensures |r| == |cells| && forall k :: 0 <= k < |r| ==> r[k] == Propagated(kind, p, cells[k])
  {
    seq(|cells|, k requires 0 <= k < |cells| => Propagated(kind, p, cells[k]))
  }

  /** The final entries at every level of the path, top first; nothing when a value is refused. */
  function Run(kind: Kind, levels: seq<Level>, seed: Cell, env: Env): (r: Option<seq<Cell>>)
    ensures r.Some? ==> |r.value| == |levels|
    decreases |levels|
  {
    if levels == [] then Some([])
    else match ApplyAll(kind, seed, levels[0].events)
      case None => None
      case Some(own) =>
        match Run(kind, levels[1..], Seeded(kind, own), env)
        case None => None
        case Some(below) =>
          match (if below == [] then Some(own) else Merged(kind, own, below[0]))
          case None => None
          case Some(merged) =>
            match Finalized(levels[0].definition, merged, env)
            case None => None
            case Some(final) => Some([final] + PropagatedAll(kind, final, below))
  }

  lemma RunStep(kind: Kind, levels: seq<Level>, seed: Cell, own: Cell, below: seq<Cell>, merged: Cell, env: Env)
    requires |levels| >= 2 && ApplyAll(kind, seed, levels[0].events) == Some(own)
    requires Run(kind, levels[1..], Seeded(kind, own), env) == Some(below)
    requires Merged(kind, own, below[0]) == Some(merged) && merged.Present()
    ensures Run(kind, levels, seed, env) == Some([merged] + PropagatedAll(kind, merged, below))
  {
  }

  // -------------------------------------------------------------- global counts

  const COUNT := FlagKind(FlagAction.Count)

  function Counted(n: nat, flag: bool): Cell {
    Cell(Some(flag), Some(n), Some(Argv), None, None)
  }

  /** No negated form, and no value: only occurrences of the flag. */
  ghost predicate OnlyOccurs(levels: seq<Level>) {
    forall i, j :: 0 <= i < |levels| && 0 <= j < |levels[i].events| ==> levels[i].events[j] == Occurs
  }

  function Occurrences(levels: seq<Level>): nat {
    if levels == [] then 0 else |levels[0].events| + Occurrences(levels[1..])
  }

  /** The flag occurs at the deepest level or at the one above it. */
  predicate OccursNearEnd(levels: seq<Level>) {
    Occurrences(if |levels| <= 2 then levels else levels[|levels| - 2..]) > 0
  }

  lemma {:induction false} CountOwn(seed: Cell, events: seq<Event>)
    requires forall j :: 0 <= j < |events| ==> events[j] == Occurs
    requires seed == EMPTY || (seed.flag == Some(true) && seed == Counted(seed.Count(), true))
    ensures ApplyAll(COUNT, seed, events) ==
      Some(if events == [] then seed else Counted(seed.Count() + |events|, true))
    decreases |events|
  {
    if events != [] {
      CountOwn(Counted(seed.Count() + 1, true), events[1..]);
    }
  }

  lemma {:induction false} OccurrencesOfTail(levels: seq<Level>, k: nat)
    requires k <= |levels|
    ensures Occurrences(levels[k..]) <= Occurrences(levels)
  {
    if k > 0 {
      OccurrencesOfTail(levels[1..], k - 1);
      assert levels[1..][k - 1..] == levels[k..];
    } else {
      assert levels[0..] == levels;
    }
  }

  lemma NearEndOfTail(levels: seq<Level>)
    requires |levels| >= 2
    ensures |levels| >= 3 ==> OccursNearEnd(levels) == OccursNearEnd(levels[1..])
    ensures OccursNearEnd(levels) ==> Occurrences(levels) > 0
    ensures |levels| == 2 ==> OccursNearEnd(levels) == (Occurrences(levels) > 0)
  {
    if |levels| >= 3 {
      assert levels[1..][|levels| - 3..] == levels[|levels| - 2..];
      OccurrencesOfTail(levels, |levels| - 2);
    }
  }

  /** What a level ends with, given whether an earlier level already saw the flag.  A single level counts its own
      occurrences.  Above that, the sum survives only if the flag occurs near the end of the path: otherwise the
      two deepest levels merge two empty markers into a cleared flag, and a cleared flag resets every level above. */
  function CountOutcome(levels: seq<Level>): Cell {
    if |levels| == 1 || OccursNearEnd(levels) then Counted(Occurrences(levels), true) else Counted(0, false)
  }

  predicate AllEqual(cells: seq<Cell>, c: Cell) {
    forall k :: 0 <= k < |cells| ==> cells[k] == c
  }

  lemma CountMerge(own: nat, c: Cell)
    requires c == Counted(c.Count(), c.flag == Some(true))
    ensures MergedFlag(FlagAction.Count, Counted(own, true), c) ==
      if c.Count() == 0 && c.flag == Some(false) then Counted(0, false)
      else Counted(own + c.Count(), own + c.Count() > 0)
    ensures c.Count() > 0 || c.flag == Some(false) ==>
      MergedFlag(FlagAction.Count, EMPTY, c) == Counted(c.Count(), c.Count() > 0)
  {
  }

  lemma PropagateCount(p: Cell, cells: seq<Cell>, c: Cell)
    requires AllEqual(cells, c) && p == Counted(p.Count(), p.flag == Some(true))
    requires c == Counted(c.Count(), c.flag == Some(true))
    ensures AllEqual([p] + PropagatedAll(COUNT, p, cells), p)
  {
  }

  lemma {:induction false} CountRun(levels: seq<Level>, seed: Cell, env: Env)
    requires levels != [] && OnlyOccurs(levels)
    requires seed == Counted(0, true) || (seed == EMPTY && Occurrences(levels) > 0)
    ensures Run(COUNT, levels, seed, env).Some?
    ensures AllEqual(Run(COUNT, levels, seed, env).value, CountOutcome(levels))
    decreases |levels|, 1
  {
    if |levels| == 1 {
      CountOwn(seed, levels[0].events);
      assert levels[1..] == [];
      assert Occurrences(levels) == |levels[0].events|;
    } else {
      CountRunDeeper(levels, seed, env);
    }
  }

  /** The merge of a level into the one above gives that level's outcome. */
  lemma CountOutcomeStep(levels: seq<Level>, start: Cell)
    requires |levels| >= 2
    requires start == if levels[0].events == [] then EMPTY else Counted(|levels[0].events|, true)
    requires start == EMPTY ==> Occurrences(levels) > 0
    ensures MergedFlag(FlagAction.Count, start, CountOutcome(levels[1..])) == CountOutcome(levels)
  {
    NearEndOfTail(levels);
    CountMerge(start.Count(), CountOutcome(levels[1..]));
  }

  lemma MarkedOutcomeStep(levels: seq<Level>)
    requires |levels| >= 2 && levels[0].events == []
    ensures MergedFlag(FlagAction.Count, Counted(0, true), CountOutcome(levels[1..])) == CountOutcome(levels)
  {
    NearEndOfTail(levels);
    CountMerge(0, CountOutcome(levels[1..]));
  }

  lemma {:induction false} CountRunDeeper(levels: seq<Level>, seed: Cell, env: Env)
    requires |levels| >= 2 && OnlyOccurs(levels)
    requires seed == Counted(0, true) || (seed == EMPTY && Occurrences(levels) > 0)
    ensures Run(COUNT, levels, seed, env).Some?
    ensures AllEqual(Run(COUNT, levels, seed, env).value, CountOutcome(levels))
    decreases |levels|, 0
  {
    hide Run, MergedFlag, ApplyAll, PropagatedAll, OccursNearEnd;
    CountOwn(seed, levels[0].events);
    var start := if levels[0].events == [] then seed else Counted(|levels[0].events|, true);
    CountRun(levels[1..], Seeded(COUNT, start), env);
    var below := Run(COUNT, levels[1..], Seeded(COUNT, start), env).value;
    if levels[0].events == [] && seed != EMPTY {
      MarkedOutcomeStep(levels);
    } else {
      CountOutcomeStep(levels, start);
    }
    RunStep(COUNT, levels, seed, start, below, CountOutcome(levels), env);
    PropagateCount(CountOutcome(levels), below, below[0]);
  }

  /** A global count flag given at least once, never negated: every level of the path ends with the number of
      occurrences, from argv, exactly when one of them is at the deepest level or the one above it. */
  lemma GlobalCount(levels: seq<Level>, env: Env)
    requires OnlyOccurs(levels) && Occurrences(levels) > 0
    ensures Run(COUNT, levels, EMPTY, env).Some?
    ensures AllEqual(Run(COUNT, levels, EMPTY, env).value, Counted(Occurrences(levels), true)) <==> OccursNearEnd(levels)
    ensures !OccursNearEnd(levels) ==> AllEqual(Run(COUNT, levels, EMPTY, env).value, Counted(0, false))
  {
    CountRun(levels, EMPTY, env);
    var cells := Run(COUNT, levels, EMPTY, env).value;
    assert cells[0] == CountOutcome(levels);
    if |levels| == 1 {
      assert levels == levels[..];
    }
  }

  /** `root -v -v sub leaf` counts zero at all three levels. */
  lemma CountIsLost(definition: Arg, env: Env)
    ensures
      var levels := [Level([Occurs, Occurs], definition), Level([], definition), Level([], definition)];
      Run(COUNT, levels, EMPTY, env) == Some([Counted(0, false), Counted(0, false), Counted(0, false)])
  {
    hide Run;
    var levels := [Level([Occurs, Occurs], definition), Level([], definition), Level([], definition)];
    var last := [Level([], definition)];
    assert last[1..] == [] && Occurrences(last) == 0;
    assert levels[1..][1..] == last && Occurrences(levels[1..]) == 0;
    assert Occurrences(levels) == 2 && levels[|levels| - 2..] == levels[1..];
    GlobalCount(levels, env);
    RunLength(COUNT, levels, EMPTY, env);
    var cells := Run(COUNT, levels, EMPTY, env).value;
    assert cells == [cells[0], cells[1], cells[2]];
  }

  lemma RunLength(kind: Kind, levels: seq<Level>, seed: Cell, env: Env)
    requires Run(kind, levels, seed, env).Some?
    ensures |Run(kind, levels, seed, env).value| == |levels|
  {
  }

  // ------------------------------------------------------ global append options

  const APPEND := ValueKind(true)

  ghost predicate OnlyGives(levels: seq<Level>) {
    forall i, j :: 0 <= i < |levels| && 0 <= j < |levels[i].events| ==> levels[i].events[j].Gives?
  }

  function Given(events: seq<Event>): seq<string>
    requires forall j :: 0 <= j < |events| ==> events[j].Gives?
  {
    if events == [] then [] else [events[0].value] + Given(events[1..])
  }

  /** All values in argv order. */
  function AllGiven(levels: seq<Level>): seq<string>
    requires OnlyGives(levels)
  {
    if levels == [] then [] else Given(levels[0].events) + AllGiven(levels[1..])
  }

  function Collected(values: seq<string>): Cell {
    Cell(None, None, None, Some(values), Some(Argv))
  }

  lemma {:induction false} AppendOwn(seed: Cell, events: seq<Event>)
    requires forall j :: 0 <= j < |events| ==> events[j].Gives?
    requires seed == EMPTY || seed == Collected(seed.Values())
    ensures ApplyAll(APPEND, seed, events) ==
      Some(if events == [] then seed else Collected(seed.Values() + Given(events)))
    decreases |events|
  {
    if events != [] {
      AppendOwn(Collected(seed.Values() + [events[0].value]), events[1..]);
      assert seed.Values() + [events[0].value] + Given(events[1..]) == seed.Values() + Given(events);
      if events[1..] == [] {
        assert seed.Values() + Given(events) == seed.Values() + [events[0].value];
      }
    }
  }

  lemma AppendMerge(p: Cell, c: Cell)
    requires p == EMPTY || p == Collected(p.Values())
    requires c == Collected(c.Values()) && (p == EMPTY ==> c.Values() != [])
    ensures MergedValue(true, p, c) == Some(Collected(p.Values() + c.Values()))
  {
    assert [] + c.Values() == c.Values();
  }

  lemma PropagateValues(p: Cell, cells: seq<Cell>, c: Cell)
    requires AllEqual(cells, c) && p == Collected(p.Values()) && c == Collected(c.Values())
    ensures AllEqual([p] + PropagatedAll(APPEND, p, cells), p)
  {
  }

  lemma {:induction false} AppendRun(levels: seq<Level>, seed: Cell, env: Env)
    requires levels != [] && OnlyGives(levels)
    requires seed == Collected([]) || (seed == EMPTY && AllGiven(levels) != [])
    ensures Run(APPEND, levels, seed, env).Some?
    ensures AllEqual(Run(APPEND, levels, seed, env).value, Collected(AllGiven(levels)))
    decreases |levels|, 1
  {
    if |levels| == 1 {
      AppendOwn(seed, levels[0].events);
      assert levels[1..] == [];
      assert AllGiven(levels) == Given(levels[0].events);
      assert seed.Values() + Given(levels[0].events) == Given(levels[0].events);
    } else {
      AppendRunDeeper(levels, seed, env);
    }
  }

  lemma {:induction false} AppendRunDeeper(levels: seq<Level>, seed: Cell, env: Env)
    requires |levels| >= 2 && OnlyGives(levels)
    requires seed == Collected([]) || (seed == EMPTY && AllGiven(levels) != [])
    ensures Run(APPEND, levels, seed, env).Some?
    ensures AllEqual(Run(APPEND, levels, seed, env).value, Collected(AllGiven(levels)))
    decreases |levels|, 0
  {
    var given := Given(levels[0].events);
    AppendOwn(seed, levels[0].events);
    assert seed.Values() + given == given;
    var start := if levels[0].events == [] then seed else Collected(given);
    assert start.Values() == given && given + AllGiven(levels[1..]) == AllGiven(levels);
    AppendRun(levels[1..], Seeded(APPEND, start), env);
    var below := Run(APPEND, levels[1..], Seeded(APPEND, start), env).value;
    AppendMerge(start, below[0]);
    PropagateValues(Collected(AllGiven(levels)), below, below[0]);
  }

  /** A global append option given at least once: every level of the path, at any depth, ends with all values in argv
      order, from argv. */
  lemma GlobalAppend(levels: seq<Level>, env: Env)
    requires OnlyGives(levels) && AllGiven(levels) != []
    ensures Run(APPEND, levels, EMPTY, env).Some?
    ensures AllEqual(Run(APPEND, levels, EMPTY, env).value, Collected(AllGiven(levels)))
  {
    AppendRun(levels, EMPTY, env);
  }
}
