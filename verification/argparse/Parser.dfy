/** The parse of a path of nested subcommands, level by level. */
module Parser {
  import opened Args
  import opened Globals
  import M = Matches
  import S = SingleGlobals

  /** One argv occurrence of an argument. */
  datatype Token = Token(arg: Arg, event: Event)

  /** The arguments of a command and what argv says at its level. */
  datatype Command = Command(args: seq<Arg>, tokens: seq<Token>)

  predicate Fitting(t: Token) {
    if t.arg.info.FlagInfo? then !t.event.Gives?
    else t.event.Gives? && t.arg.info.OptionInfo? && t.arg.Constructed()
  }

  function EventsOf(tokens: seq<Token>, n: string): seq<Event> {
    if tokens == [] then []
    else (if tokens[0].arg.name == n then [tokens[0].event] else []) + EventsOf(tokens[1..], n)
  }

  function LocalOnly(args: seq<Arg>): seq<Arg> {
    if args == [] then []
    else (if args[0].global && !args[0].info.PositionalInfo? then [] else [args[0]]) + LocalOnly(args[1..])
  }

  /** `collect_non_global_names` */
  function NonGlobalNames(args: seq<Arg>): set<string> {
    set a | a in args && !a.global :: a.name
  }

  /** On the whole path `n` is one global flag or option, of one kind. */
  ghost predicate OneGlobal(path: seq<Command>, inherited: seq<Arg>, n: string, kind: Kind)
    decreases |path|
  {
    path == [] ||
    (var args := path[0].args;
     var here := CollectGlobals(args);
     var defs := MergeDefs(inherited, here);
     && M.Named(defs) && Once(defs, n) && Find(LocalOnly(args), n) == None
     && Find(defs, n).Some? && KindOf(Find(defs, n).value) == kind
     && n !in NonGlobalNames(args)
     && (forall t :: t in path[0].tokens ==> Fitting(t) && (t.arg.name == n ==> KindOf(t.arg) == kind))
     && OneGlobal(path[1..], defs, n, kind))
  }

  /** The path as one name sees it. */
  ghost function LevelsOf(path: seq<Command>, inherited: seq<Arg>, n: string, kind: Kind): (levels: seq<Level>)
    requires OneGlobal(path, inherited, n, kind)
    ensures |levels| == |path|
    decreases |path|
  {
    if path == [] then []
    else
      var defs := MergeDefs(inherited, CollectGlobals(path[0].args));
      [Level(EventsOf(path[0].tokens, n), Find(defs, n).value)] + LevelsOf(path[1..], defs, n, kind)
  }

  method ApplyTokens(m: M.Matches, tokens: seq<Token>, ghost n: string, ghost kind: Kind) returns (ok: bool)
    requires forall t :: t in tokens ==> Fitting(t) && (t.arg.name == n ==> KindOf(t.arg) == kind)
    modifies m
    ensures m.sub == old(m.sub)
    ensures ok ==> ApplyAll(kind, old(m.CellOf(n)), EventsOf(tokens, n)) == Some(m.CellOf(n))
  {
    for i := 0 to |tokens|
      invariant m.sub == old(m.sub)
      invariant ApplyAll(kind, m.CellOf(n), EventsOf(tokens[i..], n))
             == ApplyAll(kind, old(m.CellOf(n)), EventsOf(tokens, n))
    {
      EventsStep(tokens, i, n);
      assert tokens[i] in tokens;
      ok := ApplyToken(m, tokens[i]);
      if !ok {
        return;
      }
    }
    return true;
  }

  lemma EventsStep(tokens: seq<Token>, i: nat, n: string)
    requires i < |tokens|
    ensures EventsOf(tokens[i..], n) ==
      (if tokens[i].arg.name == n then [tokens[i].event] + EventsOf(tokens[i + 1..], n) else EventsOf(tokens[i + 1..], n))
    ensures tokens[i].arg.name == n ==> EventsOf(tokens[i..], n)[1..] == EventsOf(tokens[i + 1..], n)
  {
    assert tokens[i..][1..] == tokens[i + 1..];
  }

  method ApplyToken(m: M.Matches, t: Token) returns (ok: bool)
    requires Fitting(t)
    modifies m
    ensures m.sub == old(m.sub)
    ensures ok ==>
      && Apply(KindOf(t.arg), old(m.CellOf(t.arg.name)), t.event).Some?
      && m.Became(t.arg.name, Apply(KindOf(t.arg), old(m.CellOf(t.arg.name)), t.event).value)
  {
    ok := true;
    match t.event {
      case Occurs => m.ApplyFlag(t.arg);
      case Negates => m.NegateFlag(t.arg);
      case Gives(value) => ok := m.GiveValue(t.arg, value);
    }
  }

  /** The part of `finalize_matches` that concerns globals. */
  method Finalize(m: M.Matches, args: seq<Arg>, defs: seq<Arg>, env: Env, ghost n: string) returns (ok: bool)
    requires Once(defs, n) && Find(defs, n).Some? && Find(LocalOnly(args), n) == None
    modifies m
    ensures m.sub == old(m.sub)
    ensures ok ==> Finalized(Find(defs, n).value, old(m.CellOf(n)), env) == Some(m.CellOf(n))
  {
    var envArgs := defs + LocalOnly(args);
    OnceBehind(defs, LocalOnly(args), n);
    ok := m.ApplyEnv(envArgs, env, n);
    if ok {
      m.ApplyDefaults(envArgs, n);
    }
  }

  lemma {:induction false} FindInFront(a: seq<Arg>, b: seq<Arg>, n: string)
    requires Find(a, n).Some?
    ensures Find(a + b, n) == Find(a, n)
  {
    assert (a + b)[1..] == a[1..] + b;
    if a[0].name != n {
      FindInFront(a[1..], b, n);
    }
  }

  lemma OnceBehind(a: seq<Arg>, b: seq<Arg>, n: string)
    requires Once(a, n) && Find(a, n).Some? && Find(b, n) == None
    ensures Once(a + b, n) && Find(a + b, n) == Find(a, n)
  {
    FindNone(b, n);
    FindInFront(a, b, n);
  }

  /** The steps of one level make up the run of the path from that level on. */
  lemma RunCons(path: seq<Command>, inherited: seq<Arg>, defs: seq<Arg>, n: string, kind: Kind, seed: Cell, env: Env,
                own: Cell, below: seq<Cell>, merged: Cell, final: Cell)
    requires path != [] && OneGlobal(path, inherited, n, kind) && defs == MergeDefs(inherited, CollectGlobals(path[0].args))
    requires ApplyAll(kind, seed, EventsOf(path[0].tokens, n)) == Some(own)
    requires Run(kind, LevelsOf(path[1..], defs, n, kind), Seeded(kind, own), env) == Some(below)
    requires Some(merged) == if below == [] then Some(own) else Merged(kind, own, below[0])
    requires Finalized(Find(defs, n).value, merged, env) == Some(final)
    ensures Run(kind, LevelsOf(path, inherited, n, kind), seed, env) == Some([final] + PropagatedAll(kind, final, below))
  {
    hide ApplyAll, Merged, Finalized, MergeDefs;
    assert LevelsOf(path, inherited, n, kind)[1..] == LevelsOf(path[1..], defs, n, kind);
  }

  /** The states of a path hold the final entries of `n`. */
  ghost predicate Holds(path: seq<M.Matches>, n: string, cells: Option<seq<Cell>>)
    reads path
  {
    && cells.Some? && |path| == |cells.value|
    && forall k :: 0 <= k < |path| ==> path[k].CellOf(n) == cells.value[k]
  }

  /** The subcommand branch of the parse loop: seed, parse, merge. */
  method ParseSubcommand(m: M.Matches, path: seq<Command>, defs: seq<Arg>, env: Env, ghost n: string, ghost kind: Kind)
    returns (ok: bool, ghost below: seq<M.Matches>)
    requires path != [] && OneGlobal(path, defs, n, kind)
    requires M.Named(defs) && Once(defs, n) && Find(defs, n).Some? && KindOf(Find(defs, n).value) == kind
    modifies m
    ensures ok ==> fresh(below) && m !in below && m.sub != null && m.sub.Chain(below)
    ensures ok ==> Holds(below, n, Run(kind, LevelsOf(path, defs, n, kind), Seeded(kind, old(m.CellOf(n))), env))
    ensures ok ==> Merged(kind, old(m.CellOf(n)), below[0].CellOf(n)) == Some(m.CellOf(n))
    decreases |path|, 1
  {
    hide ApplyAll, Finalized, MergeDefs, Seeded, Merged, CollectGlobals, LocalOnly;
    var localNames := NonGlobalNames(path[0].args);
    var seed := m.SeedChild(defs, localNames, n);
    ok, below := ParseCommand(seed, path, defs, env, n, kind);
    if ok {
      m.sub := seed;
      ok := m.MergeGlobalsFromChild(seed, defs, localNames, n);
    }
  }

  /** Without a subcommand nothing is below. */
  method ParseBelow(m: M.Matches, path: seq<Command>, defs: seq<Arg>, env: Env, ghost n: string, ghost kind: Kind)
    returns (ok: bool, ghost below: seq<M.Matches>)
    requires m.sub == null && OneGlobal(path, defs, n, kind)
    requires M.Named(defs) && Once(defs, n) && Find(defs, n).Some? && KindOf(Find(defs, n).value) == kind
    modifies m
    ensures ok ==> fresh(below) && m !in below && (if m.sub == null then below == [] else m.sub.Chain(below))
    ensures ok ==> Holds(below, n, Run(kind, LevelsOf(path, defs, n, kind), Seeded(kind, old(m.CellOf(n))), env))
    ensures ok ==>
      Some(m.CellOf(n)) == if below == [] then Some(old(m.CellOf(n))) else Merged(kind, old(m.CellOf(n)), below[0].CellOf(n))
    decreases |path|, 2
  {
    hide ApplyAll, Finalized, MergeDefs, Seeded, Merged;
    below := [];
    ok := true;
    if path != [] {
      ok, below := ParseSubcommand(m, path, defs, env, n, kind);
    }
  }

  /** `parse_command_impl`, for what concerns one global `n`. */
  method ParseCommand(m: M.Matches, path: seq<Command>, inherited: seq<Arg>, env: Env, ghost n: string, ghost kind: Kind)
    returns (ok: bool, ghost states: seq<M.Matches>)
    requires path != [] && m.sub == null && OneGlobal(path, inherited, n, kind)
    modifies m
    ensures ok ==>
      && m.Chain(states) && fresh(states[1..])
      && Holds(states, n, Run(kind, LevelsOf(path, inherited, n, kind), old(m.CellOf(n)), env))
    decreases |path|, 0
  {
    hide Run, ApplyAll, Seeded, Merged, Finalized, LevelsOf;
    var defs := MergeGlobalDefs(inherited, CollectGlobals(path[0].args));
    states := [m];
    ok := ApplyTokens(m, path[0].tokens, n, kind);
    if !ok {
      return;
    }
    ghost var own := m.CellOf(n);
    ghost var below;
    ok, below := ParseBelow(m, path[1..], defs, env, n, kind);
    if !ok {
      return;
    }
    ghost var merged, cells := m.CellOf(n), Run(kind, LevelsOf(path[1..], defs, n, kind), Seeded(kind, own), env).value;
    ok := Finalize(m, path[0].args, defs, env, n);
    if !ok {
      return;
    }
    RunCons(path, inherited, defs, n, kind, old(m.CellOf(n)), env, own, cells, merged, m.CellOf(n));
    Descend(m, below, cells, defs, if |path| > 1 then NonGlobalNames(path[1].args) else {}, n, kind);
    states := [m] + below;
  }

  /** After the parent is final, its globals go down the whole path. */
  method Descend(m: M.Matches, ghost below: seq<M.Matches>, ghost cells: seq<Cell>, defs: seq<Arg>, localNames: set<string>,
                 ghost n: string, ghost kind: Kind)
    requires if m.sub == null then below == [] else m.sub.Chain(below)
    requires m !in below && Holds(below, n, Some(cells))
    requires M.Named(defs) && Once(defs, n) && Find(defs, n).Some? && KindOf(Find(defs, n).value) == kind
    requires n !in localNames
    modifies below
    ensures m.Chain([m] + below)
    ensures Holds([m] + below, n, Some([m.CellOf(n)] + PropagatedAll(kind, m.CellOf(n), cells)))
  {
    assert ([m] + below)[1..] == below;
    if m.sub != null {
      m.PropagateGlobals(m.sub, below, defs, localNames, n);
    }
  }

  ghost predicate AllHold(states: seq<M.Matches>, n: string, c: Cell)
    reads states
  {
    forall k :: 0 <= k < |states| ==> states[k].CellOf(n) == c
  }

  /** A whole parse, seen from one global of the root command.  A count flag that occurs and is never negated ends, at
      every level, with its total if it occurs at one of the two deepest levels, and cleared otherwise; an option that
      appends, with all its values in order; one that does not, with the one value it may be given; a flag that is set
      or cleared, with what its last occurrence says. */
  method Parse(path: seq<Command>, env: Env, ghost n: string, ghost kind: Kind)
    returns (ok: bool, ghost states: seq<M.Matches>)
    requires path != [] && OneGlobal(path, [], n, kind)
    ensures ok ==> fresh(states) && Holds(states, n, Run(kind, LevelsOf(path, [], n, kind), EMPTY, env))
    ensures var levels := LevelsOf(path, [], n, kind);
      ok && kind == COUNT && OnlyOccurs(levels) && Occurrences(levels) > 0 ==>
        AllHold(states, n, if OccursNearEnd(levels) then Counted(Occurrences(levels), true) else Counted(0, false))
    ensures var levels := LevelsOf(path, [], n, kind);
      ok && kind == APPEND && OnlyGives(levels) && AllGiven(levels) != [] ==>
        AllHold(states, n, Collected(AllGiven(levels)))
    ensures var levels := LevelsOf(path, [], n, kind);
      kind == S.SINGLE && OnlyGives(levels) ==>
        && (|AllGiven(levels)| > 1 ==> !ok)
        && (ok && |AllGiven(levels)| == 1 ==> AllHold(states, n, Collected(AllGiven(levels))))
    ensures var levels := LevelsOf(path, [], n, kind);
      ok && S.IsSwitch(kind) && S.OnlySwitches(levels) && S.AllEvents(levels) != [] ==>
        AllHold(states, n, LastSwitch(kind, levels))
  {
    hide Run, LevelsOf, OneGlobal, Occurrences, AllGiven, OccursNearEnd, S.AllEvents;
    var m := new M.Matches();
    ok, states := ParseCommand(m, path, [], env, n, kind);
    ghost var levels := LevelsOf(path, [], n, kind);
    if kind == COUNT && OnlyOccurs(levels) && Occurrences(levels) > 0 {
      GlobalCount(levels, env);
    }
    if kind == APPEND && OnlyGives(levels) && AllGiven(levels) != [] {
      GlobalAppend(levels, env);
    }
    if kind == S.SINGLE && OnlyGives(levels) {
      LevelsOfKind(path, [], n, kind);
      S.GlobalSingle(levels, env);
    }
    if S.IsSwitch(kind) && S.OnlySwitches(levels) && S.AllEvents(levels) != [] {
      S.GlobalSwitch(kind, levels, env);
    }
  }

  /** The flag as the last occurrence on the command line has it, from argv. */
  ghost function LastSwitch(kind: Kind, levels: seq<Level>): Cell
    requires S.AllEvents(levels) != []
  {
    var all := S.AllEvents(levels);
    Cell(Some((kind == FlagKind(SetTrue)) == all[|all| - 1].Occurs?), None, Some(Argv), None, None)
  }

  lemma {:induction false} LevelsOfKind(path: seq<Command>, inherited: seq<Arg>, n: string, kind: Kind)
    requires OneGlobal(path, inherited, n, kind)
    ensures S.AllOfKind(LevelsOf(path, inherited, n, kind), kind)
    decreases |path|
  {
    hide KindOf, MergeDefs, CollectGlobals, LocalOnly, Find, NonGlobalNames, Fitting;
    if path != [] {
      LevelsOfKind(path[1..], MergeDefs(inherited, CollectGlobals(path[0].args)), n, kind);
    }
  }
}
