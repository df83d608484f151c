/** Argument definitions, as far as parsing goes by them. */
module Args {
  datatype Option<+T> = None | Some(value: T)

  datatype Range = Range(lower: int, upper: Option<int>)

  datatype FlagAction = SetTrue | SetFalse | Count | Help | Version

  datatype OptionAction = Set | Append

  datatype Info =
    | FlagInfo(short: Option<char>, long: Option<string>, flag: FlagAction, negatable: bool)
    | OptionInfo(short: Option<char>, long: Option<string>, action: OptionAction, defaults: seq<string>)
    | PositionalInfo(numArgs: Option<Range>, defaults: seq<string>)

  /** `multiple` is set by the constructors: never for flags, by the action for options, by the range for
      positionals. */
  datatype Arg = Arg(name: string, env: Option<string>, global: bool, info: Info, multiple: bool) {
    predicate Constructed() {
      multiple == match info
        case FlagInfo(_, _, _, _) => false
        case OptionInfo(_, _, action, _) => action.Append?
        case PositionalInfo(None, _) => false
        case PositionalInfo(Some(range), _) => range.upper.None? || range.upper.value > 1
    }
  }

  /** `arg_min_max` */
  function MinMax(arg: Arg): Range {
    if arg.info.PositionalInfo? && arg.info.numArgs.Some? then arg.info.numArgs.value else Range(0, None)
  }

  /** The first argument called `name`. */
  function Find(args: seq<Arg>, name: string): Option<Arg> {
    if args == [] then None else if args[0].name == name then Some(args[0]) else Find(args[1..], name)
  }

  /** `collect_globals` */
  function CollectGlobals(args: seq<Arg>): seq<Arg> {
    if args == [] then []
    else (if args[0].global && !args[0].info.PositionalInfo? then [args[0]] else []) + CollectGlobals(args[1..])
  }

  /** At most one argument is called `name`. */
  ghost predicate Once(args: seq<Arg>, name: string) {
    forall i, j :: 0 <= i < j < |args| ==> !(args[i].name == name && args[j].name == name)
  }

  lemma FindFrom(args: seq<Arg>, i: nat, name: string)
    requires i < |args| && Once(args, name)
    ensures Find(args[i..], name) == if args[i].name == name then Some(args[i]) else Find(args[i + 1..], name)
    ensures args[i].name == name ==> Find(args[i + 1..], name) == None
  {
    assert args[i..][1..] == args[i + 1..];
    FindNone(args[i + 1..], name);
  }

  lemma {:induction false} FindNone(args: seq<Arg>, name: string)
    ensures (forall k :: 0 <= k < |args| ==> args[k].name != name) <==> Find(args, name) == None
  {
    if args != [] && args[0].name != name {
      FindNone(args[1..], name);
      assert forall k :: 1 <= k < |args| ==> args[k] == args[1..][k - 1];
    }
  }

  /** Put a definition in the place of the inherited one of the same name, or behind all. */
  function Override(args: seq<Arg>, g: Arg): seq<Arg> {
    if args == [] then [g]
    else if args[0].name == g.name then [g] + args[1..]
    else [args[0]] + Override(args[1..], g)
  }

  /** `merge_global_defs` and `merge_inherited_globals` */
  function MergeDefs(inherited: seq<Arg>, here: seq<Arg>): seq<Arg>
    decreases |here|
  {
    if here == [] then inherited else MergeDefs(Override(inherited, here[0]), here[1..])
  }

  lemma {:induction false} FindOverride(args: seq<Arg>, g: Arg, n: string)
    ensures Find(Override(args, g), n) == if n == g.name then Some(g) else Find(args, n)
  {
    if args != [] && args[0].name != g.name {
      FindOverride(args[1..], g, n);
      assert ([args[0]] + Override(args[1..], g))[1..] == Override(args[1..], g);
    } else if args != [] {
      assert ([g] + args[1..])[1..] == args[1..];
    }
  }

  /** The definition in force is the local one, if there is one. */
  lemma {:induction false} FindMerged(inherited: seq<Arg>, here: seq<Arg>, n: string)
    requires Once(here, n)
    ensures Find(MergeDefs(inherited, here), n) == if Find(here, n).Some? then Find(here, n) else Find(inherited, n)
    decreases |here|
  {
    if here != [] {
      FindOverride(inherited, here[0], n);
      FindMerged(Override(inherited, here[0]), here[1..], n);
      assert here[0..] == here;
      FindFrom(here, 0, n);
    }
  }

  /** Every merged definition is one of the two lists'. */
  lemma {:induction false} OverrideMembers(args: seq<Arg>, g: Arg, a: Arg)
    requires a in Override(args, g)
    ensures a == g || a in args
  {
    if args != [] && args[0].name != g.name && a != args[0] {
      OverrideMembers(args[1..], g, a);
    }
  }

  lemma {:induction false} MergedMembers(inherited: seq<Arg>, here: seq<Arg>, a: Arg)
    requires a in MergeDefs(inherited, here)
    ensures a in inherited || a in here
    decreases |here|
  {
    if here != [] {
      MergedMembers(Override(inherited, here[0]), here[1..], a);
      if a in Override(inherited, here[0]) {
        OverrideMembers(inherited, here[0], a);
      }
    }
  }

  lemma OnceCons(a: Arg, args: seq<Arg>, n: string)
    requires Once(args, n) && (a.name == n ==> Find(args, n) == None)
    ensures Once([a] + args, n)
  {
    FindNone(args, n);
  }

  lemma OnceTail(args: seq<Arg>, n: string)
    requires args != [] && Once(args, n)
    ensures Once(args[1..], n) && (args[0].name == n ==> Find(args[1..], n) == None)
  {
    FindFrom(args, 0, n);
    assert args[1..] == args[0 + 1..];
  }

  lemma {:induction false} OverrideOnce(args: seq<Arg>, g: Arg, n: string)
    requires Once(args, n)
    ensures Once(Override(args, g), n)
  {
    if args != [] {
      OnceTail(args, n);
      if args[0].name == g.name {
        OnceCons(g, args[1..], n);
      } else {
        OverrideOnce(args[1..], g, n);
        FindOverride(args[1..], g, n);
        OnceCons(args[0], Override(args[1..], g), n);
      }
    }
  }

  lemma {:induction false} MergedOnce(inherited: seq<Arg>, here: seq<Arg>, n: string)
    requires Once(inherited, n)
    ensures Once(MergeDefs(inherited, here), n)
    decreases |here|
  {
    if here != [] {
      OverrideOnce(inherited, here[0], n);
      MergedOnce(Override(inherited, here[0]), here[1..], n);
    }
  }

  method MergeGlobalDefs(inherited: seq<Arg>, here: seq<Arg>) returns (merged: seq<Arg>)
    ensures merged == MergeDefs(inherited, here)
  {
    merged := inherited;
    for i := 0 to |here|
      invariant MergeDefs(merged, here[i..]) == MergeDefs(inherited, here)
    {
      assert here[i..][1..] == here[i + 1..];
      merged := Replace(merged, here[i]);
    }
  }

  /** The search for a definition to replace. */
  method Replace(args: seq<Arg>, g: Arg) returns (result: seq<Arg>)
    ensures result == Override(args, g)
  {
    var i := 0;
    while i < |args| && args[i].name != g.name
      invariant i <= |args|
      invariant Override(args, g) == args[..i] + Override(args[i..], g)
    {
      assert args[i..][1..] == args[i + 1..];
      assert args[..i] + ([args[i]] + Override(args[i + 1..], g)) == args[..i + 1] + Override(args[i + 1..], g);
      i := i + 1;
    }
    if i < |args| {
      result := args[i := g];
      assert args[i..][1..] == args[i + 1..];
      assert args[i := g] == args[..i] + ([g] + args[i + 1..]);
    } else {
      result := args + [g];
      assert args[..i] == args;
    }
  }
}
