/** The parse state of one command, and the parse of a path of nested subcommands. */
module Matches {
  import opened Args
  import opened Globals

  function Get<V>(m: map<string, V>, key: string): Option<V> {
    if key in m then Some(m[key]) else None
  }

  class Matches {
    var flags: map<string, bool>
    var values: map<string, seq<string>>
    var counts: map<string, nat>
    var flagSources: map<string, Source>
    var valueSources: map<string, Source>
    var sub: Matches?

    /** What the five maps hold for one name. */
    function CellOf(name: string): Cell
      reads this
    {
      Cell(Get(flags, name), Get(counts, name), Get(flagSources, name), Get(values, name), Get(valueSources, name))
    }

    constructor ()
      ensures sub == null && forall n :: CellOf(n) == EMPTY
    {
      flags, values, counts, flagSources, valueSources, sub := map[], map[], map[], map[], map[], null;
    }

    /** Only the entries of `name` changed, to `c`. */
    twostate predicate Became(name: string, c: Cell)
      reads this
    {
      && sub == old(sub)
      && CellOf(name) == c
      && forall n :: n != name ==> CellOf(n) == old(CellOf(n))
    }

    method AddValue(arg: Arg, value: string, source: Source)
      requires !arg.info.FlagInfo?
      modifies this
      ensures Became(arg.name, old(CellOf(arg.name)).(
        values := Some(if KindOf(arg).append then old(CellOf(arg.name)).Values() + [value] else [value]),
        valueSource := Some(source)))
    {
      if arg.multiple || (arg.info.OptionInfo? && arg.info.action.Append?) {
        var arr := if arg.name in values then values[arg.name] else [];
        values := values[arg.name := arr + [value]];
      } else {
        values := values[arg.name := [value]];
      }
      valueSources := valueSources[arg.name := source];
    }

    // ---------------------------------------------------------------- tokens

    method ApplyFlag(arg: Arg)
      requires arg.info.FlagInfo?
      modifies this
      ensures Became(arg.name, Apply(KindOf(arg), old(CellOf(arg.name)), Occurs).value)
    {
      match arg.info.flag {
        case SetTrue => flags := flags[arg.name := true];
        case SetFalse => flags := flags[arg.name := false];
        case Count =>
          var current := if arg.name in counts then counts[arg.name] else 0;
          counts := counts[arg.name := current + 1];
          flags := flags[arg.name := true];
        case Help =>
        case Version =>
      }
      flagSources := flagSources[arg.name := Argv];
    }

    method NegateFlag(arg: Arg)
      requires arg.info.FlagInfo?
      modifies this
      ensures Became(arg.name, Apply(KindOf(arg), old(CellOf(arg.name)), Negates).value)
    {
      if arg.info.flag.Count? {
        counts := counts[arg.name := 0];
      }
      flags := flags[arg.name := arg.info.flag.SetFalse?];
      flagSources := flagSources[arg.name := Argv];
    }

    /** A single-valued option given twice is an error. */
    method GiveValue(arg: Arg, value: string) returns (ok: bool)
      requires arg.info.OptionInfo? && arg.Constructed()
      modifies this
      ensures sub == old(sub)
      ensures ok == Apply(KindOf(arg), old(CellOf(arg.name)), Gives(value)).Some?
      ensures ok ==> Became(arg.name, Apply(KindOf(arg), old(CellOf(arg.name)), Gives(value)).value)
    {
      if arg.info.action.Set? && arg.name in values && |values[arg.name]| > 0 {
        return false;
      }
      AddValue(arg, value, Argv);
      return true;
    }

    // ---------------------------------------------------------- merging upwards

    method SetValues(name: string, vs: seq<string>, source: Option<Source>)
      modifies this
      ensures Became(name, old(CellOf(name)).(values := Some(vs), valueSource := Known(source, old(CellOf(name)).valueSource)))
    {
      values := values[name := vs];
      if source.Some? {
        valueSources := valueSources[name := source.value];
      }
    }

    method MergeGlobalValue(child: Matches, arg: Arg) returns (ok: bool)
      requires child != this && arg.info.OptionInfo? && arg.Constructed()
      modifies this
      ensures sub == old(sub)
      ensures ok == Merged(KindOf(arg), old(CellOf(arg.name)), child.CellOf(arg.name)).Some?
      ensures ok ==> Became(arg.name, Merged(KindOf(arg), old(CellOf(arg.name)), child.CellOf(arg.name)).value)
    {
      var name := arg.name;
      var parentVals, childVals := Get(values, name), Get(child.values, name);
      var parentSource, childSource := Get(valueSources, name), Get(child.valueSources, name);
      var hasParent := parentVals.Some? && |parentVals.value| > 0;
      var hasChild := childVals.Some? && |childVals.value| > 0;
      if !hasParent && !hasChild {
        return true;
      }
      var bothArgv := parentSource == Some(Argv) && childSource == Some(Argv);
      if arg.multiple || arg.info.action.Append? {
        if bothArgv {
          var merged := (if parentVals.Some? then parentVals.value else [])
                      + (if childVals.Some? then childVals.value else []);
          SetValues(name, merged, Some(Argv));
          return true;
        }
      } else if hasParent && hasChild && bothArgv {
        return false;
      }
      if hasChild && (!hasParent || PreferChild(parentSource, childSource)) {
        SetValues(name, childVals.value, childSource);
      }
      return true;
    }

    method SetFlag(name: string, v: bool, source: Option<Source>)
      modifies this
      ensures Became(name, old(CellOf(name)).(flag := Some(v), flagSource := Known(source, old(CellOf(name)).flagSource)))
    {
      flags := flags[name := v];
      if source.Some? {
        flagSources := flagSources[name := source.value];
      }
    }

    method SetCount(name: string, count: nat, source: Option<Source>)
      modifies this
      ensures Became(name, old(CellOf(name)).(count := Some(count), flag := Some(count > 0),
                                              flagSource := Known(source, old(CellOf(name)).flagSource)))
    {
      counts := counts[name := count];
      SetFlag(name, count > 0, source);
    }

    method MergeGlobalCount(child: Matches, name: string)
      requires child != this && name in child.flags
      modifies this
      ensures Became(name, MergedFlag(FlagAction.Count, old(CellOf(name)), child.CellOf(name)))
    {
      var parentSource, childSource := Get(flagSources, name), Get(child.flagSources, name);
      var childCount := if name in child.counts then child.counts[name] else 0;
      if parentSource == Some(Argv) && childSource == Some(Argv) {
        var parentCount := if name in counts then counts[name] else 0;
        // A cleared flag below resets the count.
        var total := if childCount == 0 && !child.flags[name] then 0 else parentCount + childCount;
        SetCount(name, total, Stronger(parentSource, childSource));
      } else if name !in flags || PreferChild(parentSource, childSource) {
        SetCount(name, childCount, childSource);
      }
    }

    method MergeGlobalFlag(child: Matches, arg: Arg)
      requires child != this && arg.info.FlagInfo?
      modifies this
      ensures Became(arg.name, Merged(KindOf(arg), old(CellOf(arg.name)), child.CellOf(arg.name)).value)
    {
      var name := arg.name;
      if name !in child.flags {
        return;
      }
      if arg.info.flag.Count? {
        MergeGlobalCount(child, name);
        return;
      }
      var parentSource, childSource := Get(flagSources, name), Get(child.flagSources, name);
      if name !in flags || PreferChild(parentSource, childSource) {
        SetFlag(name, child.flags[name], childSource);
      }
    }

    /** `merge_globals_from_child`, seen from one name `n`. */
    method MergeGlobalsFromChild(child: Matches, globals: seq<Arg>, localNames: set<string>, ghost n: string) returns (ok: bool)
      requires child != this && Named(globals) && Once(globals, n)
      modifies this
      ensures sub == old(sub)
      ensures ok ==> MergedFor(Shown(globals, localNames, n), old(CellOf(n)), child.CellOf(n)) == Some(CellOf(n))
    {
      for i := 0 to |globals|
        invariant sub == old(sub)
        invariant MergedFor(Shown(globals[i..], localNames, n), CellOf(n), child.CellOf(n))
               == MergedFor(Shown(globals, localNames, n), old(CellOf(n)), child.CellOf(n))
      {
        FindFrom(globals, i, n);
        var arg := globals[i];
        if arg.name !in localNames {
          if arg.info.OptionInfo? {
            ok := MergeGlobalValue(child, arg);
            if !ok {
              return;
            }
          } else {
            MergeGlobalFlag(child, arg);
          }
        }
      }
      return true;
    }

    // ------------------------------------------------------------------- seeds

    /** `seed_child_globals_from_parent`: a fresh state with presence markers. */
    method SeedChild(globals: seq<Arg>, localNames: set<string>, ghost n: string) returns (seed: Matches)
      requires Named(globals) && Once(globals, n)
      ensures fresh(seed) && seed.sub == null
      ensures seed.CellOf(n) == SeededFor(Shown(globals, localNames, n), CellOf(n))
    {
      seed := new Matches();
      var seen: set<string> := {};
      for i := 0 to |globals|
        invariant seed.sub == null
        invariant seen == (set k | 0 <= k < i && globals[k].name !in localNames :: globals[k].name)
        invariant Shown(globals[i..], localNames, n) == if n in seen then None else Shown(globals, localNames, n)
        invariant seed.CellOf(n) == if n in seen then SeededFor(Shown(globals, localNames, n), CellOf(n)) else EMPTY
      {
        FindFrom(globals, i, n);
        var arg := globals[i];
        if arg.name !in localNames && arg.name !in seen {
          seen := seen + {arg.name};
          seed.Mark(this, arg);
        }
      }
    }

    method Mark(parent: Matches, arg: Arg)
      requires parent != this && !arg.info.PositionalInfo?
      modifies this
      ensures Became(arg.name,
        if Seeded(KindOf(arg), parent.CellOf(arg.name)) == EMPTY then old(CellOf(arg.name))
        else Marked(KindOf(arg), parent.CellOf(arg.name), old(CellOf(arg.name))))
    {
      var name := arg.name;
      if arg.info.OptionInfo? {
        if name in parent.values && Get(parent.valueSources, name) == Some(Argv) {
          SetValues(name, [], Some(Argv));
        }
      } else if name in parent.flags && Get(parent.flagSources, name) == Some(Argv) {
        SetFlag(name, parent.flags[name], Some(Argv));
        if arg.info.flag.Count? {
          counts := counts[name := 0];
        }
      }
    }

    // -------------------------------------------------------- copying downwards

    /** The body of `propagate_globals_to_child` for one global. */
    method TakeGlobal(parent: Matches, arg: Arg)
      requires parent != this && !arg.info.PositionalInfo?
      modifies this
      ensures Became(arg.name, Propagated(KindOf(arg), parent.CellOf(arg.name), old(CellOf(arg.name))))
    {
      var name := arg.name;
      if arg.info.OptionInfo? {
        if name in parent.values {
          SetValues(name, parent.values[name], Get(parent.valueSources, name));
        }
      } else if name in parent.flags {
        SetFlag(name, parent.flags[name], Get(parent.flagSources, name));
        if arg.info.flag.Count? && name in parent.counts {
          counts := counts[name := parent.counts[name]];
        }
      }
    }

    method TakeGlobals(parent: Matches, globals: seq<Arg>, localNames: set<string>, ghost n: string)
      requires parent != this && Named(globals) && Once(globals, n)
      modifies this
      ensures sub == old(sub)
      ensures CellOf(n) == PropagatedFor(Shown(globals, localNames, n), parent.CellOf(n), old(CellOf(n)))
    {
      for i := 0 to |globals|
        invariant sub == old(sub)
        invariant PropagatedFor(Shown(globals[i..], localNames, n), parent.CellOf(n), CellOf(n))
               == PropagatedFor(Shown(globals, localNames, n), parent.CellOf(n), old(CellOf(n)))
      {
        FindFrom(globals, i, n);
        if globals[i].name !in localNames {
          TakeGlobal(parent, globals[i]);
        }
      }
    }

    /** This state and those of its selected subcommands, in order. */
    ghost predicate Chain(path: seq<Matches>)
      reads path
      decreases |path|
    {
      && path != [] && path[0] == this && this !in path[1..]
      && if sub == null then |path| == 1 else sub.Chain(path[1..])
    }

    /** `propagate_globals_to_child`, all the way down. */
    method PropagateGlobals(child: Matches, ghost path: seq<Matches>, globals: seq<Arg>, localNames: set<string>, ghost n: string)
      requires child.Chain(path) && this !in path && Named(globals) && Once(globals, n)
      requires n !in localNames
      modifies path
      ensures child.Chain(path)
      ensures forall k :: 0 <= k < |path| ==>
        path[k].CellOf(n) == PropagatedFor(Find(globals, n), CellOf(n), old(path[k].CellOf(n)))
      decreases |path|
    {
      ghost var rest := path[1..];
      child.TakeGlobals(this, globals, localNames, n);
      if child.sub != null {
        PropagateGlobals(child.sub, rest, globals, {}, n);
        assert forall k :: 1 <= k < |path| ==> path[k] == rest[k - 1];
      }
    }

    // -------------------------------------------------- environment and defaults

    /** The body of `apply_env` for one argument. */
    method TakeEnv(arg: Arg, env: Env) returns (ok: bool)
      modifies this
      ensures sub == old(sub)
      ensures ok == FromEnv(arg, old(CellOf(arg.name)), env).Some?
      ensures ok ==> Became(arg.name, FromEnv(arg, old(CellOf(arg.name)), env).value)
    {
      var name := arg.name;
      if name in flags || name in values || arg.env.None? || arg.env.value !in env.vars {
        return true;
      }
      var text := env.vars[arg.env.value];
      if !arg.info.FlagInfo? {
        AddValue(arg, text, Source.Env);
        return true;
      }
      match arg.info.flag {
        case Count =>
          if text !in env.counts {
            return false;
          }
          SetCount(name, env.counts[text], Some(Source.Env));
        case SetFalse =>
          if ParseBool(text).None? {
            return false;
          }
          SetFlag(name, !ParseBool(text).value, Some(Source.Env));
        case SetTrue =>
          if ParseBool(text).None? {
            return false;
          }
          SetFlag(name, ParseBool(text).value, Some(Source.Env));
        case Help =>
        case Version =>
      }
      return true;
    }

    method ApplyEnv(args: seq<Arg>, env: Env, ghost n: string) returns (ok: bool)
      requires Once(args, n)
      modifies this
      ensures sub == old(sub)
      ensures ok ==> EnvFor(Find(args, n), old(CellOf(n)), env) == Some(CellOf(n))
    {
      for i := 0 to |args|
        invariant sub == old(sub)
        invariant EnvFor(Find(args[i..], n), CellOf(n), env) == EnvFor(Find(args, n), old(CellOf(n)), env)
      {
        FindFrom(args, i, n);
        ok := TakeEnv(args[i], env);
        if !ok {
          return;
        }
      }
      return true;
    }

    /** The body of `apply_defaults` for one argument. */
    method TakeDefaults(arg: Arg)
      modifies this
      ensures Became(arg.name, FromDefaults(arg, old(CellOf(arg.name))))
    {
      if arg.info.FlagInfo? || arg.name in flags || arg.name in values {
        return;
      }
      var defaults := arg.info.defaults;
      for i := 0 to |defaults|
        invariant Became(arg.name, if i == 0 then old(CellOf(arg.name))
          else old(CellOf(arg.name)).(values := Some(Kept(KindOf(arg), defaults[..i])), valueSource := Some(Default)))
      {
        AddValue(arg, defaults[i], Default);
        assert defaults[..i + 1] == defaults[..i] + [defaults[i]];
      }
      assert defaults[..|defaults|] == defaults;
    }

    method ApplyDefaults(args: seq<Arg>, ghost n: string)
      requires Once(args, n)
      modifies this
      ensures sub == old(sub)
      ensures CellOf(n) == DefaultsFor(Find(args, n), old(CellOf(n)))
    {
      for i := 0 to |args|
        invariant sub == old(sub)
        invariant DefaultsFor(Find(args[i..], n), CellOf(n)) == DefaultsFor(Find(args, n), old(CellOf(n)))
      {
        FindFrom(args, i, n);
        TakeDefaults(args[i]);
      }
    }
  }

  /** The definition of `n` among globals that the child does not use for a local name. */
  function Shown(globals: seq<Arg>, localNames: set<string>, n: string): Option<Arg> {
    if n in localNames then None else Find(globals, n)
  }

  function MergedFor(arg: Option<Arg>, p: Cell, c: Cell): Option<Cell> {
    if arg.None? then Some(p) else Merged(KindOf(arg.value), p, c)
  }

  function SeededFor(arg: Option<Arg>, p: Cell): Cell {
    if arg.None? then EMPTY else Seeded(KindOf(arg.value), p)
  }

  function Marked(kind: Kind, p: Cell, c: Cell): Cell {
    var s := Seeded(kind, p);
    match kind
    case ValueKind(_) => c.(values := s.values, valueSource := s.valueSource)
    case FlagKind(_) => c.(flag := s.flag, flagSource := s.flagSource, count := if s.count.Some? then s.count else c.count)
  }

  function PropagatedFor(arg: Option<Arg>, p: Cell, c: Cell): Cell {
    if arg.None? then c else Propagated(KindOf(arg.value), p, c)
  }

  function EnvFor(arg: Option<Arg>, c: Cell, env: Env): Option<Cell> {
    if arg.None? then Some(c) else FromEnv(arg.value, c, env)
  }

  function DefaultsFor(arg: Option<Arg>, c: Cell): Cell {
    if arg.None? then c else FromDefaults(arg.value, c)
  }

  /** Globals are flags and options. */
  predicate Named(globals: seq<Arg>) {
    forall i :: 0 <= i < |globals| ==> !globals[i].info.PositionalInfo? && globals[i].Constructed()
  }
}
