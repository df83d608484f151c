/** Validation of command definitions: every spelling means one argument. */
module Validate {
  import opened Args
  import Positionals

  /** The long spellings of an argument, negated form included. */
  function Longs(arg: Arg): set<string> {
    match arg.info
    case FlagInfo(_, Some(name), _, negatable) => if negatable then {name, "no-" + name} else {name}
    case OptionInfo(_, Some(name), _, _) => {name}
    case _ => {}
  }

  function Shorts(arg: Arg): set<char> {
    match arg.info
    case FlagInfo(Some(c), _, _, _) => {c}
    case OptionInfo(Some(c), _, _, _) => {c}
    case _ => {}
  }

  /** No spelling in common. */
  predicate Apart(a: Arg, b: Arg) {
    Longs(a) !! Longs(b) && Shorts(a) !! Shorts(b)
  }

  /** Every spelling among `args` denotes one argument name. */
  ghost predicate OneMeaning(args: seq<Arg>) {
    forall a, b :: a in args && b in args && a.name != b.name ==> Apart(a, b)
  }

  /** Local arguments have different names and different spellings. */
  ghost predicate AllApart(args: seq<Arg>) {
    forall i, j :: 0 <= i < j < |args| ==> args[i].name != args[j].name && Apart(args[i], args[j])
  }

  /** The checks on one definition alone. */
  predicate Acceptable(arg: Arg) {
    match arg.info
    case FlagInfo(short, long, action, negatable) =>
      && (long.Some? || short.Some? || arg.env.Some?)
      && (action.Help? || action.Version? ==> !negatable && arg.env.None? && !arg.multiple)
    case OptionInfo(short, long, action, defaults) =>
      && (long.Some? || short.Some? || arg.env.Some?)
      && (|defaults| > 1 ==> arg.multiple || action.Append?)
    case PositionalInfo(range, defaults) =>
      && (|defaults| > 1 ==> arg.multiple)
      && (range.Some? ==>
            && range.value.lower >= 0
            && (range.value.upper.Some? ==> range.value.upper.value >= range.value.lower && range.value.upper.value > 0)
            && (range.value.lower > 1 || (range.value.upper.Some? && range.value.upper.value > 1) ==> arg.multiple))
  }

  class ValidationCtx {
    var seenNames: set<string>
    var seenLong: set<string>
    var seenShort: set<char>
    var args: seq<Arg>

    /** The sets hold what the recorded arguments use. */
    ghost predicate Valid()
      reads this
    {
      && AllApart(args)
      && seenNames == NamesOf(args) && seenLong == LongsOf(args) && seenShort == ShortsOf(args)
    }

    constructor ()
      ensures Valid() && args == []
    {
      seenNames, seenLong, seenShort, args := {}, {}, {}, [];
    }

    method CheckLong(name: string) returns (ok: bool)
      modifies this`seenLong
      ensures ok == (name !in old(seenLong)) && seenLong == old(seenLong) + {name}
    {
      ok := name !in seenLong;
      seenLong := seenLong + {name};
    }

    method CheckShort(short: char) returns (ok: bool)
      modifies this`seenShort
      ensures ok == (short !in old(seenShort)) && seenShort == old(seenShort) + {short}
    {
      ok := short !in seenShort;
      seenShort := seenShort + {short};
    }

    method CheckSpellings(arg: Arg) returns (ok: bool)
      modifies this`seenLong, this`seenShort
      ensures ok == (Longs(arg) !! old(seenLong) && Shorts(arg) !! old(seenShort))
      ensures ok ==> seenLong == old(seenLong) + Longs(arg) && seenShort == old(seenShort) + Shorts(arg)
    {
      if arg.info.PositionalInfo? {
        return true;
      }
      if arg.info.long.Some? {
        var name := arg.info.long.value;
        ok := CheckLong(name);
        if !ok {
          return;
        }
        if arg.info.FlagInfo? && arg.info.negatable {
          assert "no-" + name != name;
          ok := CheckLong("no-" + name);
          if !ok {
            return;
          }
        }
      }
      ok := true;
      if arg.info.short.Some? {
        ok := CheckShort(arg.info.short.value);
      }
    }

    /** An argument is recorded exactly when it is apart from all before it. */
    method RecordArg(arg: Arg) returns (ok: bool)
      modifies this
      ensures old(Valid()) ==> ok == NewTo(old(args), arg)
      ensures old(Valid()) && ok ==> Valid() && args == old(args) + [arg]
    {
      SeenIffUsed(args, arg);
      if arg.name in seenNames {
        return false;
      }
      seenNames := seenNames + {arg.name};
      ok := CheckSpellings(arg);
      if ok {
        args := args + [arg];
      }
    }
  }

  /** `arg` shares neither name nor spelling with `args`. */
  ghost predicate NewTo(args: seq<Arg>, arg: Arg) {
    forall i :: 0 <= i < |args| ==> args[i].name != arg.name && Apart(args[i], arg)
  }

  function NamesOf(args: seq<Arg>): set<string> {
    if args == [] then {} else NamesOf(args[..|args| - 1]) + {args[|args| - 1].name}
  }

  function LongsOf(args: seq<Arg>): set<string> {
    if args == [] then {} else LongsOf(args[..|args| - 1]) + Longs(args[|args| - 1])
  }

  function ShortsOf(args: seq<Arg>): set<char> {
    if args == [] then {} else ShortsOf(args[..|args| - 1]) + Shorts(args[|args| - 1])
  }

  lemma {:induction false} SeenIffUsed(args: seq<Arg>, arg: Arg)
    ensures NewTo(args, arg) <==>
      arg.name !in NamesOf(args) && Longs(arg) !! LongsOf(args) && Shorts(arg) !! ShortsOf(args)
    decreases |args|
  {
    if args != [] {
      var front, last := args[..|args| - 1], args[|args| - 1];
      SeenIffUsed(front, arg);
      assert NewTo(args, arg) <==> NewTo(front, arg) && last.name != arg.name && Apart(last, arg) by {
        assert forall i :: 0 <= i < |front| ==> front[i] == args[i];
      }
    }
  }

  // ------------------------------------------------------------ one command's own arguments

  ghost predicate AllAcceptable(args: seq<Arg>) {
    forall i :: 0 <= i < |args| ==> Acceptable(args[i])
  }

  /** `collect_args`: the first error is remembered, the rest is still looked at. */
  method CollectArgs(args: seq<Arg>) returns (ok: bool)
    ensures ok <==> AllApart(args) && AllAcceptable(args)
  {
    var ctx := new ValidationCtx();
    ok := true;
    for i := 0 to |args|
      invariant fresh(ctx)
      invariant ok ==> ctx.Valid() && ctx.args == args[..i] && AllAcceptable(args[..i])
      invariant !ok ==> !(AllApart(args) && AllAcceptable(args))
    {
      assert args[..i + 1] == args[..i] + [args[i]];
      if AllApart(args) {
      }
      var recorded := Acceptable(args[i]);
      if recorded {
        recorded := ctx.RecordArg(args[i]);
      }
      ok := ok && recorded;
    }
    assert args[..|args|] == args;
  }

  // -------------------------------------------------------------- against inherited globals

  /** `global_override_compatible` */
  predicate Compatible(inherited: Arg, arg: Arg) {
    match (inherited.info, arg.info)
    case (FlagInfo(_, _, a, n), FlagInfo(_, _, b, m)) => a == b && n == m
    case (OptionInfo(_, _, a, _), OptionInfo(_, _, b, _)) => a == b
    case (_, _) => false
  }

  /** `arg` redefines an inherited global only compatibly, and takes no spelling of any other. */
  ghost predicate Fits(arg: Arg, inherited: seq<Arg>) {
    && (Find(inherited, arg.name).Some? ==> arg.global && Compatible(Find(inherited, arg.name).value, arg))
    && forall h :: h in inherited && h.name != arg.name ==> Apart(h, arg)
  }

  method LongOwner(current: string, long: string, inherited: seq<Arg>) returns (owner: Option<string>)
    ensures owner == None <==> forall h :: h in inherited && h.name != current ==> long !in Longs(h)
  {
    for i := 0 to |inherited|
      invariant forall k :: 0 <= k < i && inherited[k].name != current ==> long !in Longs(inherited[k])
    {
      var h := inherited[i];
      if h.name != current {
        match h.info {
          case FlagInfo(_, Some(name), _, negatable) =>
            if name == long || (negatable && "no-" + name == long) {
              return Some(h.name);
            }
          case OptionInfo(_, Some(name), _, _) =>
            if name == long {
              return Some(h.name);
            }
          case _ =>
        }
      }
    }
    return None;
  }

  method ShortOwner(current: string, short: char, inherited: seq<Arg>) returns (owner: Option<string>)
    ensures owner == None <==> forall h :: h in inherited && h.name != current ==> short !in Shorts(h)
  {
    for i := 0 to |inherited|
      invariant forall k :: 0 <= k < i && inherited[k].name != current ==> short !in Shorts(inherited[k])
    {
      var h := inherited[i];
      if h.name != current && !h.info.PositionalInfo? && h.info.short == Some(short) {
        return Some(h.name);
      }
    }
    return None;
  }

  method CheckCollisions(arg: Arg, inherited: seq<Arg>) returns (ok: bool)
    ensures ok <==> forall h :: h in inherited && h.name != arg.name ==> Apart(h, arg)
  {
    if arg.info.PositionalInfo? {
      return true;
    }
    var owner: Option<string>;
    if arg.info.long.Some? {
      owner := LongOwner(arg.name, arg.info.long.value, inherited);
      if owner.Some? {
        return false;
      }
      if arg.info.FlagInfo? && arg.info.negatable {
        owner := LongOwner(arg.name, "no-" + arg.info.long.value, inherited);
        if owner.Some? {
          return false;
        }
      }
    }
    if arg.info.short.Some? {
      owner := ShortOwner(arg.name, arg.info.short.value, inherited);
      return owner == None;
    }
    return true;
  }

  method CheckShadowing(args: seq<Arg>, inherited: seq<Arg>) returns (ok: bool)
    ensures ok <==> forall a :: a in args ==> Fits(a, inherited)
  {
    for i := 0 to |args|
      invariant forall k :: 0 <= k < i ==> Fits(args[k], inherited)
    {
      var arg := args[i];
      assert arg in args;
      var found := Find(inherited, arg.name);
      if found.Some? && !(arg.global && Compatible(found.value, arg)) {
        return false;
      }
      ok := CheckCollisions(arg, inherited);
      if !ok {
        return;
      }
    }
    return true;
  }

  // ------------------------------------------------------------------------- command trees

  /** `faulty` stands for the checks on groups, subcommand names, help and version. */
  datatype Command = Command(args: seq<Arg>, subs: seq<Command>, faulty: bool, buildError: bool)

  function Below(cmd: Command, inherited: seq<Arg>): seq<Arg> {
    MergeDefs(inherited, CollectGlobals(cmd.args))
  }

  ghost predicate ValidTree(cmd: Command, inherited: seq<Arg>)
    decreases cmd
  {
    && !cmd.buildError && !cmd.faulty
    && (forall a :: a in cmd.args ==> Fits(a, inherited))
    && forall k :: 0 <= k < |cmd.subs| ==> ValidTree(cmd.subs[k], Below(cmd, inherited))
  }

  method ValidateCommand(cmd: Command, inherited: seq<Arg>) returns (ok: bool)
    ensures ok <==> ValidTree(cmd, inherited)
    decreases cmd
  {
    if cmd.buildError || cmd.faulty {
      return false;
    }
    ok := CheckShadowing(cmd.args, inherited);
    if !ok {
      return;
    }
    var below := MergeGlobalDefs(inherited, CollectGlobals(cmd.args));
    for i := 0 to |cmd.subs|
      invariant forall k :: 0 <= k < i ==> ValidTree(cmd.subs[k], below)
    {
      ok := ValidateCommand(cmd.subs[i], below);
      if !ok {
        return;
      }
    }
    return true;
  }

  /** What construction promises of a command without a build error. */
  ghost predicate Constructed(cmd: Command)
    decreases cmd
  {
    && (!cmd.buildError ==> AllApart(cmd.args) && AllAcceptable(cmd.args))
    && forall k :: 0 <= k < |cmd.subs| ==> Constructed(cmd.subs[k])
  }

  /** At this command and at every one below, each spelling has one meaning among inherited globals and local
      arguments. */
  ghost predicate OneMeaningBelow(cmd: Command, inherited: seq<Arg>)
    decreases cmd
  {
    && OneMeaning(inherited + cmd.args)
    && forall k :: 0 <= k < |cmd.subs| ==> OneMeaningBelow(cmd.subs[k], Below(cmd, inherited))
  }

  lemma {:induction false} GlobalsAreLocal(args: seq<Arg>, a: Arg)
    requires a in CollectGlobals(args)
    ensures a in args
  {
    if a != args[0] {
      GlobalsAreLocal(args[1..], a);
    }
  }

  lemma OneMeaningInherited(args: seq<Arg>, inherited: seq<Arg>)
    requires OneMeaning(inherited + args)
    ensures OneMeaning(MergeDefs(inherited, CollectGlobals(args)))
  {
    var below := MergeDefs(inherited, CollectGlobals(args));
    forall a | a in below ensures a in inherited + args {
      MergedMembers(inherited, CollectGlobals(args), a);
      if a in CollectGlobals(args) {
        GlobalsAreLocal(args, a);
      }
    }
  }

  lemma {:induction false} ValidTreeIsUnambiguous(cmd: Command, inherited: seq<Arg>)
    requires Constructed(cmd) && ValidTree(cmd, inherited) && OneMeaning(inherited)
    ensures OneMeaningBelow(cmd, inherited)
    decreases cmd
  {
    OneMeaningInherited(cmd.args, inherited);
    forall k | 0 <= k < |cmd.subs| ensures OneMeaningBelow(cmd.subs[k], Below(cmd, inherited)) {
      ValidTreeIsUnambiguous(cmd.subs[k], Below(cmd, inherited));
    }
  }

  /** The constructor: without a build error every spelling in the whole tree has one meaning. */
  method MakeCommand(flags: seq<Arg>, options: seq<Arg>, positionals: seq<Arg>, subs: seq<Command>, faulty: bool)
    returns (cmd: Command)
    requires forall k :: 0 <= k < |subs| ==> Constructed(subs[k])
    ensures cmd.args == flags + options + positionals && cmd.subs == subs && cmd.faulty == faulty
    ensures Constructed(cmd)
    ensures !cmd.buildError <==> AllApart(cmd.args) && AllAcceptable(cmd.args) && ValidTree(cmd.(buildError := false), [])
    ensures !cmd.buildError ==> OneMeaningBelow(cmd, [])
  {
    var args := flags + options + positionals;
    var ok := CollectArgs(args);
    cmd := Command(args, subs, faulty, !ok);
    if ok {
      ok := ValidateCommand(cmd, []);
      if ok {
        ValidTreeIsUnambiguous(cmd, []);
      }
      cmd := cmd.(buildError := !ok);
    }
  }

  // --------------------------------------------------------------------------- lookup maps

  function LongOf(arg: Arg): Option<string> {
    if arg.info.PositionalInfo? then None else arg.info.long
  }

  function ShortOf(arg: Arg): Option<char> {
    if arg.info.PositionalInfo? then None else arg.info.short
  }

  /** `build_long_index`, on globals followed by local arguments: a later entry replaces an earlier one. */
  function LongIndex(args: seq<Arg>): map<string, Arg> {
    if args == [] then map[]
    else
      var last := args[|args| - 1];
      var front := LongIndex(args[..|args| - 1]);
      if LongOf(last).None? then front else front[LongOf(last).value := last]
  }

  function ShortIndex(args: seq<Arg>): map<char, Arg> {
    if args == [] then map[]
    else
      var last := args[|args| - 1];
      var front := ShortIndex(args[..|args| - 1]);
      if ShortOf(last).None? then front else front[ShortOf(last).value := last]
  }

  lemma {:induction false} LongIndexEntries(args: seq<Arg>, l: string)
    ensures l in LongIndex(args) ==> LongIndex(args)[l] in args && LongOf(LongIndex(args)[l]) == Some(l)
    ensures l !in LongIndex(args) ==> forall a :: a in args ==> LongOf(a) != Some(l)
    decreases |args|
  {
    if args != [] {
      LongIndexEntries(args[..|args| - 1], l);
      assert args == args[..|args| - 1] + [args[|args| - 1]];
    }
  }

  lemma {:induction false} ShortIndexEntries(args: seq<Arg>, c: char)
    ensures c in ShortIndex(args) ==> ShortIndex(args)[c] in args && ShortOf(ShortIndex(args)[c]) == Some(c)
    ensures c !in ShortIndex(args) ==> forall a :: a in args ==> ShortOf(a) != Some(c)
    decreases |args|
  {
    if args != [] {
      ShortIndexEntries(args[..|args| - 1], c);
      assert args == args[..|args| - 1] + [args[|args| - 1]];
    }
  }

  /** Looking a spelling of `a` up finds `a` or another definition of the same name; a negated form is never taken
      for an option of another name. */
  lemma LookupFindsName(args: seq<Arg>, a: Arg)
    requires OneMeaning(args) && a in args
    ensures LongOf(a).Some? ==> LongOf(a).value in LongIndex(args) && LongIndex(args)[LongOf(a).value].name == a.name
    ensures ShortOf(a).Some? ==> ShortOf(a).value in ShortIndex(args) && ShortIndex(args)[ShortOf(a).value].name == a.name
    ensures forall l :: l in Longs(a) && l in LongIndex(args) ==> LongIndex(args)[l].name == a.name
  {
    forall l | l in Longs(a) && l in LongIndex(args) ensures LongIndex(args)[l].name == a.name {
      LongIndexEntries(args, l);
    }
    if LongOf(a).Some? {
      LongIndexEntries(args, LongOf(a).value);
    }
    if ShortOf(a).Some? {
      ShortIndexEntries(args, ShortOf(a).value);
    }
  }

  // --------------------------------------------------------------------------- positionals

  /** `positional_args` */
  function PositionalArgs(args: seq<Arg>): seq<Arg> {
    if args == [] then []
    else (if args[0].info.PositionalInfo? then [args[0]] else []) + PositionalArgs(args[1..])
  }

  /** Construction leaves only positionals that allocation is made for. */
  lemma {:induction false} PositionalsAreValid(args: seq<Arg>)
    requires AllAcceptable(args) && forall i :: 0 <= i < |args| ==> args[i].Constructed()
    ensures Positionals.AllValid(PositionalArgs(args))
  {
    if args != [] {
      PositionalsAreValid(args[1..]);
    }
  }
}
