/** What the parser takes for granted about a global follows from validation: on every path of subcommands in an
    accepted tree, a global of the root is one flag or option of one kind. */
module Paths {
  import opened Args
  import opened Globals
  import V = Validate
  import P = Parser
  import M = Matches

  /** Every command is a subcommand of the one before it. */
  ghost predicate IsPath(path: seq<V.Command>)
    decreases |path|
  {
    |path| >= 2 ==> path[1] in path[0].subs && IsPath(path[1..])
  }

  ghost predicate ArgsConstructed(args: seq<Arg>) {
    forall a :: a in args ==> a.Constructed()
  }

  /** At every level, the spellings in argv are looked up among the inherited globals and the level's own arguments. */
  ghost predicate LookedUp(path: seq<V.Command>, tokens: seq<seq<P.Token>>, inherited: seq<Arg>)
    requires |tokens| == |path|
    decreases |path|
  {
    path == [] ||
    ((forall t :: t in tokens[0] ==> P.Fitting(t) && t.arg in inherited + path[0].args) &&
     LookedUp(path[1..], tokens[1..], V.Below(path[0], inherited)))
  }

  function Levels(path: seq<V.Command>, tokens: seq<seq<P.Token>>): seq<P.Command>
    requires |tokens| == |path|
    decreases |path|
  {
    if path == [] then [] else [P.Command(path[0].args, tokens[0])] + Levels(path[1..], tokens[1..])
  }

  /** At this level `n` is a global of one kind, inherited or defined here. */
  ghost predicate Steady(inherited: seq<Arg>, args: seq<Arg>, n: string, kind: Kind) {
    && (forall a :: a in args && a.name == n ==> a.global && !a.info.PositionalInfo? && KindOf(a) == kind)
    && (forall a :: a in inherited && a.name == n ==> KindOf(a) == kind)
    && (Find(inherited, n).Some? || exists a :: a in args && a.name == n)
  }

  lemma {:induction false} FoundIn(args: seq<Arg>, n: string)
    ensures Find(args, n).Some? ==> Find(args, n).value in args && Find(args, n).value.name == n
    ensures Find(args, n) == None ==> forall a :: a in args ==> a.name != n
  {
    FindNone(args, n);
    if args != [] && args[0].name != n {
      FoundIn(args[1..], n);
    }
  }

  lemma {:induction false} Collected(args: seq<Arg>, a: Arg)
    ensures a in CollectGlobals(args) <==> a in args && a.global && !a.info.PositionalInfo?
    ensures a in P.LocalOnly(args) <==> a in args && !(a.global && !a.info.PositionalInfo?)
  {
    if args != [] {
      Collected(args[1..], a);
    }
  }

  lemma {:induction false} CollectedOnce(args: seq<Arg>, n: string)
    requires Once(args, n)
    ensures Once(CollectGlobals(args), n)
  {
    if args != [] {
      OnceTail(args, n);
      CollectedOnce(args[1..], n);
      if args[0].global && !args[0].info.PositionalInfo? {
        FoundIn(args[1..], n);
        FoundIn(CollectGlobals(args[1..]), n);
        if Find(CollectGlobals(args[1..]), n).Some? {
          Collected(args[1..], Find(CollectGlobals(args[1..]), n).value);
        }
        OnceCons(args[0], CollectGlobals(args[1..]), n);
      }
    }
  }

  lemma ApartOnce(args: seq<Arg>, n: string)
    requires V.AllApart(args)
    ensures Once(args, n)
  {
  }

  /** The definitions passed on are flags and options. */
  lemma PassedOn(inherited: seq<Arg>, args: seq<Arg>)
    requires M.Named(inherited) && ArgsConstructed(args)
    ensures M.Named(MergeDefs(inherited, CollectGlobals(args)))
  {
    var defs := MergeDefs(inherited, CollectGlobals(args));
    forall i | 0 <= i < |defs| ensures !defs[i].info.PositionalInfo? && defs[i].Constructed() {
      MergedMembers(inherited, CollectGlobals(args), defs[i]);
      Collected(args, defs[i]);
    }
  }

  /** The definition in force is of that kind. */
  lemma InForce(inherited: seq<Arg>, args: seq<Arg>, n: string, kind: Kind)
    requires V.AllApart(args) && Steady(inherited, args, n, kind)
    ensures var defs := MergeDefs(inherited, CollectGlobals(args));
      Find(defs, n).Some? && KindOf(Find(defs, n).value) == kind
  {
    hide KindOf;
    var here := CollectGlobals(args);
    ApartOnce(args, n);
    CollectedOnce(args, n);
    FindMerged(inherited, here, n);
    FoundIn(here, n);
    FoundIn(inherited, n);
    if Find(here, n).Some? {
      Collected(args, Find(here, n).value);
    } else if Find(inherited, n) == None {
      var a :| a in args && a.name == n;
      Collected(args, a);
      assert false;
    }
  }

  lemma NoLocal(inherited: seq<Arg>, args: seq<Arg>, n: string, kind: Kind)
    requires Steady(inherited, args, n, kind)
    ensures Find(P.LocalOnly(args), n) == None && n !in P.NonGlobalNames(args)
  {
    FoundIn(P.LocalOnly(args), n);
    if Find(P.LocalOnly(args), n).Some? {
      Collected(args, Find(P.LocalOnly(args), n).value);
    }
  }

  /** A compatible redefinition is of the same kind. */
  lemma CompatibleKind(inherited: Arg, arg: Arg)
    requires V.Compatible(inherited, arg) && inherited.Constructed() && arg.Constructed()
    ensures KindOf(inherited) == KindOf(arg) && !arg.info.PositionalInfo?
  {
  }

  lemma SteadyBelow(defs: seq<Arg>, args: seq<Arg>, n: string, kind: Kind)
    requires M.Named(defs) && Once(defs, n) && Find(defs, n).Some? && KindOf(Find(defs, n).value) == kind
    requires ArgsConstructed(args) && forall a :: a in args ==> V.Fits(a, defs)
    ensures Steady(defs, args, n, kind)
  {
    FoundIn(defs, n);
    var g := Find(defs, n).value;
    forall a | a in args && a.name == n ensures a.global && !a.info.PositionalInfo? && KindOf(a) == kind {
      assert V.Fits(a, defs);
      CompatibleKind(g, a);
    }
    forall a | a in defs && a.name == n ensures KindOf(a) == kind {
      var i :| 0 <= i < |defs| && defs[i] == a;
      var j :| 0 <= j < |defs| && defs[j] == g;
      assert i == j;
    }
  }

  lemma {:induction false} SteadyPath(path: seq<V.Command>, tokens: seq<seq<P.Token>>, inherited: seq<Arg>, n: string,
                                      kind: Kind)
    requires path != [] && |tokens| == |path| && IsPath(path) && LookedUp(path, tokens, inherited)
    requires V.Constructed(path[0]) && V.ValidTree(path[0], inherited)
    requires forall c :: c in path ==> ArgsConstructed(c.args)
    requires M.Named(inherited) && Once(inherited, n) && Steady(inherited, path[0].args, n, kind)
    ensures P.OneGlobal(Levels(path, tokens), inherited, n, kind)
    decreases |path|
  {
    hide KindOf, V.Fits, V.AllAcceptable, V.AllApart, CollectGlobals, MergeDefs, P.Fitting, M.Named;
    var args := path[0].args;
    var defs := V.Below(path[0], inherited);
    PassedOn(inherited, args);
    MergedOnce(inherited, CollectGlobals(args), n);
    InForce(inherited, args, n, kind);
    NoLocal(inherited, args, n, kind);
    if |path| > 1 {
      SteadyBelow(defs, path[1].args, n, kind);
      SteadyPath(path[1..], tokens[1..], defs, n, kind);
    }
  }

  /** The main result: in an accepted tree every global flag or option of the root is, on every path of subcommands,
      what a parse follows. */
  lemma RootGlobalIsOne(path: seq<V.Command>, tokens: seq<seq<P.Token>>, g: Arg)
    requires path != [] && |tokens| == |path| && IsPath(path) && LookedUp(path, tokens, [])
    requires V.Constructed(path[0]) && V.ValidTree(path[0], [])
    requires forall c :: c in path ==> ArgsConstructed(c.args)
    requires g in CollectGlobals(path[0].args)
    ensures P.OneGlobal(Levels(path, tokens), [], g.name, KindOf(g))
  {
    Collected(path[0].args, g);
    var args := path[0].args;
    forall a | a in args && a.name == g.name ensures a == g {
      var i :| 0 <= i < |args| && args[i] == a;
      var j :| 0 <= j < |args| && args[j] == g;
      assert i == j;
    }
    SteadyPath(path, tokens, [], g.name, KindOf(g));
  }
}
