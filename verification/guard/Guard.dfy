/** The guard: polling rounds over a bounded table of known files. */
module Guard {
  const MAX_KNOWN_FILES: nat := 10000

  /** A path listed in a polling round. */
  datatype Event = Seen(round: nat, path: string)

  // ------------------------------------------------------------------------ the run

  /** `add_known_file`: a full table takes nothing more. */
  function Add(known: seq<string>, path: string): seq<string> {
    if |known| >= MAX_KNOWN_FILES then known else known + [path]
  }

  function AddAll(known: seq<string>, paths: seq<string>): seq<string>
    decreases |paths|
  {
    if paths == [] then known else AddAll(Add(known, paths[0]), paths[1..])
  }

  /** The table after the events. */
  function Known(known: seq<string>, events: seq<Event>): seq<string>
    decreases |events|
  {
    if events == [] then known
    else Known(if events[0].path in known then known else Add(known, events[0].path), events[1..])
  }

  /** The events at which a file is counted as new and checked. */
  function Checks(known: seq<string>, events: seq<Event>): seq<Event>
    decreases |events|
  {
    if events == [] then []
    else if events[0].path in known then Checks(known, events[1..])
    else [events[0]] + Checks(Add(known, events[0].path), events[1..])
  }

  /** How many checks match; the verdict on a path may differ from round to round. */
  function Matches(checks: seq<Event>, threat: Event -> bool): nat {
    if checks == [] then 0 else (if threat(checks[0]) then 1 else 0) + Matches(checks[1..], threat)
  }

  /** The rounds from number `round` on, one after the other. */
  function Events(rounds: seq<seq<string>>, round: nat): seq<Event>
    decreases |rounds|
  {
    if rounds == [] then [] else InRound(rounds[0], round) + Events(rounds[1..], round + 1)
  }

  function InRound(paths: seq<string>, round: nat): seq<Event> {
    if paths == [] then [] else [Seen(round, paths[0])] + InRound(paths[1..], round)
  }

  // ------------------------------------------------------------- what happens to one path

  /** The events of one path. */
  function Of(events: seq<Event>, path: string): seq<Event> {
    if events == [] then []
    else (if events[0].path == path then [events[0]] else []) + Of(events[1..], path)
  }

  lemma {:induction false} KnownStays(known: seq<string>, events: seq<Event>, path: string)
    requires path in known
    ensures path in Known(known, events)
    decreases |events|
  {
    if events != [] {
      KnownStays(if events[0].path in known then known else Add(known, events[0].path), events[1..], path);
    }
  }

  /** What the table after the run says about the checks of a path. */
  lemma {:induction false} ChecksByTable(known: seq<string>, events: seq<Event>, path: string)
    ensures Of(Checks(known, events), path) ==
      if path in known then []
      else if path in Known(known, events) && Of(events, path) != [] then [Of(events, path)[0]]
      else Of(events, path)
    decreases |events|
  {
    if events != [] {
      var e, rest := events[0], events[1..];
      if e.path in known {
        ChecksByTable(known, rest, path);
      } else {
        var next := Add(known, e.path);
        ChecksByTable(next, rest, path);
        var checks := Checks(next, rest);
        assert ([e] + checks)[1..] == checks;
        assert path in next ==> path in known || path == e.path;
        if path == e.path {
          if path in next {
            KnownStays(next, rest, path);
            assert [e] + [] == [e];
          } else {
            NewcomerStaysOut(known, rest, path);
          }
        }
      }
    }
  }

  /** Once the table is full it no longer changes. */
  lemma {:induction false} FullStaysFull(known: seq<string>, events: seq<Event>)
    requires |known| >= MAX_KNOWN_FILES
    ensures Known(known, events) == known
    decreases |events|
  {
    if events != [] {
      FullStaysFull(known, events[1..]);
    }
  }

  lemma NewcomerStaysOut(known: seq<string>, events: seq<Event>, path: string)
    requires path !in known && path !in Add(known, path)
    ensures path !in Known(known, events)
  {
    FullStaysFull(known, events);
  }

  // ------------------------------------------------------------------- while there is room

  function Paths(events: seq<Event>): set<string> {
    if events == [] then {} else {events[0].path} + Paths(events[1..])
  }

  /** The paths that are listed and not known at the start. */
  function NewPaths(known: seq<string>, events: seq<Event>): set<string> {
    set p | p in Paths(events) && p !in known
  }

  lemma NewPathsStep(known: seq<string>, events: seq<Event>)
    requires events != []
    ensures events[0].path in known ==> NewPaths(known, events) == NewPaths(known, events[1..])
    ensures events[0].path !in known ==>
      && NewPaths(known, events) == {events[0].path} + NewPaths(known + [events[0].path], events[1..])
      && |NewPaths(known, events)| == 1 + |NewPaths(known + [events[0].path], events[1..])|
  {
    var p := events[0].path;
    if p !in known {
      assert NewPaths(known, events) == {p} + NewPaths(known + [p], events[1..]);
    } else {
      assert NewPaths(known, events) == NewPaths(known, events[1..]);
    }
  }

  /** The events before the first one of `path`. */
  function Prior(events: seq<Event>, path: string): seq<Event> {
    if events == [] || events[0].path == path then [] else [events[0]] + Prior(events[1..], path)
  }

  /** The table still has room when `path` is first listed: it and the new paths listed earlier leave a place. */
  predicate FindsRoom(known: seq<string>, events: seq<Event>, path: string) {
    |known| + |NewPaths(known, Prior(events, path))| < MAX_KNOWN_FILES
  }

  lemma {:induction false} FindsRoomIff(known: seq<string>, events: seq<Event>, path: string)
    requires path !in known && Of(events, path) != []
    ensures path in Known(known, events) <==> FindsRoom(known, events, path)
    decreases |events|
  {
    var e, rest := events[0], events[1..];
    if e.path == path {
      assert NewPaths(known, []) == {};
      if |known| < MAX_KNOWN_FILES {
        KnownStays(known + [path], rest, path);
      } else {
        FullStaysFull(known, events);
      }
    } else {
      var prior := Prior(events, path);
      assert prior[1..] == Prior(rest, path);
      NewPathsStep(known, prior);
      if e.path in known {
        FindsRoomIff(known, rest, path);
      } else if |known| < MAX_KNOWN_FILES {
        FindsRoomIff(known + [e.path], rest, path);
      } else {
        FullStaysFull(known, events);
      }
    }
  }

  /** For every path and every run: a path known before is never checked; one that finds room is checked once, where
      it is first listed; one that does not is checked every time it is listed. */
  lemma ChecksOfPath(known: seq<string>, events: seq<Event>, path: string)
    ensures Of(Checks(known, events), path) ==
      if path in known then []
      else if FindsRoom(known, events, path) && Of(events, path) != [] then [Of(events, path)[0]]
      else Of(events, path)
  {
    hide FindsRoom, Checks;
    ChecksByTable(known, events, path);
    if path !in known && Of(events, path) != [] {
      FindsRoomIff(known, events, path);
    }
  }

  /** A path is checked at most once exactly when it is known at the start, listed at most once, or first listed
      while the table has room. */
  lemma CheckedOnceIff(known: seq<string>, events: seq<Event>, path: string)
    ensures |Of(Checks(known, events), path)| <= 1 <==>
      path in known || |Of(events, path)| <= 1 || FindsRoom(known, events, path)
  {
    hide FindsRoom, Checks;
    ChecksOfPath(known, events, path);
  }

  /** A full table takes nothing more: behind a baseline of ten thousand paths, a new one is checked in every round. */
  lemma FullTableChecksAgain()
    ensures
      var baseline := seq(MAX_KNOWN_FILES, _ => "known");
      Checks(AddAll([], baseline), Events([["new"], ["new"]], 1)) == [Seen(1, "new"), Seen(2, "new")]
  {
    var baseline := seq(MAX_KNOWN_FILES, _ => "known");
    SmallBaseline(baseline);
    var events := Events([["new"], ["new"]], 1);
    assert InRound(["new"], 1) == [Seen(1, "new")] && InRound(["new"], 2) == [Seen(2, "new")];
    assert Events([["new"]], 2) == [Seen(2, "new")];
    assert events == [Seen(1, "new"), Seen(2, "new")];
    assert "new" !in baseline;
    assert Checks(baseline, events[1..]) == [Seen(2, "new")];
  }

  /** As long as known and new paths fit in the table, every path listed ends up in it, and there are as many checks
      as new paths. */
  lemma {:induction false} RoomForAll(known: seq<string>, events: seq<Event>)
    requires |known| + |NewPaths(known, events)| <= MAX_KNOWN_FILES
    ensures forall p :: p in Paths(events) ==> p in Known(known, events)
    ensures |Checks(known, events)| == |NewPaths(known, events)|
    decreases |events|
  {
    if events != [] {
      var e, rest := events[0], events[1..];
      NewPathsStep(known, events);
      if e.path in known {
        RoomForAll(known, rest);
        KnownStays(known, rest, e.path);
      } else {
        RoomForAll(known + [e.path], rest);
        KnownStays(known + [e.path], rest, e.path);
      }
    }
  }

  lemma {:induction false} OfListed(events: seq<Event>, path: string)
    ensures path in Paths(events) <==> Of(events, path) != []
  {
    if events != [] {
      OfListed(events[1..], path);
    }
  }

  // ---------------------------------------------------------------- baseline and rounds

  lemma {:induction false} BaselineCutOff(known: seq<string>, paths: seq<string>)
    requires |known| <= MAX_KNOWN_FILES
    ensures AddAll(known, paths) ==
      if |known| + |paths| <= MAX_KNOWN_FILES then known + paths else known + paths[..MAX_KNOWN_FILES - |known|]
    decreases |paths|
  {
    if paths == [] {
      assert known + [] == known;
    } else {
      BaselineCutOff(Add(known, paths[0]), paths[1..]);
      if |known| < MAX_KNOWN_FILES {
        assert known + [paths[0]] + paths[1..] == known + paths;
        if |known| + |paths| > MAX_KNOWN_FILES {
          var n := MAX_KNOWN_FILES - |known|;
          assert paths[..n] == [paths[0]] + paths[1..][..n - 1];
          assert known + [paths[0]] + paths[1..][..n - 1] == known + paths[..n];
        }
      } else {
        assert paths[1..][..0] == [] && paths[..0] == [];
      }
    }
  }

  lemma SmallBaseline(baseline: seq<string>)
    requires |baseline| <= MAX_KNOWN_FILES
    ensures AddAll([], baseline) == baseline
  {
    BaselineCutOff([], baseline);
    assert [] + baseline == baseline;
  }

  lemma {:induction false} OfConcat(a: seq<Event>, b: seq<Event>, path: string)
    ensures Of(a + b, path) == Of(a, path) + Of(b, path)
  {
    if a == [] {
      assert a + b == b && [] + Of(b, path) == Of(b, path);
    } else {
      assert (a + b)[1..] == a[1..] + b && (a + b)[0] == a[0];
      OfConcat(a[1..], b, path);
      var first := if a[0].path == path then [a[0]] else [];
      assert first + Of(a[1..], path) + Of(b, path) == first + (Of(a[1..], path) + Of(b, path));
    }
  }

  lemma {:induction false} OfRound(paths: seq<string>, round: nat, path: string)
    ensures Of(InRound(paths, round), path) == [] <==> path !in paths
    ensures path in paths ==> Of(InRound(paths, round), path)[0] == Seen(round, path)
  {
    if paths != [] {
      OfRound(paths[1..], round, path);
      assert ([Seen(round, paths[0])] + InRound(paths[1..], round))[1..] == InRound(paths[1..], round);
    }
  }

  /** The first event of a path is in the first round that lists it. */
  lemma {:induction false} FirstListing(rounds: seq<seq<string>>, start: nat, path: string, k: nat)
    requires k < |rounds| && path in rounds[k] && forall j :: 0 <= j < k ==> path !in rounds[j]
    ensures Of(Events(rounds, start), path) != [] && Of(Events(rounds, start), path)[0] == Seen(start + k, path)
    decreases |rounds|
  {
    OfRound(rounds[0], start, path);
    OfConcat(InRound(rounds[0], start), Events(rounds[1..], start + 1), path);
    if k > 0 {
      FirstListing(rounds[1..], start + 1, path, k - 1);
    }
  }

  /** The whole guard, while baseline and new paths together fit in the table: a path outside the baseline is checked
      exactly once, in the first round that lists it, and baseline paths never are. */
  lemma GuardChecksOnce(baseline: seq<string>, rounds: seq<seq<string>>, path: string, k: nat)
    requires |baseline| + |NewPaths(baseline, Events(rounds, 1))| <= MAX_KNOWN_FILES
    requires k < |rounds| && path in rounds[k] && forall j :: 0 <= j < k ==> path !in rounds[j]
    ensures Of(Checks(AddAll([], baseline), Events(rounds, 1)), path) ==
      if path in baseline then [] else [Seen(1 + k, path)]
  {
    hide Checks, Known, Of, AddAll, Events, Paths, NewPaths;
    SmallBaseline(baseline);
    var events := Events(rounds, 1);
    RoomForAll(baseline, events);
    FirstListing(rounds, 1, path, k);
    OfListed(events, path);
    ChecksByTable(baseline, events, path);
  }

  // --------------------------------------------------------------------------- the table

  class Guard {
    const files: array<string>
    var count: nat

    ghost predicate Valid()
      reads this
    {
      files.Length == MAX_KNOWN_FILES && count <= MAX_KNOWN_FILES
    }

    ghost function Table(): seq<string>
      requires Valid()
      reads this, files
    {
      files[..count]
    }

    constructor ()
      ensures Valid() && fresh(files) && Table() == []
    {
      files := new string[MAX_KNOWN_FILES](_ => "");
      count := 0;
    }

    method IsKnownFile(path: string) returns (found: bool)
      requires Valid()
      ensures found <==> path in Table()
    {
      for i := 0 to count
        invariant path !in files[..i]
      {
        if files[i] == path {
          return true;
        }
      }
      return false;
    }

    method AddKnownFile(path: string)
      requires Valid()
      modifies this, files
      ensures Valid() && Table() == Add(old(Table()), path)
    {
      if count >= MAX_KNOWN_FILES {
        return;
      }
      files[count] := path;
      count := count + 1;
    }

    method ClearKnownFiles()
      requires Valid()
      modifies this, files
      ensures Valid() && Table() == []
    {
      for i := 0 to count
        modifies files
      {
        files[i] := "";
      }
      count := 0;
    }

    method Baseline(paths: seq<string>)
      requires Valid()
      modifies this, files
      ensures Valid() && Table() == AddAll(old(Table()), paths)
    {
      for i := 0 to |paths|
        invariant Valid() && AddAll(Table(), paths[i..]) == AddAll(old(Table()), paths)
      {
        assert paths[i..][1..] == paths[i + 1..];
        AddKnownFile(paths[i]);
      }
    }

    /** One polling round: `found` new files, `matched` of them threats. */
    method Poll(paths: seq<string>, round: nat, threat: Event -> bool) returns (found: nat, matched: nat)
      requires Valid()
      modifies this, files
      ensures Valid() && Table() == Known(old(Table()), InRound(paths, round))
      ensures found == |Checks(old(Table()), InRound(paths, round))|
      ensures matched == Matches(Checks(old(Table()), InRound(paths, round)), threat)
    {
      found, matched := 0, 0;
      ghost var events := InRound(paths, round);
      for i := 0 to |paths|
        invariant Valid()
        invariant Known(Table(), InRound(paths[i..], round)) == Known(old(Table()), events)
        invariant found + |Checks(Table(), InRound(paths[i..], round))| == |Checks(old(Table()), events)|
        invariant matched + Matches(Checks(Table(), InRound(paths[i..], round)), threat)
               == Matches(Checks(old(Table()), events), threat)
      {
        var known := IsKnownFile(paths[i]);
        if !known {
          AddKnownFile(paths[i]);
          found := found + 1;
          if threat(Seen(round, paths[i])) {
            matched := matched + 1;
          }
        }
      }
    }

    /** The guard until it is stopped: `rounds` are the listings it sees. */
    method Start(baseline: seq<string>, rounds: seq<seq<string>>, threat: Event -> bool)
      returns (threats: nat, newFiles: nat)
      requires Valid() && Table() == []
      modifies this, files
      ensures Valid() && Table() == []
      ensures newFiles == |Checks(AddAll([], baseline), Events(rounds, 1))|
      ensures threats == Matches(Checks(AddAll([], baseline), Events(rounds, 1)), threat)
      ensures |baseline| + |NewPaths(baseline, Events(rounds, 1))| <= MAX_KNOWN_FILES ==>
                newFiles == |NewPaths(baseline, Events(rounds, 1))|
    {
      Baseline(baseline);
      ghost var known := Table();
      threats, newFiles := 0, 0;
      for i := 0 to |rounds|
        invariant Valid()
        invariant newFiles + |Checks(Table(), Events(rounds[i..], 1 + i))| == |Checks(known, Events(rounds, 1))|
        invariant threats + Matches(Checks(Table(), Events(rounds[i..], 1 + i)), threat)
               == Matches(Checks(known, Events(rounds, 1)), threat)
      {
        assert rounds[i..][1..] == rounds[i + 1..];
        ChecksConcat(Table(), InRound(rounds[i], 1 + i), Events(rounds[i + 1..], 2 + i), threat);
        var found, matched := Poll(rounds[i], 1 + i, threat);
        newFiles, threats := newFiles + found, threats + matched;
      }
      if |baseline| + |NewPaths(baseline, Events(rounds, 1))| <= MAX_KNOWN_FILES {
        SmallBaseline(baseline);
        RoomForAll(baseline, Events(rounds, 1));
      }
      ClearKnownFiles();
    }
  }

  lemma {:induction false} ChecksConcat(known: seq<string>, a: seq<Event>, b: seq<Event>, threat: Event -> bool)
    ensures Checks(known, a + b) == Checks(known, a) + Checks(Known(known, a), b)
    ensures Matches(Checks(known, a + b), threat) ==
      Matches(Checks(known, a), threat) + Matches(Checks(Known(known, a), b), threat)
    decreases |a|
  {
    if a == [] {
      assert a + b == b && [] + Checks(known, b) == Checks(known, b);
    } else {
      assert (a + b)[1..] == a[1..] + b;
      var next := if a[0].path in known then known else Add(known, a[0].path);
      ChecksConcat(next, a[1..], b, threat);
      if a[0].path !in known {
        var c, d := Checks(next, a[1..]), Checks(Known(next, a[1..]), b);
        assert [a[0]] + c + d == [a[0]] + (c + d);
      }
      MatchesConcat(Checks(known, a), Checks(Known(known, a), b), threat);
    }
  }

  lemma {:induction false} MatchesConcat(a: seq<Event>, b: seq<Event>, threat: Event -> bool)
    ensures Matches(a + b, threat) == Matches(a, threat) + Matches(b, threat)
  {
    if a == [] {
      assert a + b == b;
    } else {
      assert (a + b)[1..] == a[1..] + b;
      MatchesConcat(a[1..], b, threat);
    }
  }
}
