/** What a release frees, said without any order of visits: the least set of
    objects whose count is used up by the references lost with the set. */
module Garbage {
  import opened RcHeader
  import opened Heap
  import opened Counting

  ghost function Dead(s: State, work: seq<Ptr>): set<Ptr> {
    s.mem.Keys - Release(s, work).mem.Keys
  }

  /** Losing `n` references uses up the count in `rc`. */
  predicate UsedUp(rc: Int32, n: nat) {
    IsDynamic(rc) && Count(rc) <= n
  }

  ghost predicate Accounted(o: Obj, o': Obj, lost: nat) {
    o' == o.(rc := o'.rc) && IsDynamic(o.rc) == IsDynamic(o'.rc) &&
    o'.rc == if IsDynamic(o.rc) then o.rc - COUNT_UNIT * lost else o.rc
  }

  lemma LostNothing(m: Mem, x: Ptr)
    ensures Lost(m, [], {}, x) == 0
  {
    assert Restrict(m, {}) == map[];
  }

  /** A surviving object loses exactly the references that went away, and only
      objects whose count those references use up are freed. */
  lemma {:induction false} Accounting(s: State, work: seq<Ptr>, x: Ptr)
    requires x != NULL && x in s.mem
    ensures x in Release(s, work).mem ==>
              Accounted(s.mem[x], Release(s, work).mem[x], Lost(s.mem, work, Dead(s, work), x))
    ensures x !in Release(s, work).mem ==> UsedUp(s.mem[x].rc, Lost(s.mem, work, Dead(s, work), x))
    decreases s.mem.Keys, |work|
  {
    if work == [] {
      assert Dead(s, work) == {};
      LostNothing(s.mem, x);
    } else {
      var p := work[0];
      var d := Dead(s, work);
      if Ignored(s, p) {
        ReleaseIgnored(s, work);
        Accounting(s, work[1..], x);
        OccHead(work, x);
      } else if IsShared(s.mem[p].rc) {
        ReleaseShared(s, work);
        Accounting(DecCount(s, p), work[1..], x);
        LostDecCount(s, work, d, x);
      } else {
        ReleaseOpen(s, work);
        LostFree(s, work, d, x);
        var s1, work1 := Free(s, p), Children(s.mem[p]) + work[1..];
        assert Dead(s1, work1) == d - {p};
        if x != p {
          Accounting(s1, work1, x);
        }
      }
    }
  }

  /** A set is closed when it holds every object whose count would be used up by
      the references lost with the work list and the set itself. */
  ghost predicate Closed(m: Mem, work: seq<Ptr>, c: set<Ptr>) {
    forall x :: x in m && x != NULL && UsedUp(m[x].rc, Lost(m, work, c, x)) ==> x in c
  }

  lemma DeadIsClosed(s: State, work: seq<Ptr>)
    ensures Closed(s.mem, work, Dead(s, work))
  {
    forall x | x in s.mem && x != NULL && UsedUp(s.mem[x].rc, Lost(s.mem, work, Dead(s, work), x))
      ensures x in Dead(s, work)
    {
      Accounting(s, work, x);
    }
  }

  lemma ClosedAfterIgnored(s: State, work: seq<Ptr>, c: set<Ptr>)
    requires work != [] && Ignored(s, work[0]) && Closed(s.mem, work, c)
    ensures Closed(s.mem, work[1..], c)
  {
    forall x | x in s.mem && x != NULL && UsedUp(s.mem[x].rc, Lost(s.mem, work[1..], c, x))
      ensures x in c
    {
      OccHead(work, x);
    }
  }

  lemma ClosedAfterDecCount(s: State, work: seq<Ptr>, c: set<Ptr>)
    requires work != [] && work[0] in s.mem && IsShared(s.mem[work[0]].rc)
    requires Closed(s.mem, work, c)
    ensures Closed(DecCount(s, work[0]).mem, work[1..], c)
  {
    var m := DecCount(s, work[0]).mem;
    forall x | x in m && x != NULL && UsedUp(m[x].rc, Lost(m, work[1..], c, x))
      ensures x in c
    {
      LostDecCount(s, work, c, x);
    }
  }

  lemma ClosedAfterFree(s: State, work: seq<Ptr>, c: set<Ptr>)
    requires work != [] && work[0] in s.mem && work[0] != NULL
    requires IsDynamic(s.mem[work[0]].rc) && !IsShared(s.mem[work[0]].rc)
    requires Closed(s.mem, work, c)
    ensures work[0] in c
    ensures Closed(Free(s, work[0]).mem, Children(s.mem[work[0]]) + work[1..], c - {work[0]})
  {
    var p, m := work[0], Free(s, work[0]).mem;
    OccHead(work, p);
    assert UsedUp(s.mem[p].rc, Lost(s.mem, work, c, p));
    forall x | x in m && x != NULL && UsedUp(m[x].rc, Lost(m, Children(s.mem[p]) + work[1..], c - {p}, x))
      ensures x in c - {p}
    {
      LostFree(s, work, c, x);
    }
  }

  /** No object is freed that is not forced to go. */
  lemma {:induction false} DeadIsLeast(s: State, work: seq<Ptr>, c: set<Ptr>)
    requires Closed(s.mem, work, c)
    ensures Dead(s, work) <= c
    decreases s.mem.Keys, |work|
  {
    if work != [] {
      var p := work[0];
      if Ignored(s, p) {
        ReleaseIgnored(s, work);
        ClosedAfterIgnored(s, work, c);
        DeadIsLeast(s, work[1..], c);
      } else if IsShared(s.mem[p].rc) {
        ReleaseShared(s, work);
        ClosedAfterDecCount(s, work, c);
        DeadIsLeast(DecCount(s, p), work[1..], c);
      } else {
        ReleaseOpen(s, work);
        ClosedAfterFree(s, work, c);
        DeadIsLeast(Free(s, p), Children(s.mem[p]) + work[1..], c - {p});
        assert Dead(s, work) == Dead(Free(s, p), Children(s.mem[p]) + work[1..]) + {p};
      }
    }
  }

  ghost predicate NoDuplicates(log: seq<Ptr>) {
    forall i, j :: 0 <= i < j < |log| ==> log[i] != log[j]
  }

  /** `log` names each freed external object once, and nothing else. */
  ghost predicate FinalizesExactly(s: State, freed: set<Ptr>, log: seq<Ptr>) {
    NoDuplicates(log) && forall x :: x in log <==> x in freed && x in s.mem && s.mem[x].external
  }

  /** Every freed external object is finalized exactly once. */
  lemma {:induction false} FinalizedOnce(s: State, work: seq<Ptr>) returns (log: seq<Ptr>)
    ensures Release(s, work).finalized == s.finalized + log
    ensures FinalizesExactly(s, Dead(s, work), log)
    decreases s.mem.Keys, |work|
  {
    if work == [] {
      log := [];
    } else {
      var p := work[0];
      if Ignored(s, p) {
        ReleaseIgnored(s, work);
        log := FinalizedOnce(s, work[1..]);
      } else if IsShared(s.mem[p].rc) {
        ReleaseShared(s, work);
        log := FinalizedOnce(DecCount(s, p), work[1..]);
      } else {
        ReleaseOpen(s, work);
        var s1, work1 := Free(s, p), Children(s.mem[p]) + work[1..];
        var log1 := FinalizedOnce(s1, work1);
        assert Dead(s, work) == Dead(s1, work1) + {p};
        log := if s.mem[p].external then [p] + log1 else log1;
      }
    }
  }

  /** The same memory, and the same finalizers called, in whatever order. */
  ghost predicate Same(s: State, t: State) {
    s.mem == t.mem && multiset(s.finalized) == multiset(t.finalized)
  }

  lemma {:induction false} CountNoDuplicates(log: seq<Ptr>, x: Ptr)
    requires NoDuplicates(log)
    ensures multiset(log)[x] == if x in log then 1 else 0
  {
    if log != [] {
      assert log == [log[0]] + log[1..];
      CountNoDuplicates(log[1..], x);
    }
  }

  lemma SameLogs(s: State, freed: set<Ptr>, log: seq<Ptr>, log': seq<Ptr>)
    requires FinalizesExactly(s, freed, log) && FinalizesExactly(s, freed, log')
    ensures multiset(log) == multiset(log')
  {
    forall x
      ensures multiset(log)[x] == multiset(log')[x]
    {
      CountNoDuplicates(log, x);
      CountNoDuplicates(log', x);
    }
  }

  lemma SameDead(s: State, work: seq<Ptr>, work': seq<Ptr>)
    requires multiset(work) == multiset(work')
    ensures Dead(s, work) == Dead(s, work')
  {
    DeadIsClosed(s, work);
    DeadIsClosed(s, work');
    DeadIsLeast(s, work, Dead(s, work'));
    DeadIsLeast(s, work', Dead(s, work));
  }

  /** The order in which references are given up matters only to the order of the
      finalizer calls. */
  lemma OrderIrrelevant(s: State, work: seq<Ptr>, work': seq<Ptr>)
    requires multiset(work) == multiset(work') && NULL !in s.mem
    ensures Same(Release(s, work), Release(s, work'))
  {
    SameDead(s, work, work');
    var r, r' := Release(s, work), Release(s, work');
    assert r.mem.Keys == s.mem.Keys - Dead(s, work) == r'.mem.Keys;
    forall x | x in r.mem
      ensures r.mem[x] == r'.mem[x]
    {
      Accounting(s, work, x);
      Accounting(s, work', x);
    }
    var log := FinalizedOnce(s, work);
    var log' := FinalizedOnce(s, work');
    SameLogs(s, Dead(s, work), log, log');
  }

  /** A release does not look at the log it appends to. */
  lemma {:induction false} ReleaseLog(s: State, t: State, work: seq<Ptr>)
    requires s.mem == t.mem && multiset(s.finalized) == multiset(t.finalized)
    ensures Same(Release(s, work), Release(t, work))
    decreases s.mem.Keys, |work|
  {
    if work != [] {
      var p := work[0];
      if Ignored(s, p) {
        ReleaseIgnored(s, work);
        ReleaseIgnored(t, work);
        ReleaseLog(s, t, work[1..]);
      } else if IsShared(s.mem[p].rc) {
        ReleaseShared(s, work);
        ReleaseShared(t, work);
        ReleaseLog(DecCount(s, p), DecCount(t, p), work[1..]);
      } else {
        ReleaseOpen(s, work);
        ReleaseOpen(t, work);
        ReleaseLog(Free(s, p), Free(t, p), Children(s.mem[p]) + work[1..]);
      }
    }
  }
}
