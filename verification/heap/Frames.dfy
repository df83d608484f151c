/** What a release leaves alone: slots of a survivor, objects outside its reach,
    and the difference between increments and matching decrements. */
module Frames {
  import opened RcHeader
  import opened Heap
  import opened Counting
  import opened Garbage
  import opened Operations

  /** Rewriting the slots of an object that survives commutes with the release. */
  lemma {:induction false} ReleaseSetSlots(s: State, work: seq<Ptr>, d: Ptr, slots: seq<Ptr>)
    requires d in Release(s, work).mem && d in s.mem
    ensures Release(SetSlots(s, d, slots), work) == SetSlots(Release(s, work), d, slots)
    ensures Safe(s, work) ==> Safe(SetSlots(s, d, slots), work)
    decreases s.mem.Keys, |work|
  {
    var t := SetSlots(s, d, slots);
    if work != [] {
      var p := work[0];
      if Ignored(s, p) {
        ReleaseIgnored(s, work);
        ReleaseIgnored(t, work);
        ReleaseSetSlots(s, work[1..], d, slots);
      } else if IsShared(s.mem[p].rc) {
        ReleaseShared(s, work);
        ReleaseShared(t, work);
        assert DecCount(t, p) == SetSlots(DecCount(s, p), d, slots);
        ReleaseSetSlots(DecCount(s, p), work[1..], d, slots);
      } else {
        ReleaseOpen(s, work);
        ReleaseOpen(t, work);
        assert p != d;
        assert Free(t, p) == SetSlots(Free(s, p), d, slots);
        ReleaseSetSlots(Free(s, p), Children(s.mem[p]) + work[1..], d, slots);
      }
    }
  }

  /** A release that is safe without `q` never touches `q`. */
  lemma {:induction false} ReleaseWithout(s: State, work: seq<Ptr>, q: Ptr)
    requires q in s.mem && Safe(Without(s, q), work)
    ensures Safe(s, work)
    ensures q in Release(s, work).mem && Release(s, work).mem[q] == s.mem[q]
    ensures Without(Release(s, work), q) == Release(Without(s, q), work)
    decreases s.mem.Keys, |work|
  {
    var t := Without(s, q);
    if work != [] {
      var p := work[0];
      if Ignored(t, p) {
        ReleaseIgnored(s, work);
        ReleaseIgnored(t, work);
        ReleaseWithout(s, work[1..], q);
      } else if IsShared(t.mem[p].rc) {
        ReleaseShared(s, work);
        ReleaseShared(t, work);
        assert DecCount(t, p) == Without(DecCount(s, p), q);
        ReleaseWithout(DecCount(s, p), work[1..], q);
      } else {
        ReleaseOpen(s, work);
        ReleaseOpen(t, work);
        assert Free(t, p) == Without(Free(s, p), q);
        ReleaseWithout(Free(s, p), Children(s.mem[p]) + work[1..], q);
      }
    }
  }

  lemma BumpShorter(s: State, ps: seq<Ptr>)
    requires ps != [] && Room(s.mem, ps) && NULL !in s.mem
    ensures Room(s.mem, ps[1..])
    ensures Ignored(s, ps[0]) ==> Bump(s, ps) == Bump(s, ps[1..])
    ensures !Ignored(s, ps[0]) ==>
              IsShared(Bump(s, ps).mem[ps[0]].rc) && DecCount(Bump(s, ps), ps[0]) == Bump(s, ps[1..])
  {
    forall x {
      OccHead(ps, x);
    }
  }

  /** Decrements undo the increments made before them. */
  lemma {:induction false} BumpThenRelease(s: State, ps: seq<Ptr>, work: seq<Ptr>)
    requires Room(s.mem, ps) && NULL !in s.mem
    ensures Release(Bump(s, ps), ps + work) == Release(s, work)
    decreases |ps|
  {
    if ps == [] {
      assert Bump(s, ps).mem == s.mem;
      assert ps + work == work;
    } else {
      BumpShorter(s, ps);
      assert (ps + work)[1..] == ps[1..] + work;
      if Ignored(s, ps[0]) {
        ReleaseIgnored(Bump(s, ps), ps + work);
      } else {
        ReleaseShared(Bump(s, ps), ps + work);
      }
      BumpThenRelease(s, ps[1..], work);
    }
  }

  /** A release can be made in instalments. */
  lemma {:induction false} SafeConcat(s: State, a: seq<Ptr>, b: seq<Ptr>)
    ensures Safe(s, a + b) <==> Safe(s, a) && Safe(Release(s, a), b)
    decreases s.mem.Keys, |a|
  {
    if a == [] {
      assert a + b == b;
    } else {
      var p := a[0];
      assert (a + b)[1..] == a[1..] + b;
      if Ignored(s, p) {
        ReleaseIgnored(s, a);
        SafeConcat(s, a[1..], b);
      } else if IsShared(s.mem[p].rc) {
        ReleaseShared(s, a);
        SafeConcat(DecCount(s, p), a[1..], b);
      } else {
        ReleaseOpen(s, a);
        assert Children(s.mem[p]) + (a[1..] + b) == Children(s.mem[p]) + a[1..] + b;
        SafeConcat(Free(s, p), Children(s.mem[p]) + a[1..], b);
      }
    }
  }

  /** Child counts whose indices fit the count bits while an object is suspended. */
  predicate Fits(m: Mem) {
    forall p :: p in m ==> |Children(m[p])| <= DYNAMIC_COUNT_MAX + 2
  }

  lemma ReleaseKeepsSlots(s: State, work: seq<Ptr>)
    requires NULL !in s.mem
    ensures forall p | p in Release(s, work).mem ::
              p in s.mem && Release(s, work).mem[p].slots == s.mem[p].slots &&
              Release(s, work).mem[p].external == s.mem[p].external
    ensures Fits(s.mem) ==> Fits(Release(s, work).mem)
  {
    forall p | p in Release(s, work).mem
      ensures Release(s, work).mem[p].slots == s.mem[p].slots && Release(s, work).mem[p].external == s.mem[p].external
    {
      Accounting(s, work, p);
    }
  }
}
