/** Count conservation: every dynamic count is the number of references stored in
    the heap plus the references callers own. */
module Conservation {
  import opened RcHeader
  import opened Heap
  import opened Counting

  type Owned = multiset<Ptr>

  ghost predicate CountedAt(m: Mem, owned: Owned, x: Ptr) {
    if x in m then
      (IsDynamic(m[x].rc) && Count(m[x].rc) == Refs(m, x) + owned[x]) || Count(m[x].rc) == -1
    else
      Refs(m, x) + owned[x] == 0
  }

  /** Dynamic counts are exact, all other objects are static, nothing dangles. */
  ghost predicate Conserved(m: Mem, owned: Owned) {
    NULL !in m && forall x :: x != NULL ==> CountedAt(m, owned, x)
  }

  lemma RefsFree(s: State, p: Ptr, x: Ptr)
    requires p in s.mem
    ensures Refs(s.mem, x) == Refs(Free(s, p).mem, x) + Occ(Children(s.mem[p]), x)
  {
    RefsTakeOut(s.mem, p, x);
  }

  lemma ConservedDecCount(s: State, work: seq<Ptr>, owned: Owned)
    requires work != [] && work[0] in s.mem && IsShared(s.mem[work[0]].rc)
    requires Conserved(s.mem, owned + multiset(work))
    ensures Conserved(DecCount(s, work[0]).mem, owned + multiset(work[1..]))
  {
    var m := DecCount(s, work[0]).mem;
    forall x | x != NULL
      ensures CountedAt(m, owned + multiset(work[1..]), x)
    {
      assert CountedAt(s.mem, owned + multiset(work), x);
      RefsSameChildren(s.mem, m, x);
      OccHead(work, x);
    }
  }

  lemma ConservedFree(s: State, work: seq<Ptr>, owned: Owned)
    requires work != [] && work[0] in s.mem
    requires IsDynamic(s.mem[work[0]].rc) && !IsShared(s.mem[work[0]].rc)
    requires Conserved(s.mem, owned + multiset(work))
    ensures Conserved(Free(s, work[0]).mem, owned + multiset(Children(s.mem[work[0]]) + work[1..]))
  {
    var p := work[0];
    var m, kids := Free(s, p).mem, Children(s.mem[p]);
    forall x | x != NULL
      ensures CountedAt(m, owned + multiset(kids + work[1..]), x)
    {
      assert CountedAt(s.mem, owned + multiset(work), x);
      RefsFree(s, p, x);
      OccHead(work, x);
      OccConcat(kids, work[1..], x);
    }
  }

  /** On a conserved heap the naive release is safe and conserves. */
  lemma {:induction false} ConservedRelease(s: State, work: seq<Ptr>, owned: Owned)
    requires Conserved(s.mem, owned + multiset(work))
    ensures Safe(s, work)
    ensures Conserved(Release(s, work).mem, owned)
    decreases s.mem.Keys, |work|
  {
    if work == [] {
      assert owned + multiset(work) == owned;
    } else {
      var p := work[0];
      OccHead(work, p);
      assert p != NULL ==> CountedAt(s.mem, owned + multiset(work), p);
      if Ignored(s, p) {
        ReleaseIgnored(s, work);
        ConservedIgnored(s, work, owned);
        ConservedRelease(s, work[1..], owned);
      } else if IsShared(s.mem[p].rc) {
        ReleaseShared(s, work);
        ConservedDecCount(s, work, owned);
        ConservedRelease(DecCount(s, p), work[1..], owned);
      } else {
        ReleaseOpen(s, work);
        ConservedFree(s, work, owned);
        ConservedRelease(Free(s, p), Children(s.mem[p]) + work[1..], owned);
      }
    }
  }

  lemma ConservedIgnored(s: State, work: seq<Ptr>, owned: Owned)
    requires work != [] && Ignored(s, work[0])
    requires Conserved(s.mem, owned + multiset(work))
    ensures Conserved(s.mem, owned + multiset(work[1..]))
  {
    forall x | x != NULL
      ensures CountedAt(s.mem, owned + multiset(work[1..]), x)
    {
      assert CountedAt(s.mem, owned + multiset(work), x);
      OccHead(work, x);
    }
  }
}
