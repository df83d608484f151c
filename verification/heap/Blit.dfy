/** Copying a range of references between arrays: a fast path that moves elements
    out of a uniquely owned source, a slow path that copies, and one reference
    meaning for both. */
module Blit {
  import opened RcHeader
  import opened Heap
  import opened Counting
  import opened Garbage
  import opened Conservation
  import opened Operations
  import opened Frames

  datatype Range = Range(dst: Ptr, dstOff: nat, src: Ptr, srcOff: nat, len: nat)

  predicate InBounds(m: Mem, b: Range) {
    b.dst in m && b.src in m && !m[b.dst].external && !m[b.src].external &&
    b.dstOff + b.len <= |m[b.dst].slots| && b.srcOff + b.len <= |m[b.src].slots|
  }

  // Slices are total, so that specifications need no bounds: outside the array
  // they are empty, which `InBounds` rules out.

  function SlotsOf(m: Mem, p: Ptr): seq<Ptr> {
    if p in m then m[p].slots else []
  }

  function Within(slots: seq<Ptr>, off: nat, n: nat): seq<Ptr> {
    if off + n <= |slots| then slots[off..off + n] else []
  }

  function Around(slots: seq<Ptr>, off: nat, n: nat): seq<Ptr> {
    if off + n <= |slots| then slots[..off] + slots[off + n..] else []
  }

  function Pasted(slots: seq<Ptr>, off: nat, elems: seq<Ptr>): seq<Ptr> {
    if off + |elems| <= |slots| then slots[..off] + elems + slots[off + |elems|..] else slots
  }

  function Copied(m: Mem, b: Range): seq<Ptr> {
    Within(SlotsOf(m, b.src), b.srcOff, b.len)
  }

  function Outside(m: Mem, b: Range): seq<Ptr> {
    Around(SlotsOf(m, b.src), b.srcOff, b.len)
  }

  function Overwritten(m: Mem, b: Range): seq<Ptr> {
    Within(SlotsOf(m, b.dst), b.dstOff, b.len)
  }

  /** The slots of the destination after the copy. */
  function After(m: Mem, b: Range): seq<Ptr> {
    Pasted(SlotsOf(m, b.dst), b.dstOff, Copied(m, b))
  }

  ghost function Paste(s: State, d: Ptr, slots: seq<Ptr>): State {
    if d in s.mem then SetSlots(s, d, slots) else s
  }

  /** Reference meaning: count every copied element, give up the overwritten ones,
      copy, then give up the two array references the caller passed. */
  ghost function CopyBlit(s: State, b: Range): State
    requires Room(s.mem, Copied(s.mem, b))
  {
    var t := Release(Bump(s, Copied(s.mem, b)), Overwritten(s.mem, b));
    Release(Paste(t, b.dst, After(s.mem, b)), [b.src, b.dst])
  }

  /** Fast path: the source's only reference is the caller's, so its elements are
      moved and the container alone is freed. */
  ghost function MoveBlit(s: State, b: Range): State {
    var t := Release(s, Outside(s.mem, b) + Overwritten(s.mem, b));
    Release(Without(Paste(t, b.dst, After(s.mem, b)), b.src), [b.dst])
  }

  /** Slow path: the caller's reference to the source goes first. */
  ghost function GiveUpSource(s: State, src: Ptr): State {
    if src in s.mem && IsShared(s.mem[src].rc) then DecCount(s, src) else s
  }

  ghost function BeforeCopy(s: State, b: Range): State
    requires Room(GiveUpSource(s, b.src).mem, Copied(s.mem, b))
  {
    Release(Bump(GiveUpSource(s, b.src), Copied(s.mem, b)), Overwritten(s.mem, b))
  }

  ghost function SharedBlit(s: State, b: Range): State
    requires Room(GiveUpSource(s, b.src).mem, Copied(s.mem, b))
  {
    Release(Paste(BeforeCopy(s, b), b.dst, After(s.mem, b)), [b.dst])
  }

  // ----- releasing references whose slots are about to be overwritten -----

  lemma OccSplit(slots: seq<Ptr>, off: nat, n: nat, elems: seq<Ptr>, x: Ptr)
    requires off + n <= |slots| && |elems| == n
    ensures Occ(Pasted(slots, off, elems), x) + Occ(Within(slots, off, n), x) == Occ(slots, x) + Occ(elems, x)
    ensures Occ(Around(slots, off, n), x) + Occ(Within(slots, off, n), x) == Occ(slots, x)
  {
    assert slots == slots[..off] + slots[off..off + n] + slots[off + n..];
  }

  lemma NoOccInNulls(n: nat, x: Ptr)
    requires x != NULL
    ensures Occ(seq(n, _ => NULL), x) == 0
  {
  }

  ghost function Nulled(u: State, d: Ptr, off: nat, n: nat): State {
    Paste(u, d, Pasted(SlotsOf(u.mem, d), off, seq(n, _ => NULL)))
  }

  /** `owned` holds the slots `off..off+n` of `d` and more; after giving up `work`, which
      accounts for them, `rest` remains, with a reference to `d`. */
  ghost predicate Stale(u: State, d: Ptr, off: nat, n: nat, work: seq<Ptr>, owned: Owned, rest: Owned) {
    Conserved(u.mem, owned) && d in u.mem && !u.mem[d].external && off + n <= |u.mem[d].slots| && d in rest &&
    forall x :: x != NULL ==> rest[x] + Occ(work, x) == owned[x] + Occ(Within(u.mem[d].slots, off, n), x)
  }

  lemma NulledBalance(slots: seq<Ptr>, off: nat, n: nat, elems: seq<Ptr>, x: Ptr)
    requires off + n <= |slots| && |elems| == n && x != NULL
    ensures Occ(Pasted(slots, off, seq(n, _ => NULL)), x) + Occ(Within(slots, off, n), x) == Occ(slots, x)
    ensures Occ(Pasted(slots, off, elems), x) == Occ(Pasted(slots, off, seq(n, _ => NULL)), x) + Occ(elems, x)
  {
    OccSplit(slots, off, n, seq(n, _ => NULL), x);
    OccSplit(slots, off, n, elems, x);
    NoOccInNulls(n, x);
  }

  lemma ConservedNulled(u: State, d: Ptr, off: nat, n: nat, work: seq<Ptr>, owned: Owned, rest: Owned)
    requires Stale(u, d, off, n, work, owned, rest)
    ensures Conserved(Nulled(u, d, off, n).mem, rest + multiset(work))
  {
    var slots, nulls := u.mem[d].slots, seq(n, _ => NULL);
    forall x | x != NULL
      ensures (rest + multiset(work))[x] + Occ(Pasted(slots, off, nulls), x) == owned[x] + Occ(slots, x)
    {
      NulledBalance(slots, off, n, nulls, x);
    }
    ConservedSetSlots(u, d, Pasted(slots, off, nulls), owned, rest + multiset(work));
  }

  lemma NulledBack(u: State, d: Ptr, off: nat, n: nat, work: seq<Ptr>)
    requires d in u.mem && d in Release(Nulled(u, d, off, n), work).mem
    ensures d in Release(u, work).mem
    ensures Release(u, work) == SetSlots(Release(Nulled(u, d, off, n), work), d, u.mem[d].slots)
    ensures Safe(Nulled(u, d, off, n), work) ==> Safe(u, work)
  {
    ReleaseSetSlots(Nulled(u, d, off, n), work, d, u.mem[d].slots);
    assert SetSlots(Nulled(u, d, off, n), d, u.mem[d].slots).mem == u.mem;
  }

  /** Giving up `work` while those slots are stale is safe and keeps `d`. */
  lemma ReleaseStale(u: State, d: Ptr, off: nat, n: nat, work: seq<Ptr>, owned: Owned, rest: Owned)
    requires Stale(u, d, off, n, work, owned, rest)
    ensures Safe(u, work) && d in Release(u, work).mem
    ensures d in Release(Nulled(u, d, off, n), work).mem
    ensures Conserved(Release(Nulled(u, d, off, n), work).mem, rest)
  {
    ConservedNulled(u, d, off, n, work, owned, rest);
    ConservedRelease(Nulled(u, d, off, n), work, rest);
    assert CountedAt(Release(Nulled(u, d, off, n), work).mem, rest, d);
    NulledBack(u, d, off, n, work);
  }

  lemma ConservedOverNulls(r: State, d: Ptr, slots: seq<Ptr>, off: nat, n: nat, rest: Owned, elems: seq<Ptr>, rest': Owned)
    requires Conserved(r.mem, rest) && d in r.mem && !r.mem[d].external
    requires off + n <= |slots| && |elems| == n && r.mem[d].slots == Pasted(slots, off, seq(n, _ => NULL))
    requires forall x :: x != NULL ==> rest'[x] + Occ(elems, x) == rest[x]
    ensures Conserved(SetSlots(r, d, Pasted(slots, off, elems)).mem, rest')
  {
    forall x | x != NULL
      ensures rest'[x] + Occ(Pasted(slots, off, elems), x) == rest[x] + Occ(r.mem[d].slots, x)
    {
      NulledBalance(slots, off, n, elems, x);
    }
    ConservedSetSlots(r, d, Pasted(slots, off, elems), rest, rest');
  }

  lemma PasteBack(u: State, d: Ptr, off: nat, n: nat, work: seq<Ptr>, slots: seq<Ptr>)
    requires d in u.mem && d != NULL && d in Release(Nulled(u, d, off, n), work).mem
    ensures Paste(Release(u, work), d, slots) == SetSlots(Release(Nulled(u, d, off, n), work), d, slots)
    ensures Release(Nulled(u, d, off, n), work).mem[d].slots == Nulled(u, d, off, n).mem[d].slots
    ensures Release(Nulled(u, d, off, n), work).mem[d].external == u.mem[d].external
  {
    NulledBack(u, d, off, n, work);
    Accounting(Nulled(u, d, off, n), work, d);
  }

  /** Overwriting the stale slots with `elems`, taken from `rest`, conserves. */
  lemma PasteStale(u: State, d: Ptr, off: nat, n: nat, work: seq<Ptr>, owned: Owned, rest: Owned,
                   elems: seq<Ptr>, rest': Owned)
    requires Stale(u, d, off, n, work, owned, rest) && |elems| == n
    requires forall x :: x != NULL ==> rest'[x] + Occ(elems, x) == rest[x]
    ensures Safe(u, work) && d in Release(u, work).mem
    ensures Conserved(Paste(Release(u, work), d, Pasted(u.mem[d].slots, off, elems)).mem, rest')
  {
    ReleaseStale(u, d, off, n, work, owned, rest);
    PasteBack(u, d, off, n, work, Pasted(u.mem[d].slots, off, elems));
    ConservedOverNulls(Release(Nulled(u, d, off, n), work), d, u.mem[d].slots, off, n, rest, elems, rest');
  }

  // ----- the fast path -----

  /** The convention of the call: the caller owns both array references it passes. */
  ghost predicate Owning(s: State, b: Range, owned: Owned) {
    Conserved(s.mem, owned) && InBounds(s.mem, b) && multiset{b.src, b.dst} <= owned
  }

  predicate Unique(s: State, p: Ptr) {
    p in s.mem && IsDynamic(s.mem[p].rc) && !IsShared(s.mem[p].rc)
  }

  lemma UniqueSource(s: State, b: Range, owned: Owned)
    requires Owning(s, b, owned) && Unique(s, b.src)
    ensures b.src != b.dst && b.src != NULL && owned[b.src] == 1 && Refs(s.mem, b.src) == 0
    ensures b.src !in Copied(s.mem, b) && b.src !in Overwritten(s.mem, b)
  {
    assert CountedAt(s.mem, owned, b.src);
    RefsTakeOut(s.mem, b.src, b.src);
    RefsTakeOut(s.mem, b.dst, b.src);
    OccSplit(s.mem[b.src].slots, b.srcOff, b.len, Copied(s.mem, b), b.src);
    OccSplit(s.mem[b.dst].slots, b.dstOff, b.len, Overwritten(s.mem, b), b.src);
  }

  /** Without its container, the source's slots are owned. */
  ghost function Detached(s: State, b: Range, owned: Owned): Owned {
    owned - multiset{b.src} + multiset(SlotsOf(s.mem, b.src))
  }

  lemma ConservedDetached(s: State, b: Range, owned: Owned)
    requires Owning(s, b, owned) && Unique(s, b.src)
    ensures Conserved(Without(s, b.src).mem, Detached(s, b, owned))
  {
    UniqueSource(s, b, owned);
    ConservedTakeApart(s, b.src, owned, Detached(s, b, owned));
  }

  lemma SourceSplits(m: Mem, b: Range)
    requires InBounds(m, b)
    ensures multiset(SlotsOf(m, b.src)) == multiset(Copied(m, b)) + multiset(Outside(m, b))
  {
    var slots := m[b.src].slots;
    assert slots == slots[..b.srcOff] + Copied(m, b) + slots[b.srcOff + b.len..];
  }

  lemma MoveBalance(s: State, b: Range, owned: Owned, x: Ptr)
    requires InBounds(s.mem, b)
    ensures (owned - multiset{b.src} + multiset(Copied(s.mem, b)))[x] + Occ(Outside(s.mem, b) + Overwritten(s.mem, b), x)
         == Detached(s, b, owned)[x] + Occ(Overwritten(s.mem, b), x)
  {
    SourceSplits(s.mem, b);
    OccConcat(Outside(s.mem, b), Overwritten(s.mem, b), x);
  }

  lemma StaleMove(s: State, b: Range, owned: Owned)
    requires Owning(s, b, owned) && Unique(s, b.src)
    ensures Stale(Without(s, b.src), b.dst, b.dstOff, b.len, Outside(s.mem, b) + Overwritten(s.mem, b),
                  Detached(s, b, owned), owned - multiset{b.src} + multiset(Copied(s.mem, b)))
  {
    UniqueSource(s, b, owned);
    ConservedDetached(s, b, owned);
    forall x | x != NULL {
      MoveBalance(s, b, owned, x);
    }
  }

  /** The heap just before the destination reference is given up. */
  ghost function MovedHeap(s: State, b: Range): State {
    Paste(Release(Without(s, b.src), Outside(s.mem, b) + Overwritten(s.mem, b)), b.dst, After(s.mem, b))
  }

  lemma MovedHeapConserves(s: State, b: Range, owned: Owned, work: seq<Ptr>)
    requires Owning(s, b, owned) && Unique(s, b.src)
    requires work == Outside(s.mem, b) + Overwritten(s.mem, b)
    ensures Safe(Without(s, b.src), work) && b.dst in Release(Without(s, b.src), work).mem
    ensures Conserved(MovedHeap(s, b).mem, owned - multiset{b.src})
  {
    UniqueSource(s, b, owned);
    StaleMove(s, b, owned);
    var kept := owned - multiset{b.src};
    PasteStale(Without(s, b.src), b.dst, b.dstOff, b.len, work, Detached(s, b, owned),
               kept + multiset(Copied(s.mem, b)), Copied(s.mem, b), kept);
  }

  lemma PasteWithout(t: State, d: Ptr, slots: seq<Ptr>, q: Ptr)
    requires d != q
    ensures Without(Paste(t, d, slots), q) == Paste(Without(t, q), d, slots)
  {
  }

  lemma MoveBlitIsMovedHeap(s: State, b: Range, work: seq<Ptr>)
    requires InBounds(s.mem, b) && b.src != b.dst && work == Outside(s.mem, b) + Overwritten(s.mem, b)
    requires Safe(Without(s, b.src), work) && b.dst in Release(Without(s, b.src), work).mem
    ensures Safe(s, work) && b.dst in Release(s, work).mem
    ensures MoveBlit(s, b) == Release(MovedHeap(s, b), [b.dst])
  {
    ReleaseWithout(s, work, b.src);
    PasteWithout(Release(s, work), b.dst, After(s.mem, b), b.src);
  }

  lemma GiveUpOne(s: State, p: Ptr, owned: Owned)
    requires Conserved(s.mem, owned) && p in owned
    ensures Safe(s, [p]) && Conserved(Release(s, [p]).mem, owned - multiset{p})
  {
    assert owned - multiset{p} + multiset([p]) == owned;
    ConservedRelease(s, [p], owned - multiset{p});
  }

  /** The fast path: safe, and all it leaves behind is counted. */
  lemma MoveBlitConserves(s: State, b: Range, owned: Owned)
    requires Owning(s, b, owned) && Unique(s, b.src)
    ensures Safe(s, Outside(s.mem, b) + Overwritten(s.mem, b)) && Safe(MovedHeap(s, b), [b.dst])
    ensures b.dst in Release(s, Outside(s.mem, b) + Overwritten(s.mem, b)).mem
    ensures MoveBlit(s, b) == Release(MovedHeap(s, b), [b.dst])
    ensures Conserved(MoveBlit(s, b).mem, owned - multiset{b.src} - multiset{b.dst})
  {
    UniqueSource(s, b, owned);
    MovedHeapConserves(s, b, owned, Outside(s.mem, b) + Overwritten(s.mem, b));
    MoveBlitIsMovedHeap(s, b, Outside(s.mem, b) + Overwritten(s.mem, b));
    GiveUpOne(MovedHeap(s, b), b.dst, owned - multiset{b.src});
  }

  // ----- the reference meaning on a uniquely owned source -----

  lemma BumpWithout(s: State, q: Ptr, ps: seq<Ptr>)
    requires q in s.mem && Room(s.mem, ps)
    ensures Room(Without(s, q).mem, ps)
    ensures Without(Bump(s, ps), q) == Bump(Without(s, q), ps)
  {
  }

  lemma CopiedAllocated(u: State, slots: seq<Ptr>, ps: seq<Ptr>, owned: Owned)
    requires Conserved(u.mem, owned) && multiset(slots) <= owned
    requires forall p :: p in ps ==> p in slots
    ensures Allocated(u.mem, ps)
  {
    forall p | p in ps && p != NULL
      ensures p in u.mem
    {
      assert CountedAt(u.mem, owned, p);
      assert p in multiset(slots);
    }
  }

  lemma StaleAfterBump(u: State, d: Ptr, off: nat, n: nat, ps: seq<Ptr>, owned: Owned)
    requires Conserved(u.mem, owned) && d in u.mem && !u.mem[d].external && off + n <= |u.mem[d].slots| && d in owned
    requires Room(u.mem, ps) && Allocated(u.mem, ps)
    ensures Stale(Bump(u, ps), d, off, n, Within(u.mem[d].slots, off, n), owned + multiset(ps), owned + multiset(ps))
  {
    ConservedBump(u, ps, owned);
  }

  lemma StaleCopy(s: State, b: Range, owned: Owned)
    requires Owning(s, b, owned) && Unique(s, b.src) && Room(s.mem, Copied(s.mem, b))
    ensures Room(Without(s, b.src).mem, Copied(s.mem, b))
    ensures Stale(Bump(Without(s, b.src), Copied(s.mem, b)), b.dst, b.dstOff, b.len, Overwritten(s.mem, b),
                  Detached(s, b, owned) + multiset(Copied(s.mem, b)),
                  Detached(s, b, owned) + multiset(Copied(s.mem, b)))
  {
    UniqueSource(s, b, owned);
    ConservedDetached(s, b, owned);
    BumpWithout(s, b.src, Copied(s.mem, b));
    CopiedAllocated(Without(s, b.src), SlotsOf(s.mem, b.src), Copied(s.mem, b), Detached(s, b, owned));
    StaleAfterBump(Without(s, b.src), b.dst, b.dstOff, b.len, Copied(s.mem, b), Detached(s, b, owned));
  }

  lemma DropSourceAfterPaste(t: State, b: Range, o: Obj, slots: seq<Ptr>)
    requires b.src != b.dst && b.src != NULL && b.src in t.mem && b.dst in t.mem && t.mem[b.src] == o
    requires IsDynamic(o.rc) && !IsShared(o.rc) && !o.external
    ensures Release(Paste(t, b.dst, slots), [b.src, b.dst])
         == Release(SetSlots(Without(t, b.src), b.dst, slots), o.slots + [b.dst])
  {
    var p := Paste(t, b.dst, slots);
    ReleaseOpen(p, [b.src, b.dst]);
    assert Free(p, b.src) == SetSlots(Without(t, b.src), b.dst, slots);
    assert [b.src, b.dst][1..] == [b.dst];
  }

  /** Copying, then dropping the unique source, releases the overwritten slots and all
      of the source's slots. */
  lemma CopyBlitOpens(s: State, b: Range, r: State)
    requires InBounds(s.mem, b) && b.src != b.dst && b.src != NULL && Unique(s, b.src)
    requires b.src !in Copied(s.mem, b) && Room(s.mem, Copied(s.mem, b))
    requires Room(Without(s, b.src).mem, Copied(s.mem, b))
    requires Safe(Bump(Without(s, b.src), Copied(s.mem, b)), Overwritten(s.mem, b))
    requires r == Release(Bump(Without(s, b.src), Copied(s.mem, b)), Overwritten(s.mem, b)) && b.dst in r.mem
    ensures CopyBlit(s, b) == Release(SetSlots(r, b.dst, After(s.mem, b)), SlotsOf(s.mem, b.src) + [b.dst])
  {
    var x, w := Copied(s.mem, b), Overwritten(s.mem, b);
    BumpWithout(s, b.src, x);
    ReleaseWithout(Bump(s, x), w, b.src);
    DropSourceAfterPaste(Release(Bump(s, x), w), b, s.mem[b.src], After(s.mem, b));
  }

  lemma SameWork(m: Mem, b: Range)
    requires InBounds(m, b)
    ensures multiset(Overwritten(m, b) + SlotsOf(m, b.src))
         == multiset(Copied(m, b) + (Outside(m, b) + Overwritten(m, b)))
  {
    SourceSplits(m, b);
  }

  /** Releasing the overwritten and all the source's slots after counting the copied
      ones comes to releasing the overwritten and the slots outside the range. */
  lemma ReleaseAfterCopy(m: Mem, u: State, b: Range, work: seq<Ptr>)
    requires InBounds(m, b) && NULL !in u.mem && Room(u.mem, Copied(m, b))
    requires work == Outside(m, b) + Overwritten(m, b)
    ensures Same(Release(Release(Bump(u, Copied(m, b)), Overwritten(m, b)), SlotsOf(m, b.src)), Release(u, work))
  {
    ReleaseConcat(Bump(u, Copied(m, b)), Overwritten(m, b), SlotsOf(m, b.src));
    SameWork(m, b);
    OrderIrrelevant(Bump(u, Copied(m, b)), Overwritten(m, b) + SlotsOf(m, b.src), Copied(m, b) + work);
    BumpThenRelease(u, Copied(m, b), work);
  }

  lemma EquivalentOnceDetached(s: State, b: Range, u: State, r: State, work: seq<Ptr>)
    requires InBounds(s.mem, b) && NULL !in s.mem && u == Without(s, b.src) && Room(u.mem, Copied(s.mem, b))
    requires work == Outside(s.mem, b) + Overwritten(s.mem, b) && b.dst in u.mem
    requires r == Release(Bump(u, Copied(s.mem, b)), Overwritten(s.mem, b)) && b.dst in r.mem
    requires b.dst in Release(u, work).mem
    ensures Same(Release(SetSlots(Release(u, work), b.dst, After(s.mem, b)), [b.dst]),
                 Release(SetSlots(r, b.dst, After(s.mem, b)), SlotsOf(s.mem, b.src) + [b.dst]))
  {
    ReleaseAfterCopy(s.mem, u, b, work);
    var all, d, slots := SlotsOf(s.mem, b.src), b.dst, After(s.mem, b);
    ReleaseSetSlots(r, all, d, slots);
    ReleaseConcat(SetSlots(r, d, slots), all, [d]);
    ReleaseLog(SetSlots(Release(u, work), d, slots), SetSlots(Release(r, all), d, slots), [d]);
  }

  /** Moving out of a uniquely owned source ends in the same heap, with the same
      finalizers called, as copying and then dropping the source. */
  lemma MoveEqualsCopy(s: State, b: Range, owned: Owned)
    requires Owning(s, b, owned) && Unique(s, b.src) && Room(s.mem, Copied(s.mem, b))
    ensures Same(MoveBlit(s, b), CopyBlit(s, b))
  {
    UniqueSource(s, b, owned);
    MoveBlitConserves(s, b, owned);
    MovedHeapConserves(s, b, owned, Outside(s.mem, b) + Overwritten(s.mem, b));
    StaleCopy(s, b, owned);
    var u, x, w := Without(s, b.src), Copied(s.mem, b), Overwritten(s.mem, b);
    var all := Detached(s, b, owned) + multiset(x);
    ReleaseStale(Bump(u, x), b.dst, b.dstOff, b.len, w, all, all);
    var r := Release(Bump(u, x), w);
    CopyBlitOpens(s, b, r);
    EquivalentOnceDetached(s, b, u, r, Outside(s.mem, b) + w);
  }

  // ----- the slow path -----

  lemma ConservedGiveUpSource(s: State, src: Ptr, owned: Owned)
    requires Conserved(s.mem, owned) && src in owned && src in s.mem && !Unique(s, src)
    ensures Conserved(GiveUpSource(s, src).mem, owned - multiset{src})
  {
    if IsShared(s.mem[src].rc) {
      assert owned == owned - multiset{src} + multiset([src]);
      ConservedDecCount(s, [src], owned - multiset{src});
      assert owned - multiset{src} + multiset([src][1..]) == owned - multiset{src};
    } else {
      forall x | x != NULL
        ensures CountedAt(s.mem, owned - multiset{src}, x)
      {
        assert CountedAt(s.mem, owned, x) && CountedAt(s.mem, owned, src);
      }
    }
  }

  /** Every element of a live array is live. */
  lemma ElementsAllocated(m: Mem, p: Ptr, ps: seq<Ptr>, owned: Owned)
    requires Conserved(m, owned) && p in m && !m[p].external && forall x :: x in ps ==> x in m[p].slots
    ensures Allocated(m, ps)
  {
    forall x | x in ps && x != NULL
      ensures x in m
    {
      assert CountedAt(m, owned, x);
      RefsTakeOut(m, p, x);
    }
  }

  lemma StaleShared(s: State, b: Range, owned: Owned, g: State)
    requires Owning(s, b, owned) && !Unique(s, b.src) && g == GiveUpSource(s, b.src)
    requires Room(g.mem, Copied(s.mem, b))
    ensures Stale(Bump(g, Copied(s.mem, b)), b.dst, b.dstOff, b.len, Overwritten(s.mem, b),
                  owned - multiset{b.src} + multiset(Copied(s.mem, b)),
                  owned - multiset{b.src} + multiset(Copied(s.mem, b)))
  {
    ConservedGiveUpSource(s, b.src, owned);
    ElementsAllocated(g.mem, b.src, Copied(s.mem, b), owned - multiset{b.src});
    StaleAfterBump(g, b.dst, b.dstOff, b.len, Copied(s.mem, b), owned - multiset{b.src});
  }

  /** The slow path: safe up to the copy, and all it leaves behind is counted. */
  lemma SharedBlitConserves(s: State, b: Range, owned: Owned)
    requires Owning(s, b, owned) && !Unique(s, b.src) && Room(GiveUpSource(s, b.src).mem, Copied(s.mem, b))
    ensures Safe(Bump(GiveUpSource(s, b.src), Copied(s.mem, b)), Overwritten(s.mem, b))
    ensures b.dst in BeforeCopy(s, b).mem
    ensures Safe(Paste(BeforeCopy(s, b), b.dst, After(s.mem, b)), [b.dst])
    ensures Conserved(SharedBlit(s, b).mem, owned - multiset{b.src} - multiset{b.dst})
  {
    var g, x := GiveUpSource(s, b.src), Copied(s.mem, b);
    StaleShared(s, b, owned, g);
    var rest := owned - multiset{b.src} + multiset(x);
    PasteStale(Bump(g, x), b.dst, b.dstOff, b.len, Overwritten(s.mem, b), rest, rest, x, owned - multiset{b.src});
    GiveUpOne(Paste(BeforeCopy(s, b), b.dst, After(s.mem, b)), b.dst, owned - multiset{b.src});
  }

  lemma BumpGiveUp(s: State, p: Ptr, ps: seq<Ptr>)
    requires p in s.mem && IsShared(s.mem[p].rc) && Room(s.mem, ps)
    ensures Room(DecCount(s, p).mem, ps)
    ensures IsShared(Bump(s, ps).mem[p].rc) && Bump(DecCount(s, p), ps) == DecCount(Bump(s, ps), p)
  {
  }

  /** Giving up the source before the overwritten elements or after them is the same. */
  lemma GiveUpSourceFirst(s: State, p: Ptr, ps: seq<Ptr>, work: seq<Ptr>)
    requires p in s.mem && p != NULL && NULL !in s.mem && !Unique(s, p) && Room(s.mem, ps)
    ensures Room(GiveUpSource(s, p).mem, ps)
    ensures Same(Release(Bump(GiveUpSource(s, p), ps), work), Release(Release(Bump(s, ps), work), [p]))
  {
    var t := Bump(s, ps);
    ReleaseConcat(t, work, [p]);
    OrderIrrelevant(t, [p] + work, work + [p]);
    assert ([p] + work)[1..] == work;
    if IsShared(s.mem[p].rc) {
      BumpGiveUp(s, p, ps);
      ReleaseShared(t, [p] + work);
    } else {
      ReleaseIgnored(t, [p] + work);
    }
  }

  /** Both branches of the blit mean the same copying blit. */
  lemma SharedEqualsCopy(s: State, b: Range, owned: Owned)
    requires Owning(s, b, owned) && !Unique(s, b.src) && Room(s.mem, Copied(s.mem, b))
    ensures Room(GiveUpSource(s, b.src).mem, Copied(s.mem, b))
    ensures Same(SharedBlit(s, b), CopyBlit(s, b))
  {
    var x, w, d, slots := Copied(s.mem, b), Overwritten(s.mem, b), b.dst, After(s.mem, b);
    GiveUpSourceFirst(s, b.src, x, w);
    SharedBlitConserves(s, b, owned);
    var t := Release(Bump(s, x), w);
    ReleaseSetSlots(t, [b.src], d, slots);
    assert [b.src, d] == [b.src] + [d];
    ReleaseConcat(Paste(t, d, slots), [b.src], [d]);
    ReleaseLog(Paste(BeforeCopy(s, b), d, slots), Paste(Release(t, [b.src]), d, slots), [d]);
  }

  // ----- when the slow path may read its source -----

  /** The copy reads the source after the overwritten elements were given up. */
  ghost predicate SourceSurvives(s: State, b: Range)
    requires Room(GiveUpSource(s, b.src).mem, Copied(s.mem, b))
  {
    b.src in BeforeCopy(s, b).mem
  }

  /** It may, exactly when some set closed under losing the overwritten references
      leaves the source out. */
  lemma SourceSurvivesIff(s: State, b: Range)
    requires Room(GiveUpSource(s, b.src).mem, Copied(s.mem, b)) && b.src in s.mem
    ensures SourceSurvives(s, b) <==>
            exists c :: Closed(Bump(GiveUpSource(s, b.src), Copied(s.mem, b)).mem, Overwritten(s.mem, b), c) && b.src !in c
  {
    var t, w := Bump(GiveUpSource(s, b.src), Copied(s.mem, b)), Overwritten(s.mem, b);
    DeadIsClosed(t, w);
    forall c | Closed(t.mem, w, c) && b.src !in c
      ensures b.src !in Dead(t, w)
    {
      DeadIsLeast(t, w, c);
    }
  }

  /** A source the caller still owns, or that is the destination or static, survives. */
  lemma OwnedSourceSurvives(s: State, b: Range, owned: Owned)
    requires Owning(s, b, owned) && !Unique(s, b.src) && Room(GiveUpSource(s, b.src).mem, Copied(s.mem, b))
    requires owned[b.src] >= 2 || !IsDynamic(s.mem[b.src].rc)
    ensures SourceSurvives(s, b)
  {
    var g, x, w := GiveUpSource(s, b.src), Copied(s.mem, b), Overwritten(s.mem, b);
    if !IsDynamic(s.mem[b.src].rc) {
      Accounting(Bump(g, x), w, b.src);
    } else {
      StaleShared(s, b, owned, g);
      var rest := owned - multiset{b.src} + multiset(x);
      ReleaseStale(Bump(g, x), b.dst, b.dstOff, b.len, w, rest, rest);
      var v := Nulled(Bump(g, x), b.dst, b.dstOff, b.len);
      assert CountedAt(Release(v, w).mem, rest, b.src);
      NulledBack(Bump(g, x), b.dst, b.dstOff, b.len, w);
    }
  }

  // ----- what is written -----

  /** If the destination is still there, its slots in the range are the old slots of the
      source's range, in order, and its other slots are the old ones; all other survivors
      have their old slots. */
  ghost predicate Written(m: Mem, b: Range, m': Mem)
    requires InBounds(m, b)
  {
    && (b.dst in m' ==>
          var was, now, from := m[b.dst].slots, m'[b.dst].slots, m[b.src].slots;
          && |now| == |was|
          && forall k :: 0 <= k < |was| ==>
               now[k] == if b.dstOff <= k < b.dstOff + b.len then from[b.srcOff + (k - b.dstOff)] else was[k])
    && forall p :: p in m' && p != b.dst ==> p in m && m'[p].slots == m[p].slots
  }

  lemma PastedIsWritten(m: Mem, b: Range, t: State, t': State)
    requires InBounds(m, b) && t.mem.Keys <= m.Keys && t'.mem.Keys <= t.mem.Keys
    requires forall p :: p in t.mem ==> t.mem[p].slots == m[p].slots
    requires forall p :: p in t'.mem ==> t'.mem[p].slots == Paste(t, b.dst, After(m, b)).mem[p].slots
    ensures Written(m, b, t'.mem)
  {
  }

  /** The fast path writes the range and nothing else. */
  lemma MoveBlitWrites(s: State, b: Range)
    requires InBounds(s.mem, b) && NULL !in s.mem
    ensures Written(s.mem, b, MoveBlit(s, b).mem)
  {
    var t := Release(s, Outside(s.mem, b) + Overwritten(s.mem, b));
    ReleaseKeepsSlots(s, Outside(s.mem, b) + Overwritten(s.mem, b));
    ReleaseKeepsSlots(Without(Paste(t, b.dst, After(s.mem, b)), b.src), [b.dst]);
    PastedIsWritten(s.mem, b, t, MoveBlit(s, b));
  }

  /** So does the slow path, also when both arrays are one; and its source is as it was
      when it is read. */
  lemma SharedBlitWrites(s: State, b: Range)
    requires InBounds(s.mem, b) && NULL !in s.mem && Room(GiveUpSource(s, b.src).mem, Copied(s.mem, b))
    ensures Written(s.mem, b, SharedBlit(s, b).mem)
    ensures SourceSurvives(s, b) ==> BeforeCopy(s, b).mem[b.src].slots == s.mem[b.src].slots
  {
    var t := BeforeCopy(s, b);
    ReleaseKeepsSlots(Bump(GiveUpSource(s, b.src), Copied(s.mem, b)), Overwritten(s.mem, b));
    ReleaseKeepsSlots(Paste(t, b.dst, After(s.mem, b)), [b.dst]);
    PastedIsWritten(s.mem, b, t, SharedBlit(s, b));
  }

  // ----- a heap on which it may not -----

  /** Array 1 holds object 3, whose only field is array 2; the caller owns 1 and 2. */
  const NESTED: Mem :=
    map[1 := Obj(6, false, [3]), 2 := Obj(10, false, [4]), 3 := Obj(4, false, [2]), 4 := Obj(4, false, [])]

  const NESTED_BLIT := Range(1, 0, 2, 0, 1)

  lemma FourRefs(o1: Obj, o2: Obj, o3: Obj, o4: Obj, x: Ptr)
    ensures Refs(map[1 := o1, 2 := o2, 3 := o3, 4 := o4], x)
         == Occ(Children(o1), x) + Occ(Children(o2), x) + Occ(Children(o3), x) + Occ(Children(o4), x)
  {
    var m1: Mem := map[1 := o1];
    var m2, m3 := m1[2 := o2], m1[2 := o2][3 := o3];
    assert m1 == map[][1 := o1];
    RefsAdd(map[], 1, o1, x);
    RefsAdd(m1, 2, o2, x);
    RefsAdd(m2, 3, o3, x);
    RefsAdd(m3, 4, o4, x);
    assert map[1 := o1, 2 := o2, 3 := o3, 4 := o4] == m3[4 := o4];
  }

  lemma OccOne(p: Ptr, x: Ptr)
    ensures Occ([p], x) == if x == p then 1 else 0
  {
  }

  lemma NestedCounted(x: Ptr)
    requires x != NULL
    ensures CountedAt(NESTED, multiset{1, 2}, x)
  {
    FourRefs(NESTED[1], NESTED[2], NESTED[3], NESTED[4], x);
    OccOne(3, x);
    OccOne(4, x);
    OccOne(2, x);
  }

  lemma ReleaseChain(t: State, p: Ptr, q: Ptr)
    requires p != NULL && q != NULL && p != q && p in t.mem && q in t.mem
    requires t.mem[p].rc == 4 && t.mem[q].rc / 4 == 1 && !t.mem[p].external && t.mem[p].slots == [q]
    ensures q !in Release(t, [p]).mem
  {
    ReleaseOpen(t, [p]);
    assert Children(t.mem[p]) + [p][1..] == [q];
    ReleaseOpen(Free(t, p), [q]);
  }

  lemma NestedOwned()
    ensures Owning(State(NESTED, []), NESTED_BLIT, multiset{1, 2}) && !Unique(State(NESTED, []), 2)
  {
    forall x | x != NULL {
      NestedCounted(x);
    }
  }

  lemma NestedRanges()
    ensures Copied(NESTED, NESTED_BLIT) == [4] && Overwritten(NESTED, NESTED_BLIT) == [3]
  {
  }

  lemma NestedRoom(g: State)
    requires g == GiveUpSource(State(NESTED, []), 2)
    ensures g.mem[2] == Obj(6, false, [4]) && g.mem[3] == NESTED[3] && Room(g.mem, [4])
  {
    forall p
      ensures Occ([4], p) <= 1
    {
      OccOne(4, p);
    }
  }

  /** Counts are exact and the caller owns both arrays, yet giving up the overwritten
      object frees the source before the copy reads it. */
  lemma SourceLost()
    ensures Owning(State(NESTED, []), NESTED_BLIT, multiset{1, 2}) && !Unique(State(NESTED, []), 2)
    ensures Room(GiveUpSource(State(NESTED, []), 2).mem, Copied(NESTED, NESTED_BLIT))
    ensures !SourceSurvives(State(NESTED, []), NESTED_BLIT)
  {
    NestedOwned();
    NestedRanges();
    var g := GiveUpSource(State(NESTED, []), 2);
    NestedRoom(g);
    OccOne(4, 2);
    OccOne(4, 3);
    ReleaseChain(Bump(g, [4]), 3, 2);
  }
}
