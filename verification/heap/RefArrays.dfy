/** The runtime's reference-counting entry points and array operations. */
module RefArrays {
  import opened RcHeader
  import opened Heap
  import opened Runtime
  import opened Counting
  import opened Garbage
  import opened Conservation
  import opened Operations
  import opened Frames
  import opened Blit
  import opened Runs

  method IncrefObject(rt: Runtime, p: Ptr)
    requires p in rt.mem && Room(rt.mem, [p])
    modifies rt`mem
    ensures rt.Now() == old(Bump(rt.Now(), [p]))
  {
    OccOne(p, p);
    if IsDynamic(rt.mem[p].rc) {
      rt.mem := rt.mem[p := rt.mem[p].(rc := rt.mem[p].rc + COUNT_UNIT)];
    }
  }

  /** The loops over slots skip null; here a null reference is ignored. */
  method DecrefObject(rt: Runtime, p: Ptr) returns (panicked: bool)
    requires Safe(rt.Now(), [p])
    modifies rt
    ensures !panicked ==> rt.Now() == old(Release(rt.Now(), [p]))
    ensures panicked ==> !Fits(old(rt.mem))
  {
    panicked := false;
    if p != NULL {
      if IsShared(rt.mem[p].rc) {
        ReleaseShared(rt.Now(), [p]);
        rt.Decrement(p);
      } else if IsDynamic(rt.mem[p].rc) {
        assert Children(rt.mem[p]) + [p][1..] == Children(rt.mem[p]);
        ReleaseOpen(rt.Now(), [p]);
        panicked := rt.DropObject(p);
      }
    }
  }

  lemma Instalment(s: State, a: seq<Ptr>, b: seq<Ptr>, all: seq<Ptr>, p: Ptr)
    requires NULL !in s.mem && all == a + b && Safe(s, all) && p in Release(s, all).mem
    ensures Safe(s, a) && Safe(Release(s, a), b) && Release(Release(s, a), b) == Release(s, all)
    ensures NULL !in Release(s, a).mem && p in s.mem && p in Release(s, a).mem
    ensures Release(s, a).mem[p].slots == s.mem[p].slots
    ensures Fits(s.mem) ==> Fits(Release(s, a).mem)
  {
    SafeConcat(s, a, b);
    ReleaseConcat(s, a, b);
    ReleaseKeepsSlots(s, a);
  }

  /** Gives up the references in slots `lo..hi` of `p`, which itself survives. */
  method DecrefRange(rt: Runtime, p: Ptr, lo: nat, hi: nat) returns (panicked: bool)
    requires NULL !in rt.mem && p in rt.mem && lo <= hi <= |rt.mem[p].slots|
    requires Safe(rt.Now(), rt.mem[p].slots[lo..hi]) && p in Release(rt.Now(), rt.mem[p].slots[lo..hi]).mem
    modifies rt
    ensures !panicked ==> rt.Now() == old(Release(rt.Now(), rt.mem[p].slots[lo..hi]))
    ensures panicked ==> !Fits(old(rt.mem))
  {
    hide Release, Safe, Fits;
    panicked := false;
    ghost var start, slots := rt.Now(), rt.mem[p].slots;
    ghost var goal := Release(start, slots[lo..hi]);
    var i := lo;
    while i < hi
      invariant lo <= i <= hi && NULL !in rt.mem
      invariant Safe(rt.Now(), slots[i..hi]) && Release(rt.Now(), slots[i..hi]) == goal
      invariant p in rt.mem && rt.mem[p].slots == slots
      invariant Fits(start.mem) ==> Fits(rt.mem)
    {
      assert slots[i..hi] == [slots[i]] + slots[i + 1..hi];
      Instalment(rt.Now(), [slots[i]], slots[i + 1..hi], slots[i..hi], p);
      panicked := DecrefObject(rt, rt.mem[p].slots[i]);
      if panicked {
        return;
      }
      i := i + 1;
    }
    ReleaseNothing(rt.Now(), slots[i..hi]);
  }

  lemma ReleaseNothing(s: State, work: seq<Ptr>)
    requires work == []
    ensures Release(s, work) == s
  {
  }

  lemma BumpedTwice(o: Obj, n: nat, k: nat)
    requires HasRoom(o.rc, n + k)
    ensures HasRoom(o.rc, n) && HasRoom(Bumped(o, n).rc, k) && Bumped(Bumped(o, n), k) == Bumped(o, n + k)
  {
  }

  /** Increments made in two steps, `all` having the references of both. */
  lemma BumpTwice(s: State, ps: seq<Ptr>, qs: seq<Ptr>, all: seq<Ptr>)
    requires Room(s.mem, all) && forall p :: Occ(all, p) == Occ(ps, p) + Occ(qs, p)
    ensures Room(s.mem, ps) && Room(Bump(s, ps).mem, qs)
    ensures Bump(Bump(s, ps), qs) == Bump(s, all)
  {
    forall p | p in s.mem
      ensures HasRoom(s.mem[p].rc, Occ(ps, p)) && HasRoom(Bumped(s.mem[p], Occ(ps, p)).rc, Occ(qs, p))
      ensures Bumped(Bumped(s.mem[p], Occ(ps, p)), Occ(qs, p)) == Bumped(s.mem[p], Occ(all, p))
    {
      BumpedTwice(s.mem[p], Occ(ps, p), Occ(qs, p));
    }
    assert Bump(Bump(s, ps), qs).mem == Bump(s, all).mem;
  }

  lemma BumpOneMore(s: State, ps: seq<Ptr>, x: Ptr)
    requires Room(s.mem, ps + [x])
    ensures Room(s.mem, ps) && Room(Bump(s, ps).mem, [x])
    ensures Bump(Bump(s, ps), [x]) == Bump(s, ps + [x])
  {
    forall p
      ensures Occ(ps + [x], p) == Occ(ps, p) + Occ([x], p)
    {
      OccConcat(ps, [x], p);
    }
    BumpTwice(s, ps, [x], ps + [x]);
  }

  lemma RoomPrefix(m: Mem, ps: seq<Ptr>, k: nat)
    requires Room(m, ps) && k <= |ps|
    ensures Room(m, ps[..k])
  {
    forall p
      ensures Occ(ps[..k], p) <= Occ(ps, p)
    {
      assert ps == ps[..k] + ps[k..];
      OccConcat(ps[..k], ps[k..], p);
    }
  }

  lemma BumpNull(s: State)
    requires NULL !in s.mem && Room(s.mem, [NULL])
    ensures Bump(s, [NULL]) == s
  {
    forall p | p != NULL {
      OccOne(NULL, p);
    }
    assert Bump(s, [NULL]).mem == s.mem;
  }

  lemma BumpNext(s: State, ps: seq<Ptr>, k: nat)
    requires Room(s.mem, ps) && k < |ps| && NULL !in s.mem
    ensures Room(s.mem, ps[..k]) && Room(s.mem, ps[..k + 1])
    ensures Room(Bump(s, ps[..k]).mem, [ps[k]])
    ensures Bump(Bump(s, ps[..k]), [ps[k]]) == Bump(s, ps[..k + 1])
    ensures ps[k] == NULL ==> Bump(s, ps[..k]) == Bump(s, ps[..k + 1])
  {
    assert ps[..k + 1] == ps[..k] + [ps[k]];
    RoomPrefix(s.mem, ps, k + 1);
    BumpOneMore(s, ps[..k], ps[k]);
    if ps[k] == NULL {
      BumpNull(Bump(s, ps[..k]));
    }
  }

  /** Progress of the counting loop: the first `k` of `ps` are counted once more. */
  ghost predicate CountedUpTo(now: State, start: State, ps: seq<Ptr>, k: nat) {
    k <= |ps| && Room(start.mem, ps[..k]) && now == Bump(start, ps[..k])
  }

  lemma CountedNext(now: State, start: State, ps: seq<Ptr>, k: nat)
    requires CountedUpTo(now, start, ps, k) && k < |ps| && Room(start.mem, ps) && NULL !in start.mem
    ensures Room(now.mem, [ps[k]]) && CountedUpTo(Bump(now, [ps[k]]), start, ps, k + 1)
    ensures ps[k] == NULL ==> CountedUpTo(now, start, ps, k + 1)
    ensures now.mem.Keys == start.mem.Keys
    ensures forall p :: p in now.mem ==> now.mem[p].slots == start.mem[p].slots
  {
    BumpNext(start, ps, k);
  }

  lemma CountedStart(start: State, ps: seq<Ptr>)
    requires Room(start.mem, ps)
    ensures CountedUpTo(start, start, ps, 0)
  {
    RoomPrefix(start.mem, ps, 0);
    assert Bump(start, ps[..0]).mem == start.mem;
  }

  lemma CountedAll(now: State, start: State, ps: seq<Ptr>)
    requires Room(start.mem, ps) && CountedUpTo(now, start, ps, |ps|)
    ensures now == Bump(start, ps)
  {
    assert ps[..|ps|] == ps;
  }

  method IncrefSlot(rt: Runtime, p: Ptr, i: nat, ghost start: State, ghost ps: seq<Ptr>, ghost k: nat)
    requires NULL !in start.mem && Room(start.mem, ps) && Allocated(start.mem, ps)
    requires CountedUpTo(rt.Now(), start, ps, k) && k < |ps|
    requires p in rt.mem && i < |rt.mem[p].slots| && rt.mem[p].slots[i] == ps[k]
    modifies rt`mem
    ensures CountedUpTo(rt.Now(), start, ps, k + 1)
    ensures p in rt.mem && rt.mem[p].slots == old(rt.mem[p].slots)
  {
    CountedNext(rt.Now(), start, ps, k);
    var next := rt.mem[p].slots[i];
    if next != NULL {
      assert next in ps;
      IncrefObject(rt, next);
    }
  }

  /** Counts slots `lo..hi` of `p` once more. */
  method IncrefRange(rt: Runtime, p: Ptr, lo: nat, hi: nat)
    requires NULL !in rt.mem && p in rt.mem && lo <= hi <= |rt.mem[p].slots|
    requires Room(rt.mem, rt.mem[p].slots[lo..hi]) && Allocated(rt.mem, rt.mem[p].slots[lo..hi])
    modifies rt`mem
    ensures rt.Now() == old(Bump(rt.Now(), rt.mem[p].slots[lo..hi]))
  {
    hide CountedUpTo, Bump, Room;
    ghost var start, ps := rt.Now(), rt.mem[p].slots[lo..hi];
    ghost var k := 0;
    var i := lo;
    CountedStart(start, ps);
    while i < hi
      invariant i == lo + k <= hi
      invariant CountedUpTo(rt.Now(), start, ps, k)
      invariant p in rt.mem && rt.mem[p].slots == start.mem[p].slots
    {
      IncrefSlot(rt, p, i, start, ps, k);
      i, k := i + 1, k + 1;
    }
    CountedAll(rt.Now(), start, ps);
  }

  /** `memcpy`/`memmove` of the elements, all read before any is written. */
  method CopySlots(rt: Runtime, b: Range)
    requires InBounds(rt.mem, b)
    modifies rt`mem
    ensures rt.Now() == old(Paste(rt.Now(), b.dst, After(rt.mem, b)))
  {
    var o, elems := rt.mem[b.dst], rt.mem[b.src].slots[b.srcOff..b.srcOff + b.len];
    rt.mem := rt.mem[b.dst := o.(slots := o.slots[..b.dstOff] + elems + o.slots[b.dstOff + b.len..])];
  }

  /** The three loops of the fast path: elements before and after the moved range, then
      the overwritten elements. */
  method ReleaseAround(rt: Runtime, b: Range) returns (panicked: bool)
    requires NULL !in rt.mem && InBounds(rt.mem, b)
    requires Safe(rt.Now(), Outside(rt.mem, b) + Overwritten(rt.mem, b))
    requires b.src in Release(rt.Now(), Outside(rt.mem, b) + Overwritten(rt.mem, b)).mem
    requires b.dst in Release(rt.Now(), Outside(rt.mem, b) + Overwritten(rt.mem, b)).mem
    modifies rt
    ensures !panicked ==> rt.Now() == old(Release(rt.Now(), Outside(rt.mem, b) + Overwritten(rt.mem, b)))
    ensures panicked ==> !Fits(old(rt.mem))
  {
    hide Release, Safe, Fits;
    ghost var s, slots := rt.Now(), rt.mem[b.src].slots;
    ghost var before, after, over := slots[0..b.srcOff], slots[b.srcOff + b.len..|slots|], Overwritten(s.mem, b);
    assert Outside(s.mem, b) + over == before + (after + over);
    Instalment(s, before, after + over, Outside(s.mem, b) + over, b.src);
    Instalment(s, before, after + over, Outside(s.mem, b) + over, b.dst);
    panicked := DecrefRange(rt, b.src, 0, b.srcOff);
    if panicked {
      return;
    }
    ghost var s1 := rt.Now();
    Instalment(s1, after, over, after + over, b.src);
    Instalment(s1, after, over, after + over, b.dst);
    panicked := DecrefRange(rt, b.src, b.srcOff + b.len, |rt.mem[b.src].slots|);
    if panicked {
      return;
    }
    panicked := DecrefRange(rt, b.dst, b.dstOff, b.dstOff + b.len);
  }

  /** A release that keeps both arrays keeps their contents. */
  lemma ArraysKept(s: State, work: seq<Ptr>, b: Range)
    requires NULL !in s.mem && InBounds(s.mem, b)
    requires b.src in Release(s, work).mem && b.dst in Release(s, work).mem
    ensures InBounds(Release(s, work).mem, b) && After(Release(s, work).mem, b) == After(s.mem, b)
    ensures Fits(s.mem) ==> Fits(Paste(Release(s, work), b.dst, After(s.mem, b)).mem)
  {
    ReleaseKeepsSlots(s, work);
  }

  /** What the fast path may rely on when it copies, and when it gives up the destination. */
  lemma ReadyToMove(s: State, b: Range, owned: Owned, work: seq<Ptr>)
    requires Owning(s, b, owned) && Unique(s, b.src) && work == Outside(s.mem, b) + Overwritten(s.mem, b)
    ensures NULL !in s.mem && Safe(s, work) && b.src in Release(s, work).mem && b.dst in Release(s, work).mem
    ensures MovedHeap(s, b) == Without(Paste(Release(s, work), b.dst, After(s.mem, b)), b.src)
    ensures Safe(MovedHeap(s, b), [b.dst]) && MoveBlit(s, b) == Release(MovedHeap(s, b), [b.dst])
  {
    UniqueSource(s, b, owned);
    MoveBlitConserves(s, b, owned);
    MovedHeapConserves(s, b, owned, work);
    ReleaseWithout(s, work, b.src);
    PasteWithout(Release(s, work), b.dst, After(s.mem, b), b.src);
  }

  /** Fast path of the blit: the source's only reference is the caller's. */
  method MoveBranch(rt: Runtime, b: Range, ghost owned: Owned) returns (panicked: bool)
    requires Owning(rt.Now(), b, owned) && Unique(rt.Now(), b.src)
    modifies rt
    ensures !panicked ==> rt.Now() == old(MoveBlit(rt.Now(), b))
    ensures panicked ==> !Fits(old(rt.mem))
  {
    ghost var s, work := rt.Now(), Outside(rt.mem, b) + Overwritten(rt.mem, b);
    ReadyToMove(s, b, owned, work);
    ArraysKept(s, work, b);
    panicked := ReleaseAround(rt, b);
    if panicked {
      return;
    }
    CopySlots(rt, b);
    rt.FreeTarget(b.src);
    assert rt.Now() == MovedHeap(s, b);
    panicked := DecrefObject(rt, b.dst);
  }

  /** What the slow path may rely on when it counts, releases, copies and finishes. */
  ghost predicate CopyReady(s: State, b: Range, g: State, t: State, r: State) {
    g == GiveUpSource(s, b.src) && Room(g.mem, Copied(s.mem, b)) &&
    NULL !in g.mem && InBounds(g.mem, b) && Allocated(g.mem, Copied(s.mem, b)) &&
    t == Bump(g, Copied(s.mem, b)) && Safe(t, Overwritten(s.mem, b)) &&
    r == Release(t, Overwritten(s.mem, b)) && InBounds(r.mem, b) && After(r.mem, b) == After(s.mem, b) &&
    Safe(Paste(r, b.dst, After(s.mem, b)), [b.dst]) &&
    (Fits(s.mem) ==> Fits(t.mem) && Fits(Paste(r, b.dst, After(s.mem, b)).mem))
  }

  lemma ReadyToCopy(s: State, b: Range, owned: Owned, g: State, t: State, r: State)
    requires Owning(s, b, owned) && !Unique(s, b.src) && g == GiveUpSource(s, b.src)
    requires Room(g.mem, Copied(s.mem, b)) && SourceSurvives(s, b) && t == Bump(g, Copied(s.mem, b))
    requires r == Release(t, Overwritten(s.mem, b))
    ensures CopyReady(s, b, g, t, r)
  {
    SharedBlitConserves(s, b, owned);
    ConservedGiveUpSource(s, b.src, owned);
    ElementsAllocated(g.mem, b.src, Copied(s.mem, b), owned - multiset{b.src});
    ArraysKept(t, Overwritten(s.mem, b), b);
  }

  /** Gives up the caller's source reference and counts the copied elements once more. */
  method CountCopied(rt: Runtime, b: Range, ghost g: State)
    requires b.src in rt.mem && !Unique(rt.Now(), b.src) && g == GiveUpSource(rt.Now(), b.src)
    requires NULL !in g.mem && InBounds(g.mem, b)
    requires Allocated(g.mem, Copied(rt.mem, b)) && Room(g.mem, Copied(rt.mem, b))
    modifies rt`mem
    ensures rt.Now() == old(Bump(g, Copied(rt.mem, b)))
  {
    if IsShared(rt.mem[b.src].rc) {
      rt.Decrement(b.src);
    }
    IncrefRange(rt, b.src, b.srcOff, b.srcOff + b.len);
  }

  /** Copies, then gives up the caller's destination reference. */
  method CopyAndFinish(rt: Runtime, b: Range) returns (panicked: bool)
    requires InBounds(rt.mem, b) && Safe(Paste(rt.Now(), b.dst, After(rt.mem, b)), [b.dst])
    modifies rt
    ensures !panicked ==> rt.Now() == old(Release(Paste(rt.Now(), b.dst, After(rt.mem, b)), [b.dst]))
    ensures panicked ==> !Fits(old(Paste(rt.Now(), b.dst, After(rt.mem, b)).mem))
  {
    CopySlots(rt, b);
    panicked := DecrefObject(rt, b.dst);
  }

  /** Gives up the overwritten elements, while their slots still hold them. */
  method ReleaseOverwritten(rt: Runtime, b: Range) returns (panicked: bool)
    requires NULL !in rt.mem && b.dst in rt.mem && b.dstOff + b.len <= |rt.mem[b.dst].slots|
    requires Safe(rt.Now(), Overwritten(rt.mem, b)) && b.dst in Release(rt.Now(), Overwritten(rt.mem, b)).mem
    modifies rt
    ensures !panicked ==> rt.Now() == old(Release(rt.Now(), Overwritten(rt.mem, b)))
    ensures panicked ==> !Fits(old(rt.mem))
  {
    panicked := DecrefRange(rt, b.dst, b.dstOff, b.dstOff + b.len);
  }

  /** Slow path: counts the copied elements, gives up the overwritten ones, then copies. */
  method CopyBranch(rt: Runtime, b: Range, ghost g: State, ghost t: State, ghost r: State) returns (panicked: bool)
    requires InBounds(rt.mem, b) && !Unique(rt.Now(), b.src) && CopyReady(rt.Now(), b, g, t, r)
    modifies rt
    ensures !panicked ==> rt.Now() == old(SharedBlit(rt.Now(), b))
    ensures panicked ==> !Fits(old(rt.mem))
  {
    CountCopied(rt, b, g);
    assert Overwritten(rt.mem, b) == old(Overwritten(rt.mem, b));
    panicked := ReleaseOverwritten(rt, b);
    if !panicked {
      panicked := CopyAndFinish(rt, b);
    }
  }

  /** `moonbit_unsafe_ref_array_blit`.  Out-of-range calls panic; so does a drop that
      meets an object with too many children for the count bits. */
  method RefArrayBlit(rt: Runtime, dst: Ptr, dstOff: Int32, src: Ptr, srcOff: Int32, len: nat, ghost owned: Owned)
    returns (panicked: bool)
    requires Conserved(rt.mem, owned) && multiset{src, dst} <= owned && dst in rt.mem && src in rt.mem
    requires !rt.mem[dst].external && !rt.mem[src].external
    requires 0 <= dstOff && 0 <= srcOff && !Unique(rt.Now(), src) ==>
               var b := Range(dst, dstOff, src, srcOff, len);
               Room(GiveUpSource(rt.Now(), src).mem, Copied(rt.mem, b)) && SourceSurvives(rt.Now(), b)
    modifies rt
    ensures panicked ==> !Fits(old(rt.mem)) || dstOff < 0 || srcOff < 0 ||
                         !InBounds(old(rt.mem), Range(dst, dstOff, src, srcOff, len))
    ensures !panicked ==> 0 <= dstOff && 0 <= srcOff && InBounds(old(rt.mem), Range(dst, dstOff, src, srcOff, len))
    ensures !panicked && old(Unique(rt.Now(), src)) ==>
              rt.Now() == old(MoveBlit(rt.Now(), Range(dst, dstOff, src, srcOff, len)))
    ensures !panicked && !old(Unique(rt.Now(), src)) ==>
              rt.Now() == old(SharedBlit(rt.Now(), Range(dst, dstOff, src, srcOff, len)))
    ensures !panicked ==> Conserved(rt.mem, owned - multiset{src} - multiset{dst})
    ensures !panicked ==> Written(old(rt.mem), Range(dst, dstOff, src, srcOff, len), rt.mem)
  {
    hide Written;
    if dstOff < 0 || dstOff + len > |rt.mem[dst].slots| || srcOff < 0 || srcOff + len > |rt.mem[src].slots| {
      return true;
    }
    var b := Range(dst, dstOff, src, srcOff, len);
    if IsDynamic(rt.mem[src].rc) && !IsShared(rt.mem[src].rc) {
      MoveBlitConserves(rt.Now(), b, owned);
      MoveBlitWrites(rt.Now(), b);
      panicked := MoveBranch(rt, b, owned);
    } else {
      SharedBlitConserves(rt.Now(), b, owned);
      SharedBlitWrites(rt.Now(), b);
      ghost var g := GiveUpSource(rt.Now(), src);
      ghost var t := Bump(g, Copied(rt.mem, b));
      ghost var r := Release(t, Overwritten(rt.mem, b));
      ReadyToCopy(rt.Now(), b, owned, g, t, r);
      panicked := CopyBranch(rt, b, g, t, r);
    }
  }
}
