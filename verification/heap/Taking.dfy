/** Allocating with a blit moves elements out of a uniquely owned source; what it comes to is copying the range and
    giving up the source. */
module Taking {
  import opened RcHeader
  import opened Heap
  import opened Counting
  import opened Garbage
  import opened Conservation
  import opened Operations
  import opened Frames
  import opened Blit
  import opened Runs

  /** Reference meaning: count every copied element, then give up the reference to the source. */
  ghost function CopyRange(t: State, b: Range): State
    requires Room(t.mem, Copied(t.mem, b))
  {
    Release(Bump(t, Copied(t.mem, b)), [b.src])
  }

  /** Allocating and filling on top of that meaning. */
  ghost function CopyWithBlit(s: State, len: nat, value: Ptr, b: Range): State
    requires b.dstOff + b.len <= len && RoomForInitial(s.mem, value, len - b.len)
    requires RoomToCopy(Multiply(s, [value], len - b.len), b)
  {
    var t := Multiply(s, [value], len - b.len);
    var u := CopyRange(t, b);
    if len == 0 then u
    else Alloc(u, b.dst, NewArray(REF_ARRAY, Filled(value, b.dstOff, Copied(t.mem, b), len - b.dstOff - b.len)))
  }

  ghost predicate RoomToCopy(t: State, b: Range) {
    Room(t.mem, Copied(t.mem, b))
  }

  ghost predicate OwnedSource(t: State, b: Range, owned: Owned) {
    Conserved(t.mem, owned) && b.src in owned && b.src in t.mem && !t.mem[b.src].external &&
    b.srcOff + b.len <= |t.mem[b.src].slots|
  }

  // ----- the source is unique -----

  lemma SourceInside(m: Mem, b: Range)
    requires b.src in m && !m[b.src].external && b.srcOff + b.len <= |m[b.src].slots|
    ensures multiset(m[b.src].slots) == multiset(Copied(m, b) + Outside(m, b))
  {
    SourceSplits(m, Range(b.src, b.srcOff, b.src, b.srcOff, b.len));
  }

  lemma NoSelfReference(t: State, b: Range, owned: Owned)
    requires OwnedSource(t, b, owned) && Unique(t, b.src)
    ensures b.src != NULL && b.src !in Copied(t.mem, b)
  {
    assert CountedAt(t.mem, owned, b.src);
    RefsTakeOut(t.mem, b.src, b.src);
    OccSplit(t.mem[b.src].slots, b.srcOff, b.len, Copied(t.mem, b), b.src);
  }

  lemma OutsideSafe(t: State, b: Range, owned: Owned)
    requires OwnedSource(t, b, owned) && Unique(t, b.src)
    ensures Safe(Without(t, b.src), Outside(t.mem, b))
  {
    var slots := t.mem[b.src].slots;
    var rest := owned - multiset{b.src} + multiset(Copied(t.mem, b));
    forall x | x != NULL
      ensures (rest + multiset(Outside(t.mem, b)))[x] + (if x == b.src then 1 else 0) == owned[x] + Occ(slots, x)
    {
      OccSplit(slots, b.srcOff, b.len, Copied(t.mem, b), x);
    }
    ConservedTakeApart(t, b.src, owned, rest + multiset(Outside(t.mem, b)));
    ConservedRelease(Without(t, b.src), Outside(t.mem, b), rest);
  }

  lemma DropUnique(t: State, p: Ptr)
    requires p != NULL && Unique(t, p) && !t.mem[p].external
    ensures Release(t, [p]) == Release(Without(t, p), t.mem[p].slots)
  {
    ReleaseOpen(t, [p]);
    assert Free(t, p) == Without(t, p);
    assert t.mem[p].slots + [p][1..] == t.mem[p].slots;
  }

  /** Counting the range and then dropping the source opens it: the range is given up again and the elements around
      it are given up. */
  lemma CopyOpens(t: State, b: Range, owned: Owned)
    requires OwnedSource(t, b, owned) && Unique(t, b.src) && RoomToCopy(t, b)
    ensures Room(Without(t, b.src).mem, Copied(t.mem, b))
    ensures CopyRange(t, b) == Release(Bump(Without(t, b.src), Copied(t.mem, b)), t.mem[b.src].slots)
  {
    NoSelfReference(t, b, owned);
    BumpWithout(t, b.src, Copied(t.mem, b));
    BumpKeeps(t, Copied(t.mem, b), b.src);
    DropUnique(Bump(t, Copied(t.mem, b)), b.src);
  }

  lemma BumpKeeps(t: State, ps: seq<Ptr>, p: Ptr)
    requires Room(t.mem, ps) && p in t.mem && p !in ps
    ensures Bump(t, ps).mem[p] == t.mem[p]
  {
    assert Occ(ps, p) == 0;
  }

  lemma MoveIsRelease(t: State, b: Range, owned: Owned)
    requires OwnedSource(t, b, owned) && Unique(t, b.src)
    ensures RoomToTake(t, b) && TakeRange(t, b) == Release(Without(t, b.src), Outside(t.mem, b))
  {
    OutsideSafe(t, b, owned);
    ReleaseWithout(t, Outside(t.mem, b), b.src);
  }

  lemma MoveEqualsCopyRange(t: State, b: Range, owned: Owned)
    requires OwnedSource(t, b, owned) && Unique(t, b.src) && RoomToCopy(t, b)
    ensures RoomToTake(t, b) && Same(TakeRange(t, b), CopyRange(t, b))
  {
    var u, x, around := Without(t, b.src), Copied(t.mem, b), Outside(t.mem, b);
    CopyOpens(t, b, owned);
    SourceInside(t.mem, b);
    OrderIrrelevant(Bump(u, x), t.mem[b.src].slots, x + around);
    BumpThenRelease(u, x, around);
    MoveIsRelease(t, b, owned);
  }

  // ----- any other source -----

  lemma SharedEqualsCopyRange(t: State, b: Range, owned: Owned)
    requires OwnedSource(t, b, owned) && !Unique(t, b.src) && RoomToCopy(t, b)
    ensures RoomToTake(t, b) && Same(TakeRange(t, b), CopyRange(t, b))
  {
    GiveUpSourceFirst(t, b.src, Copied(t.mem, b), []);
  }

  // ----- allocating on top -----

  /** Both branches mean the same: count the range, give up the source. */
  lemma TakeEqualsCopy(t: State, b: Range, owned: Owned)
    requires OwnedSource(t, b, owned) && RoomToCopy(t, b)
    ensures RoomToTake(t, b) && Same(TakeRange(t, b), CopyRange(t, b))
  {
    if Unique(t, b.src) {
      MoveEqualsCopyRange(t, b, owned);
    } else {
      SharedEqualsCopyRange(t, b, owned);
    }
  }

  /** Allocating with a blit, whichever way it takes, leaves the heap that copying would, with the same finalizers
      called. */
  lemma WithBlitEqualsCopy(s: State, len: nat, value: Ptr, b: Range, owned: Owned)
    requires Conserved(s.mem, owned) && Owns(owned, [value, b.src]) && b.src in s.mem && !s.mem[b.src].external
    requires b.srcOff + b.len <= |s.mem[b.src].slots| && b.dstOff + b.len <= len
    requires RoomForInitial(s.mem, value, len - b.len) && RoomToCopy(Multiply(s, [value], len - b.len), b)
    ensures WithBlitRoom(s, len, value, b) && Same(WithBlit(s, len, value, b), CopyWithBlit(s, len, value, b))
  {
    hide TakeRange, CopyRange, Conserved;
    var n := len - b.len;
    var t, ot := Multiply(s, [value], n), MultipliedOwned(owned, [value], n);
    SourceStays(s, owned, value, b.src, n, t, ot);
    TakeEqualsCopy(t, b, ot);
  }

  // ----- what the new array holds -----

  /** The old slots of the source's range, in order, at the place asked for, and the initial value everywhere else. */
  ghost predicate Placed(slots: seq<Ptr>, len: nat, value: Ptr, b: Range, from: seq<Ptr>)
    requires b.srcOff + b.len <= |from|
  {
    && |slots| == len
    && forall k :: 0 <= k < len ==>
         slots[k] == if b.dstOff <= k < b.dstOff + b.len then from[b.srcOff + (k - b.dstOff)] else value
  }

  ghost predicate Holds(m: Mem, len: nat, value: Ptr, b: Range, m': Mem)
    requires b.src in m && b.srcOff + b.len <= |m[b.src].slots|
  {
    len > 0 ==>
      && b.dst in m' && !m'[b.dst].external && KindOf(m'[b.dst].rc) == REF_ARRAY
      && Placed(m'[b.dst].slots, len, value, b, m[b.src].slots)
  }

  lemma {:induction false} RepeatAt(p: Ptr, n: nat, k: nat)
    requires k < n
    ensures |Repeat([p], n)| == n && Repeat([p], n)[k] == p
    decreases n
  {
    if n > 1 {
      RepeatAt(p, n - 1, if k > 0 then k - 1 else 0);
    }
  }

  lemma FilledAt(value: Ptr, before: nat, elems: seq<Ptr>, after: nat, k: nat)
    requires k < before + |elems| + after
    ensures |Filled(value, before, elems, after)| == before + |elems| + after
    ensures Filled(value, before, elems, after)[k] ==
      if before <= k < before + |elems| then elems[k - before] else value
  {
    if before > 0 {
      RepeatAt(value, before, if k < before then k else 0);
    }
    if after > 0 {
      RepeatAt(value, after, if k >= before + |elems| then k - before - |elems| else 0);
    }
  }

  lemma FilledIsPlaced(len: nat, value: Ptr, b: Range, from: seq<Ptr>)
    requires b.srcOff + b.len <= |from| && b.dstOff + b.len <= len && len > 0
    ensures Placed(Filled(value, b.dstOff, from[b.srcOff..b.srcOff + b.len], len - b.dstOff - b.len), len, value, b, from)
  {
    hide Filled;
    var elems, after := from[b.srcOff..b.srcOff + b.len], len - b.dstOff - b.len;
    var slots := Filled(value, b.dstOff, elems, after);
    FilledAt(value, b.dstOff, elems, after, 0);
    forall k | 0 <= k < len
      ensures slots[k] == if b.dstOff <= k < b.dstOff + b.len then from[b.srcOff + (k - b.dstOff)] else value
    {
      FilledAt(value, b.dstOff, elems, after, k);
    }
  }

  lemma WithBlitHolds(s: State, len: nat, value: Ptr, b: Range, owned: Owned)
    requires Conserved(s.mem, owned) && Owns(owned, [value, b.src]) && b.src in s.mem
    requires b.srcOff + b.len <= |s.mem[b.src].slots| && WithBlitRoom(s, len, value, b)
    ensures Holds(s.mem, len, value, b, WithBlit(s, len, value, b).mem)
  {
    hide TakeRange, Conserved, Owns, Multiply, RoomToTake, Room, Filled, Placed;
    var t := Multiply(s, [value], len - b.len);
    SourceStays(s, owned, value, b.src, len - b.len, t, MultipliedOwned(owned, [value], len - b.len));
    assert Copied(t.mem, b) == s.mem[b.src].slots[b.srcOff..b.srcOff + b.len];
    HeaderRoundTrip(REF_ARRAY, 1);
    if len > 0 {
      FilledIsPlaced(len, value, b, s.mem[b.src].slots);
    }
  }
}
