/** Building reference arrays: bulk count updates, filling, and allocating with a blit. */
module NewArrays {
  import opened RcHeader
  import opened Heap
  import opened Runtime
  import opened Counting
  import opened Garbage
  import opened Conservation
  import opened Operations
  import opened Frames
  import opened Blit
  import opened Runs
  import opened RefArrays
  import opened Taking

  lemma {:induction false} FreshBeyond(ps: set<Ptr>) returns (a: Ptr)
    ensures a != NULL && a !in ps
    ensures forall p :: p in ps ==> p < a
  {
    if ps == {} {
      a := 1;
    } else {
      var p :| p in ps;
      var b := FreshBeyond(ps - {p});
      a := if b > p then b else p + 1;
      assert ps == (ps - {p}) + {p};
    }
  }

  /** The allocator may return any address not in use. */
  method Malloc(rt: Runtime) returns (a: Ptr)
    ensures FreshPtr(rt.mem, a)
  {
    ghost var w := FreshBeyond(rt.mem.Keys);
    assert w != NULL && w !in rt.mem;
    a :| a != NULL && a !in rt.mem;
  }

  method Initialize(rt: Runtime, a: Ptr, kind: Kind, slots: seq<Ptr>)
    modifies rt`mem
    ensures rt.Now() == old(Alloc(rt.Now(), a, NewArray(kind, slots)))
  {
    rt.mem := rt.mem[a := Obj(MakeHeader(kind, 1), false, slots)];
  }

  lemma {:induction false} OccCopies(p: Ptr, n: nat, x: Ptr)
    ensures Occ(Repeat([p], n), x) == if x == p then n else 0
  {
    if n > 0 {
      OccCopies(p, n - 1, x);
      OccRepeat([p], n, x);
      OccOne(p, x);
    }
  }

  lemma RoomForCopies(m: Mem, p: Ptr, n: nat)
    ensures Room(m, Repeat([p], n)) <==> (p in m ==> HasRoom(m[p].rc, n))
  {
    forall x | x in m
      ensures HasRoom(m[x].rc, Occ(Repeat([p], n), x)) <==> x != p || HasRoom(m[p].rc, n)
    {
      OccCopies(p, n, x);
    }
  }

  lemma BumpedNone(o: Obj)
    requires HasRoom(o.rc, 0)
    ensures Bumped(o, 0) == o
  {
  }

  lemma BumpCopiesAt(s: State, p: Ptr, n: nat, x: Ptr)
    requires Room(s.mem, Repeat([p], n)) && x in s.mem
    ensures x != p ==> Bump(s, Repeat([p], n)).mem[x] == s.mem[x]
    ensures x == p ==> HasRoom(s.mem[p].rc, n) && Bump(s, Repeat([p], n)).mem[x] == Bumped(s.mem[p], n)
  {
    OccCopies(p, n, x);
    if x != p {
      BumpedNone(s.mem[x]);
    }
  }

  lemma BumpCopies(s: State, p: Ptr, n: nat)
    requires Room(s.mem, Repeat([p], n))
    ensures p !in s.mem ==> Bump(s, Repeat([p], n)) == s
    ensures p in s.mem ==> HasRoom(s.mem[p].rc, n) &&
                           Bump(s, Repeat([p], n)) == s.(mem := s.mem[p := Bumped(s.mem[p], n)])
  {
    var t := Bump(s, Repeat([p], n));
    forall x | x in s.mem
      ensures x != p ==> t.mem[x] == s.mem[x]
      ensures x == p ==> HasRoom(s.mem[p].rc, n) && t.mem[x] == Bumped(s.mem[p], n)
    {
      BumpCopiesAt(s, p, n, x);
    }
    if p in s.mem {
      assert t.mem == s.mem[p := Bumped(s.mem[p], n)];
    } else {
      assert t.mem == s.mem;
    }
  }

  /** What a bulk count write does to one header word. */
  lemma WriteCount(o: Obj, n: nat)
    ensures IsDynamic(o.rc) <==> Count(o.rc) > 0
    ensures IsDynamic(o.rc) ==> (HasRoom(o.rc, n) <==> Count(o.rc) + n <= DYNAMIC_COUNT_MAX)
    ensures IsDynamic(o.rc) && HasRoom(o.rc, n) ==> o.(rc := SetCount(o.rc, Count(o.rc) + n)) == Bumped(o, n)
    ensures !IsDynamic(o.rc) || n == 0 ==> HasRoom(o.rc, n) && Bumped(o, n) == o
  {
  }

  /** Sets the count to `n - 1` more in one write, panicking when that does not fit. */
  method WriteCopies(rt: Runtime, value: Ptr, n: nat) returns (panicked: bool)
    requires value in rt.mem && n > 0
    modifies rt`mem
    ensures panicked <==> !HasRoom(old(rt.mem[value].rc), n - 1)
    ensures panicked ==> rt.mem == old(rt.mem)
    ensures !panicked ==> rt.mem == old(rt.mem[value := Bumped(rt.mem[value], n - 1)])
  {
    var o := rt.mem[value];
    WriteCount(o, n - 1);
    var count := Count(o.rc);
    panicked := count > 0 && n > 1 && count + n - 1 > DYNAMIC_COUNT_MAX;
    if !panicked && count > 0 && n > 1 {
      rt.mem := rt.mem[value := o.(rc := SetCount(o.rc, count + n - 1))];
    }
  }

  /** One counted reference becomes `n`; null is ignored. */
  method CountCopies(rt: Runtime, value: Ptr, n: nat) returns (panicked: bool)
    requires NULL !in rt.mem && (value != NULL ==> value in rt.mem) && n > 0
    modifies rt`mem
    ensures panicked <==> !Room(old(rt.mem), Repeat([value], n - 1))
    ensures panicked ==> rt.Now() == old(rt.Now())
    ensures !panicked ==> rt.Now() == old(Bump(rt.Now(), Repeat([value], n - 1)))
  {
    panicked := false;
    RoomForCopies(rt.mem, value, n - 1);
    if Room(rt.mem, Repeat([value], n - 1)) {
      BumpCopies(rt.Now(), value, n - 1);
    }
    if value != NULL {
      panicked := WriteCopies(rt, value, n);
    }
  }

  /** Writes `value` into each slot of a new array's payload. */
  method FillSlots(value: Ptr, len: nat) returns (slots: seq<Ptr>)
    ensures slots == Repeat([value], len)
  {
    slots := [];
    var i := 0;
    while i < len
      invariant i <= len && slots == Repeat([value], i)
    {
      RepeatAdds([value], i, 1);
      assert Repeat([value], 1) == [value] + Repeat([value], 0) == [value];
      slots := slots + [value];
      i := i + 1;
    }
  }

  /** `moonbit_make_ref_array`: a new array of `len` copies of an owned reference.  An
      empty one is the shared static array and the reference is given up. */
  method MakeRefArray(rt: Runtime, len: Int32, value: Ptr, ghost owned: Owned) returns (panicked: bool, arr: Ptr)
    requires Conserved(rt.mem, owned) && Owns(owned, [value])
    modifies rt
    ensures len < 0 ==> panicked
    ensures panicked && len > 0 ==> !Room(old(rt.mem), Repeat([value], len - 1))
    ensures panicked && len == 0 ==> !Fits(old(rt.mem))
    ensures !panicked && len == 0 ==> arr == rt.emptyRefArray && rt.Now() == old(Multiply(rt.Now(), [value], 0))
    ensures !panicked && len > 0 ==>
              FreshPtr(old(rt.mem), arr) && Room(old(rt.mem), Repeat([value], len - 1)) &&
              rt.Now() == Alloc(old(Multiply(rt.Now(), [value], len)), arr, NewArray(REF_ARRAY, Repeat([value], len)))
    ensures !panicked ==> Conserved(rt.mem, if len == 0 then owned - multiset{value} else owned - multiset{value} + multiset{arr})
  {
    arr := rt.emptyRefArray;
    if len < 0 {
      return true, arr;
    }
    if len == 0 {
      ConservedDecref(rt.Now(), value, owned);
      panicked := DecrefObject(rt, value);
      return;
    }
    OwnedAllocated(rt.mem, owned, [value]);
    panicked := CountCopies(rt, value, len);
    if panicked {
      return;
    }
    var slots := FillSlots(value, len);
    arr := Malloc(rt);
    Initialize(rt, arr, REF_ARRAY, slots);
    ConservedMakeRefArray(old(rt.Now()), len, value, arr, owned);
  }

  lemma {:induction false} OccRepeatConcat(ps: seq<Ptr>, qs: seq<Ptr>, n: nat, x: Ptr)
    ensures Occ(Repeat(ps + qs, n), x) == Occ(Repeat(ps, n), x) + Occ(Repeat(qs, n), x)
  {
    if n > 0 {
      OccRepeatConcat(ps, qs, n - 1, x);
      OccRepeat(ps + qs, n, x);
      OccRepeat(ps, n, x);
      OccRepeat(qs, n, x);
      OccConcat(ps, qs, x);
    }
  }

  lemma {:induction false} RepeatNothing(n: nat)
    ensures Repeat([], n) == []
  {
    if n > 0 {
      RepeatNothing(n - 1);
    }
  }

  /** Room for `n` copies of the first references of a value, one of which is counted next. */
  lemma CopiesInTurn(s: State, ps: seq<Ptr>, q: Ptr, n: nat)
    requires Room(s.mem, Repeat(ps + [q], n))
    ensures Room(s.mem, Repeat(ps, n)) && Room(Bump(s, Repeat(ps, n)).mem, Repeat([q], n))
    ensures Bump(Bump(s, Repeat(ps, n)), Repeat([q], n)) == Bump(s, Repeat(ps + [q], n))
  {
    forall x
      ensures Occ(Repeat(ps + [q], n), x) == Occ(Repeat(ps, n), x) + Occ(Repeat([q], n), x)
    {
      OccRepeatConcat(ps, [q], n, x);
    }
    BumpTwice(s, Repeat(ps, n), Repeat([q], n), Repeat(ps + [q], n));
  }

  lemma RoomForFewer(m: Mem, ps: seq<Ptr>, k: nat, n: nat)
    requires Room(m, Repeat(ps, n)) && k <= |ps|
    ensures Room(m, Repeat(ps[..k], n))
  {
    forall x
      ensures Occ(Repeat(ps[..k], n), x) <= Occ(Repeat(ps, n), x)
    {
      assert ps == ps[..k] + ps[k..];
      OccRepeatConcat(ps[..k], ps[k..], n, x);
    }
  }

  /** Gives up every reference of a value that is copied nowhere. */
  method DecrefAll(rt: Runtime, refs: seq<Ptr>) returns (panicked: bool)
    requires NULL !in rt.mem && Safe(rt.Now(), refs)
    modifies rt
    ensures !panicked ==> rt.Now() == old(Release(rt.Now(), refs))
    ensures panicked ==> !Fits(old(rt.mem))
  {
    panicked := false;
    var i := 0;
    ghost var rest := refs;
    while i < |refs|
      invariant i <= |refs| && rest == refs[i..] && NULL !in rt.mem
      invariant Safe(rt.Now(), rest) && Release(rt.Now(), rest) == old(Release(rt.Now(), refs))
      invariant Fits(old(rt.mem)) ==> Fits(rt.mem)
    {
      assert rest == [refs[i]] + rest[1..];
      SafeConcat(rt.Now(), [refs[i]], rest[1..]);
      ReleaseConcat(rt.Now(), [refs[i]], rest[1..]);
      ReleaseKeepsSlots(rt.Now(), [refs[i]]);
      panicked := DecrefObject(rt, refs[i]);
      if panicked {
        return;
      }
      i, rest := i + 1, rest[1..];
    }
  }

  /** The first `k` references of a value are counted `n` times more. */
  ghost predicate MultipliedUpTo(now: State, start: State, refs: seq<Ptr>, k: nat, n: nat) {
    k <= |refs| && Room(start.mem, Repeat(refs[..k], n)) && now == Bump(start, Repeat(refs[..k], n))
  }

  lemma MultiplyNext(now: State, start: State, refs: seq<Ptr>, k: nat, n: nat)
    requires MultipliedUpTo(now, start, refs, k, n) && k < |refs|
    requires Room(start.mem, Repeat(refs[..k + 1], n))
    ensures Room(now.mem, Repeat([refs[k]], n))
    ensures MultipliedUpTo(Bump(now, Repeat([refs[k]], n)), start, refs, k + 1, n)
  {
    assert refs[..k + 1] == refs[..k] + [refs[k]];
    CopiesInTurn(start, refs[..k], refs[k], n);
  }

  lemma MultiplyStart(start: State, refs: seq<Ptr>, n: nat)
    ensures MultipliedUpTo(start, start, refs, 0, n)
  {
    RepeatNothing(n);
    assert refs[..0] == [];
    assert forall p :: p in start.mem ==> Occ([], p) == 0;
    assert Bump(start, []).mem == start.mem;
  }

  /** The next count write fits exactly when all the counts so far and it do. */
  lemma RoomForNext(now: State, start: State, refs: seq<Ptr>, k: nat, n: nat)
    requires MultipliedUpTo(now, start, refs, k, n) && k < |refs|
    ensures Room(now.mem, Repeat([refs[k]], n)) <==> Room(start.mem, Repeat(refs[..k + 1], n))
  {
    assert refs[..k + 1] == refs[..k] + [refs[k]];
    forall x | x in start.mem
      ensures HasRoom(now.mem[x].rc, Occ(Repeat([refs[k]], n), x))
         <==> HasRoom(start.mem[x].rc, Occ(Repeat(refs[..k + 1], n), x))
    {
      OccRepeatConcat(refs[..k], [refs[k]], n, x);
      HasRoomTwice(start.mem[x], Occ(Repeat(refs[..k], n), x), Occ(Repeat([refs[k]], n), x));
    }
  }

  lemma HasRoomTwice(o: Obj, n: nat, k: nat)
    requires HasRoom(o.rc, n)
    ensures HasRoom(Bumped(o, n).rc, k) <==> HasRoom(o.rc, n + k)
  {
  }

  method MultiplyOne(rt: Runtime, refs: seq<Ptr>, i: nat, n: nat, ghost start: State) returns (panicked: bool)
    requires NULL !in rt.mem && Allocated(rt.mem, refs) && i < |refs|
    requires MultipliedUpTo(rt.Now(), start, refs, i, n)
    modifies rt`mem
    ensures panicked ==> !Room(start.mem, Repeat(refs, n))
    ensures !panicked ==> MultipliedUpTo(rt.Now(), start, refs, i + 1, n)
    ensures rt.mem.Keys == old(rt.mem.Keys)
  {
    RoomForNext(rt.Now(), start, refs, i, n);
    if Room(rt.mem, Repeat([refs[i]], n)) {
      MultiplyNext(rt.Now(), start, refs, i, n);
    } else if Room(start.mem, Repeat(refs, n)) {
      RoomForFewer(start.mem, refs, i + 1, n);
    }
    assert refs[i] in refs;
    panicked := CountCopies(rt, refs[i], n + 1);
  }

  method MultiplyAll(rt: Runtime, len: nat, refs: seq<Ptr>) returns (panicked: bool)
    requires NULL !in rt.mem && Allocated(rt.mem, refs) && len > 0
    modifies rt`mem
    ensures panicked <==> !Room(old(rt.mem), Repeat(refs, len - 1))
    ensures !panicked ==> rt.Now() == old(Bump(rt.Now(), Repeat(refs, len - 1)))
  {
    ghost var start := rt.Now();
    MultiplyStart(start, refs, len - 1);
    var i := 0;
    while i < |refs|
      invariant i <= |refs| && MultipliedUpTo(rt.Now(), start, refs, i, len - 1)
      invariant rt.mem.Keys == start.mem.Keys
    {
      panicked := MultiplyOne(rt, refs, i, len - 1, start);
      if panicked {
        return;
      }
      i := i + 1;
    }
    panicked := false;
    assert refs[..|refs|] == refs;
  }

  /** `moonbit_update_ref_valtype_rc`: before a value holding `refs` is copied `len`
      times, each reference is counted `len - 1` times more; with no copy it is given up. */
  method UpdateRefValtypeRc(rt: Runtime, len: nat, refs: seq<Ptr>, ghost owned: Owned) returns (panicked: bool)
    requires Conserved(rt.mem, owned) && Owns(owned, refs)
    modifies rt
    ensures len == 0 && panicked ==> !Fits(old(rt.mem))
    ensures len > 0 ==> (panicked <==> !Room(old(rt.mem), Repeat(refs, len - 1)))
    ensures !panicked ==> rt.Now() == old(Multiply(rt.Now(), refs, len))
    ensures !panicked ==> Conserved(rt.mem, MultipliedOwned(owned, refs, len))
  {
    OwnedAllocated(rt.mem, owned, refs);
    if len == 0 || Room(rt.mem, Repeat(refs, len - 1)) {
      ConservedMultiply(rt.Now(), refs, len, owned);
    }
    if len == 0 {
      panicked := DecrefAll(rt, refs);
    } else if len > 1 {
      panicked := MultiplyAll(rt, len, refs);
    } else {
      MultiplyStart(rt.Now(), refs, 0);
      RepeatNothing(0);
      panicked := false;
    }
  }

  /** Room and counts for the fast and slow ways of taking a range out of `src`. */
  ghost predicate TakeReady(t: State, b: Range) {
    NULL !in t.mem && b.src in t.mem && b.srcOff + b.len <= |t.mem[b.src].slots| && RoomToTake(t, b) &&
    (Unique(t, b.src) ==> Safe(Without(t, b.src), Outside(t.mem, b))) &&
    (!Unique(t, b.src) ==> Allocated(GiveUpSource(t, b.src).mem, Copied(t.mem, b)))
  }

  /** Elements outside the range of a uniquely owned source are given up and its
      container freed; elements of any other source are counted once more. */
  method TakeElements(rt: Runtime, b: Range) returns (panicked: bool, elems: seq<Ptr>)
    requires TakeReady(rt.Now(), b)
    modifies rt
    ensures !panicked ==> elems == old(Copied(rt.mem, b)) && rt.Now() == old(TakeRange(rt.Now(), b))
    ensures panicked ==> !Fits(old(rt.mem))
  {
    ghost var t := rt.Now();
    elems := rt.mem[b.src].slots[b.srcOff..b.srcOff + b.len];
    if IsDynamic(rt.mem[b.src].rc) && !IsShared(rt.mem[b.src].rc) {
      ReleaseWithout(t, Outside(t.mem, b), b.src);
      panicked := ReleaseOutside(rt, b);
      if !panicked {
        rt.FreeTarget(b.src);
      }
    } else {
      panicked := false;
      if IsShared(rt.mem[b.src].rc) {
        rt.Decrement(b.src);
      }
      IncrefRange(rt, b.src, b.srcOff, b.srcOff + b.len);
    }
  }

  method ReleaseOutside(rt: Runtime, b: Range) returns (panicked: bool)
    requires NULL !in rt.mem && b.src in rt.mem && b.srcOff + b.len <= |rt.mem[b.src].slots|
    requires Safe(rt.Now(), Outside(rt.mem, b)) && b.src in Release(rt.Now(), Outside(rt.mem, b)).mem
    modifies rt
    ensures !panicked ==> rt.Now() == old(Release(rt.Now(), Outside(rt.mem, b)))
    ensures panicked ==> !Fits(old(rt.mem))
  {
    ghost var slots := rt.mem[b.src].slots;
    ghost var before, after := slots[0..b.srcOff], slots[b.srcOff + b.len..|slots|];
    assert Outside(rt.mem, b) == before + after;
    Instalment(rt.Now(), before, after, before + after, b.src);
    panicked := DecrefRange(rt, b.src, 0, b.srcOff);
    if !panicked {
      panicked := DecrefRange(rt, b.src, b.srcOff + b.len, |rt.mem[b.src].slots|);
    }
  }

  /** Before the range is taken: the initial value is counted for the slots around the
      range, or given up when there are none. */
  method CountInitial(rt: Runtime, value: Ptr, n: nat, ghost owned: Owned) returns (panicked: bool)
    requires Conserved(rt.mem, owned) && Owns(owned, [value])
    modifies rt
    ensures panicked && n == 0 ==> !Fits(old(rt.mem))
    ensures n > 0 ==> (panicked <==> !Room(old(rt.mem), Repeat([value], n - 1)))
    ensures !panicked ==> rt.Now() == old(Multiply(rt.Now(), [value], n))
    ensures !panicked && Fits(old(rt.mem)) ==> Fits(rt.mem)
  {
    OwnedAllocated(rt.mem, owned, [value]);
    if n == 0 {
      ReleaseKeepsSlots(rt.Now(), [value]);
      ConservedDecref(rt.Now(), value, owned);
      panicked := DecrefObject(rt, value);
    } else {
      panicked := CountCopies(rt, value, n);
    }
  }

  lemma ReadyToTake(s: State, n: nat, value: Ptr, b: Range, owned: Owned, t: State)
    requires Conserved(s.mem, owned) && Owns(owned, [value, b.src]) && b.src in s.mem && !s.mem[b.src].external
    requires b.srcOff + b.len <= |s.mem[b.src].slots| && (n > 0 ==> Room(s.mem, Repeat([value], n - 1)))
    requires t == Multiply(s, [value], n) && RoomToTake(t, b)
    ensures TakeReady(t, b)
  {
    var ot := MultipliedOwned(owned, [value], n);
    SourceStays(s, owned, value, b.src, n, t, ot);
    if Unique(t, b.src) {
      OutsideSafe(t, b, ot);
    } else {
      ConservedGiveUpSource(t, b.src, ot);
      ElementsAllocated(GiveUpSource(t, b.src).mem, b.src, Copied(t.mem, b), ot - multiset{b.src});
    }
  }

  lemma OwnsFirst(owned: Owned, p: Ptr, q: Ptr)
    requires Owns(owned, [p, q])
    ensures Owns(owned, [p])
  {
    forall x | x != NULL
      ensures Occ([p], x) <= owned[x]
    {
      OwnsTwo(owned, p, q, x);
    }
  }

  method TakeInto(rt: Runtime, len: nat, value: Ptr, b: Range) returns (panicked: bool)
    requires TakeReady(rt.Now(), b) && b.dstOff + b.len <= len
    modifies rt
    ensures panicked ==> !Fits(old(rt.mem))
    ensures !panicked && len == 0 ==> rt.Now() == old(TakeRange(rt.Now(), b))
    ensures !panicked && len > 0 ==>
              rt.Now() == Alloc(old(TakeRange(rt.Now(), b)), b.dst,
                                NewArray(REF_ARRAY, Filled(value, b.dstOff, old(Copied(rt.mem, b)), len - b.dstOff - b.len)))
  {
    var elems;
    panicked, elems := TakeElements(rt, b);
    if !panicked && len > 0 {
      var before := FillSlots(value, b.dstOff);
      var after := FillSlots(value, len - b.dstOff - b.len);
      Initialize(rt, b.dst, REF_ARRAY, before + elems + after);
    }
  }

  method CountBeforeTaking(rt: Runtime, n: nat, value: Ptr, b: Range, ghost owned: Owned) returns (panicked: bool)
    requires Conserved(rt.mem, owned) && Owns(owned, [value, b.src]) && b.src in rt.mem && !rt.mem[b.src].external
    requires b.srcOff + b.len <= |rt.mem[b.src].slots|
    requires RoomForInitial(rt.mem, value, n) ==> RoomToTake(Multiply(rt.Now(), [value], n), b)
    modifies rt
    ensures panicked ==> !Fits(old(rt.mem)) || !RoomForInitial(old(rt.mem), value, n)
    ensures !panicked ==> RoomForInitial(old(rt.mem), value, n) && rt.Now() == old(Multiply(rt.Now(), [value], n))
    ensures !panicked ==> TakeReady(rt.Now(), b) && RoomToTake(rt.Now(), b) && (Fits(old(rt.mem)) ==> Fits(rt.mem))
  {
    ghost var s := rt.Now();
    OwnsFirst(owned, value, b.src);
    panicked := CountInitial(rt, value, n, owned);
    if !panicked {
      ReadyToTake(s, n, value, b, owned, rt.Now());
    }
  }

  /** What the caller of an allocation with a blit owes: owned references, a range inside the source and the new
      array, and room for counts on the copying path. */
  ghost predicate BlitReady(s: State, len: nat, value: Ptr, b: Range, owned: Owned) {
    Conserved(s.mem, owned) && Owns(owned, [value, b.src]) && b.src in s.mem && !s.mem[b.src].external &&
    b.srcOff + b.len <= |s.mem[b.src].slots| && b.dstOff + b.len <= len &&
    (RoomForInitial(s.mem, value, len - b.len) ==> RoomToTake(Multiply(s, [value], len - b.len), b))
  }

  /** What it gets: the array with the range in place, exact counts, and the heap that copying the range and giving up
      the source leaves. */
  ghost predicate BlitDone(s: State, len: nat, value: Ptr, b: Range, owned: Owned, t: State) {
    IsWithBlit(s, len, value, b, t) && MeansCopy(s, len, value, b, t) && HoldsRange(s, len, value, b, t) &&
    Conserved(t.mem, OwnedAfter(owned, Op.MakeRefArrayWithBlit(len, value, b)))
  }

  ghost predicate IsWithBlit(s: State, len: nat, value: Ptr, b: Range, t: State) {
    WithBlitRoom(s, len, value, b) && t == WithBlit(s, len, value, b)
  }

  ghost predicate HoldsRange(s: State, len: nat, value: Ptr, b: Range, t: State) {
    b.src in s.mem && b.srcOff + b.len <= |s.mem[b.src].slots| && Holds(s.mem, len, value, b, t.mem)
  }

  lemma WithBlitFills(s: State, len: nat, value: Ptr, b: Range, owned: Owned, t: State)
    requires IsWithBlit(s, len, value, b, t) && BlitReady(s, len, value, b, owned)
    ensures HoldsRange(s, len, value, b, t)
  {
    hide WithBlit, WithBlitRoom, Conserved, Owns, Holds;
    WithBlitHolds(s, len, value, b, owned);
  }

  ghost predicate MeansCopy(s: State, len: nat, value: Ptr, b: Range, t: State) {
    (b.dstOff + b.len <= len && RoomForInitial(s.mem, value, len - b.len) &&
     RoomToCopy(Multiply(s, [value], len - b.len), b)) ==> Same(t, CopyWithBlit(s, len, value, b))
  }

  lemma WithBlitConserves(s: State, len: nat, value: Ptr, b: Range, owned: Owned, t: State)
    requires IsWithBlit(s, len, value, b, t) && BlitReady(s, len, value, b, owned) && FreshPtr(s.mem, b.dst)
    ensures Conserved(t.mem, OwnedAfter(owned, Op.MakeRefArrayWithBlit(len, value, b)))
  {
    hide WithBlit, WithBlitRoom, Conserved, Owns;
    ConservedWithBlit(s, len, value, b, owned);
  }

  lemma WithBlitMeansCopy(s: State, len: nat, value: Ptr, b: Range, owned: Owned, t: State)
    requires IsWithBlit(s, len, value, b, t) && BlitReady(s, len, value, b, owned)
    ensures MeansCopy(s, len, value, b, t)
  {
    hide WithBlit, CopyWithBlit, WithBlitRoom, Conserved, Owns, Multiply, RoomToCopy, Same, RoomToTake;
    if b.dstOff + b.len <= len && RoomForInitial(s.mem, value, len - b.len) && RoomToCopy(Multiply(s, [value], len - b.len), b) {
      WithBlitEqualsCopy(s, len, value, b, owned);
    }
  }

  lemma WithBlitIs(s: State, len: nat, value: Ptr, b: Range, t: State, final: State)
    requires b.dstOff + b.len <= len && RoomForInitial(s.mem, value, len - b.len) && RoomToTake(t, b)
    requires t == Multiply(s, [value], len - b.len)
    requires final == if len == 0 then TakeRange(t, b)
                      else Alloc(TakeRange(t, b), b.dst,
                                 NewArray(REF_ARRAY, Filled(value, b.dstOff, Copied(t.mem, b), len - b.dstOff - b.len)))
    ensures IsWithBlit(s, len, value, b, final)
  {
    hide TakeRange, RoomToTake, Filled, Copied, Multiply, RoomForInitial;
  }

  lemma ReadyElsewhere(s: State, len: nat, value: Ptr, b: Range, owned: Owned, a: Ptr)
    requires BlitReady(s, len, value, b, owned)
    ensures BlitReady(s, len, value, b.(dst := a), owned)
  {
    hide Conserved, Multiply, Owns, RoomForInitial, Unique;
  }

  /** `moonbit_make_ref_array_with_blit`: a new array holding the range of `b.src` and copies of `value` around it.
      `b.dst` is where the allocator puts it. */
  method MakeRefArrayWithBlit(rt: Runtime, len: nat, value: Ptr, src: Ptr, srcOff: nat, dstOff: nat, n: nat,
                              ghost owned: Owned)
    returns (panicked: bool, arr: Ptr, ghost b: Range)
    requires BlitReady(rt.Now(), len, value, Range(NULL, dstOff, src, srcOff, n), owned)
    modifies rt
    ensures b == Range(b.dst, dstOff, src, srcOff, n) && FreshPtr(old(rt.mem), b.dst)
    ensures arr == if len == 0 then rt.emptyRefArray else b.dst
    ensures panicked ==> n <= len && (!Fits(old(rt.mem)) || !RoomForInitial(old(rt.mem), value, len - n))
    ensures !panicked ==> BlitDone(old(rt.Now()), len, value, b, owned, rt.Now())
  {
    hide Multiply, TakeRange, RoomToTake, RoomForInitial, Conserved, Owns, Filled, Copied, IsWithBlit, MeansCopy, HoldsRange, OwnedAfter;
    ghost var s := rt.Now();
    arr := Malloc(rt);
    var range := Range(arr, dstOff, src, srcOff, n);
    b := range;
    ReadyElsewhere(s, len, value, Range(NULL, dstOff, src, srcOff, n), owned, arr);
    panicked := CountBeforeTaking(rt, len - n, value, range, owned);
    if !panicked {
      ghost var t := rt.Now();
      panicked := TakeInto(rt, len, value, range);
      if !panicked {
        WithBlitIs(s, len, value, b, t, rt.Now());
        WithBlitConserves(s, len, value, b, owned, rt.Now());
        WithBlitMeansCopy(s, len, value, b, owned, rt.Now());
        WithBlitFills(s, len, value, b, owned, rt.Now());
      }
    }
    if len == 0 {
      arr := rt.emptyRefArray;
    }
  }
}
