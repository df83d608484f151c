/** Whole runs: any sequence of heap operations whose callers own what they pass
    keeps every count exact. */
module Runs {
  import opened RcHeader
  import opened Heap
  import opened Counting
  import opened Garbage
  import opened Conservation
  import opened Operations
  import opened Frames
  import opened Blit

  function Repeat(ps: seq<Ptr>, n: nat): seq<Ptr> {
    if n == 0 then [] else ps + Repeat(ps, n - 1)
  }

  lemma OccRepeat(ps: seq<Ptr>, n: nat, x: Ptr)
    requires n > 0
    ensures Occ(Repeat(ps, n), x) == Occ(ps, x) + Occ(Repeat(ps, n - 1), x)
  {
    OccConcat(ps, Repeat(ps, n - 1), x);
  }

  lemma {:induction false} RepeatElements(ps: seq<Ptr>, n: nat, x: Ptr)
    requires x in Repeat(ps, n)
    ensures x in ps
  {
    if x !in ps {
      RepeatElements(ps, n - 1, x);
    }
  }

  function NewArray(kind: Kind, slots: seq<Ptr>): Obj {
    Obj(MakeHeader(kind, 1), false, slots)
  }

  /** `n` copies of an owned reference, of which one is already counted; with no copy
      the reference is given up. */
  ghost function Multiply(s: State, ps: seq<Ptr>, n: nat): State
    requires n > 0 ==> Room(s.mem, Repeat(ps, n - 1))
  {
    if n == 0 then Release(s, ps) else Bump(s, Repeat(ps, n - 1))
  }

  datatype Op =
    | Incref(p: Ptr)
    | Decref(p: Ptr)
    | NewObject(a: Ptr, fields: seq<Ptr>)
    | NewExternal(a: Ptr)
    | MakeRefArray(len: nat, value: Ptr, a: Ptr)
    | UpdateRefValtypeRc(len: nat, refs: seq<Ptr>)
    | MakeRefValtypeArray(len: nat, refs: seq<Ptr>, a: Ptr)
    | RefArrayBlit(b: Range)
    | MakeRefArrayWithBlit(len: nat, value: Ptr, b: Range)

  ghost predicate Owns(owned: Owned, ps: seq<Ptr>) {
    forall x :: x != NULL ==> Occ(ps, x) <= owned[x]
  }

  ghost predicate FreshPtr(m: Mem, a: Ptr) {
    a != NULL && a !in m
  }

  /** The calling convention, and the documented bound on counts. */
  ghost predicate Allowed(s: State, owned: Owned, op: Op) {
    match op
    case Incref(p) => p in s.mem && Room(s.mem, [p])
    case Decref(p) => Owns(owned, [p])
    case NewObject(a, fields) => FreshPtr(s.mem, a) && Owns(owned, fields)
    case NewExternal(a) => FreshPtr(s.mem, a)
    case MakeRefArray(len, value, a) =>
      Owns(owned, [value]) && FreshPtr(s.mem, a) && (len > 0 ==> Room(s.mem, Repeat([value], len - 1)))
    case UpdateRefValtypeRc(len, refs) =>
      Owns(owned, refs) && (len > 0 ==> Room(s.mem, Repeat(refs, len - 1)))
    case MakeRefValtypeArray(len, refs, a) => FreshPtr(s.mem, a) && Owns(owned, Repeat(refs, len))
    case RefArrayBlit(b) =>
      Owning(s, b, owned) &&
      (!Unique(s, b.src) ==> Room(GiveUpSource(s, b.src).mem, Copied(s.mem, b)) && SourceSurvives(s, b))
    case MakeRefArrayWithBlit(len, value, b) =>
      AllowedWithBlit(s, owned, len, value, b)
  }

  ghost function Effect(s: State, owned: Owned, op: Op): State
    requires Allowed(s, owned, op)
  {
    match op
    case Incref(p) => Bump(s, [p])
    case Decref(p) => Release(s, [p])
    case NewObject(a, fields) => Alloc(s, a, NewArray(REGULAR, fields))
    case NewExternal(a) => Alloc(s, a, Obj(MakeHeader(REGULAR, 1), true, []))
    case MakeRefArray(len, value, a) =>
      var t := Multiply(s, [value], len);
      if len == 0 then t else Alloc(t, a, NewArray(REF_ARRAY, Repeat([value], len)))
    case UpdateRefValtypeRc(len, refs) => Multiply(s, refs, len)
    case MakeRefValtypeArray(len, refs, a) =>
      if len == 0 then s else Alloc(s, a, NewArray(REF_VALTYPE_ARRAY, Repeat(refs, len)))
    case RefArrayBlit(b) => if Unique(s, b.src) then MoveBlit(s, b) else SharedBlit(s, b)
    case MakeRefArrayWithBlit(len, value, b) => WithBlit(s, len, value, b)
  }

  ghost function OwnedAfter(owned: Owned, op: Op): Owned {
    match op
    case Incref(p) => owned + multiset{p}
    case Decref(p) => owned - multiset{p}
    case NewObject(a, fields) => owned - multiset(fields) + multiset{a}
    case NewExternal(a) => owned + multiset{a}
    case MakeRefArray(len, value, a) =>
      if len == 0 then owned - multiset{value} else owned - multiset{value} + multiset{a}
    case UpdateRefValtypeRc(len, refs) =>
      if len == 0 then owned - multiset(refs) else owned + multiset(Repeat(refs, len - 1))
    case MakeRefValtypeArray(len, refs, a) =>
      if len == 0 then owned else owned - multiset(Repeat(refs, len)) + multiset{a}
    case RefArrayBlit(b) => owned - multiset{b.src} - multiset{b.dst}
    case MakeRefArrayWithBlit(len, value, b) =>
      if len == 0 then owned - multiset{value} - multiset{b.src}
      else owned - multiset{value} - multiset{b.src} + multiset{b.dst}
  }

  // ----- allocating and filling from another array at once; `b.dst` is the new array -----

  function Filled(value: Ptr, before: nat, elems: seq<Ptr>, after: nat): seq<Ptr> {
    Repeat([value], before) + elems + Repeat([value], after)
  }

  ghost predicate AllowedWithBlit(s: State, owned: Owned, len: nat, value: Ptr, b: Range) {
    Owns(owned, [value, b.src]) && FreshPtr(s.mem, b.dst) && b.src in s.mem && !s.mem[b.src].external &&
    b.srcOff + b.len <= |s.mem[b.src].slots| && WithBlitRoom(s, len, value, b)
  }

  ghost predicate RoomForInitial(m: Mem, value: Ptr, n: nat) {
    n > 0 ==> Room(m, Repeat([value], n - 1))
  }

  ghost predicate WithBlitRoom(s: State, len: nat, value: Ptr, b: Range) {
    b.dstOff + b.len <= len && RoomForInitial(s.mem, value, len - b.len) &&
    RoomToTake(Multiply(s, [value], len - b.len), b)
  }

  ghost predicate RoomToTake(t: State, b: Range) {
    !Unique(t, b.src) ==> Room(GiveUpSource(t, b.src).mem, Copied(t.mem, b))
  }

  /** Moves the range out of a uniquely owned source, or counts it once more. */
  ghost function TakeRange(t: State, b: Range): State
    requires RoomToTake(t, b)
  {
    if Unique(t, b.src) then Without(Release(t, Outside(t.mem, b)), b.src)
    else Bump(GiveUpSource(t, b.src), Copied(t.mem, b))
  }

  ghost function WithBlit(s: State, len: nat, value: Ptr, b: Range): State
    requires WithBlitRoom(s, len, value, b)
  {
    var t := Multiply(s, [value], len - b.len);
    var u := TakeRange(t, b);
    if len == 0 then u else Alloc(u, b.dst, NewArray(REF_ARRAY, Filled(value, b.dstOff, Copied(t.mem, b), len - b.dstOff - b.len)))
  }

  // ----- every operation conserves -----

  lemma ConservedSame(m: Mem, owned: Owned, owned': Owned)
    requires Conserved(m, owned) && forall x :: x != NULL ==> owned[x] == owned'[x]
    ensures Conserved(m, owned')
  {
    forall x | x != NULL
      ensures CountedAt(m, owned', x)
    {
      assert CountedAt(m, owned, x);
    }
  }

  lemma OwnedAllocated(m: Mem, owned: Owned, ps: seq<Ptr>)
    requires Conserved(m, owned) && Owns(owned, ps)
    ensures Allocated(m, ps)
  {
    forall x | x in ps && x != NULL
      ensures x in m
    {
      assert CountedAt(m, owned, x);
      assert Occ(ps, x) > 0;
    }
  }

  lemma RepeatAllocated(m: Mem, ps: seq<Ptr>, n: nat)
    requires Allocated(m, ps)
    ensures Allocated(m, Repeat(ps, n))
  {
    forall x | x in Repeat(ps, n) && x != NULL
      ensures x in m
    {
      RepeatElements(ps, n, x);
    }
  }

  ghost function MultipliedOwned(owned: Owned, ps: seq<Ptr>, n: nat): Owned {
    if n == 0 then owned - multiset(ps) else owned + multiset(Repeat(ps, n - 1))
  }

  lemma ConservedMultiply(s: State, ps: seq<Ptr>, n: nat, owned: Owned)
    requires Conserved(s.mem, owned) && Owns(owned, ps) && (n > 0 ==> Room(s.mem, Repeat(ps, n - 1)))
    ensures Conserved(Multiply(s, ps, n).mem, MultipliedOwned(owned, ps, n))
    ensures n == 0 ==> Safe(s, ps)
  {
    if n == 0 {
      ConservedSame(s.mem, owned, owned - multiset(ps) + multiset(ps));
      ConservedRelease(s, ps, owned - multiset(ps));
    } else {
      OwnedAllocated(s.mem, owned, ps);
      RepeatAllocated(s.mem, ps, n - 1);
      ConservedBump(s, Repeat(ps, n - 1), owned);
    }
  }

  lemma NewArrayHeader(kind: Kind, slots: seq<Ptr>)
    ensures IsDynamic(NewArray(kind, slots).rc) && Count(NewArray(kind, slots).rc) == 1
    ensures KindOf(NewArray(kind, slots).rc) == kind
  {
    HeaderRoundTrip(kind, 1);
  }

  lemma MultiplyKeepsFresh(s: State, ps: seq<Ptr>, n: nat, a: Ptr)
    requires FreshPtr(s.mem, a) && (n > 0 ==> Room(s.mem, Repeat(ps, n - 1)))
    ensures FreshPtr(Multiply(s, ps, n).mem, a)
  {
  }

  /** Storing owned references in a new array. */
  lemma ConservedNewArray(s: State, a: Ptr, kind: Kind, slots: seq<Ptr>, owned: Owned)
    requires Conserved(s.mem, owned) && FreshPtr(s.mem, a) && Owns(owned, slots)
    ensures Conserved(Alloc(s, a, NewArray(kind, slots)).mem, owned - multiset(slots) + multiset{a})
  {
    NewArrayHeader(kind, slots);
    ConservedAlloc(s, a, NewArray(kind, slots), owned, owned - multiset(slots) + multiset{a});
  }

  lemma ConservedMakeRefArray(s: State, len: nat, value: Ptr, a: Ptr, owned: Owned)
    requires Conserved(s.mem, owned) && Allowed(s, owned, MakeRefArray(len, value, a))
    ensures Conserved(Effect(s, owned, MakeRefArray(len, value, a)).mem, OwnedAfter(owned, MakeRefArray(len, value, a)))
  {
    ConservedMultiply(s, [value], len, owned);
    if len > 0 {
      MultiplyKeepsFresh(s, [value], len, a);
      var slots, more := Repeat([value], len), Repeat([value], len - 1);
      forall x | x != NULL
        ensures Occ(slots, x) <= (owned + multiset(more))[x]
      {
        OccRepeat([value], len, x);
      }
      ConservedNewArray(Multiply(s, [value], len), a, REF_ARRAY, slots, owned + multiset(more));
      ConservedSame(Effect(s, owned, MakeRefArray(len, value, a)).mem,
                    owned + multiset(more) - multiset(slots) + multiset{a}, owned - multiset{value} + multiset{a});
    }
  }

  lemma ConservedMakeRefValtypeArray(s: State, len: nat, refs: seq<Ptr>, a: Ptr, owned: Owned)
    requires Conserved(s.mem, owned) && Allowed(s, owned, MakeRefValtypeArray(len, refs, a))
    ensures Conserved(Effect(s, owned, MakeRefValtypeArray(len, refs, a)).mem,
                      OwnedAfter(owned, MakeRefValtypeArray(len, refs, a)))
  {
    if len > 0 {
      ConservedNewArray(s, a, REF_VALTYPE_ARRAY, Repeat(refs, len), owned);
    }
  }

  lemma ConservedRefArrayBlit(s: State, b: Range, owned: Owned)
    requires Conserved(s.mem, owned) && Allowed(s, owned, RefArrayBlit(b))
    ensures Conserved(Effect(s, owned, RefArrayBlit(b)).mem, OwnedAfter(owned, RefArrayBlit(b)))
  {
    if Unique(s, b.src) {
      MoveBlitConserves(s, b, owned);
    } else {
      SharedBlitConserves(s, b, owned);
    }
  }

  /** Taking the range hands its elements to the owner, for the owned source. */
  lemma ConservedTakeRange(t: State, b: Range, owned: Owned)
    requires Conserved(t.mem, owned) && b.src in owned && b.src in t.mem && !t.mem[b.src].external
    requires b.srcOff + b.len <= |t.mem[b.src].slots| && RoomToTake(t, b)
    ensures Conserved(TakeRange(t, b).mem, owned - multiset{b.src} + multiset(Copied(t.mem, b)))
    ensures Unique(t, b.src) ==> Safe(t, Outside(t.mem, b))
  {
    if Unique(t, b.src) {
      var rest := owned - multiset{b.src} + multiset(Copied(t.mem, b));
      forall x | x != NULL
        ensures (rest + multiset(Outside(t.mem, b)))[x] + (if x == b.src then 1 else 0)
             == owned[x] + Occ(Children(t.mem[b.src]), x)
      {
        OccSplit(t.mem[b.src].slots, b.srcOff, b.len, Copied(t.mem, b), x);
      }
      ConservedTakeApart(t, b.src, owned, rest + multiset(Outside(t.mem, b)));
      ConservedRelease(Without(t, b.src), Outside(t.mem, b), rest);
      ReleaseWithout(t, Outside(t.mem, b), b.src);
    } else {
      ConservedGiveUpSource(t, b.src, owned);
      var g := GiveUpSource(t, b.src);
      ElementsAllocated(g.mem, b.src, Copied(t.mem, b), owned - multiset{b.src});
      ConservedBump(g, Copied(t.mem, b), owned - multiset{b.src});
    }
  }

  lemma OccSandwich(p: seq<Ptr>, elems: seq<Ptr>, r: seq<Ptr>, around: seq<Ptr>, x: Ptr)
    requires p + r == around
    ensures Occ(p + elems + r, x) == Occ(elems, x) + Occ(around, x)
  {
    OccConcat(p, elems, x);
    OccConcat(p + elems, r, x);
    OccConcat(p, r, x);
  }

  lemma OccFilled(value: Ptr, before: nat, elems: seq<Ptr>, after: nat, x: Ptr)
    ensures Occ(Filled(value, before, elems, after), x) == Occ(elems, x) + Occ(Repeat([value], before + after), x)
  {
    RepeatAdds([value], before, after);
    OccSandwich(Repeat([value], before), elems, Repeat([value], after), Repeat([value], before + after), x);
  }

  lemma {:induction false} RepeatAdds(ps: seq<Ptr>, i: nat, j: nat)
    ensures Repeat(ps, i) + Repeat(ps, j) == Repeat(ps, i + j)
  {
    if i == 0 {
      assert Repeat(ps, i) + Repeat(ps, j) == Repeat(ps, j);
    } else {
      RepeatAdds(ps, i - 1, j);
      assert Repeat(ps, i) + Repeat(ps, j) == ps + (Repeat(ps, i - 1) + Repeat(ps, j));
    }
  }

  lemma SourceStays(s: State, owned: Owned, value: Ptr, src: Ptr, n: nat, t: State, ot: Owned)
    requires Conserved(s.mem, owned) && Owns(owned, [value, src]) && src in s.mem
    requires n > 0 ==> Room(s.mem, Repeat([value], n - 1))
    requires t == Multiply(s, [value], n) && ot == MultipliedOwned(owned, [value], n)
    ensures Conserved(t.mem, ot) && src in ot && src in t.mem
    ensures t.mem[src].slots == s.mem[src].slots && t.mem[src].external == s.mem[src].external
  {
    assert Occ([value, src], src) <= owned[src];
    ConservedMultiply(s, [value], n, owned);
    assert CountedAt(t.mem, ot, src);
    if n == 0 {
      ReleaseKeepsSlots(s, [value]);
    }
  }

  lemma OwnsTwo(owned: Owned, p: Ptr, q: Ptr, x: Ptr)
    requires Owns(owned, [p, q]) && x != NULL
    ensures Occ([p], x) + multiset{q}[x] <= owned[x]
  {
    assert [p, q] == [p] + [q];
    OccConcat([p], [q], x);
  }

  lemma FilledBalance(owned: Owned, value: Ptr, src: Ptr, i: nat, elems: seq<Ptr>, k: nat, ou: Owned, x: Ptr)
    requires Occ([value], x) + multiset{src}[x] <= owned[x]
    requires ou == MultipliedOwned(owned, [value], i + k) - multiset{src} + multiset(elems)
    ensures Occ(Filled(value, i, elems, k), x) <= ou[x]
    ensures ou[x] - Occ(Filled(value, i, elems, k), x) == owned[x] - Occ([value], x) - multiset{src}[x]
  {
    OccFilled(value, i, elems, k, x);
    if i + k > 0 {
      OccRepeat([value], i + k, x);
    }
  }

  lemma FilledOwned(owned: Owned, value: Ptr, src: Ptr, i: nat, elems: seq<Ptr>, k: nat, ou: Owned, filled: seq<Ptr>)
    requires Owns(owned, [value, src]) && filled == Filled(value, i, elems, k)
    requires ou == MultipliedOwned(owned, [value], i + k) - multiset{src} + multiset(elems)
    ensures Owns(ou, filled)
    ensures forall x :: x != NULL ==> (ou - multiset(filled))[x] == (owned - multiset{value} - multiset{src})[x]
  {
    forall x | x != NULL
      ensures Occ(filled, x) <= ou[x]
      ensures (ou - multiset(filled))[x] == (owned - multiset{value} - multiset{src})[x]
    {
      OwnsTwo(owned, value, src, x);
      FilledBalance(owned, value, src, i, elems, k, ou, x);
    }
  }

  lemma ConservedFill(u: State, a: Ptr, slots: seq<Ptr>, ou: Owned, rest: Owned)
    requires Conserved(u.mem, ou) && FreshPtr(u.mem, a) && Owns(ou, slots)
    requires forall x :: x != NULL ==> (ou - multiset(slots))[x] == rest[x]
    ensures Conserved(Alloc(u, a, NewArray(REF_ARRAY, slots)).mem, rest + multiset{a})
  {
    ConservedNewArray(u, a, REF_ARRAY, slots, ou);
    ConservedSame(Alloc(u, a, NewArray(REF_ARRAY, slots)).mem, ou - multiset(slots) + multiset{a}, rest + multiset{a});
  }

  lemma TakeRangeKeys(t: State, b: Range)
    requires RoomToTake(t, b)
    ensures TakeRange(t, b).mem.Keys <= t.mem.Keys
  {
  }

  lemma WithBlitTaken(s: State, n: nat, value: Ptr, b: Range, owned: Owned, t: State, ot: Owned)
    requires Conserved(s.mem, owned) && Owns(owned, [value, b.src]) && b.src in s.mem && !s.mem[b.src].external
    requires b.srcOff + b.len <= |s.mem[b.src].slots| && (n > 0 ==> Room(s.mem, Repeat([value], n - 1)))
    requires t == Multiply(s, [value], n) && ot == MultipliedOwned(owned, [value], n) && RoomToTake(t, b)
    ensures Conserved(TakeRange(t, b).mem, ot - multiset{b.src} + multiset(Copied(t.mem, b)))
  {
    SourceStays(s, owned, value, b.src, n, t, ot);
    ConservedTakeRange(t, b, ot);
  }

  lemma ConservedFilled(u: State, owned: Owned, a: Ptr, value: Ptr, src: Ptr, i: nat, elems: seq<Ptr>, k: nat, ou: Owned)
    requires Owns(owned, [value, src]) && Conserved(u.mem, ou) && FreshPtr(u.mem, a)
    requires ou == MultipliedOwned(owned, [value], i + k) - multiset{src} + multiset(elems)
    ensures Conserved(Alloc(u, a, NewArray(REF_ARRAY, Filled(value, i, elems, k))).mem,
                      owned - multiset{value} - multiset{src} + multiset{a})
    ensures Filled(value, i, elems, k) == [] ==> Conserved(u.mem, owned - multiset{value} - multiset{src})
  {
    var filled, rest := Filled(value, i, elems, k), owned - multiset{value} - multiset{src};
    FilledOwned(owned, value, src, i, elems, k, ou, filled);
    if filled == [] {
      assert ou - multiset(filled) == ou;
      ConservedSame(u.mem, ou, rest);
    }
    ConservedFill(u, a, filled, ou, rest);
  }

  lemma ConservedTakenAndFilled(s: State, i: nat, k: nat, value: Ptr, b: Range, owned: Owned, t: State)
    requires Conserved(s.mem, owned) && Owns(owned, [value, b.src]) && b.src in s.mem && !s.mem[b.src].external
    requires b.srcOff + b.len <= |s.mem[b.src].slots| && (i + k > 0 ==> Room(s.mem, Repeat([value], i + k - 1)))
    requires t == Multiply(s, [value], i + k) && RoomToTake(t, b) && FreshPtr(t.mem, b.dst)
    ensures var filled, rest := Filled(value, i, Copied(t.mem, b), k), owned - multiset{value} - multiset{b.src};
            Conserved(Alloc(TakeRange(t, b), b.dst, NewArray(REF_ARRAY, filled)).mem, rest + multiset{b.dst}) &&
            (filled == [] ==> Conserved(TakeRange(t, b).mem, rest))
  {
    var ot, elems := MultipliedOwned(owned, [value], i + k), Copied(t.mem, b);
    WithBlitTaken(s, i + k, value, b, owned, t, ot);
    TakeRangeKeys(t, b);
    ConservedFilled(TakeRange(t, b), owned, b.dst, value, b.src, i, elems, k, ot - multiset{b.src} + multiset(elems));
  }

  lemma ConservedWithBlit(s: State, len: nat, value: Ptr, b: Range, owned: Owned)
    requires Conserved(s.mem, owned) && AllowedWithBlit(s, owned, len, value, b)
    ensures len == 0 ==> Conserved(WithBlit(s, len, value, b).mem, owned - multiset{value} - multiset{b.src})
    ensures len > 0 ==>
              Conserved(WithBlit(s, len, value, b).mem, owned - multiset{value} - multiset{b.src} + multiset{b.dst})
  {
    var t, after := Multiply(s, [value], len - b.len), len - b.dstOff - b.len;
    MultiplyKeepsFresh(s, [value], len - b.len, b.dst);
    ConservedTakenAndFilled(s, b.dstOff, after, value, b, owned, t);
  }

  lemma ConservedIncref(s: State, p: Ptr, owned: Owned)
    requires Conserved(s.mem, owned) && p in s.mem && Room(s.mem, [p])
    ensures Conserved(Bump(s, [p]).mem, owned + multiset{p})
  {
    ConservedBump(s, [p], owned);
    ConservedSame(Bump(s, [p]).mem, owned + multiset([p]), owned + multiset{p});
  }

  lemma ConservedDecref(s: State, p: Ptr, owned: Owned)
    requires Conserved(s.mem, owned) && Owns(owned, [p])
    ensures Safe(s, [p]) && Conserved(Release(s, [p]).mem, owned - multiset{p})
  {
    ConservedMultiply(s, [p], 0, owned);
    ConservedSame(Release(s, [p]).mem, MultipliedOwned(owned, [p], 0), owned - multiset{p});
  }

  lemma ConservedNewExternal(s: State, a: Ptr, owned: Owned)
    requires Conserved(s.mem, owned) && FreshPtr(s.mem, a)
    ensures Conserved(Alloc(s, a, Obj(MakeHeader(REGULAR, 1), true, [])).mem, owned + multiset{a})
  {
    HeaderRoundTrip(REGULAR, 1);
    ConservedAlloc(s, a, Obj(MakeHeader(REGULAR, 1), true, []), owned, owned + multiset{a});
  }

  /** Each operation, called by its convention, keeps every count exact. */
  lemma StepConserves(s: State, owned: Owned, op: Op)
    requires Conserved(s.mem, owned) && Allowed(s, owned, op)
    ensures Conserved(Effect(s, owned, op).mem, OwnedAfter(owned, op))
  {
    match op
    case Incref(p) => ConservedIncref(s, p, owned);
    case Decref(p) => ConservedDecref(s, p, owned);
    case NewObject(a, fields) => ConservedNewArray(s, a, REGULAR, fields, owned);
    case NewExternal(a) => ConservedNewExternal(s, a, owned);
    case MakeRefArray(len, value, a) => ConservedMakeRefArray(s, len, value, a, owned);
    case UpdateRefValtypeRc(len, refs) => ConservedMultiply(s, refs, len, owned);
    case MakeRefValtypeArray(len, refs, a) => ConservedMakeRefValtypeArray(s, len, refs, a, owned);
    case RefArrayBlit(b) => ConservedRefArrayBlit(s, b, owned);
    case MakeRefArrayWithBlit(len, value, b) => ConservedWithBlit(s, len, value, b, owned);
  }

  // ----- kinds and static objects -----

  /** Whatever survives keeps its kind; static objects survive with their count. */
  ghost predicate KeepsHeaders(m: Mem, m': Mem) {
    forall p :: p in m ==> KeepsHeader(m, m', p)
  }

  ghost predicate KeepsHeader(m: Mem, m': Mem, p: Ptr)
    requires p in m
  {
    (p in m' ==> KindOf(m'[p].rc) == KindOf(m[p].rc)) &&
    (!IsDynamic(m[p].rc) ==> p in m' && m'[p].rc == m[p].rc)
  }

  lemma KeepsHeadersTwice(m: Mem, m': Mem, m'': Mem)
    requires KeepsHeaders(m, m') && KeepsHeaders(m', m'')
    requires forall p :: p in m && p !in m' ==> p !in m''
    ensures KeepsHeaders(m, m'')
  {
    forall p | p in m
      ensures KeepsHeader(m, m'', p)
    {
      assert KeepsHeader(m, m', p);
      assert p in m' ==> KeepsHeader(m', m'', p);
    }
  }

  lemma ReleaseKeepsHeaders(s: State, work: seq<Ptr>)
    requires NULL !in s.mem
    ensures KeepsHeaders(s.mem, Release(s, work).mem)
  {
    forall p | p in s.mem
      ensures KeepsHeader(s.mem, Release(s, work).mem, p)
    {
      Accounting(s, work, p);
      if p in Release(s, work).mem && IsDynamic(s.mem[p].rc) {
        KindAfterLoss(s.mem[p].rc, Lost(s.mem, work, Dead(s, work), p));
      }
    }
  }

  lemma BumpKeepsHeaders(s: State, ps: seq<Ptr>)
    requires Room(s.mem, ps)
    ensures KeepsHeaders(s.mem, Bump(s, ps).mem)
  {
  }

  lemma MultiplyKeepsHeaders(s: State, ps: seq<Ptr>, n: nat)
    requires NULL !in s.mem && (n > 0 ==> Room(s.mem, Repeat(ps, n - 1)))
    ensures KeepsHeaders(s.mem, Multiply(s, ps, n).mem) && NULL !in Multiply(s, ps, n).mem
  {
    if n == 0 {
      ReleaseKeepsHeaders(s, ps);
    } else {
      BumpKeepsHeaders(s, Repeat(ps, n - 1));
    }
  }

  lemma GiveUpKeepsHeaders(s: State, src: Ptr)
    ensures KeepsHeaders(s.mem, GiveUpSource(s, src).mem)
  {
  }

  lemma MoveBlitKeepsHeaders(s: State, b: Range)
    requires NULL !in s.mem && Unique(s, b.src)
    ensures KeepsHeaders(s.mem, MoveBlit(s, b).mem)
  {
    var t := Release(s, Outside(s.mem, b) + Overwritten(s.mem, b));
    ReleaseKeepsHeaders(s, Outside(s.mem, b) + Overwritten(s.mem, b));
    var u := Without(Paste(t, b.dst, After(s.mem, b)), b.src);
    forall p | p in s.mem
      ensures KeepsHeader(s.mem, u.mem, p)
    {
      assert KeepsHeader(s.mem, t.mem, p);
    }
    ReleaseKeepsHeaders(u, [b.dst]);
    KeepsHeadersTwice(s.mem, u.mem, MoveBlit(s, b).mem);
  }

  lemma SharedBlitKeepsHeaders(s: State, b: Range)
    requires NULL !in s.mem && Room(GiveUpSource(s, b.src).mem, Copied(s.mem, b))
    ensures KeepsHeaders(s.mem, SharedBlit(s, b).mem)
  {
    var g := Bump(GiveUpSource(s, b.src), Copied(s.mem, b));
    GiveUpKeepsHeaders(s, b.src);
    BumpKeepsHeaders(GiveUpSource(s, b.src), Copied(s.mem, b));
    KeepsHeadersTwice(s.mem, GiveUpSource(s, b.src).mem, g.mem);
    var t := BeforeCopy(s, b);
    ReleaseKeepsHeaders(g, Overwritten(s.mem, b));
    KeepsHeadersTwice(s.mem, g.mem, t.mem);
    var u := Paste(t, b.dst, After(s.mem, b));
    forall p | p in s.mem
      ensures KeepsHeader(s.mem, u.mem, p)
    {
      assert KeepsHeader(s.mem, t.mem, p);
    }
    ReleaseKeepsHeaders(u, [b.dst]);
    KeepsHeadersTwice(s.mem, u.mem, SharedBlit(s, b).mem);
  }

  lemma TakeRangeKeepsHeaders(t: State, b: Range)
    requires NULL !in t.mem && RoomToTake(t, b)
    ensures KeepsHeaders(t.mem, TakeRange(t, b).mem)
  {
    if Unique(t, b.src) {
      var r := Release(t, Outside(t.mem, b));
      ReleaseKeepsHeaders(t, Outside(t.mem, b));
      forall p | p in t.mem
        ensures KeepsHeader(t.mem, Without(r, b.src).mem, p)
      {
        assert KeepsHeader(t.mem, r.mem, p);
      }
    } else {
      GiveUpKeepsHeaders(t, b.src);
      BumpKeepsHeaders(GiveUpSource(t, b.src), Copied(t.mem, b));
      KeepsHeadersTwice(t.mem, GiveUpSource(t, b.src).mem, TakeRange(t, b).mem);
    }
  }

  lemma AllocKeepsHeaders(m: Mem, u: State, a: Ptr, o: Obj)
    requires KeepsHeaders(m, u.mem) && a !in m
    ensures KeepsHeaders(m, Alloc(u, a, o).mem)
  {
    forall p | p in m
      ensures KeepsHeader(m, Alloc(u, a, o).mem, p)
    {
      assert KeepsHeader(m, u.mem, p);
    }
  }

  lemma WithBlitKeepsHeaders(s: State, len: nat, value: Ptr, b: Range, owned: Owned)
    requires NULL !in s.mem && AllowedWithBlit(s, owned, len, value, b)
    ensures KeepsHeaders(s.mem, WithBlit(s, len, value, b).mem)
  {
    var t := Multiply(s, [value], len - b.len);
    MultiplyKeepsHeaders(s, [value], len - b.len);
    TakeRangeKeepsHeaders(t, b);
    KeepsHeadersTwice(s.mem, t.mem, TakeRange(t, b).mem);
    AllocKeepsHeaders(s.mem, TakeRange(t, b), b.dst, NewArray(REF_ARRAY, Filled(value, b.dstOff, Copied(t.mem, b), len - b.dstOff - b.len)));
  }

  lemma MakeRefArrayKeepsHeaders(s: State, owned: Owned, len: nat, value: Ptr, a: Ptr)
    requires NULL !in s.mem && Allowed(s, owned, MakeRefArray(len, value, a))
    ensures KeepsHeaders(s.mem, Effect(s, owned, MakeRefArray(len, value, a)).mem)
  {
    MultiplyKeepsHeaders(s, [value], len);
    AllocKeepsHeaders(s.mem, Multiply(s, [value], len), a, NewArray(REF_ARRAY, Repeat([value], len)));
  }

  lemma RefArrayBlitKeepsHeaders(s: State, owned: Owned, b: Range)
    requires NULL !in s.mem && Allowed(s, owned, RefArrayBlit(b))
    ensures KeepsHeaders(s.mem, Effect(s, owned, RefArrayBlit(b)).mem)
  {
    if Unique(s, b.src) {
      MoveBlitKeepsHeaders(s, b);
    } else {
      SharedBlitKeepsHeaders(s, b);
    }
  }

  /** No operation changes a kind, frees a static object or changes its count. */
  lemma StepKeepsHeaders(s: State, owned: Owned, op: Op)
    requires NULL !in s.mem && Allowed(s, owned, op)
    ensures KeepsHeaders(s.mem, Effect(s, owned, op).mem)
  {
    match op
    case Incref(p) => BumpKeepsHeaders(s, [p]);
    case Decref(p) => ReleaseKeepsHeaders(s, [p]);
    case NewObject(a, fields) => AllocKeepsHeaders(s.mem, s, a, NewArray(REGULAR, fields));
    case NewExternal(a) => AllocKeepsHeaders(s.mem, s, a, Obj(MakeHeader(REGULAR, 1), true, []));
    case MakeRefArray(len, value, a) => MakeRefArrayKeepsHeaders(s, owned, len, value, a);
    case UpdateRefValtypeRc(len, refs) => MultiplyKeepsHeaders(s, refs, len);
    case MakeRefValtypeArray(len, refs, a) =>
      AllocKeepsHeaders(s.mem, s, a, NewArray(REF_VALTYPE_ARRAY, Repeat(refs, len)));
    case RefArrayBlit(b) => RefArrayBlitKeepsHeaders(s, owned, b);
    case MakeRefArrayWithBlit(len, value, b) => WithBlitKeepsHeaders(s, len, value, b, owned);
  }

  // ----- whole runs -----

  ghost predicate RunAllowed(s: State, owned: Owned, ops: seq<Op>)
    decreases |ops|
  {
    ops == [] ||
    (Allowed(s, owned, ops[0]) && RunAllowed(Effect(s, owned, ops[0]), OwnedAfter(owned, ops[0]), ops[1..]))
  }

  ghost function RunState(s: State, owned: Owned, ops: seq<Op>): State
    requires RunAllowed(s, owned, ops)
    decreases |ops|
  {
    if ops == [] then s else RunState(Effect(s, owned, ops[0]), OwnedAfter(owned, ops[0]), ops[1..])
  }

  ghost function RunOwned(owned: Owned, ops: seq<Op>): Owned
    decreases |ops|
  {
    if ops == [] then owned else RunOwned(OwnedAfter(owned, ops[0]), ops[1..])
  }

  /** After any run, every dynamic count is the number of references stored plus owned. */
  lemma {:induction false} RunConserves(s: State, owned: Owned, ops: seq<Op>)
    requires Conserved(s.mem, owned) && RunAllowed(s, owned, ops)
    ensures Conserved(RunState(s, owned, ops).mem, RunOwned(owned, ops))
    decreases |ops|
  {
    if ops != [] {
      StepConserves(s, owned, ops[0]);
      RunConserves(Effect(s, owned, ops[0]), OwnedAfter(owned, ops[0]), ops[1..]);
    }
  }
}
