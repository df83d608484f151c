/** The other heap operations as functions on states, and why each conserves. */
module Operations {
  import opened RcHeader
  import opened Heap
  import opened Counting
  import opened Conservation

  // ----- building blocks -----

  /** Room for one more reference to each element of `ps`: the header's documented
      demand that dynamic counts stay below the sign bit. */
  ghost predicate Room(m: Mem, ps: seq<Ptr>) {
    forall p :: p in m ==> HasRoom(m[p].rc, Occ(ps, p))
  }

  ghost predicate HasRoom(rc: Int32, n: nat) {
    IsDynamic(rc) ==> rc + COUNT_UNIT * n < 0x8000_0000
  }

  ghost predicate Allocated(m: Mem, ps: seq<Ptr>) {
    forall p :: p in ps && p != NULL ==> p in m
  }

  ghost function Bumped(o: Obj, n: nat): Obj
    requires HasRoom(o.rc, n)
  {
    if IsDynamic(o.rc) then o.(rc := o.rc + COUNT_UNIT * n) else o
  }

  /** One more reference to every element of `ps`. */
  ghost function Bump(s: State, ps: seq<Ptr>): State
    requires Room(s.mem, ps)
  {
    s.(mem := map p | p in s.mem :: Bumped(s.mem[p], Occ(ps, p)))
  }

  ghost function SetSlots(s: State, p: Ptr, slots: seq<Ptr>): State
    requires p in s.mem
  {
    s.(mem := s.mem[p := s.mem[p].(slots := slots)])
  }

  ghost function Alloc(s: State, a: Ptr, o: Obj): State {
    s.(mem := s.mem[a := o])
  }

  ghost function Without(s: State, p: Ptr): State {
    s.(mem := s.mem - {p})
  }

  // ----- each building block moves references between owners and the heap -----

  lemma ConservedBump(s: State, ps: seq<Ptr>, owned: Owned)
    requires Conserved(s.mem, owned) && Room(s.mem, ps) && Allocated(s.mem, ps)
    ensures Conserved(Bump(s, ps).mem, owned + multiset(ps))
  {
    var m := Bump(s, ps).mem;
    forall x | x != NULL
      ensures CountedAt(m, owned + multiset(ps), x)
    {
      assert CountedAt(s.mem, owned, x);
      RefsSameChildren(s.mem, m, x);
    }
  }

  lemma ConservedSetSlots(s: State, p: Ptr, slots: seq<Ptr>, owned: Owned, owned': Owned)
    requires Conserved(s.mem, owned) && p in s.mem && !s.mem[p].external
    requires forall x :: x != NULL ==> owned'[x] + Occ(slots, x) == owned[x] + Occ(s.mem[p].slots, x)
    ensures Conserved(SetSlots(s, p, slots).mem, owned')
  {
    var m := SetSlots(s, p, slots).mem;
    forall x | x != NULL
      ensures CountedAt(m, owned', x)
    {
      assert CountedAt(s.mem, owned, x);
      RefsUpdate(s.mem, p, m[p], x);
    }
  }

  /** A new object takes over owned references and is itself owned. */
  lemma ConservedAlloc(s: State, a: Ptr, o: Obj, owned: Owned, owned': Owned)
    requires Conserved(s.mem, owned) && a != NULL && a !in s.mem
    requires IsDynamic(o.rc) && Count(o.rc) == 1
    requires forall x :: x != NULL ==> owned'[x] + Occ(Children(o), x) == owned[x] + (if x == a then 1 else 0)
    ensures Conserved(Alloc(s, a, o).mem, owned')
  {
    var m := Alloc(s, a, o).mem;
    forall x | x != NULL
      ensures CountedAt(m, owned', x)
    {
      assert CountedAt(s.mem, owned, x) && CountedAt(s.mem, owned, a);
      RefsAdd(s.mem, a, o, x);
    }
  }

  /** Taking apart a container whose only reference is owned hands its slots to the owner. */
  lemma ConservedTakeApart(s: State, p: Ptr, owned: Owned, owned': Owned)
    requires Conserved(s.mem, owned) && p in s.mem && p in owned
    requires IsDynamic(s.mem[p].rc) && !IsShared(s.mem[p].rc)
    requires forall x :: x != NULL ==>
               owned'[x] + (if x == p then 1 else 0) == owned[x] + Occ(Children(s.mem[p]), x)
    ensures Conserved(Without(s, p).mem, owned')
  {
    var m := Without(s, p).mem;
    forall x | x != NULL
      ensures CountedAt(m, owned', x)
    {
      assert CountedAt(s.mem, owned, x);
      RefsTakeOut(s.mem, p, x);
    }
  }
}
