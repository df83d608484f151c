/** Reference counting as arithmetic: how many references to an object a memory
    and a work list hold, and what freeing and decrementing do to that number. */
module Counting {
  import opened RcHeader
  import opened Heap

  function Occ(work: seq<Ptr>, x: Ptr): nat {
    multiset(work)[x]
  }

  lemma OccConcat(a: seq<Ptr>, b: seq<Ptr>, x: Ptr)
    ensures Occ(a + b, x) == Occ(a, x) + Occ(b, x)
  {
  }

  lemma OccHead(work: seq<Ptr>, x: Ptr)
    requires work != []
    ensures Occ(work, x) == Occ(work[1..], x) + if work[0] == x then 1 else 0
  {
    assert work == [work[0]] + work[1..];
  }

  /** The number of references to `x` held by objects of `m`. */
  ghost function Refs(m: Mem, x: Ptr): nat
    decreases |m.Keys|
  {
    if m.Keys == {} then 0
    else
      var p :| p in m.Keys;
      Occ(Children(m[p]), x) + Refs(m - {p}, x)
  }

  lemma {:induction false} RefsTakeOut(m: Mem, p: Ptr, x: Ptr)
    requires p in m
    ensures Refs(m, x) == Occ(Children(m[p]), x) + Refs(m - {p}, x)
    decreases |m.Keys|
  {
    var q :| q in m.Keys && Refs(m, x) == Occ(Children(m[q]), x) + Refs(m - {q}, x);
    if q != p {
      var without := m - {q} - {p};
      assert m - {p} - {q} == without;
      RefsTakeOut(m - {q}, p, x);
      RefsTakeOut(m - {p}, q, x);
    }
  }

  lemma RefsUpdate(m: Mem, p: Ptr, o: Obj, x: Ptr)
    requires p in m
    ensures Refs(m[p := o], x) + Occ(Children(m[p]), x) == Refs(m, x) + Occ(Children(o), x)
  {
    RefsTakeOut(m, p, x);
    RefsTakeOut(m[p := o], p, x);
    assert m[p := o] - {p} == m - {p};
  }

  lemma RefsAdd(m: Mem, p: Ptr, o: Obj, x: Ptr)
    requires p !in m
    ensures Refs(m[p := o], x) == Refs(m, x) + Occ(Children(o), x)
  {
    RefsTakeOut(m[p := o], p, x);
    assert m[p := o] - {p} == m;
  }

  lemma {:induction false} RefsSameChildren(m: Mem, m': Mem, x: Ptr)
    requires m.Keys == m'.Keys
    requires forall p :: p in m ==> Children(m[p]) == Children(m'[p])
    ensures Refs(m, x) == Refs(m', x)
    decreases |m.Keys|
  {
    if m.Keys != {} {
      var p :| p in m.Keys;
      RefsTakeOut(m, p, x);
      RefsTakeOut(m', p, x);
      RefsSameChildren(m - {p}, m' - {p}, x);
    }
  }

  function Restrict(m: Mem, d: set<Ptr>): Mem {
    map p | p in m && p in d :: m[p]
  }

  /** References to `x` that go away when the work list and the objects of `d` go. */
  ghost function Lost(m: Mem, work: seq<Ptr>, d: set<Ptr>, x: Ptr): nat {
    Occ(work, x) + Refs(Restrict(m, d), x)
  }

  lemma LostDecCount(s: State, work: seq<Ptr>, d: set<Ptr>, x: Ptr)
    requires work != [] && work[0] in s.mem && IsShared(s.mem[work[0]].rc)
    ensures Lost(s.mem, work, d, x)
         == Lost(DecCount(s, work[0]).mem, work[1..], d, x) + if work[0] == x then 1 else 0
  {
    RefsSameChildren(Restrict(s.mem, d), Restrict(DecCount(s, work[0]).mem, d), x);
    OccHead(work, x);
  }

  lemma LostFree(s: State, work: seq<Ptr>, d: set<Ptr>, x: Ptr)
    requires work != [] && work[0] in s.mem && work[0] in d
    ensures Lost(s.mem, work, d, x)
         == Lost(Free(s, work[0]).mem, Children(s.mem[work[0]]) + work[1..], d - {work[0]}, x)
            + if work[0] == x then 1 else 0
  {
    var p := work[0];
    RefsTakeOut(Restrict(s.mem, d), p, x);
    assert Restrict(s.mem, d) - {p} == Restrict(Free(s, p).mem, d - {p});
    OccHead(work, x);
    OccConcat(Children(s.mem[p]), work[1..], x);
  }
}
