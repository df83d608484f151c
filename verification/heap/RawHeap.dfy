/** The traversal's writes on payload words: seen through `View`, they are the writes the heap modules reason about,
    so what holds there holds for objects of every layout. */
module RawHeap {
  import opened RcHeader
  import opened Heap
  import opened Traversal
  import opened Layout

  type RawMem = map<Ptr, RawObj>

  ghost predicate WellFormedMem(m: RawMem) {
    forall p :: p in m ==> WellFormedObj(m[p])
  }

  function ViewMem(m: RawMem): Mem {
    map p | p in m :: View(m[p])
  }

  lemma UpdateView(m: RawMem, p: Ptr, o: RawObj)
    requires WellFormedMem(m) && WellFormedObj(o)
    ensures WellFormedMem(m[p := o]) && ViewMem(m[p := o]) == ViewMem(m)[p := View(o)]
  {
    hide WellFormedObj, View;
  }

  /** The index goes to the header, the parent to the slot of the child descended to. */
  lemma SuspendView(m: RawMem, log: seq<Ptr>, obj: Ptr, i: nat, parent: Ptr)
    requires WellFormedMem(m) && obj in m && i < ChildCount(m[obj]) && i <= DYNAMIC_COUNT_MAX
    ensures var o := m[obj].(rc := SetCount(m[obj].rc, i));
      && i < ChildCount(o)
      && WellFormedMem(m[obj := WriteChild(o, i, parent)])
      && ViewMem(m[obj := WriteChild(o, i, parent)]) == Suspend(State(ViewMem(m), log), obj, i, parent).mem
  {
    hide WellFormedObj, View, WriteChild;
    var o := m[obj].(rc := SetCount(m[obj].rc, i));
    WriteCountView(m[obj], i);
    SameChildren(m[obj], i);
    WriteChildView(o, i, parent);
    UpdateView(m, obj, WriteChild(o, i, parent));
    assert ViewMem(m)[obj] == View(m[obj]);
  }

  lemma SameChildren(o: RawObj, count: nat)
    requires WellFormedObj(o) && count <= DYNAMIC_COUNT_MAX
    ensures ChildCount(o.(rc := SetCount(o.rc, count))) == ChildCount(o)
    ensures |View(o).slots| == ChildCount(o) && View(o).rc == o.rc
  {
    SetCountReads(o.rc, count);
  }

  /** Reading a child through its slot reads it from the view. */
  lemma ReadView(m: RawMem, obj: Ptr, i: nat)
    requires WellFormedMem(m) && obj in m && i < ChildCount(m[obj])
    ensures ChildSlot(m[obj], i) < |m[obj].words|
    ensures m[obj].words[ChildSlot(m[obj], i)] == ViewMem(m)[obj].slots[i] && m[obj].rc == ViewMem(m)[obj].rc
  {
    SlotInBounds(m[obj], i);
  }

  lemma DecrementView(m: RawMem, log: seq<Ptr>, p: Ptr)
    requires WellFormedMem(m) && p in m && IsShared(m[p].rc)
    ensures var o := m[p].(rc := m[p].rc - COUNT_UNIT);
      WellFormedMem(m[p := o]) && ViewMem(m[p := o]) == DecCount(State(ViewMem(m), log), p).mem
  {
    hide ViewMem, WellFormedMem;
    var o := m[p].(rc := m[p].rc - COUNT_UNIT);
    ReadObject(m, p);
    FewerReferences(m[p]);
    UpdateView(m, p, o);
  }

  lemma ReadObject(m: RawMem, p: Ptr)
    requires WellFormedMem(m) && p in m
    ensures WellFormedObj(m[p]) && p in ViewMem(m) && ViewMem(m)[p] == View(m[p])
  {
    hide WellFormedObj, View;
  }

  lemma FewerReferences(o: RawObj)
    requires WellFormedObj(o) && IsShared(o.rc)
    ensures WellFormedObj(o.(rc := o.rc - COUNT_UNIT))
    ensures View(o.(rc := o.rc - COUNT_UNIT)) == View(o).(rc := o.rc - COUNT_UNIT)
  {
    CountArithmetic(o.rc);
    var o' := o.(rc := o.rc - COUNT_UNIT);
    assert ChildCount(o') == ChildCount(o);
    forall i | 0 <= i < ChildCount(o) ensures ChildAt(o', i) == ChildAt(o, i) {
    }
  }

  lemma DiscardView(m: RawMem, log: seq<Ptr>, p: Ptr)
    requires WellFormedMem(m) && p in m
    ensures WellFormedMem(m - {p}) && ViewMem(m - {p}) == Discard(State(ViewMem(m), log), p).mem
  {
  }
}
