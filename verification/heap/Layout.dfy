/** Where reference slots sit: the scanner's child numbering over payload words.
    The heap modules see an object only through `View`. */
module Layout {
  import opened RcHeader
  import opened Heap

  /** One entry of the layout table: payload size in 4-byte words, and the word offsets
      at which references start. */
  datatype Layout = Layout(size: nat, offsets: seq<nat>)

  const PTR_WORDS := 2

  ghost predicate Apart(a: nat, b: nat) {
    a + PTR_WORDS <= b || b + PTR_WORDS <= a
  }

  ghost predicate WellFormed(l: Layout) {
    (forall i :: 0 <= i < |l.offsets| ==> l.offsets[i] + PTR_WORDS <= l.size) &&
    (forall i, j :: 0 <= i < j < |l.offsets| ==> Apart(l.offsets[i], l.offsets[j]))
  }

  /** The meta word, read according to the kind bits; `elem` is the extra header of an
      array of value types. */
  datatype Meta = Scalar | External | Indexed(layout: Layout) | Array(len: nat) | ValtypeArray(len: nat, elem: Layout)

  /** A pointer is stored at the first of the words its slot covers. */
  datatype RawObj = RawObj(rc: Int32, meta: Meta, words: seq<Ptr>)

  ghost predicate WellFormedObj(o: RawObj) {
    match o.meta
    case Scalar => KindOf(o.rc) == REGULAR
    case External => KindOf(o.rc) == REGULAR
    case Indexed(l) => KindOf(o.rc) == REGULAR && WellFormed(l) && l.size <= |o.words|
    case Array(len) => KindOf(o.rc) == VAL_ARRAY || (KindOf(o.rc) == REF_ARRAY && len * PTR_WORDS <= |o.words|)
    case ValtypeArray(len, elem) =>
      KindOf(o.rc) == REF_VALTYPE_ARRAY && WellFormed(elem) && len * elem.size <= |o.words|
  }

  /** `ref_child_count` */
  function ChildCount(o: RawObj): nat {
    match o.meta
    case Scalar => 0
    case External => 0
    case Indexed(l) => |l.offsets|
    case Array(len) => if KindOf(o.rc) == REF_ARRAY then len else 0
    case ValtypeArray(len, elem) => len * |elem.offsets|
  }

  /** `ref_child_slot_at` */
  function ChildSlot(o: RawObj, i: nat): nat
    requires i < ChildCount(o)
  {
    match o.meta
    case Indexed(l) => l.offsets[i]
    case Array(_) => i * PTR_WORDS
    case ValtypeArray(len, elem) =>
      ElementIndex(i, len, |elem.offsets|);
      (i / |elem.offsets|) * elem.size + elem.offsets[i % |elem.offsets|]
  }

  lemma MulMono(a: nat, b: nat, c: nat)
    requires a <= b
    ensures a * c <= b * c
  {
  }

  /** A flattened child index splits into an element and a reference within it. */
  lemma ElementIndex(i: nat, len: nat, refs: nat)
    requires i < len * refs
    ensures refs > 0 && i == (i / refs) * refs + i % refs && i % refs < refs && i / refs < len
  {
    if refs > 0 && i / refs >= len {
      MulMono(len, i / refs, refs);
    }
  }

  /** Every slot lies inside the payload. */
  lemma SlotInBounds(o: RawObj, i: nat)
    requires WellFormedObj(o) && i < ChildCount(o)
    ensures ChildSlot(o, i) + PTR_WORDS <= |o.words|
  {
    match o.meta
    case Indexed(l) =>
    case Array(len) =>
    case ValtypeArray(len, elem) =>
      ElementIndex(i, len, |elem.offsets|);
      var e := i / |elem.offsets|;
      MulMono(e + 1, len, elem.size);
      assert (e + 1) * elem.size == e * elem.size + elem.size;
  }

  lemma ElementsApart(e: nat, f: nat, size: nat, a: nat, b: nat)
    requires e < f && a + PTR_WORDS <= size
    ensures e * size + a + PTR_WORDS <= f * size + b
  {
    MulMono(e + 1, f, size);
    assert (e + 1) * size == e * size + size;
  }

  /** Reference `r` of element `e` against reference `s` of element `f`. */
  lemma ReferencesApart(l: Layout, e: nat, r: nat, f: nat, s: nat)
    requires WellFormed(l) && r < |l.offsets| && s < |l.offsets| && (e != f || r != s)
    ensures Apart(e * l.size + l.offsets[r], f * l.size + l.offsets[s])
  {
    if e < f {
      ElementsApart(e, f, l.size, l.offsets[r], l.offsets[s]);
    } else if f < e {
      ElementsApart(f, e, l.size, l.offsets[s], l.offsets[r]);
    } else {
      assert if r < s then Apart(l.offsets[r], l.offsets[s]) else Apart(l.offsets[s], l.offsets[r]);
    }
  }

  /** Distinct children have slots that share no word. */
  lemma SlotsApart(o: RawObj, i: nat, j: nat)
    requires WellFormedObj(o) && i < j < ChildCount(o)
    ensures Apart(ChildSlot(o, i), ChildSlot(o, j))
  {
    match o.meta
    case Indexed(l) =>
    case Array(len) =>
    case ValtypeArray(len, elem) => ElementSlotsApart(o, len, elem, i, j);
  }

  lemma ElementSlotsApart(o: RawObj, len: nat, elem: Layout, i: nat, j: nat)
    requires o.meta == ValtypeArray(len, elem) && WellFormedObj(o) && i < j < ChildCount(o)
    ensures Apart(ChildSlot(o, i), ChildSlot(o, j))
  {
    hide WellFormed, Apart;
    var n := |elem.offsets|;
    ElementIndex(i, len, n);
    ElementIndex(j, len, n);
    ReferencesApart(elem, i / n, i % n, j / n, j % n);
  }

  /** The words at which references start, by the meta word and the kind alone. */
  ghost predicate ReferenceWord(o: RawObj, w: nat) {
    match o.meta
    case Scalar => false
    case External => false
    case Indexed(l) => w in l.offsets
    case Array(len) => KindOf(o.rc) == REF_ARRAY && exists k :: 0 <= k < len && IsElement(w, k, PTR_WORDS, 0)
    case ValtypeArray(len, elem) =>
      exists e, off :: 0 <= e < len && off in elem.offsets && IsElement(w, e, elem.size, off)
  }

  /** `w` lies `off` words into element number `k` of `size` words. */
  predicate IsElement(w: nat, k: nat, size: nat, off: nat) {
    w == k * size + off
  }

  lemma ChildIsReference(o: RawObj, i: nat)
    requires i < ChildCount(o)
    ensures ReferenceWord(o, ChildSlot(o, i))
  {
    match o.meta
    case Indexed(l) =>
    case Array(len) => assert IsElement(ChildSlot(o, i), i, PTR_WORDS, 0);
    case ValtypeArray(len, elem) =>
      var n := |elem.offsets|;
      ElementIndex(i, len, n);
      assert elem.offsets[i % n] in elem.offsets;
      assert IsElement(ChildSlot(o, i), i / n, elem.size, elem.offsets[i % n]);
  }

  lemma FlatIndex(e: nat, r: nat, len: nat, refs: nat)
    requires e < len && r < refs
    ensures e * refs + r < len * refs && (e * refs + r) / refs == e && (e * refs + r) % refs == r
  {
    var i := e * refs + r;
    assert i == (i / refs) * refs + i % refs;
    ElementsInOrder(e, len, refs);
    ElementsInOrder(i / refs, e, refs);
    ElementsInOrder(e, i / refs, refs);
  }

  lemma ElementsInOrder(e: nat, f: nat, refs: nat)
    ensures e < f ==> e * refs + refs <= f * refs
  {
    if e < f {
      MulMono(e + 1, f, refs);
      assert (e + 1) * refs == e * refs + refs;
    }
  }

  lemma ReferenceIsChild(o: RawObj, w: nat) returns (i: nat)
    requires ReferenceWord(o, w)
    ensures i < ChildCount(o) && ChildSlot(o, i) == w
  {
    match o.meta
    case Indexed(l) => i :| 0 <= i < |l.offsets| && l.offsets[i] == w;
    case Array(len) => i :| 0 <= i < len && IsElement(w, i, PTR_WORDS, 0);
    case ValtypeArray(len, elem) =>
      var e, off :| 0 <= e < len && off in elem.offsets && IsElement(w, e, elem.size, off);
      var r :| 0 <= r < |elem.offsets| && elem.offsets[r] == off;
      FlatIndex(e, r, len, |elem.offsets|);
      i := e * |elem.offsets| + r;
  }

  /** The children are exactly the reference words of the object: none is missed, and no other word is taken for one. */
  lemma SlotsAreReferences(o: RawObj, w: nat)
    ensures (exists i :: 0 <= i < ChildCount(o) && ChildSlot(o, i) == w) <==> ReferenceWord(o, w)
  {
    if i :| 0 <= i < ChildCount(o) && ChildSlot(o, i) == w {
      ChildIsReference(o, i);
    }
    if ReferenceWord(o, w) {
      var i := ReferenceIsChild(o, w);
    }
  }

  function ChildAt(o: RawObj, i: nat): Ptr
    requires i < ChildCount(o)
  {
    var w := ChildSlot(o, i);
    if w < |o.words| then o.words[w] else NULL
  }

  /** The object as the heap modules see it. */
  function View(o: RawObj): Obj {
    Obj(o.rc, o.meta == External, seq(ChildCount(o), i requires 0 <= i < ChildCount(o) => ChildAt(o, i)))
  }

  function WriteChild(o: RawObj, i: nat, p: Ptr): RawObj
    requires i < ChildCount(o)
  {
    var w := ChildSlot(o, i);
    if w < |o.words| then o.(words := o.words[w := p]) else o
  }

  /** Storing a pointer through `ref_child_slot_at` changes that child and no other. */
  lemma WriteChildView(o: RawObj, i: nat, p: Ptr)
    requires WellFormedObj(o) && i < ChildCount(o)
    ensures WellFormedObj(WriteChild(o, i, p))
    ensures View(WriteChild(o, i, p)) == View(o).(slots := View(o).slots[i := p])
  {
    var o' := WriteChild(o, i, p);
    SlotInBounds(o, i);
    forall j | 0 <= j < ChildCount(o)
      ensures ChildAt(o', j) == if j == i then p else ChildAt(o, j)
    {
      if j < i {
        SlotsApart(o, j, i);
      } else if i < j {
        SlotsApart(o, i, j);
      }
    }
  }

  /** Storing a count, or a child index, in the header changes no child. */
  lemma WriteCountView(o: RawObj, count: nat)
    requires WellFormedObj(o) && count <= DYNAMIC_COUNT_MAX
    ensures WellFormedObj(o.(rc := SetCount(o.rc, count)))
    ensures View(o.(rc := SetCount(o.rc, count))) == View(o).(rc := SetCount(o.rc, count))
  {
    SetCountReads(o.rc, count);
    var o' := o.(rc := SetCount(o.rc, count));
    forall j | 0 <= j < ChildCount(o)
      ensures ChildAt(o', j) == ChildAt(o, j)
    {
    }
  }
}
