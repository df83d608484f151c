/** The invariant of the in-place drop: its traversal state is kept inside dying objects. */
module Traversal {
  import opened RcHeader
  import opened Heap

  // ----- the state hidden in memory during a drop -----

  /** The suspended objects, innermost first. */
  datatype Stack = Empty | Push(top: Ptr, below: Stack)

  ghost function Parent(stack: Stack): Ptr {
    if stack == Empty then NULL else stack.top
  }

  ghost function Elements(stack: Stack): set<Ptr> {
    if stack == Empty then {} else {stack.top} + Elements(stack.below)
  }

  /** A suspended object keeps the index of the child being dropped in its count
      bits, and its own parent in that child's slot; it has a later child. */
  ghost predicate Suspended(o: Obj, parent: Ptr) {
    var i := Count(o.rc);
    0 <= i && i + 1 < |Children(o)| && Children(o)[i] == parent
  }

  ghost predicate Linked(m: Mem, stack: Stack)
    ensures Linked(m, stack) ==> Elements(stack) <= m.Keys
  {
    stack == Empty ||
    (stack.top != NULL && stack.top in m && stack.top !in Elements(stack.below) &&
     Suspended(m[stack.top], Parent(stack.below)) && Linked(m, stack.below))
  }

  /** The references the suspended objects still have to give up, innermost first. */
  ghost function Pending(m: Mem, stack: Stack): seq<Ptr>
    requires Linked(m, stack)
  {
    if stack == Empty then []
    else Children(m[stack.top])[Count(m[stack.top].rc) + 1..] + Pending(m, stack.below)
  }

  lemma {:induction false} PendingFrame(m: Mem, m': Mem, stack: Stack)
    requires Linked(m, stack)
    requires forall p :: p in Elements(stack) ==> p in m' && m'[p] == m[p]
    ensures Linked(m', stack) && Pending(m', stack) == Pending(m, stack)
  {
    if stack != Empty {
      PendingFrame(m, m', stack.below);
    }
  }

  /** The objects the naive release still sees: all but the suspended and the current. */
  ghost function Visible(s: State, stack: Stack, obj: Ptr): State {
    s.(mem := s.mem - Elements(stack) - {obj})
  }

  /** What is left of the naive release when the traversal stands at child `i` of `obj`. */
  ghost function Rest(m: Mem, stack: Stack, obj: Ptr, i: nat): seq<Ptr>
    requires Linked(m, stack) && obj in m && i <= |Children(m[obj])|
  {
    Children(m[obj])[i..] + Pending(m, stack)
  }

  /** The traversal stands at child `i` of `obj`, and finishing the naive release
      from here would still end in `final`. */
  ghost predicate Standing(s: State, final: State, stack: Stack, obj: Ptr, i: nat) {
    Linked(s.mem, stack) && obj != NULL && obj in s.mem && obj !in Elements(stack) &&
    i <= |Children(s.mem[obj])| &&
    Safe(Visible(s, stack, obj), Rest(s.mem, stack, obj, i)) &&
    Release(Visible(s, stack, obj), Rest(s.mem, stack, obj, i)) == final
  }

  /** No object ever grows or loses slots while the traversal overwrites them. */
  ghost predicate SameShape(m: Mem, old_m: Mem) {
    forall p :: p in m ==> p in old_m && |Children(m[p])| == |Children(old_m[p])|
  }

  /** Objects still visible, then references still to give up: what a visit makes smaller. */
  ghost predicate Closer(s: State, stack: Stack, obj: Ptr, i: nat, s': State, stack': Stack, obj': Ptr, i': nat)
    requires Linked(s.mem, stack) && obj in s.mem && i <= |Children(s.mem[obj])|
    requires Linked(s'.mem, stack') && obj' in s'.mem && i' <= |Children(s'.mem[obj'])|
  {
    var keys, keys' := Visible(s, stack, obj).mem.Keys, Visible(s', stack', obj').mem.Keys;
    keys' < keys || (keys' == keys && |Rest(s'.mem, stack', obj', i')| < |Rest(s.mem, stack, obj, i)|)
  }

  // ----- one lemma per transition of the traversal -----

  lemma NextChild(s: State, final: State, stack: Stack, obj: Ptr, i: nat)
    requires Standing(s, final, stack, obj, i) && i < |Children(s.mem[obj])|
    ensures Rest(s.mem, stack, obj, i) == [Children(s.mem[obj])[i]] + Rest(s.mem, stack, obj, i + 1)
    ensures Children(s.mem[obj])[i] != NULL ==> Children(s.mem[obj])[i] in Visible(s, stack, obj).mem
  {
    assert Rest(s.mem, stack, obj, i) == [Children(s.mem[obj])[i]] + Rest(s.mem, stack, obj, i + 1);
  }

  lemma StepSkip(s: State, final: State, stack: Stack, obj: Ptr, i: nat, next: Ptr)
    requires Standing(s, final, stack, obj, i) && i < |Children(s.mem[obj])| && next == Children(s.mem[obj])[i]
    requires next == NULL || (next in s.mem && !IsDynamic(s.mem[next].rc))
    ensures Standing(s, final, stack, obj, i + 1)
    ensures Closer(s, stack, obj, i, s, stack, obj, i + 1)
  {
    NextChild(s, final, stack, obj, i);
    var abs, work := Visible(s, stack, obj), Rest(s.mem, stack, obj, i);
    assert work[1..] == Rest(s.mem, stack, obj, i + 1);
    assert Decref(abs, work[0]) == abs;
  }

  lemma StepDecrement(s: State, final: State, stack: Stack, obj: Ptr, i: nat, next: Ptr)
    requires Standing(s, final, stack, obj, i) && i < |Children(s.mem[obj])| && next == Children(s.mem[obj])[i]
    requires next != NULL && next in s.mem && IsShared(s.mem[next].rc)
    ensures Standing(DecCount(s, next), final, stack, obj, i + 1)
    ensures Closer(s, stack, obj, i, DecCount(s, next), stack, obj, i + 1)
  {
    NextChild(s, final, stack, obj, i);
    var s' := DecCount(s, next);
    PendingFrame(s.mem, s'.mem, stack);
    var abs, work := Visible(s, stack, obj), Rest(s.mem, stack, obj, i);
    assert Visible(s', stack, obj) == DecCount(abs, next) == Decref(abs, work[0]);
    assert work[1..] == Rest(s'.mem, stack, obj, i + 1);
  }

  /** Suspends `obj`: its child index goes into the count bits, its parent into the slot. */
  function Suspend(s: State, obj: Ptr, i: nat, parent: Ptr): State
    requires obj in s.mem && i < |s.mem[obj].slots| && i <= DYNAMIC_COUNT_MAX
  {
    var o := s.mem[obj];
    s.(mem := s.mem[obj := o.(rc := SetCount(o.rc, i), slots := o.slots[i := parent])])
  }

  lemma SuspendedLinks(m: Mem, stack: Stack, obj: Ptr, i: nat, o: Obj)
    requires Linked(m, stack) && obj != NULL && obj in m && obj !in Elements(stack)
    requires Count(o.rc) == i && i + 1 < |Children(o)| && Children(o)[i] == Parent(stack)
    ensures Linked(m[obj := o], Push(obj, stack))
    ensures Pending(m[obj := o], Push(obj, stack)) == Children(o)[i + 1..] + Pending(m, stack)
  {
    PendingFrame(m, m[obj := o], stack);
  }

  lemma SuspendedNow(s: State, final: State, stack: Stack, obj: Ptr, i: nat, m: Mem)
    requires Standing(s, final, stack, obj, i)
    requires i + 1 < |Children(s.mem[obj])| && i <= DYNAMIC_COUNT_MAX
    requires m == Suspend(s, obj, i, Parent(stack)).mem
    ensures Linked(m, Push(obj, stack))
    ensures Pending(m, Push(obj, stack)) == Rest(s.mem, stack, obj, i + 1)
  {
    var o, o' := s.mem[obj], m[obj];
    SetCountReads(o.rc, i);
    assert Children(o') == Children(o)[i := Parent(stack)];
    SuspendedLinks(s.mem, stack, obj, i, o');
  }

  lemma VisibleDescend(s: State, stack: Stack, obj: Ptr, i: nat, next: Ptr)
    requires obj in s.mem && i < |s.mem[obj].slots| && i <= DYNAMIC_COUNT_MAX
    requires next in s.mem && next != obj && next !in Elements(stack)
    ensures Visible(Finalize(Suspend(s, obj, i, Parent(stack)), next), Push(obj, stack), next)
         == Free(Visible(s, stack, obj), next)
  {
    var m := Suspend(s, obj, i, Parent(stack)).mem;
    assert m - ({obj} + Elements(stack)) - {next} == s.mem - Elements(stack) - {obj} - {next};
  }

  lemma VisibleTail(s: State, stack: Stack, obj: Ptr, next: Ptr)
    requires next in s.mem && next != obj && next !in Elements(stack)
    ensures Visible(Finalize(Discard(s, obj), next), stack, next) == Free(Visible(s, stack, obj), next)
  {
    assert s.mem - {obj} - Elements(stack) - {next} == s.mem - Elements(stack) - {obj} - {next};
  }

  lemma VisibleReturn(s: State, top: Ptr, below: Stack, obj: Ptr)
    ensures Visible(Discard(s, obj), below, top) == Visible(s, Push(top, below), obj)
  {
    assert s.mem - {obj} - Elements(below) - {top} == s.mem - ({top} + Elements(below)) - {obj};
  }

  /** At the last child nothing of `obj` itself is left to do. */
  lemma RestAtEnd(m: Mem, stack: Stack, obj: Ptr)
    requires Linked(m, stack) && obj in m
    ensures Rest(m, stack, obj, |Children(m[obj])|) == Pending(m, stack)
  {
  }

  lemma RestAtStart(m: Mem, stack: Stack, obj: Ptr)
    requires Linked(m, stack) && obj in m
    ensures Rest(m, stack, obj, 0) == Children(m[obj]) + Pending(m, stack)
  {
  }

  /** The naive release, faced with the last reference to `next`, opens it as well. */
  lemma Opened(s: State, final: State, stack: Stack, obj: Ptr, i: nat, next: Ptr)
    requires Standing(s, final, stack, obj, i) && i < |Children(s.mem[obj])| && next == Children(s.mem[obj])[i]
    requires next != NULL && next in s.mem && IsDynamic(s.mem[next].rc) && !IsShared(s.mem[next].rc)
    ensures next != obj && next !in Elements(stack) && next in Visible(s, stack, obj).mem
    ensures var abs, work := Free(Visible(s, stack, obj), next), Children(s.mem[next]) + Rest(s.mem, stack, obj, i + 1);
            Safe(abs, work) && Release(abs, work) == final
  {
    NextChild(s, final, stack, obj, i);
    var abs, work := Visible(s, stack, obj), Rest(s.mem, stack, obj, i);
    assert work[1..] == Rest(s.mem, stack, obj, i + 1);
    ReleaseOpen(abs, work);
  }

  lemma StepDescend(s: State, final: State, stack: Stack, obj: Ptr, i: nat, next: Ptr, s': State)
    requires Standing(s, final, stack, obj, i)
    requires i + 1 < |Children(s.mem[obj])| && i <= DYNAMIC_COUNT_MAX && next == Children(s.mem[obj])[i]
    requires next != NULL && next in s.mem && IsDynamic(s.mem[next].rc) && !IsShared(s.mem[next].rc)
    requires s' == Finalize(Suspend(s, obj, i, Parent(stack)), next)
    ensures Standing(s', final, Push(obj, stack), next, 0)
    ensures Closer(s, stack, obj, i, s', Push(obj, stack), next, 0)
  {
    Opened(s, final, stack, obj, i, next);
    SuspendedNow(s, final, stack, obj, i, s'.mem);
    VisibleDescend(s, stack, obj, i, next);
    RestAtStart(s'.mem, Push(obj, stack), next);
  }

  function Discard(s: State, obj: Ptr): State {
    s.(mem := s.mem - {obj})
  }

  lemma StepTail(s: State, final: State, stack: Stack, obj: Ptr, i: nat, next: Ptr, s': State)
    requires Standing(s, final, stack, obj, i)
    requires i + 1 == |Children(s.mem[obj])| && next == Children(s.mem[obj])[i]
    requires next != NULL && next in s.mem && IsDynamic(s.mem[next].rc) && !IsShared(s.mem[next].rc)
    requires next != obj ==> s' == Finalize(Discard(s, obj), next)
    ensures next != obj && Standing(s', final, stack, next, 0)
    ensures Closer(s, stack, obj, i, s', stack, next, 0)
  {
    Opened(s, final, stack, obj, i, next);
    VisibleTail(s, stack, obj, next);
    PendingFrame(s.mem, s'.mem, stack);
    RestAtEnd(s.mem, stack, obj);
    RestAtStart(s'.mem, stack, next);
  }

  /** Resuming the innermost suspended object picks up exactly its pending references. */
  lemma PendingTop(m: Mem, top: Ptr, below: Stack)
    requires Linked(m, Push(top, below))
    ensures Linked(m, below) && top in m && top !in Elements(below)
    ensures Rest(m, below, top, Count(m[top].rc) + 1) == Pending(m, Push(top, below))
  {
  }

  lemma StepReturn(s: State, final: State, top: Ptr, below: Stack, obj: Ptr, s': State)
    requires obj in s.mem && Standing(s, final, Push(top, below), obj, |Children(s.mem[obj])|)
    requires s' == Discard(s, obj)
    ensures top in s'.mem && Suspended(s'.mem[top], Parent(below))
    ensures Standing(s', final, below, top, Count(s'.mem[top].rc) + 1)
    ensures Visible(s', below, top) == Visible(s, Push(top, below), obj)
    ensures Rest(s'.mem, below, top, Count(s'.mem[top].rc) + 1)
         == Rest(s.mem, Push(top, below), obj, |Children(s.mem[obj])|)
  {
    PendingFrame(s.mem, s'.mem, Push(top, below));
    VisibleReturn(s, top, below, obj);
    RestAtEnd(s.mem, Push(top, below), obj);
    PendingTop(s'.mem, top, below);
  }

  lemma StepFinish(s: State, final: State, obj: Ptr)
    requires obj in s.mem && Standing(s, final, Empty, obj, |Children(s.mem[obj])|)
    ensures Discard(s, obj) == final
  {
    assert Visible(s, Empty, obj) == Discard(s, obj);
  }

  lemma VisibleStart(s: State, p: Ptr)
    requires p in s.mem
    ensures Visible(Finalize(s, p), Empty, p) == Free(s, p)
  {
    assert s.mem - {} - {p} == s.mem - {p};
  }

  lemma Begin(s: State, p: Ptr)
    requires p != NULL && p in s.mem && Safe(Free(s, p), Children(s.mem[p]))
    ensures Standing(Finalize(s, p), Drop(s, p), Empty, p, 0)
  {
    VisibleStart(s, p);
    RestAtStart(Finalize(s, p).mem, Empty, p);
    assert Children(s.mem[p]) + [] == Children(s.mem[p]);
  }
}
