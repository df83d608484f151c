/** The native runtime's heap operations, which overwrite headers and slots in place. */
module Runtime {
  import opened RcHeader
  import opened Heap
  import opened Traversal

  class Runtime {
    var mem: Mem
    ghost var finalized: seq<Ptr>
    /** The shared static array every empty reference array is. */
    const emptyRefArray: Ptr

    ghost function Now(): State
      reads this
    {
      State(mem, finalized)
    }

    method RunFinalizer(obj: Ptr)
      requires obj in mem
      modifies this`finalized
      ensures Now() == old(Finalize(Now(), obj))
    {
      if mem[obj].external {
        finalized := finalized + [obj];
      }
    }

    method Decrement(p: Ptr)
      requires p in mem && IsShared(mem[p].rc)
      modifies this`mem
      ensures Now() == old(DecCount(Now(), p))
    {
      mem := mem[p := mem[p].(rc := mem[p].rc - COUNT_UNIT)];
    }

    /** Stores the traversal state of `obj` in its own header and slot. */
    method SaveState(obj: Ptr, i: nat, parent: Ptr)
      requires obj in mem && i < |mem[obj].slots| && i <= DYNAMIC_COUNT_MAX
      modifies this`mem
      ensures Now() == old(Suspend(Now(), obj, i, parent))
    {
      var o := mem[obj];
      mem := mem[obj := o.(rc := SetCount(o.rc, i), slots := o.slots[i := parent])];
    }

    method FreeTarget(obj: Ptr)
      requires obj in mem
      modifies this`mem
      ensures Now() == old(Discard(Now(), obj))
    {
      mem := mem - {obj};
    }

    /** The last reference to `next`, child `i` of `obj`, goes: moves on to `next`,
        suspending `obj` or, at its last child, freeing it at once. */
    method Enter(obj: Ptr, parent: Ptr, i: nat, next: Ptr, ghost stack: Stack, ghost final: State)
      returns (panicked: bool, parent': Ptr, ghost stack': Stack)
      requires Standing(Now(), final, stack, obj, i) && i < |Children(mem[obj])| && parent == Parent(stack)
      requires next == Children(mem[obj])[i] != NULL && next in mem
      requires IsDynamic(mem[next].rc) && !IsShared(mem[next].rc)
      modifies this
      ensures SameShape(mem, old(mem))
      ensures panicked ==> Now() == old(Now()) && |Children(mem[obj])| > DYNAMIC_COUNT_MAX + 2
      ensures !panicked ==> Standing(Now(), final, stack', next, 0) && parent' == Parent(stack')
      ensures !panicked ==> Closer(old(Now()), stack, obj, i, Now(), stack', next, 0)
    {
      panicked, parent', stack' := false, parent, stack;
      if i + 1 < |Children(mem[obj])| {
        if i > DYNAMIC_COUNT_MAX {
          panicked := true;
          return;
        }
        StepDescend(Now(), final, stack, obj, i, next, Finalize(Suspend(Now(), obj, i, parent), next));
        SaveState(obj, i, parent);
        parent', stack' := obj, Push(obj, stack);
      } else {
        Opened(Now(), final, stack, obj, i, next);
        StepTail(Now(), final, stack, obj, i, next, Finalize(Discard(Now(), obj), next));
        FreeTarget(obj);
      }
      RunFinalizer(next);
    }

    /** Block `process_children`: deals with the next child of `obj`. */
    method VisitChild(obj: Ptr, parent: Ptr, i: nat, ghost stack: Stack, ghost final: State)
      returns (panicked: bool, obj': Ptr, parent': Ptr, i': nat, ghost stack': Stack)
      requires Standing(Now(), final, stack, obj, i) && i < |Children(mem[obj])| && parent == Parent(stack)
      modifies this
      ensures SameShape(mem, old(mem))
      ensures panicked ==> Now() == old(Now()) && |Children(mem[obj])| > DYNAMIC_COUNT_MAX + 2
      ensures !panicked ==> Standing(Now(), final, stack', obj', i') && parent' == Parent(stack')
      ensures !panicked ==> Closer(old(Now()), stack, obj, i, Now(), stack', obj', i')
    {
      panicked, obj', parent', i', stack' := false, obj, parent, i + 1, stack;
      NextChild(Now(), final, stack, obj, i);
      var next := mem[obj].slots[i];
      if next != NULL && IsShared(mem[next].rc) {
        StepDecrement(Now(), final, stack, obj, i, next);
        Decrement(next);
      } else if next != NULL && IsDynamic(mem[next].rc) {
        obj', i' := next, 0;
        panicked, parent', stack' := Enter(obj, parent, i, next, stack, final);
      } else {
        StepSkip(Now(), final, stack, obj, i, next);
      }
    }

    /** Block `back_to_parent`: frees the finished `obj` and reads the state of its
        parent back from the parent's header and slot. */
    method BackToParent(obj: Ptr, parent: Ptr, ghost stack: Stack, ghost final: State)
      returns (parent': Ptr, i': nat)
      requires obj in mem && Standing(Now(), final, stack, obj, |Children(mem[obj])|)
      requires parent == Parent(stack) != NULL
      modifies this
      ensures SameShape(mem, old(mem)) && stack.Push?
      ensures Standing(Now(), final, stack.below, parent, i') && parent' == Parent(stack.below)
      ensures Visible(Now(), stack.below, parent) == old(Visible(Now(), stack, obj))
      ensures Rest(mem, stack.below, parent, i') == old(Rest(mem, stack, obj, |Children(mem[obj])|))
    {
      StepReturn(Now(), final, parent, stack.below, obj, Discard(Now(), obj));
      FreeTarget(obj);
      var index := Count(mem[parent].rc);
      parent', i' := mem[parent].slots[index], index + 1;
    }

    /** Frees the object graph `root` heads, in constant extra space.  The runtime
        panics when a child index does not fit the count bits. */
    method DropObject(root: Ptr) returns (panicked: bool)
      requires root != NULL && root in mem
      requires Safe(Free(Now(), root), Children(mem[root]))
      modifies this
      ensures !panicked ==> Now() == old(Drop(Now(), root))
      ensures panicked ==> exists p :: p in old(mem) && |Children(old(mem)[p])| > DYNAMIC_COUNT_MAX + 2
    {
      ghost var final := Drop(Now(), root);
      ghost var stack := Empty;
      var obj: Ptr, parent: Ptr, i: nat := root, NULL, 0;
      Begin(Now(), root);
      RunFinalizer(obj);
      while true
        invariant Standing(Now(), final, stack, obj, i)
        invariant parent == Parent(stack)
        invariant SameShape(mem, old(mem))
        decreases Visible(Now(), stack, obj).mem.Keys, |Rest(mem, stack, obj, i)|, stack
      {
        if i < |Children(mem[obj])| {
          panicked, obj, parent, i, stack := VisitChild(obj, parent, i, stack, final);
          if panicked {
            return;
          }
        } else if parent == NULL {
          StepFinish(Now(), final, obj);
          FreeTarget(obj);
          return false;
        } else {
          var above := parent;
          parent, i := BackToParent(obj, parent, stack, final);
          obj, stack := above, stack.below;
        }
      }
    }
  }
}
