/** Memory as the runtime sees it, and the naive recursive release that the
    in-place traversal has to agree with. */
module Heap {
  import opened RcHeader

  type Ptr = nat

  const NULL: Ptr := 0

  /** `slots` are the reference slots in the order the drop scanner numbers them,
      `external` marks a payload with a finalizer.  Module Layout derives both from
      the header words and says where the slots sit in the payload. */
  datatype Obj = Obj(rc: Int32, external: bool, slots: seq<Ptr>)

  type Mem = map<Ptr, Obj>

  /** `finalized` lists the external objects whose finalizer has been called. */
  datatype State = State(mem: Mem, finalized: seq<Ptr>)

  /** The reference children the scanner visits. */
  function Children(o: Obj): seq<Ptr> {
    if o.external then [] else o.slots
  }

  function DecCount(s: State, p: Ptr): (r: State)
    requires p in s.mem && IsShared(s.mem[p].rc)
    ensures r.mem.Keys == s.mem.Keys
  {
    s.(mem := s.mem[p := s.mem[p].(rc := s.mem[p].rc - COUNT_UNIT)])
  }

  function Finalize(s: State, p: Ptr): State
    requires p in s.mem
  {
    if s.mem[p].external then s.(finalized := s.finalized + [p]) else s
  }

  /** Calls the finalizer if there is one and returns the object's memory. */
  function Free(s: State, p: Ptr): (r: State)
    requires p in s.mem
    ensures r.mem.Keys == s.mem.Keys - {p}
  {
    var t := Finalize(s, p);
    t.(mem := t.mem - {p})
  }

  /** Naive recursive drop: give up one reference to each child in order. */
  function Drop(s: State, p: Ptr): (r: State)
    requires p in s.mem
    ensures r.mem.Keys <= s.mem.Keys - {p}
    decreases s.mem.Keys, 0
  {
    Release(Free(s, p), Children(s.mem[p]))
  }

  /** Gives up one reference.  Null, static and unallocated pointers are skipped. */
  function Decref(s: State, p: Ptr): (r: State)
    ensures r.mem.Keys <= s.mem.Keys
    decreases s.mem.Keys, 1
  {
    if p == NULL || p !in s.mem then s
    else if IsShared(s.mem[p].rc) then DecCount(s, p)
    else if IsDynamic(s.mem[p].rc) then Drop(s, p)
    else s
  }

  function Release(s: State, work: seq<Ptr>): (r: State)
    ensures r.mem.Keys <= s.mem.Keys
    decreases s.mem.Keys, 2 + |work|
  {
    if work == [] then s else Release(Decref(s, work[0]), work[1..])
  }

  /** The naive release only ever touches allocated objects. */
  ghost predicate Safe(s: State, work: seq<Ptr>)
    decreases s.mem.Keys, |work|
  {
    work == [] ||
    (var p, rest := work[0], work[1..];
     if p == NULL then Safe(s, rest)
     else
       p in s.mem &&
       if IsShared(s.mem[p].rc) then Safe(DecCount(s, p), rest)
       else if IsDynamic(s.mem[p].rc) then Safe(Free(s, p), Children(s.mem[p]) + rest)
       else Safe(s, rest))
  }

  lemma {:induction false} ReleaseConcat(s: State, a: seq<Ptr>, b: seq<Ptr>)
    ensures Release(s, a + b) == Release(Release(s, a), b)
    decreases s.mem.Keys, |a|
  {
    if a == [] {
      assert a + b == b;
    } else {
      assert (a + b)[1..] == a[1..] + b;
      ReleaseConcat(Decref(s, a[0]), a[1..], b);
    }
  }

  predicate Ignored(s: State, p: Ptr) {
    p == NULL || p !in s.mem || !IsDynamic(s.mem[p].rc)
  }

  lemma ReleaseIgnored(s: State, work: seq<Ptr>)
    requires work != [] && Ignored(s, work[0])
    ensures Release(s, work) == Release(s, work[1..])
  {
  }

  lemma ReleaseShared(s: State, work: seq<Ptr>)
    requires work != [] && work[0] != NULL && work[0] in s.mem && IsShared(s.mem[work[0]].rc)
    ensures Release(s, work) == Release(DecCount(s, work[0]), work[1..])
  {
    assert Decref(s, work[0]) == DecCount(s, work[0]);
  }

  /** Releasing the last reference opens the object: its children join the work. */
  lemma ReleaseOpen(s: State, work: seq<Ptr>)
    requires work != [] && work[0] != NULL && work[0] in s.mem
    requires IsDynamic(s.mem[work[0]].rc) && !IsShared(s.mem[work[0]].rc)
    ensures Release(s, work) == Release(Free(s, work[0]), Children(s.mem[work[0]]) + work[1..])
  {
    var p := work[0];
    assert Decref(s, p) == Drop(s, p) == Release(Free(s, p), Children(s.mem[p]));
    ReleaseConcat(Free(s, p), Children(s.mem[p]), work[1..]);
  }
}
