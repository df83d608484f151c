/** The packed reference-count word of an object header: two kind bits below a
    signed 30-bit count.  `/` and `%` by 4 on a signed word are the arithmetic
    right shift by two and the two low bits of its two's-complement pattern. */
module RcHeader {

  type Int32 = x: int | -0x8000_0000 <= x < 0x8000_0000

  type Kind = k: int | 0 <= k < 4

  const REGULAR: Kind := 0
  const VAL_ARRAY: Kind := 1
  const REF_ARRAY: Kind := 2
  const REF_VALTYPE_ARRAY: Kind := 3

  const COUNT_UNIT := 4
  const DYNAMIC_COUNT_MAX := 0x1FFF_FFFF
  const STATIC_COUNT := 0x3FFF_FFFF

  /** Reinterprets a 32-bit pattern as a signed word. */
  function ToSigned(w: int): (r: Int32)
    requires 0 <= w < 0x1_0000_0000
    ensures (r - w) % 0x1_0000_0000 == 0
  {
    if w < 0x8000_0000 then w else w - 0x1_0000_0000
  }

  function MakeHeader(kind: Kind, count: nat): Int32 {
    ToSigned((count % 0x4000_0000) * COUNT_UNIT + kind)
  }

  function Count(rc: Int32): int {
    rc / COUNT_UNIT
  }

  function KindOf(rc: Int32): Kind {
    rc % COUNT_UNIT
  }

  /** The raw-word tests of the hot paths. */
  predicate IsDynamic(rc: Int32) {
    rc >= COUNT_UNIT
  }

  predicate IsShared(rc: Int32) {
    rc >= 2 * COUNT_UNIT
  }

  function SetCount(rc: Int32, count: nat): Int32
    requires count <= DYNAMIC_COUNT_MAX
  {
    KindOf(rc) + count * COUNT_UNIT
  }

  /** The raw-word tests decide exactly the classes the decoded count defines,
      and no write of a count disturbs the kind bits. */
  lemma HeaderRoundTrip(kind: Kind, count: nat)
    requires count <= DYNAMIC_COUNT_MAX || count == STATIC_COUNT
    ensures KindOf(MakeHeader(kind, count)) == kind
    ensures Count(MakeHeader(kind, count)) == if count == STATIC_COUNT then -1 else count
    ensures IsDynamic(MakeHeader(kind, count)) <==> 1 <= count <= DYNAMIC_COUNT_MAX
    ensures IsShared(MakeHeader(kind, count)) <==> 2 <= count <= DYNAMIC_COUNT_MAX
  {
  }

  lemma CountArithmetic(rc: Int32)
    ensures rc == Count(rc) * COUNT_UNIT + KindOf(rc)
    ensures IsDynamic(rc) <==> Count(rc) >= 1
    ensures IsShared(rc) <==> Count(rc) >= 2
    ensures IsShared(rc) ==> Count(rc - COUNT_UNIT) == Count(rc) - 1 && KindOf(rc - COUNT_UNIT) == KindOf(rc)
    ensures IsDynamic(rc) && Count(rc) < DYNAMIC_COUNT_MAX ==>
              rc + COUNT_UNIT < 0x8000_0000 && Count(rc + COUNT_UNIT) == Count(rc) + 1 && KindOf(rc + COUNT_UNIT) == KindOf(rc)
  {
  }

  lemma SetCountReads(rc: Int32, count: nat)
    requires count <= DYNAMIC_COUNT_MAX
    ensures Count(SetCount(rc, count)) == count && KindOf(SetCount(rc, count)) == KindOf(rc)
  {
  }

  /** Changing the count by whole units leaves the kind bits alone. */
  lemma KindAfterLoss(rc: Int32, n: nat)
    requires rc - COUNT_UNIT * n >= -0x8000_0000
    ensures KindOf(rc - COUNT_UNIT * n) == KindOf(rc)
  {
  }
}
