/** Allocation of positional values, and the lookahead that decides which positional a next value would go to. */
module Positionals {
  import opened Args

  /** What `arg_min_max_for_validate` and `validate_positional_arg` let through. */
  predicate Valid(p: Arg) {
    && p.Constructed()
    && p.info.PositionalInfo?
    && MinMax(p).lower >= 0
    && (MinMax(p).upper.Some? ==> MinMax(p).upper.value >= MinMax(p).lower && MinMax(p).upper.value > 0)
    && (MinMax(p).lower > 1 ==> p.multiple)
  }

  predicate AllValid(ps: seq<Arg>) {
    forall i :: 0 <= i < |ps| ==> Valid(ps[i])
  }

  function Minimum(p: Arg): nat {
    if MinMax(p).lower > 0 then MinMax(p).lower else 0
  }

  /** `remaining_positional_min` */
  function MinimumOf(ps: seq<Arg>): nat {
    if ps == [] then 0 else Minimum(ps[0]) + MinimumOf(ps[1..])
  }

  function Maximum(p: Arg): Option<int> {
    if p.multiple then MinMax(p).upper else Some(1)
  }

  /** The most values all positionals take together. */
  function Capacity(ps: seq<Arg>): Option<int> {
    if ps == [] then Some(0)
    else match (Maximum(ps[0]), Capacity(ps[1..]))
      case (Some(m), Some(rest)) => Some(m + rest)
      case (_, _) => None
  }

  /** How many of the remaining values a positional takes, with `reserve` needed behind it. */
  function Take(p: Arg, remaining: nat, reserve: nat): nat {
    if !p.multiple then if remaining > 0 then 1 else 0
    else
      var wanted := if remaining < reserve then 0 else remaining - reserve;
      var capped := if MinMax(p).upper.Some? && wanted > MinMax(p).upper.value then MinMax(p).upper.value else wanted;
      var raised := if capped < MinMax(p).lower then MinMax(p).lower else capped;
      if raised > remaining then remaining else if raised < 0 then 0 else raised
  }

  /** The length of each positional's run when `remaining` values are left for all of them. */
  function Takes(ps: seq<Arg>, remaining: nat): seq<nat> {
    if ps == [] then []
    else
      var take := Take(ps[0], remaining, MinimumOf(ps[1..]));
      [take] + Takes(ps[1..], remaining - take)
  }

  function Sum(s: seq<nat>): nat {
    if s == [] then 0 else s[0] + Sum(s[1..])
  }

  // ------------------------------------------------------------------ allocation

  lemma {:induction false} MinimumWithinCapacity(ps: seq<Arg>)
    requires AllValid(ps)
    ensures Capacity(ps).Some? ==> MinimumOf(ps) <= Capacity(ps).value
  {
    if ps != [] {
      MinimumWithinCapacity(ps[1..]);
    }
  }

  function Within(capacity: Option<int>, n: nat): int {
    if capacity.Some? && capacity.value < n then capacity.value else n
  }

  lemma TakeThenRest(p: Arg, remaining: nat, reserve: nat, rest: Option<int>)
    requires Valid(p) && (rest.Some? ==> reserve <= rest.value)
    ensures var take := Take(p, remaining, reserve);
      take <= remaining && take + Within(rest, remaining - take)
        == Within(if Maximum(p).None? || rest.None? then None else Some(Maximum(p).value + rest.value), remaining)
  {
  }

  /** Every value is taken, up to the capacity. */
  lemma {:induction false} TakesSum(ps: seq<Arg>, remaining: nat)
    requires AllValid(ps)
    ensures |Takes(ps, remaining)| == |ps|
    ensures Sum(Takes(ps, remaining)) == Within(Capacity(ps), remaining)
    decreases |ps|, 1
  {
    if ps != [] {
      TakesSumCons(ps, remaining);
    }
  }

  lemma {:induction false} TakesSumCons(ps: seq<Arg>, remaining: nat)
    requires AllValid(ps) && ps != []
    ensures |Takes(ps, remaining)| == |ps|
    ensures Sum(Takes(ps, remaining)) == Within(Capacity(ps), remaining)
    decreases |ps|, 0
  {
    hide Take, Within, Sum, MinimumOf;
    var take := Take(ps[0], remaining, MinimumOf(ps[1..]));
    MinimumWithinCapacity(ps[1..]);
    TakeThenRest(ps[0], remaining, MinimumOf(ps[1..]), Capacity(ps[1..]));
    TakesSum(ps[1..], remaining - take);
    SumCons(take, Takes(ps[1..], remaining - take));
  }

  lemma SumCons(n: nat, s: seq<nat>)
    ensures Sum([n] + s) == n + Sum(s)
  {
    assert ([n] + s)[1..] == s;
  }

  lemma {:induction false} TakesWithinMaximum(ps: seq<Arg>, remaining: nat, i: nat)
    requires AllValid(ps) && i < |ps|
    ensures i < |Takes(ps, remaining)|
    ensures Maximum(ps[i]).Some? ==> Takes(ps, remaining)[i] <= Maximum(ps[i]).value
  {
    if i > 0 {
      TakesWithinMaximum(ps[1..], remaining - Take(ps[0], remaining, MinimumOf(ps[1..])), i - 1);
    }
  }

  /** No single positional that may be left out stands before one that needs a value. */
  predicate OptionalsLast(ps: seq<Arg>) {
    ps == [] || ((ps[0].multiple || Minimum(ps[0]) > 0 || MinimumOf(ps[1..]) == 0) && OptionalsLast(ps[1..]))
  }

  predicate AllServed(ps: seq<Arg>, takes: seq<nat>) {
    ps == [] || (takes != [] && takes[0] >= Minimum(ps[0]) && AllServed(ps[1..], takes[1..]))
  }

  lemma {:induction false} ServedWhenOptionalsLast(ps: seq<Arg>, remaining: nat)
    requires AllValid(ps) && OptionalsLast(ps) && remaining >= MinimumOf(ps)
    ensures AllServed(ps, Takes(ps, remaining))
  {
    if ps != [] {
      var take := Take(ps[0], remaining, MinimumOf(ps[1..]));
      assert Takes(ps, remaining)[1..] == Takes(ps[1..], remaining - take);
      ServedWhenOptionalsLast(ps[1..], remaining - take);
    }
  }

  lemma {:induction false} ServedSum(ps: seq<Arg>, takes: seq<nat>)
    requires AllServed(ps, takes)
    ensures Sum(takes) >= MinimumOf(ps)
  {
    if ps != [] {
      ServedSum(ps[1..], takes[1..]);
    }
  }

  /** With exactly the minimum supplied, the first positional takes exactly its minimum. */
  lemma {:induction false} FirstTakesMinimum(ps: seq<Arg>)
    requires ps != [] && AllValid(ps) && AllServed(ps, Takes(ps, MinimumOf(ps)))
    ensures Take(ps[0], MinimumOf(ps), MinimumOf(ps[1..])) == Minimum(ps[0])
    ensures AllServed(ps[1..], Takes(ps[1..], MinimumOf(ps[1..])))
  {
    var take := Take(ps[0], MinimumOf(ps), MinimumOf(ps[1..]));
    assert Takes(ps, MinimumOf(ps))[1..] == Takes(ps[1..], MinimumOf(ps) - take);
    MinimumWithinCapacity(ps[1..]);
    TakesSum(ps[1..], MinimumOf(ps) - take);
    ServedSum(ps[1..], Takes(ps[1..], MinimumOf(ps) - take));
  }

  /** With exactly the minimum supplied, an optional positional in front of a needed one starves somebody. */
  lemma {:induction false} StarvedUnlessOptionalsLast(ps: seq<Arg>)
    requires AllValid(ps) && AllServed(ps, Takes(ps, MinimumOf(ps)))
    ensures OptionalsLast(ps)
  {
    if ps != [] {
      FirstTakesMinimum(ps);
      StarvedUnlessOptionalsLast(ps[1..]);
    }
  }

  /** Enough values serve every positional, whatever their number, exactly when optionals come last. */
  lemma ServedIff(ps: seq<Arg>)
    requires AllValid(ps)
    ensures OptionalsLast(ps) <==> forall n: nat :: n >= MinimumOf(ps) ==> AllServed(ps, Takes(ps, n))
  {
    if OptionalsLast(ps) {
      forall n: nat | n >= MinimumOf(ps) ensures AllServed(ps, Takes(ps, n)) {
        ServedWhenOptionalsLast(ps, n);
      }
    } else {
      if AllServed(ps, Takes(ps, MinimumOf(ps))) {
        StarvedUnlessOptionalsLast(ps);
      }
      assert !AllServed(ps, Takes(ps, MinimumOf(ps)));
    }
  }

  // ------------------------------------------------------------------- lookahead

  /** The run that holds value number `k`. */
  function Owner(takes: seq<nat>, k: nat): Option<nat> {
    if takes == [] then None
    else if k < takes[0] then Some(0)
    else match Owner(takes[1..], k - takes[0])
      case None => None
      case Some(i) => Some(i + 1)
  }

  lemma {:induction false} OwnerExists(takes: seq<nat>, k: nat)
    ensures Owner(takes, k).Some? <==> k < Sum(takes)
    ensures Owner(takes, k).Some? ==> Owner(takes, k).value < |takes|
  {
    if takes != [] && k >= takes[0] {
      OwnerExists(takes[1..], k - takes[0]);
    }
  }

  method RemainingMinimum(ps: seq<Arg>, start: nat) returns (total: nat)
    requires start <= |ps|
    ensures total == MinimumOf(ps[start..])
  {
    total := 0;
    for i := start to |ps|
      invariant total + MinimumOf(ps[i..]) == MinimumOf(ps[start..])
    {
      total := total + Minimum(ps[i]);
      assert ps[i..][1..] == ps[i + 1..];
    }
  }

  /** The allocation branch shared by the lookahead and the assignment. */
  method TakeMany(ps: seq<Arg>, i: nat, remaining: nat) returns (take: nat)
    requires i < |ps| && Valid(ps[i])
    ensures take == Take(ps[i], remaining, MinimumOf(ps[i + 1..])) && take <= remaining
  {
    if ps[i].multiple {
      var range := MinMax(ps[i]);
      var reserve := RemainingMinimum(ps, i + 1);
      var t: int := remaining - reserve;
      if t < 0 {
        t := 0;
      }
      if range.upper.Some? && t > range.upper.value {
        t := range.upper.value;
      }
      if t < range.lower {
        t := range.lower;
      }
      if t > remaining {
        t := remaining;
      }
      take := t;
    } else if remaining > 0 {
      take := 1;
    } else {
      take := 0;
    }
  }

  lemma OwnerStep(ps: seq<Arg>, i: nat, remaining: nat, k: nat, take: nat)
    requires i < |ps| && take == Take(ps[i], remaining, MinimumOf(ps[i + 1..])) && take <= remaining
    ensures Owner(Takes(ps[i..], remaining), k) ==
      if k < take then Some(0)
      else match Owner(Takes(ps[i + 1..], remaining - take), k - take)
        case None => None
        case Some(j) => Some(j + 1)
  {
    assert ps[i..][0] == ps[i] && ps[i..][1..] == ps[i + 1..];
    var rest := Takes(ps[i + 1..], remaining - take);
    assert Takes(ps[i..], remaining) == [take] + rest;
    assert ([take] + rest)[1..] == rest;
  }

  lemma OwnerOrOverflow(ps: seq<Arg>, collected: nat)
    requires AllValid(ps)
    ensures var owner := Owner(Takes(ps, collected + 1), collected);
      if owner.Some? then owner.value < |ps| && (Capacity(ps).None? || Capacity(ps).value >= collected + 1)
      else Capacity(ps).Some? && Capacity(ps).value < collected + 1
  {
    TakesSum(ps, collected + 1);
    OwnerExists(Takes(ps, collected + 1), collected);
  }

  function Later(i: nat, owner: Option<nat>): Option<nat> {
    match owner
    case None => None
    case Some(k) => Some(i + k)
  }

  /** Who gets the last of `collected + 1` values; nobody exactly when one value more would overflow. */
  method NextPositional(ps: seq<Arg>, collected: nat) returns (next: Option<Arg>)
    requires AllValid(ps)
    ensures var owner := Owner(Takes(ps, collected + 1), collected);
      && (owner.Some? ==> owner.value < |ps|)
      && next == (if owner.Some? then Some(ps[owner.value]) else None)
    ensures next.None? <==> Capacity(ps).Some? && Capacity(ps).value < collected + 1
  {
    hide Takes, Owner, MinimumOf, Capacity, Take;
    var total := collected + 1;
    var cursor := 0;
    ghost var owner := Owner(Takes(ps, total), collected);
    OwnerOrOverflow(ps, collected);
    assert ps[0..] == ps;
    for i := 0 to |ps|
      invariant cursor <= collected
      invariant owner == Later(i, Owner(Takes(ps[i..], total - cursor), collected - cursor))
    {
      if cursor >= total {
        return None;
      }
      var take := TakeMany(ps, i, total - cursor);
      OwnerStep(ps, i, total - cursor, collected - cursor, take);
      if take > 0 && collected < cursor + take {
        return Some(ps[i]);
      }
      cursor := cursor + take;
    }
    return None;
  }
}
