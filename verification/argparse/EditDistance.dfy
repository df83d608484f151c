/** Edit distance: the recursive definition, edit scripts, and the two-row table. */
module EditDistance {
  function Min3(x: nat, y: nat, z: nat): nat {
    if x < y then if x < z then x else z else if y < z then y else z
  }

  function Cost(x: char, y: char): nat {
    if x == y then 0 else 1
  }

  /** The distance between the first `i` characters of `a` and the first `j` of `b`, by the last characters. */
  function Table(a: string, b: string, i: nat, j: nat): nat
    requires i <= |a| && j <= |b|
    decreases i + j
  {
    if i == 0 then j
    else if j == 0 then i
    else Min3(Table(a, b, i - 1, j) + 1, Table(a, b, i, j - 1) + 1, Table(a, b, i - 1, j - 1) + Cost(a[i - 1], b[j - 1]))
  }

  function Distance(a: string, b: string): nat {
    Table(a, b, |a|, |b|)
  }

  lemma {:induction false} Recurrence(a: string, b: string, i: nat, j: nat)
    requires 0 < i <= |a| && 0 < j <= |b|
    ensures Table(a, b, i, j) ==
      Min3(Table(a, b, i - 1, j) + 1, Table(a, b, i, j - 1) + 1, Table(a, b, i - 1, j - 1) + Cost(a[i - 1], b[j - 1]))
  {
  }

  // ------------------------------------------------------------------ a metric

  lemma {:induction false} SymmetricTable(a: string, b: string, i: nat, j: nat)
    requires i <= |a| && j <= |b|
    ensures Table(a, b, i, j) == Table(b, a, j, i)
    decreases i + j, 1
  {
    if i > 0 && j > 0 {
      SymmetricInside(a, b, i, j);
    }
  }

  lemma {:induction false} SymmetricInside(a: string, b: string, i: nat, j: nat)
    requires 0 < i <= |a| && 0 < j <= |b|
    ensures Table(a, b, i, j) == Table(b, a, j, i)
    decreases i + j, 0
  {
    hide Table;
    Recurrence(a, b, i, j);
    Recurrence(b, a, j, i);
    SymmetricTable(a, b, i - 1, j);
    SymmetricTable(a, b, i, j - 1);
    SymmetricTable(a, b, i - 1, j - 1);
  }

  lemma Symmetric(a: string, b: string)
    ensures Distance(a, b) == Distance(b, a)
  {
    SymmetricTable(a, b, |a|, |b|);
  }

  lemma {:induction false} Bounds(a: string, b: string, i: nat, j: nat)
    requires i <= |a| && j <= |b|
    ensures i - j <= Table(a, b, i, j) && j - i <= Table(a, b, i, j) <= i + j
    decreases i + j
  {
    if i > 0 && j > 0 {
      Bounds(a, b, i - 1, j);
      Bounds(a, b, i, j - 1);
      Bounds(a, b, i - 1, j - 1);
    }
  }

  lemma {:induction false} TriangleCell(a: string, b: string, c: string, i: nat, j: nat, k: nat)
    requires 0 < i <= |a| && 0 < j <= |b| && 0 < k <= |c|
    requires Table(a, c, i - 1, k) <= Table(a, b, i - 1, j) + Table(b, c, j, k)
    requires Table(a, c, i, k - 1) <= Table(a, b, i, j) + Table(b, c, j, k - 1)
    requires Table(a, c, i, k) <= Table(a, b, i, j - 1) + Table(b, c, j - 1, k)
    requires Table(a, c, i, k - 1) <= Table(a, b, i, j - 1) + Table(b, c, j - 1, k - 1)
    requires Table(a, c, i - 1, k) <= Table(a, b, i - 1, j - 1) + Table(b, c, j - 1, k)
    requires Table(a, c, i - 1, k - 1) <= Table(a, b, i - 1, j - 1) + Table(b, c, j - 1, k - 1)
    ensures Table(a, c, i, k) <= Table(a, b, i, j) + Table(b, c, j, k)
  {
    hide Table;
    Recurrence(a, b, i, j);
    Recurrence(b, c, j, k);
    Recurrence(a, c, i, k);
  }

  lemma {:induction false} TriangleTable(a: string, b: string, c: string, i: nat, j: nat, k: nat)
    requires i <= |a| && j <= |b| && k <= |c|
    ensures Table(a, c, i, k) <= Table(a, b, i, j) + Table(b, c, j, k)
    decreases i + j + k, 1
  {
    if i == 0 || j == 0 || k == 0 {
      Bounds(a, c, i, k);
      Bounds(a, b, i, j);
      Bounds(b, c, j, k);
    } else {
      TriangleInside(a, b, c, i, j, k);
    }
  }

  lemma {:induction false} TriangleInside(a: string, b: string, c: string, i: nat, j: nat, k: nat)
    requires 0 < i <= |a| && 0 < j <= |b| && 0 < k <= |c|
    ensures Table(a, c, i, k) <= Table(a, b, i, j) + Table(b, c, j, k)
    decreases i + j + k, 0
  {
    hide Table;
    TriangleTable(a, b, c, i - 1, j, k);
    TriangleTable(a, b, c, i, j, k - 1);
    TriangleTable(a, b, c, i, j - 1, k);
    TriangleTable(a, b, c, i, j - 1, k - 1);
    TriangleTable(a, b, c, i - 1, j - 1, k);
    TriangleTable(a, b, c, i - 1, j - 1, k - 1);
    TriangleCell(a, b, c, i, j, k);
  }

  lemma Triangle(a: string, b: string, c: string)
    ensures Distance(a, c) <= Distance(a, b) + Distance(b, c)
  {
    TriangleTable(a, b, c, |a|, |b|, |c|);
  }

  lemma {:induction false} ZeroTable(a: string, b: string, i: nat, j: nat)
    requires i <= |a| && j <= |b|
    ensures Table(a, b, i, j) == 0 <==> a[..i] == b[..j]
    decreases i + j
  {
    if i > 0 && j > 0 {
      ZeroTable(a, b, i - 1, j - 1);
      PrefixStep(a, b, i, j);
    }
  }

  lemma PrefixStep(a: string, b: string, i: nat, j: nat)
    requires 0 < i <= |a| && 0 < j <= |b|
    ensures a[..i] == b[..j] <==> a[..i - 1] == b[..j - 1] && a[i - 1] == b[j - 1]
  {
    assert a[..i] == a[..i - 1] + [a[i - 1]] && b[..j] == b[..j - 1] + [b[j - 1]];
  }

  lemma ZeroIffEqual(a: string, b: string)
    ensures Distance(a, b) == 0 <==> a == b
  {
    ZeroTable(a, b, |a|, |b|);
    assert a[..|a|] == a && b[..|b|] == b;
  }

  // ------------------------------------------------------------- by characters

  function Front(s: string): string
    requires s != ""
  {
    s[..|s| - 1]
  }

  function Last(s: string): char
    requires s != ""
  {
    s[|s| - 1]
  }

  lemma {:induction false} SameTable(a: string, b: string, c: string, d: string, i: nat, j: nat)
    requires i <= |a| && i <= |c| && j <= |b| && j <= |d| && a[..i] == c[..i] && b[..j] == d[..j]
    ensures Table(a, b, i, j) == Table(c, d, i, j)
    decreases i + j
  {
    if i > 0 && j > 0 {
      PrefixStep(a, c, i, i);
      PrefixStep(b, d, j, j);
      SameTable(a, b, c, d, i - 1, j);
      SameTable(a, b, c, d, i, j - 1);
      SameTable(a, b, c, d, i - 1, j - 1);
    }
  }

  lemma ByLastCharacters(a: string, b: string)
    requires a != "" && b != ""
    ensures Distance(a, b) == Min3(Distance(Front(a), b) + 1, Distance(a, Front(b)) + 1,
                                   Distance(Front(a), Front(b)) + Cost(Last(a), Last(b)))
  {
    SameTable(a, b, Front(a), b, |a| - 1, |b|);
    SameTable(a, b, a, Front(b), |a|, |b| - 1);
    SameTable(a, b, Front(a), Front(b), |a| - 1, |b| - 1);
  }

  lemma ToEmpty(a: string)
    ensures Distance(a, "") == |a| && Distance("", a) == |a|
  {
  }

  // --------------------------------------------------------------- edit scripts

  datatype Edit = Insert(at: nat, c: char) | Delete(at: nat) | Replace(at: nat, c: char) {
    predicate Applies(s: string) {
      if Insert? then at <= |s| else at < |s|
    }

    function Apply(s: string): string
      requires Applies(s)
    {
      match this
      case Insert(i, c) => s[..i] + [c] + s[i..]
      case Delete(i) => s[..i] + s[i + 1..]
      case Replace(i, c) => s[..i] + [c] + s[i + 1..]
    }
  }

  /** The edits of `script`, one after the other, turn `a` into `b`. */
  predicate Turns(script: seq<Edit>, a: string, b: string)
    decreases |script|
  {
    if script == [] then a == b
    else script[0].Applies(a) && Turns(script[1..], script[0].Apply(a), b)
  }

  lemma {:induction false} TurnsThen(s: seq<Edit>, t: seq<Edit>, a: string, b: string, c: string)
    requires Turns(s, a, b) && Turns(t, b, c)
    ensures Turns(s + t, a, c)
    decreases |s|
  {
    hide Edit.Apply, Edit.Applies;
    if s == [] {
      assert s + t == t;
    } else {
      TurnsThen(s[1..], t, s[0].Apply(a), b, c);
      assert (s + t)[1..] == s[1..] + t && (s + t)[0] == s[0];
    }
  }

  lemma SlicesKeepEnd(a: string, end: string, i: nat)
    requires i <= |a|
    ensures (a + end)[..i] == a[..i] && (a + end)[i..] == a[i..] + end
  {
  }

  lemma ApplyKeepsEnd(e: Edit, a: string, end: string)
    requires e.Applies(a)
    ensures e.Applies(a + end) && e.Apply(a + end) == e.Apply(a) + end
  {
    SlicesKeepEnd(a, end, e.at);
    if !e.Insert? {
      SlicesKeepEnd(a, end, e.at + 1);
    }
  }

  lemma {:induction false} TurnsKeepsEnd(s: seq<Edit>, a: string, b: string, end: string)
    requires Turns(s, a, b)
    ensures Turns(s, a + end, b + end)
    decreases |s|
  {
    if s != [] {
      ApplyKeepsEnd(s[0], a, end);
      TurnsKeepsEnd(s[1..], s[0].Apply(a), b, end);
    }
  }

  lemma TurnsOne(e: Edit, a: string, b: string)
    requires e.Applies(a) && e.Apply(a) == b
    ensures Turns([e], a, b)
  {
    assert Turns([e][1..], b, b);
  }

  lemma DeleteLast(a: string)
    requires a != ""
    ensures Delete(|a| - 1).Applies(a) && Delete(|a| - 1).Apply(a) == Front(a)
  {
  }

  lemma AppendLast(b: string)
    requires b != ""
    ensures Insert(|b| - 1, Last(b)).Apply(Front(b)) == b
  {
  }

  lemma ReplaceLast(b: string, x: char)
    requires b != ""
    ensures Replace(|b| - 1, Last(b)).Applies(Front(b) + [x])
    ensures Replace(|b| - 1, Last(b)).Apply(Front(b) + [x]) == b
  {
  }

  /** A script of that many edits exists. */
  lemma {:induction false} ScriptExists(a: string, b: string) returns (script: seq<Edit>)
    ensures Turns(script, a, b) && |script| == Distance(a, b)
    decreases |a| + |b|, 1
  {
    if a == b {
      ZeroIffEqual(a, b);
      script := [];
    } else if b == "" {
      ToEmpty(a);
      ToEmpty(Front(a));
      script := DeleteFirst(a, b);
    } else if a == "" {
      ToEmpty(b);
      ToEmpty(Front(b));
      script := InsertLast(a, b);
    } else {
      ByLastCharacters(a, b);
      if Distance(a, b) == Distance(Front(a), b) + 1 {
        script := DeleteFirst(a, b);
      } else if Distance(a, b) == Distance(a, Front(b)) + 1 {
        script := InsertLast(a, b);
      } else {
        script := SubstituteLast(a, b);
      }
    }
  }

  lemma {:induction false} DeleteFirst(a: string, b: string) returns (script: seq<Edit>)
    requires a != ""
    ensures Turns(script, a, b) && |script| == Distance(Front(a), b) + 1
    decreases |a| + |b|, 0
  {
    var rest := ScriptExists(Front(a), b);
    DeleteLast(a);
    TurnsOne(Delete(|a| - 1), a, Front(a));
    TurnsThen([Delete(|a| - 1)], rest, a, Front(a), b);
    script := [Delete(|a| - 1)] + rest;
  }

  lemma {:induction false} InsertLast(a: string, b: string) returns (script: seq<Edit>)
    requires b != ""
    ensures Turns(script, a, b) && |script| == Distance(a, Front(b)) + 1
    decreases |a| + |b|, 0
  {
    var rest := ScriptExists(a, Front(b));
    AppendLast(b);
    TurnsOne(Insert(|b| - 1, Last(b)), Front(b), b);
    TurnsThen(rest, [Insert(|b| - 1, Last(b))], a, Front(b), b);
    script := rest + [Insert(|b| - 1, Last(b))];
  }

  lemma {:induction false} SubstituteLast(a: string, b: string) returns (script: seq<Edit>)
    requires a != "" && b != ""
    ensures Turns(script, a, b) && |script| == Distance(Front(a), Front(b)) + Cost(Last(a), Last(b))
    decreases |a| + |b|, 0
  {
    script := ScriptExists(Front(a), Front(b));
    TurnsKeepsEnd(script, Front(a), Front(b), [Last(a)]);
    SplitLast(a);
    SplitLast(b);
    if Last(a) != Last(b) {
      ReplaceLast(b, Last(a));
      TurnsOne(Replace(|b| - 1, Last(b)), Front(b) + [Last(a)], b);
      TurnsThen(script, [Replace(|b| - 1, Last(b))], a, Front(b) + [Last(a)], b);
      script := script + [Replace(|b| - 1, Last(b))];
    }
  }

  lemma SplitLast(a: string)
    requires a != ""
    ensures a == Front(a) + [Last(a)]
  {
  }

  lemma AppendedLast(s: string, x: char)
    ensures s + [x] != "" && Front(s + [x]) == s && Last(s + [x]) == x
  {
  }

  lemma {:induction false} SameEnd(a: string, b: string, end: string)
    ensures Distance(a + end, b + end) <= Distance(a, b)
    decreases |end|
  {
    if end == "" {
      assert a + end == a && b + end == b;
    } else {
      SameEnd(a, b, Front(end));
      SplitLast(end);
      assert a + end == a + Front(end) + [Last(end)] && b + end == b + Front(end) + [Last(end)];
      AppendedLast(a + Front(end), Last(end));
      AppendedLast(b + Front(end), Last(end));
      ByLastCharacters(a + end, b + end);
    }
  }

  lemma Beside(s: string, x: char)
    ensures Distance(s, s + [x]) <= 1 && Distance(s + [x], s) <= 1
  {
    ZeroIffEqual(s, s);
    AppendedLast(s, x);
    if s == "" {
      ToEmpty([x]);
      assert s + [x] == [x];
    } else {
      ByLastCharacters(s, s + [x]);
      Symmetric(s, s + [x]);
    }
  }

  lemma ReplacedLast(s: string, x: char, y: char)
    ensures Distance(s + [x], s + [y]) <= 1
  {
    ZeroIffEqual(s, s);
    AppendedLast(s, x);
    AppendedLast(s, y);
    ByLastCharacters(s + [x], s + [y]);
  }

  lemma SplitAt(a: string, i: nat)
    requires i < |a|
    ensures a == a[..i] + a[i..] == a[..i] + [a[i]] + a[i + 1..]
  {
  }

  lemma OneEdit(e: Edit, a: string)
    requires e.Applies(a)
    ensures Distance(a, e.Apply(a)) <= 1
  {
    var i := e.at;
    match e
    case Insert(_, c) =>
      Beside(a[..i], c);
      SameEnd(a[..i], a[..i] + [c], a[i..]);
      assert a == a[..i] + a[i..];
    case Delete(_) =>
      Beside(a[..i], a[i]);
      SameEnd(a[..i] + [a[i]], a[..i], a[i + 1..]);
      SplitAt(a, i);
    case Replace(_, c) =>
      ReplacedLast(a[..i], a[i], c);
      SameEnd(a[..i] + [a[i]], a[..i] + [c], a[i + 1..]);
      SplitAt(a, i);
  }

  /** No script is shorter. */
  lemma {:induction false} NoShorterScript(script: seq<Edit>, a: string, b: string)
    requires Turns(script, a, b)
    ensures Distance(a, b) <= |script|
    decreases |script|
  {
    if script == [] {
      ZeroIffEqual(a, b);
    } else {
      OneEdit(script[0], a);
      NoShorterScript(script[1..], script[0].Apply(a), b);
      Triangle(a, script[0].Apply(a), b);
    }
  }

  // ---------------------------------------------------------- the two-row table

  /** Row `i` of the table, as far as it is filled. */
  ghost predicate Row(row: array<nat>, a: string, b: string, i: nat, done: nat)
    reads row
  {
    && row.Length == |b| + 1 && i <= |a| && done <= row.Length
    && forall j :: 0 <= j < done ==> row[j] == Table(a, b, i, j)
  }

  method FillRow(a: string, b: string, i: nat, prev: array<nat>, curr: array<nat>)
    requires 1 <= i <= |a| && prev != curr && curr.Length == |b| + 1
    requires Row(prev, a, b, i - 1, |b| + 1)
    modifies curr
    ensures Row(curr, a, b, i, |b| + 1)
  {
    curr[0] := i;
    for j := 1 to |b| + 1
      invariant Row(prev, a, b, i - 1, |b| + 1)
      invariant Row(curr, a, b, i, j)
    {
      var cost := if a[i - 1] == b[j - 1] then 0 else 1;
      var del, ins, sub := prev[j] + 1, curr[j - 1] + 1, prev[j - 1] + cost;
      curr[j] := if del < ins then if del < sub then del else sub else if ins < sub then ins else sub;
    }
  }

  method Levenshtein(a: string, b: string) returns (distance: nat)
    ensures distance == Distance(a, b)
  {
    var m, n := |a|, |b|;
    if m == 0 {
      return n;
    }
    if n == 0 {
      return m;
    }
    var prev := new nat[n + 1](j => j);
    var curr := new nat[n + 1](_ => 0);
    for i := 1 to m + 1
      invariant fresh(prev) && fresh(curr) && prev != curr && curr.Length == n + 1
      invariant Row(prev, a, b, i - 1, n + 1)
    {
      FillRow(a, b, i, prev, curr);
      prev, curr := curr, prev;
    }
    return prev[n];
  }
}
