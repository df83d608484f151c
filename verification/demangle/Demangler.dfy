/** The demangler itself: parsers that move one cursor over the mangled name. */
module Demangler {
  import opened MangleReading

  class Demangler {
    /** The mangled name up to its terminating zero byte. */
    const text: string
    var p: nat

    ghost predicate Valid()
      reads this
    {
      p <= |text| && '\0' !in text
    }

    function Rest(): string
      requires p <= |text|
      reads this
    {
      text[p..]
    }

    /** The character under the cursor. */
    function Peek(): (c: char)
      requires p <= |text|
      reads this
      ensures c == Head(Rest())
    {
      if p < |text| then text[p] else '\0'
    }

    /** A parser that was ahead of `before` did what `read` says. */
    ghost predicate Did<T>(before: nat, read: Parsed<T>, ok: bool, value: T)
      reads this
    {
      && Valid()
      && before <= p
      && ok == read.Got?
      && (ok ==> value == read.value && Rest() == read.rest)
    }

    constructor (name: string, start: nat)
      requires '\0' !in name && start <= |name|
      ensures Valid() && text == name && p == start
    {
      text, p := name, start;
    }

    method Bump()
      requires Valid() && p < |text|
      modifies this
      ensures Valid() && p == old(p) + 1 && Rest() == old(Rest())[1..]
    {
      p := p + 1;
    }

    method ParseU32() returns (ok: bool, value: nat)
      requires Valid()
      modifies this
      ensures Did(old(p), Number(old(Rest())), ok, value)
    {
      if !('0' <= Peek() <= '9') {
        return false, 0;
      }
      ok, value := true, 0;
      while '0' <= Peek() <= '9'
        invariant Valid() && old(p) <= p
        invariant Digits(Rest(), value) == Digits(old(Rest()), 0)
        decreases |text| - p
      {
        value := (value * 10 + (Peek() - '0') as nat) % U32;
        Bump();
      }
    }

    /** The body of an identifier, decoded; a C string ends at its first zero byte. */
    static method DecodeName(s: string) returns (ok: bool, name: string)
      ensures Decode(s, "") == (if ok then Got(name, "") else Fail)
    {
      name := "";
      var i := 0;
      while i < |s|
        invariant i <= |s|
        invariant Decode(s[i..], name) == Decode(s, "")
      {
        var t := s[i..];
        if t[0] != '_' {
          name := name + [t[0]];
          i := i + 1;
        } else if i + 1 >= |s| {
          return false, "";
        } else if t[1] == '_' {
          name := name + "_";
          assert t[2..] == s[i + 2..];
          i := i + 2;
        } else {
          if i + 2 >= |s| || HexValue(t[1]) < 0 || HexValue(t[2]) < 0 {
            return false, "";
          }
          name := name + [(HexValue(t[1]) * 16 + HexValue(t[2])) as char];
          assert t[3..] == s[i + 3..];
          i := i + 3;
        }
      }
      return true, name;
    }

    method ParseIdentifier() returns (ok: bool, name: string)
      requires Valid()
      modifies this
      ensures Did(old(p), Identifier(old(Rest())), ok, name)
    {
      var n;
      ok, n := ParseU32();
      if !ok || |text| - p < n {
        return false, "";
      }
      var start := p;
      assert Rest()[..n] == text[start..start + n] && Rest()[n..] == text[start + n..];
      p := p + n;
      ok, name := DecodeName(text[start..start + n]);
      name := CString(name);
    }

    method ParsePackageSegments(count: nat) returns (ok: bool, package: string)
      requires Valid()
      modifies this
      ensures Did(old(p), Segments(old(Rest()), count, 0, ""), ok, package)
    {
      package := "";
      var i := 0;
      while i < count
        invariant Valid() && old(p) <= p && i <= count
        invariant Segments(Rest(), count, i, package) == Segments(old(Rest()), count, 0, "")
      {
        var seg;
        ok, seg := ParseIdentifier();
        if !ok {
          return false, "";
        }
        package := (if i > 0 then package + "/" else package) + seg;
        i := i + 1;
      }
      ok := true;
    }

    /** The greedy count; when its segments cannot be read, back to its first digit alone. */
    method ParseCounted() returns (ok: bool, package: string)
      requires Valid()
      modifies this
      ensures Did(old(p), Counted(old(Rest())), ok, package)
    {
      var countStart := p;
      var count;
      ok, count := ParseU32();
      if !ok {
        return false, "";
      }
      ok, package := ParsePackageSegments(count);
      if !ok {
        p := countStart;
        count := (Peek() - '0') as nat;
        Bump();
        ok, package := ParsePackageSegments(count);
      }
    }

    method ParsePackage() returns (ok: bool, package: string)
      requires Valid()
      modifies this
      ensures Did(old(p), Package(old(Rest())), ok, package)
    {
      if Peek() != 'P' {
        return false, "";
      }
      Bump();
      if Peek() == 'B' {
        Bump();
        return true, "moonbitlang/core/builtin";
      }
      if Peek() == 'C' {
        Bump();
        ok, package := ParseCounted();
        package := if package == "" then "moonbitlang/core" else "moonbitlang/core/" + package;
      } else {
        ok, package := ParseCounted();
      }
    }

    method ParseLocalPart(name: string) returns (ok: bool, full: string)
      requires Valid()
      modifies this
      ensures Did(old(p), LocalPart(old(Rest()), name), ok, full)
    {
      if Peek() != 'L' {
        return true, name;
      }
      Bump();
      var local;
      ok, local := ParseIdentifier();
      full := name + "." + local;
    }

    method AppendTypePath(out: string) returns (ok: bool, result: string)
      requires Valid()
      modifies this
      ensures Did(old(p), TypePath(old(Rest()), out), ok, result)
    {
      var package, name;
      ok, package := ParsePackage();
      if !ok {
        return false, "";
      }
      ok, name := ParseIdentifier();
      if !ok {
        return false, "";
      }
      ok, name := ParseLocalPart(name);
      result := At(out, package, name);
    }

    /** The loop shared by tuples, parameters and type arguments. */
    method ParseTypeList(out: string) returns (ok: bool, result: string)
      requires Valid()
      modifies this
      ensures Did(old(p), TypeList(old(Rest()), out, true), ok, result)
      decreases |text| - p, 2
    {
      var first := true;
      result := out;
      while Peek() != '\0' && Peek() != 'E'
        invariant Valid() && old(p) <= p
        invariant TypeList(Rest(), result, first) == TypeList(old(Rest()), out, true)
        decreases |text| - p
      {
        ok, result := ParseTypeArg(if first then result else result + ", ");
        if !ok {
          return false, "";
        }
        first := false;
      }
      ok := true;
    }

    method ParseClosed(out: string, close: string) returns (ok: bool, result: string)
      requires Valid()
      modifies this
      ensures Did(old(p), Closed(old(Rest()), out, close), ok, result)
      decreases |text| - p, 3
    {
      ok, result := ParseTypeList(out);
      if !ok || Peek() != 'E' {
        return false, "";
      }
      Bump();
      result := result + close;
    }

    method ParseRaiseClause(mark: char, out: string) returns (ok: bool, result: string)
      requires Valid() && mark != '\0'
      modifies this
      ensures Did(old(p), RaiseClause(old(Rest()), mark, out), ok, result)
      decreases |text| - p, 2
    {
      if Peek() != mark {
        return true, out;
      }
      Bump();
      ok, result := ParseTypeArg(out + " raise ");
    }

    method ParseTypeArgs(out: string) returns (ok: bool, result: string)
      requires Valid()
      modifies this
      ensures Did(old(p), TypeArgs(old(Rest()), out), ok, result)
      decreases |text| - p, 3
    {
      if Peek() == 'H' {
        Bump();
        ok, result := ParseTypeArg(out + " raise ");
        return;
      }
      if Peek() != 'G' {
        return true, out;
      }
      Bump();
      ok, result := ParseClosed(out + "[", "]");
      if !ok {
        return false, "";
      }
      ok, result := ParseRaiseClause('H', result);
    }

    method ParseFnType(out: string, async: bool) returns (ok: bool, result: string)
      requires Valid()
      modifies this
      ensures Did(old(p), FnType(old(Rest()), out, async), ok, result)
      decreases |text| - p, 0
    {
      if Peek() != 'W' {
        return false, "";
      }
      Bump();
      ok, result := ParseClosed((if async then out + "async " else out) + "(", ") -> ");
      if !ok {
        return false, "";
      }
      ok, result := ParseTypeArg(result);
      if !ok {
        return false, "";
      }
      ok, result := ParseRaiseClause('Q', result);
    }

    method ParseTypeRef(out: string) returns (ok: bool, result: string)
      requires Valid()
      modifies this
      ensures Did(old(p), TypeRef(old(Rest()), out), ok, result)
      decreases |text| - p, 0
    {
      if Peek() != 'R' {
        return false, "";
      }
      Bump();
      ok, result := AppendTypePath(out);
      if ok && Peek() == 'G' {
        ok, result := ParseTypeArgs(result);
      }
    }

    method ParseWrapped(out: string) returns (ok: bool, result: string)
      requires Valid()
      modifies this
      ensures Did(old(p), Wrapped(old(Rest()), out), ok, result)
      decreases |text| - p, 2
    {
      ok, result := ParseTypeArg(out);
      result := result + "]";
    }

    method ParseTypeArg(out: string) returns (ok: bool, result: string)
      requires Valid()
      modifies this
      ensures Did(old(p), TypeArg(old(Rest()), out), ok, result)
      decreases |text| - p, 1
    {
      var c := Peek();
      if p == |text| {
        return false, "";
      }
      match c {
        case 'A' =>
          Bump();
          ok, result := ParseWrapped(out + "FixedArray[");
        case 'O' =>
          Bump();
          ok, result := ParseWrapped(out + "Option[");
        case 'U' =>
          Bump();
          ok, result := ParseClosed(out + "(", ")");
        case 'V' =>
          Bump();
          ok, result := ParseFnType(out, true);
        case 'W' =>
          ok, result := ParseFnType(out, false);
        case 'R' =>
          ok, result := ParseTypeRef(out);
        case _ =>
          if PrimName(c) == "" {
            return false, "";
          }
          Bump();
          return true, out + PrimName(c);
      }
    }

    method ParseDecimalSpan() returns (ok: bool, digits: string)
      requires Valid()
      modifies this
      ensures Did(old(p), Span(old(Rest())), ok, digits)
    {
      if !('0' <= Peek() <= '9') {
        return false, "";
      }
      digits := [Peek()];
      Bump();
      while '0' <= Peek() <= '9'
        invariant Valid() && old(p) <= p
        invariant Span(old(Rest())) ==
          match Span(Rest())
          case Fail => Got(digits, Rest())
          case Got(more, t) => Got(digits + more, t)
        decreases |text| - p
      {
        AppendOne(digits, Rest());
        digits := digits + [Peek()];
        Bump();
      }
      ok := true;
    }

    static lemma AppendOne(digits: string, s: string)
      requires AtDigit(s)
      ensures Span(s).Got?
      ensures digits + Span(s).value ==
        match Span(s[1..])
        case Fail => digits + [s[0]]
        case Got(more, _) => digits + [s[0]] + more
    {
      match Span(s[1..])
      case Fail =>
      case Got(more, _) => assert digits + ([s[0]] + more) == digits + [s[0]] + more;
    }

    method ParseLiftedSuffixes(out: string) returns (ok: bool, result: string)
      requires Valid()
      modifies this
      ensures Did(old(p), LiftedSuffixes(old(Rest()), out), ok, result)
    {
      result := out;
      while Peek() == 'N'
        invariant Valid() && old(p) <= p
        invariant LiftedSuffixes(Rest(), result) == LiftedSuffixes(old(Rest()), out)
        decreases |text| - p
      {
        Bump();
        var nested, number;
        ok, nested := ParseIdentifier();
        if !ok || Peek() != 'S' {
          return false, "";
        }
        Bump();
        ok, number := ParseDecimalSpan();
        if !ok {
          return false, "";
        }
        result := result + "." + nested;
      }
      ok := true;
    }

    method ParseClosureSuffix(out: string) returns (ok: bool, result: string)
      requires Valid()
      modifies this
      ensures Did(old(p), ClosureSuffix(old(Rest()), out), ok, result)
    {
      if Peek() != 'C' {
        return true, out;
      }
      Bump();
      var uuid, line;
      ok, uuid := ParseDecimalSpan();
      if !ok {
        return false, "";
      }
      if Peek() == 'l' {
        Bump();
        ok, line := ParseDecimalSpan();
        return ok, out + ".anon(l" + line + ")";
      }
      result := out + ".anon";
    }

    method ParseFnSuffixes(out: string) returns (ok: bool, result: string)
      requires Valid()
      modifies this
      ensures Did(old(p), FnSuffixes(old(Rest()), out), ok, result)
    {
      ok, result := ParseLiftedSuffixes(out);
      if ok {
        ok, result := ParseClosureSuffix(result);
      }
    }

    /** The end of tags F, M and E. */
    method ParseFnTail(out: string) returns (ok: bool, result: string)
      requires Valid()
      modifies this
      ensures Did(old(p), FnTail(old(Rest()), out), ok, result)
    {
      ok, result := ParseFnSuffixes(out);
      if ok && (Peek() == 'G' || Peek() == 'H') {
        ok, result := ParseTypeArgs(result);
      }
      if ok {
        ok, result := ParseFnSuffixes(result);
      }
    }

    method ParsePackageAndName() returns (ok: bool, package: string, name: string)
      requires Valid()
      modifies this
      ensures Did(old(p), PackageAndName(old(Rest())), ok, (package, name))
    {
      name := "";
      ok, package := ParsePackage();
      if ok {
        ok, name := ParseIdentifier();
      }
    }

    method TagF() returns (ok: bool, result: string)
      requires Valid()
      modifies this
      ensures Did(old(p), MangleReading.TagF(old(Rest())), ok, result)
    {
      var package, name;
      ok, package, name := ParsePackageAndName();
      if !ok {
        return false, "";
      }
      ok, result := ParseFnTail(At("", package, name));
    }

    method TagM() returns (ok: bool, result: string)
      requires Valid()
      modifies this
      ensures Did(old(p), MangleReading.TagM(old(Rest())), ok, result)
    {
      var package, owner, name;
      ok, package, owner := ParsePackageAndName();
      if !ok {
        return false, "";
      }
      ok, name := ParseIdentifier();
      if !ok {
        return false, "";
      }
      ok, result := ParseFnTail(At("", package, owner) + "::" + name);
    }

    method ParseImplTail() returns (ok: bool, args: string, suffixes: string)
      requires Valid()
      modifies this
      ensures Did(old(p), ImplTail(old(Rest())), ok, (args, suffixes))
    {
      args := "";
      ok, suffixes := ParseFnSuffixes("");
      if ok && (Peek() == 'G' || Peek() == 'H') {
        ok, args := ParseTypeArgs("");
      }
      if ok {
        ok, suffixes := ParseFnSuffixes(suffixes);
      }
    }

    method TagI() returns (ok: bool, result: string)
      requires Valid()
      modifies this
      ensures Did(old(p), MangleReading.TagI(old(Rest())), ok, result)
    {
      var implType, traitType, name, args, suffixes;
      ok, implType := AppendTypePath("");
      if !ok {
        return false, "";
      }
      ok, traitType := AppendTypePath("");
      if !ok {
        return false, "";
      }
      ok, name := ParseIdentifier();
      if !ok {
        return false, "";
      }
      ok, args, suffixes := ParseImplTail();
      result := "impl " + traitType + " for " + implType + args + " with " + name + suffixes;
    }

    method TagE() returns (ok: bool, result: string)
      requires Valid()
      modifies this
      ensures Did(old(p), MangleReading.TagE(old(Rest())), ok, result)
    {
      var typePackage, typeName, methodPackage, methodName;
      ok, typePackage, typeName := ParsePackageAndName();
      if !ok {
        return false, "";
      }
      ok, methodPackage, methodName := ParsePackageAndName();
      if !ok {
        return false, "";
      }
      result := if methodPackage == "" then "@" else "@" + methodPackage + ".";
      if !IsCore(typePackage) && typePackage != "" {
        result := result + typePackage + ".";
      }
      ok, result := ParseFnTail(result + typeName + "::" + methodName);
    }

    method TagL() returns (ok: bool, result: string)
      requires Valid()
      modifies this
      ensures Did(old(p), MangleReading.TagL(old(Rest())), ok, result)
    {
      if Peek() == 'm' {
        Bump();
      }
      var name, number;
      ok, name := ParseIdentifier();
      if !ok || Peek() != 'S' {
        return false, "";
      }
      Bump();
      ok, number := ParseDecimalSpan();
      result := "@" + if name != "" && name[0] == '$' then name[1..] else name;
    }

    method ParseTagged() returns (ok: bool, result: string)
      requires Valid()
      modifies this
      ensures Did(old(p), Tagged(old(Rest())), ok, result)
    {
      if p == |text| {
        return false, "";
      }
      var tag := Peek();
      Bump();
      match tag {
        case 'F' => ok, result := TagF();
        case 'M' => ok, result := TagM();
        case 'I' => ok, result := TagI();
        case 'E' => ok, result := TagE();
        case 'T' => ok, result := AppendTypePath("");
        case 'L' => ok, result := TagL();
        case _ => return false, "";
      }
    }
  }

  method Demangle(name: string) returns (shown: string)
    requires '\0' !in name
    ensures shown == MangleReading.Demangle(name)
  {
    var start := if |name| > 0 && name[0] == '$' then 1 else 0;
    var s := name[start..];
    if !("_M0" <= s) {
      return name;
    }
    assert s[3..] == name[start + 3..];
    var parser := new Demangler(name, start + 3);
    var ok, text := parser.ParseTagged();
    if ok && (parser.p == |name| || name[parser.p] == '.' || name[parser.p] == '$' || name[parser.p] == '@') {
      return text;
    }
    return name;
  }
}
