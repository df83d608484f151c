/** What each parser of the demangler reads from the characters still ahead and writes behind the text so far. */
module MangleReading {
  datatype Parsed<T> = Fail | Got(value: T, rest: string)

  const U32: nat := 0x1_0000_0000

  /** The character under the cursor; the terminating zero byte at the end. */
  function Head(s: string): char {
    if s == "" then '\0' else s[0]
  }

  predicate AtDigit(s: string) {
    '0' <= Head(s) <= '9'
  }

  /** `mbt_parse_u32`: unsigned arithmetic wraps. */
  function Digits(s: string, v: nat): (r: Parsed<nat>)
    ensures r.Got? && |r.rest| <= |s| && (AtDigit(s) ==> |r.rest| < |s|)
  {
    if AtDigit(s) then Digits(s[1..], (v * 10 + (s[0] - '0') as nat) % U32) else Got(v, s)
  }

  function Number(s: string): (r: Parsed<nat>)
    ensures r.Got? ==> |r.rest| < |s|
  {
    if AtDigit(s) then Digits(s, 0) else Fail
  }

  function HexValue(c: char): int {
    if '0' <= c <= '9' then (c - '0') as int
    else if 'a' <= c <= 'f' then 10 + (c - 'a') as int
    else if 'A' <= c <= 'F' then 10 + (c - 'A') as int
    else -1
  }

  function Decode(s: string, out: string): (r: Parsed<string>)
    ensures r.Got? ==> r.rest == ""
  {
    if s == "" then Got(out, s)
    else if s[0] != '_' then Decode(s[1..], out + [s[0]])
    else if |s| < 2 then Fail
    else if s[1] == '_' then Decode(s[2..], out + "_")
    else if |s| < 3 || HexValue(s[1]) < 0 || HexValue(s[2]) < 0 then Fail
    else Decode(s[3..], out + [(HexValue(s[1]) * 16 + HexValue(s[2])) as char])
  }

  /** A decoded identifier is used as a C string, so it ends at its first zero byte. */
  function CString(s: string): string {
    if s == "" || s[0] == '\0' then "" else [s[0]] + CString(s[1..])
  }

  /** `mbt_parse_identifier` */
  function Identifier(s: string): (r: Parsed<string>)
    ensures r.Got? ==> |r.rest| < |s|
  {
    match Number(s)
    case Fail => Fail
    case Got(n, t) =>
      if |t| < n then Fail
      else match Decode(t[..n], "")
        case Fail => Fail
        case Got(name, _) => Got(CString(name), t[n..])
  }

  /** `mbt_parse_package_segments`, with `i` segments already read. */
  function Segments(s: string, count: nat, i: nat, out: string): (r: Parsed<string>)
    ensures r.Got? ==> |r.rest| <= |s|
    decreases count - i
  {
    if i >= count then Got(out, s)
    else match Identifier(s)
      case Fail => Fail
      case Got(seg, t) => Segments(t, count, i + 1, (if i > 0 then out + "/" else out) + seg)
  }

  /** A count and that many segments: first with every digit ahead taken for the count, then with one. */
  function Counted(s: string): (r: Parsed<string>)
    ensures r.Got? ==> |r.rest| < |s|
  {
    match Number(s)
    case Fail => Fail
    case Got(count, t) =>
      match Segments(t, count, 0, "")
      case Got(name, u) => Got(name, u)
      case Fail => Segments(s[1..], (s[0] - '0') as nat, 0, "")
  }

  /** `mbt_parse_package` */
  function Package(s: string): (r: Parsed<string>)
    ensures r.Got? ==> |r.rest| < |s|
  {
    if Head(s) != 'P' then Fail
    else if Head(s[1..]) == 'B' then Got("moonbitlang/core/builtin", s[2..])
    else if Head(s[1..]) == 'C' then
      match Counted(s[2..])
      case Fail => Fail
      case Got(suffix, t) => Got(if suffix == "" then "moonbitlang/core" else "moonbitlang/core/" + suffix, t)
    else Counted(s[1..])
  }

  /** `@package.name`, without the package and its dot when it is empty. */
  function At(out: string, package: string, name: string): string {
    (if package == "" then out + "@" else out + "@" + package + ".") + name
  }

  /** The optional local part `L<identifier>` of a path. */
  function LocalPart(s: string, name: string): (r: Parsed<string>)
    ensures r.Got? ==> |r.rest| <= |s|
  {
    if Head(s) != 'L' then Got(name, s)
    else match Identifier(s[1..])
      case Fail => Fail
      case Got(local, t) => Got(name + "." + local, t)
  }

  /** `mbt_append_type_path` */
  function TypePath(s: string, out: string): (r: Parsed<string>)
    ensures r.Got? ==> |r.rest| < |s|
  {
    match Package(s)
    case Fail => Fail
    case Got(package, t) =>
      match Identifier(t)
      case Fail => Fail
      case Got(name, u) =>
        match LocalPart(u, name)
        case Fail => Fail
        case Got(full, v) => Got(At(out, package, full), v)
  }

  /** The types up to a closing `E`, which stays ahead. */
  function TypeList(s: string, out: string, first: bool): (r: Parsed<string>)
    ensures r.Got? ==> |r.rest| <= |s|
    decreases |s|, 2
  {
    if Head(s) == '\0' || Head(s) == 'E' then Got(out, s)
    else match TypeArg(s, if first then out else out + ", ")
      case Fail => Fail
      case Got(text, t) => TypeList(t, text, false)
  }

  /** Types up to `E`, the `E` itself, and the text that closes the list. */
  function Closed(s: string, out: string, close: string): (r: Parsed<string>)
    ensures r.Got? ==> |r.rest| < |s|
    decreases |s|, 3
  {
    match TypeList(s, out, true)
    case Fail => Fail
    case Got(text, t) => if Head(t) != 'E' then Fail else Got(text + close, t[1..])
  }

  /** A raise clause, if its mark is ahead. */
  function RaiseClause(s: string, mark: char, out: string): (r: Parsed<string>)
    ensures r.Got? ==> |r.rest| <= |s|
    decreases |s|, 2
  {
    if Head(s) != mark || s == "" then Got(out, s) else TypeArg(s[1..], out + " raise ")
  }

  /** `mbt_parse_type_args` */
  function TypeArgs(s: string, out: string): (r: Parsed<string>)
    ensures r.Got? ==> |r.rest| <= |s|
    decreases |s|, 3
  {
    if Head(s) == 'H' then TypeArg(s[1..], out + " raise ")
    else if Head(s) != 'G' then Got(out, s)
    else match Closed(s[1..], out + "[", "]")
      case Fail => Fail
      case Got(text, t) => RaiseClause(t, 'H', text)
  }

  /** `mbt_parse_fn_type` */
  function FnType(s: string, out: string, async: bool): (r: Parsed<string>)
    ensures r.Got? ==> |r.rest| < |s|
    decreases |s|, 0
  {
    if Head(s) != 'W' then Fail
    else match Closed(s[1..], (if async then out + "async " else out) + "(", ") -> ")
      case Fail => Fail
      case Got(text, t) =>
        match TypeArg(t, text)
        case Fail => Fail
        case Got(full, u) => RaiseClause(u, 'Q', full)
  }

  /** `mbt_parse_type_ref` */
  function TypeRef(s: string, out: string): (r: Parsed<string>)
    ensures r.Got? ==> |r.rest| < |s|
    decreases |s|, 0
  {
    if Head(s) != 'R' then Fail
    else match TypePath(s[1..], out)
      case Fail => Fail
      case Got(text, t) => if Head(t) == 'G' then TypeArgs(t, text) else Got(text, t)
  }

  function PrimName(c: char): string {
    match c
    case 'i' => "Int" case 'l' => "Int64" case 'h' => "Int16" case 'j' => "UInt" case 'k' => "UInt16"
    case 'm' => "UInt64" case 'd' => "Double" case 'f' => "Float" case 'b' => "Bool" case 'c' => "Char"
    case 's' => "String" case 'u' => "Unit" case 'y' => "Byte" case 'z' => "Bytes" case 'v' => "V128"
    case _ => ""
  }

  /** One type in brackets: `FixedArray[..]` and `Option[..]`. */
  function Wrapped(s: string, out: string): (r: Parsed<string>)
    ensures r.Got? ==> |r.rest| < |s|
    decreases |s|, 2
  {
    match TypeArg(s, out)
    case Fail => Fail
    case Got(text, t) => Got(text + "]", t)
  }

  /** `mbt_parse_type_arg` */
  function TypeArg(s: string, out: string): (r: Parsed<string>)
    ensures r.Got? ==> |r.rest| < |s|
    decreases |s|, 1
  {
    if s == "" then Fail
    else match Head(s)
      case 'A' => Wrapped(s[1..], out + "FixedArray[")
      case 'O' => Wrapped(s[1..], out + "Option[")
      case 'U' => Closed(s[1..], out + "(", ")")
      case 'V' => FnType(s[1..], out, true)
      case 'W' => FnType(s, out, false)
      case 'R' => TypeRef(s, out)
      case c => if PrimName(c) == "" then Fail else Got(out + PrimName(c), s[1..])
  }

  // -------------------------------------------------------------------- symbols

  /** `mbt_skip_decimal` and `mbt_parse_decimal_span`: one or more digits, as written. */
  function Span(s: string): (r: Parsed<string>)
    ensures r.Got? ==> |r.rest| < |s|
  {
    if !AtDigit(s) then Fail
    else match Span(s[1..])
      case Fail => Got([s[0]], s[1..])
      case Got(digits, t) => Got([s[0]] + digits, t)
  }

  /** One lifted part behind its `N`: an identifier, `S` and a number that is not shown. */
  function LiftedPart(s: string): (r: Parsed<string>)
    ensures r.Got? ==> |r.rest| < |s|
  {
    match Identifier(s)
    case Fail => Fail
    case Got(nested, t) =>
      if Head(t) != 'S' then Fail
      else match Span(t[1..])
        case Fail => Fail
        case Got(_, u) => Got(nested, u)
  }

  /** `mbt_parse_lifted_suffixes` */
  function LiftedSuffixes(s: string, out: string): (r: Parsed<string>)
    ensures r.Got? ==> |r.rest| <= |s|
    decreases |s|
  {
    if Head(s) != 'N' then Got(out, s)
    else match LiftedPart(s[1..])
      case Fail => Fail
      case Got(nested, t) => LiftedSuffixes(t, out + "." + nested)
  }

  /** `mbt_parse_closure_suffix` */
  function ClosureSuffix(s: string, out: string): Parsed<string> {
    if Head(s) != 'C' then Got(out, s)
    else match Span(s[1..])
      case Fail => Fail
      case Got(_, t) =>
        if Head(t) != 'l' then Got(out + ".anon", t)
        else match Span(t[1..])
          case Fail => Fail
          case Got(line, u) => Got(out + ".anon(l" + line + ")", u)
  }

  /** `mbt_parse_fn_suffixes` */
  function FnSuffixes(s: string, out: string): Parsed<string> {
    match LiftedSuffixes(s, out)
    case Fail => Fail
    case Got(text, t) => ClosureSuffix(t, text)
  }

  /** What the tags of functions share: suffixes, type arguments, suffixes. */
  function FnTail(s: string, out: string): Parsed<string> {
    match FnSuffixes(s, out)
    case Fail => Fail
    case Got(text, t) =>
      match TypeArgs(t, text)
      case Fail => Fail
      case Got(full, u) => FnSuffixes(u, full)
  }

  /** A package and an identifier. */
  function PackageAndName(s: string): Parsed<(string, string)> {
    match Package(s)
    case Fail => Fail
    case Got(package, t) =>
      match Identifier(t)
      case Fail => Fail
      case Got(name, u) => Got((package, name), u)
  }

  function TagF(s: string): Parsed<string> {
    match PackageAndName(s)
    case Fail => Fail
    case Got(p, t) => FnTail(t, At("", p.0, p.1))
  }

  function TagM(s: string): Parsed<string> {
    match PackageAndName(s)
    case Fail => Fail
    case Got(p, t) =>
      match Identifier(t)
      case Fail => Fail
      case Got(name, u) => FnTail(u, At("", p.0, p.1) + "::" + name)
  }

  /** The type arguments and the suffixes of an implementation are collected apart. */
  function ImplTail(s: string): Parsed<(string, string)> {
    match FnSuffixes(s, "")
    case Fail => Fail
    case Got(before, t) =>
      match TypeArgs(t, "")
      case Fail => Fail
      case Got(args, u) =>
        match FnSuffixes(u, before)
        case Fail => Fail
        case Got(suffixes, v) => Got((args, suffixes), v)
  }

  function TagI(s: string): Parsed<string> {
    match TypePath(s, "")
    case Fail => Fail
    case Got(impl, t) =>
      match TypePath(t, "")
      case Fail => Fail
      case Got(iface, u) =>
        match Identifier(u)
        case Fail => Fail
        case Got(name, v) =>
          match ImplTail(v)
          case Fail => Fail
          case Got(tail, w) =>
            Got("impl " + iface + " for " + impl + tail.0 + " with " + name + tail.1, w)
  }

  /** `mbt_pkg_is_core` */
  predicate IsCore(package: string) {
    "moonbitlang/core" <= package && (|package| == 16 || package[16] == '/')
  }

  function TagE(s: string): Parsed<string> {
    match PackageAndName(s)
    case Fail => Fail
    case Got(p, t) =>
      match PackageAndName(t)
      case Fail => Fail
      case Got(q, u) =>
        var out := if q.0 == "" then "@" else "@" + q.0 + ".";
        var shown := if IsCore(p.0) || p.0 == "" then out else out + p.0 + ".";
        FnTail(u, shown + p.1 + "::" + q.1)
  }

  function TagL(s: string): Parsed<string> {
    match Identifier(if Head(s) == 'm' then s[1..] else s)
    case Fail => Fail
    case Got(name, t) =>
      if Head(t) != 'S' then Fail
      else match Span(t[1..])
        case Fail => Fail
        case Got(_, u) => Got("@" + if Head(name) == '$' then name[1..] else name, u)
  }

  function Tagged(s: string): Parsed<string> {
    if s == "" then Fail
    else match s[0]
      case 'F' => TagF(s[1..])
      case 'M' => TagM(s[1..])
      case 'I' => TagI(s[1..])
      case 'E' => TagE(s[1..])
      case 'T' => TypePath(s[1..], "")
      case 'L' => TagL(s[1..])
      case _ => Fail
  }

  /** Where a mangled name may stop: at the end, or at one of three marks. */
  predicate Stops(s: string) {
    s == "" || s[0] in ".$@"
  }

  /** `demangle`: the name itself when it is not understood. */
  function Demangle(name: string): string {
    var s := if Head(name) == '$' then name[1..] else name;
    if !("_M0" <= s) then name
    else match Tagged(s[3..])
      case Fail => name
      case Got(text, rest) => if Stops(rest) then text else name
  }
}
