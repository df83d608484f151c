/** The mangled form of types and its readable rendering.  Both are written "onto" a text: `Spell(t, rest)` puts
    the mangled form in front of `rest`, `Render(t, out)` puts the readable form behind `out`; `SpellIsPrefix` and
    `RenderIsSuffix` say that this is plain concatenation. */
module MangleGrammar {
  const WORD: nat := 0x1_0000_0000

  predicate IsDigit(c: char) {
    '0' <= c <= '9'
  }

  predicate IsHex(c: char) {
    IsDigit(c) || 'a' <= c <= 'f' || 'A' <= c <= 'F'
  }

  function Nibble(c: char): nat
    requires IsHex(c)
  {
    if IsDigit(c) then (c - '0') as nat else if 'a' <= c then 10 + (c - 'a') as nat else 10 + (c - 'A') as nat
  }

  // ---------------------------------------------------------------- identifiers

  /** One character of an identifier, with every spelling the decoder takes: itself, a doubled underscore, or an
      underscore and two hexadecimal digits in either case. */
  datatype Piece = Raw(c: char) | Underscore | Hex(hi: char, lo: char) {
    /** No piece stands for the zero byte, which would end the decoded C string. */
    predicate Valid() {
      match this
      case Raw(c) => c != '_' && c != '\0'
      case Underscore => true
      case Hex(hi, lo) => IsHex(hi) && IsHex(lo) && Nibble(hi) * 16 + Nibble(lo) != 0
    }

    function Spelling(): string {
      match this
      case Raw(c) => [c]
      case Underscore => "__"
      case Hex(hi, lo) => ['_', hi, lo]
    }

    function Meaning(): char
      requires Valid()
    {
      match this
      case Raw(c) => c
      case Underscore => '_'
      case Hex(hi, lo) => (Nibble(hi) * 16 + Nibble(lo)) as char
    }
  }

  datatype Ident = End | Piece(head: Piece, tail: Ident) {
    predicate Pieces() {
      Piece? ==> head.Valid() && tail.Pieces()
    }

    function Encoded(): string {
      if End? then "" else head.Spelling() + tail.Encoded()
    }

    function Name(): string
      requires Pieces()
    {
      if End? then "" else [head.Meaning()] + tail.Name()
    }

    predicate Valid() {
      && Pieces()
      && Piece?
      && !(head.Raw? && IsDigit(head.c))
      && |Encoded()| < WORD
    }
  }

  function Digit(n: nat): char
    requires n < 10
  {
    '0' + n as char
  }

  function Decimal(n: nat, rest: string): string
    decreases n
  {
    if n < 10 then [Digit(n)] + rest else Decimal(n / 10, [Digit(n % 10)] + rest)
  }

  function SpellIdent(id: Ident, rest: string): string {
    Decimal(|id.Encoded()|, id.Encoded() + rest)
  }

  // ------------------------------------------------------------------- packages

  datatype Idents = NoIdent | Seg(head: Ident, tail: Idents) {
    function Count(): nat {
      if NoIdent? then 0 else 1 + tail.Count()
    }

    predicate Valid() {
      Seg? ==> head.Valid() && tail.Valid()
    }

    function Spell(rest: string): string {
      if NoIdent? then rest else SpellIdent(head, tail.Spell(rest))
    }

    function Joined(out: string, first: bool): string
      requires Valid()
    {
      if NoIdent? then out else tail.Joined((if first then out else out + "/") + head.Name(), false)
    }
  }

  /** The number a reader sees that takes the count of segments and the length of the next identifier for one
      decimal number. */
  function Greedy(count: nat, length: nat): nat {
    count * Power(length) + length
  }

  /** Ten to the number of decimal digits of `n`. */
  function Power(n: nat): (p: nat)
    ensures p > n
  {
    if n < 10 then 10 else 10 * Power(n / 10)
  }

  datatype PackagePath = Builtin | Core(segs: Idents) | Plain(segs: Idents) {
    predicate Valid() {
      Builtin? || segs.Valid()
    }

    /** The greedy number does not wrap to zero in 32 bits. */
    predicate Unwrapped() {
      Builtin? || segs.NoIdent? || Greedy(segs.Count(), |segs.head.Encoded()|) % WORD != 0
    }

    /** The count has one digit, and the greedy number does not wrap to zero. */
    predicate Readable() {
      Builtin? || (segs.Count() < 10 && Unwrapped())
    }

    function Spell(rest: string): string
      requires Valid()
    {
      match this
      case Builtin => "PB" + rest
      case Core(segs) => "PC" + Decimal(segs.Count(), segs.Spell(rest))
      case Plain(segs) => "P" + Decimal(segs.Count(), segs.Spell(rest))
    }

    function Name(): string
      requires Valid()
    {
      match this
      case Builtin => "moonbitlang/core/builtin"
      case Core(NoIdent) => "moonbitlang/core"
      case Core(segs) => "moonbitlang/core/" + segs.Joined("", true)
      case Plain(segs) => segs.Joined("", true)
    }
  }

  function Qualified(package: string, name: string): string {
    if package == "" then "@" + name else "@" + package + "." + name
  }

  datatype OptIdent = Absent | Local(id: Ident)

  datatype Path = Path(pkg: PackagePath, name: Ident, local: OptIdent) {
    predicate Valid() {
      pkg.Valid() && pkg.Readable() && name.Valid() && (local.Local? ==> local.id.Valid())
    }

    function Spell(rest: string): string
      requires Valid()
    {
      pkg.Spell(SpellIdent(name, if local.Absent? then rest else "L" + SpellIdent(local.id, rest)))
    }

    function Name(): string
      requires Valid()
    {
      Qualified(pkg.Name(), if local.Absent? then name.Name() else name.Name() + "." + local.id.Name())
    }
  }

  // ---------------------------------------------------------------------- types

  datatype Prim =
    Int | Int64 | Int16 | UInt | UInt16 | UInt64 | Double | Float | Bool | Char | String | Unit | Byte | Bytes | V128

  function Code(p: Prim): char {
    match p
    case Int => 'i' case Int64 => 'l' case Int16 => 'h' case UInt => 'j' case UInt16 => 'k' case UInt64 => 'm'
    case Double => 'd' case Float => 'f' case Bool => 'b' case Char => 'c' case String => 's' case Unit => 'u'
    case Byte => 'y' case Bytes => 'z' case V128 => 'v'
  }

  function Label(p: Prim): string {
    match p
    case Int => "Int" case Int64 => "Int64" case Int16 => "Int16" case UInt => "UInt" case UInt16 => "UInt16"
    case UInt64 => "UInt64" case Double => "Double" case Float => "Float" case Bool => "Bool" case Char => "Char"
    case String => "String" case Unit => "Unit" case Byte => "Byte" case Bytes => "Bytes" case V128 => "V128"
  }

  datatype Type =
    | Prim(prim: Prim)
    | FixedArray(elem: Type)
    | Option(elem: Type)
    | Tuple(items: Types)
    | Fn(async: bool, params: Types, result: Type, raise: Raise)
    | Ref(path: Path, args: Args)

  datatype Types = Nil | Cons(head: Type, tail: Types)

  datatype Raise = NoRaise | Raises(error: Type)

  datatype Args = NoArgs | Bracketed(types: Types, raise: Raise)

  /** Whether a reader of `t` would go on reading when `c` follows it. */
  predicate Absorbs(t: Type, c: char) {
    match t
    case Prim(_) => false
    case FixedArray(u) => Absorbs(u, c)
    case Option(u) => Absorbs(u, c)
    case Tuple(_) => false
    case Fn(_, _, r, NoRaise) => c == 'Q' || Absorbs(r, c)
    case Fn(_, _, _, Raises(e)) => Absorbs(e, c)
    case Ref(p, NoArgs) => c == 'G' || (c == 'L' && p.local.Absent?)
    case Ref(_, Bracketed(_, NoRaise)) => c == 'H'
    case Ref(_, Bracketed(_, Raises(e))) => Absorbs(e, c)
  }

  /** Every identifier and package inside is readable. */
  predicate Valid(t: Type) {
    match t
    case Prim(_) => true
    case FixedArray(u) => Valid(u)
    case Option(u) => Valid(u)
    case Tuple(ts) => AllValid(ts)
    case Fn(_, ps, r, e) => AllValid(ps) && Valid(r) && RaiseValid(e)
    case Ref(p, NoArgs) => p.Valid()
    case Ref(p, Bracketed(ts, e)) => p.Valid() && AllValid(ts) && RaiseValid(e)
  }

  predicate AllValid(ts: Types) {
    ts.Cons? ==> Valid(ts.head) && AllValid(ts.tail)
  }

  predicate RaiseValid(e: Raise) {
    e.Raises? ==> Valid(e.error)
  }

  /** No raise clause follows a result type that would take it for its own. */
  predicate Settled(t: Type) {
    match t
    case Prim(_) => true
    case FixedArray(u) => Settled(u)
    case Option(u) => Settled(u)
    case Tuple(ts) => AllSettled(ts)
    case Fn(_, ps, r, e) => AllSettled(ps) && Settled(r) && RaiseSettled(e) && (e.Raises? ==> !Absorbs(r, 'Q'))
    case Ref(_, NoArgs) => true
    case Ref(_, Bracketed(ts, e)) => AllSettled(ts) && RaiseSettled(e)
  }

  predicate AllSettled(ts: Types) {
    ts.Cons? ==> Settled(ts.head) && AllSettled(ts.tail)
  }

  predicate RaiseSettled(e: Raise) {
    e.Raises? ==> Settled(e.error)
  }

  function Spell(t: Type, rest: string): string
    requires Valid(t)
    decreases t
  {
    match t
    case Prim(p) => [Code(p)] + rest
    case FixedArray(u) => "A" + Spell(u, rest)
    case Option(u) => "O" + Spell(u, rest)
    case Tuple(ts) => "U" + SpellAll(ts, "E" + rest)
    case Fn(async, ps, r, e) =>
      (if async then "VW" else "W") + SpellAll(ps, "E" + Spell(r, SpellRaise(e, 'Q', rest)))
    case Ref(p, NoArgs) => "R" + p.Spell(rest)
    case Ref(p, Bracketed(ts, e)) => "R" + p.Spell("G" + SpellAll(ts, "E" + SpellRaise(e, 'H', rest)))
  }

  function SpellAll(ts: Types, rest: string): string
    requires AllValid(ts)
    decreases ts
  {
    if ts.Nil? then rest else Spell(ts.head, SpellAll(ts.tail, rest))
  }

  function SpellRaise(e: Raise, mark: char, rest: string): string
    requires RaiseValid(e)
    decreases e
  {
    if e.NoRaise? then rest else [mark] + Spell(e.error, rest)
  }

  function Render(t: Type, out: string): string
    requires Valid(t)
    decreases t
  {
    match t
    case Prim(p) => out + Label(p)
    case FixedArray(u) => Render(u, out + "FixedArray[") + "]"
    case Option(u) => Render(u, out + "Option[") + "]"
    case Tuple(ts) => RenderAll(ts, out + "(", true) + ")"
    case Fn(async, ps, r, e) =>
      RenderRaise(e, Render(r, RenderAll(ps, (if async then out + "async " else out) + "(", true) + ") -> "))
    case Ref(p, NoArgs) => out + p.Name()
    case Ref(p, Bracketed(ts, e)) => RenderRaise(e, RenderAll(ts, out + p.Name() + "[", true) + "]")
  }

  function RenderAll(ts: Types, out: string, first: bool): string
    requires AllValid(ts)
    decreases ts
  {
    if ts.Nil? then out else RenderAll(ts.tail, Render(ts.head, if first then out else out + ", "), false)
  }

  function RenderRaise(e: Raise, out: string): string
    requires RaiseValid(e)
    decreases e
  {
    if e.NoRaise? then out else Render(e.error, out + " raise ")
  }
}
