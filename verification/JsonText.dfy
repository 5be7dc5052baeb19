/** What `Json::dump` writes. */
module JsonText {
  import opened Bytes
  import opened JsonValues
  import opened JsonStrings
  import opened JsonGrammar

  const COMMA_SPACE: seq<byte> := [0x2C, 0x20]
  const COLON_SPACE: seq<byte> := [0x3A, 0x20]

  /** Decimal digits of a number, without leading zeros. */
  function Digits(n: nat): (d: seq<byte>)
    ensures |d| > 0 && AllDigits(d)
  {
    if n < 10 then [0x30 + n] else Digits(n / 10) + [0x30 + n % 10]
  }

  /** `%d`. */
  function DumpInt(n: int): seq<byte> {
    if n < 0 then [MINUS] + Digits(-n) else Digits(n)
  }

  /** Values whose numbers are all ints: those whose text does not depend on how
      floating-point numbers are formatted. */
  ghost predicate Printable(v: Json)
    decreases v, 1
  {
    match v
    case Double(_) => false
    case Arr(items) => PrintableItems(items)
    case Obj(members) => PrintableMembers(members)
    case _ => true
  }

  ghost predicate PrintableItems(items: seq<Json>)
    decreases items, 0
  {
    items == [] || (Printable(items[0]) && PrintableItems(items[1..]))
  }

  ghost predicate PrintableMembers(members: seq<Member>)
    decreases members, 0
  {
    members == [] || (Printable(members[0].value) && PrintableMembers(members[1..]))
  }

  /** `Json::dump`. */
  function Dump(v: Json): (text: seq<byte>)
    requires Printable(v)
    decreases v, 2
  {
    match v
    case Null => NULL_TEXT
    case Int(n) => DumpInt(n)
    case Bool(b) => if b then TRUE_TEXT else FALSE_TEXT
    case Str(s) => DumpString(s)
    case Arr(items) => [LBRACKET] + DumpItems(items, true)
    case Obj(members) => [LBRACE] + DumpMembers(members, true)
  }

  /** The values of an array from some point on, each but the very first behind a comma,
      and the closing bracket. */
  function DumpItems(items: seq<Json>, first: bool): (text: seq<byte>)
    requires PrintableItems(items)
    ensures text != []
    decreases items, 0
  {
    if items == [] then [RBRACKET]
    else Separator(first) + (Dump(items[0]) + DumpItems(items[1..], false))
  }

  function Separator(first: bool): seq<byte> {
    if first then [] else COMMA_SPACE
  }

  function DumpMembers(members: seq<Member>, first: bool): (text: seq<byte>)
    requires PrintableMembers(members)
    ensures text != []
    decreases members, 0
  {
    if members == [] then [RBRACE]
    else Separator(first) + (DumpMember(members[0]) + DumpMembers(members[1..], false))
  }

  function DumpMember(member: Member): seq<byte>
    requires Printable(member.value)
    decreases member, 3
  {
    DumpString(member.key) + (COLON_SPACE + Dump(member.value))
  }
}
