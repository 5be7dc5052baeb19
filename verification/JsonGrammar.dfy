/** What `json11`'s parser accepts and what it makes of it: the specification the
    `JsonParser` class is proved against.

    Every function takes the text and a position and yields a value with the position
    behind it, or the first error.  Reading at the text's length yields NUL, as
    `std::string` does. */
module JsonGrammar {
  import opened Bytes
  import opened JsonValues
  import opened JsonStrings

  const MAX_DEPTH: nat := 200
  const INT_DIGITS: nat := 9  // std::numeric_limits<int>::digits10

  datatype Strategy = Standard | Comments

  datatype Error =
    | TooDeep
    | EndOfInput
    | EndAfterSlash
    | EndInComment
    | MalformedComment
    | EndInString
    | ControlInString(c: byte)
    | BadUnicodeEscape
    | InvalidEscape(c: byte)
    | LeadingZero
    | InvalidNumber(c: byte)
    | NoFractionDigit
    | NoExponentDigit
    | NotLiteral(expected: seq<byte>)
    | ExpectedKey(c: byte)
    | ExpectedColon(c: byte)
    | ExpectedCommaInObject(c: byte)
    | ExpectedCommaInList(c: byte)
    | ExpectedValue(c: byte)
    | Trailing(c: byte)

  datatype Result<+T> = Ok(value: T, at: nat) | Fail(error: Error)

  const SLASH: byte := 0x2F
  const STAR: byte := 0x2A
  const NEWLINE: byte := 0x0A
  const COMMA: byte := 0x2C
  const COLON: byte := 0x3A
  const LBRACKET: byte := 0x5B
  const RBRACKET: byte := 0x5D
  const LBRACE: byte := 0x7B
  const RBRACE: byte := 0x7D
  const MINUS: byte := 0x2D
  const TRUE_TEXT: seq<byte> := [0x74, 0x72, 0x75, 0x65]
  const FALSE_TEXT: seq<byte> := [0x66, 0x61, 0x6C, 0x73, 0x65]
  const NULL_TEXT: seq<byte> := [0x6E, 0x75, 0x6C, 0x6C]

  /* ---- white space and comments ------------------------------------------------- */

  predicate IsSpace(b: byte) {
    b == 0x20 || b == 0x0D || b == 0x0A || b == 0x09
  }

  function SkipSpace(s: seq<byte>, i: nat): (j: nat)
    requires i <= |s|
    ensures i <= j <= |s| && !IsSpace(ByteAt(s, j))
    decreases |s| - i
  {
    if IsSpace(ByteAt(s, i)) then SkipSpace(s, i + 1) else i
  }

  function LineEnd(s: seq<byte>, i: nat): (j: nat)
    requires i <= |s|
    ensures i <= j <= |s|
    decreases |s| - i
  {
    if i < |s| && s[i] != NEWLINE then LineEnd(s, i + 1) else i
  }

  /** From inside a block comment to behind its end. */
  function BlockEnd(s: seq<byte>, i: nat): (r: Result<bool>)
    ensures r.Ok? ==> r.value && i + 2 <= r.at <= |s|
    decreases |s| - i
  {
    if i + 2 > |s| then Fail(EndInComment)
    else if s[i] == STAR && s[i + 1] == SLASH then Ok(true, i + 2)
    else BlockEnd(s, i + 1)
  }

  /** `consume_comment`: whether there was one. */
  function Comment(s: seq<byte>, i: nat): (r: Result<bool>)
    requires i <= |s|
    ensures r.Ok? ==> i <= r.at <= |s| && (r.value ==> i < r.at) && (!r.value ==> r.at == i)
  {
    if ByteAt(s, i) != SLASH then Ok(false, i)
    else if i + 1 == |s| then Fail(EndAfterSlash)
    else if s[i + 1] == SLASH then Ok(true, LineEnd(s, i + 2))
    else if s[i + 1] == STAR then BlockEnd(s, i + 2)
    else Fail(MalformedComment)
  }

  function SkipComments(s: seq<byte>, i: nat): (r: Result<()>)
    requires i <= |s|
    ensures r.Ok? ==> i <= r.at <= |s|
    decreases |s| - i
  {
    match Comment(s, i)
    case Fail(e) => Fail(e)
    case Ok(found, j) => if found then SkipComments(s, SkipSpace(s, j)) else Ok((), SkipSpace(s, j))
  }

  /** `consume_garbage`. */
  function Garbage(s: seq<byte>, m: Strategy, i: nat): (r: Result<()>)
    requires i <= |s|
    ensures r.Ok? ==> i <= r.at <= |s|
  {
    var j := SkipSpace(s, i);
    if m.Standard? then Ok((), j) else SkipComments(s, j)
  }

  /** `get_next_token`. */
  function Token(s: seq<byte>, m: Strategy, i: nat): (r: Result<byte>)
    requires i <= |s|
    ensures r.Ok? ==> i < r.at <= |s| && r.value == s[r.at - 1]
  {
    match Garbage(s, m, i)
    case Fail(e) => Fail(e)
    case Ok(_, j) => if j == |s| then Fail(EndOfInput) else Ok(s[j], j + 1)
  }

  /* ---- strings ---------------------------------------------------------------------- */

  predicate IsHex(b: byte) {
    0x61 <= b <= 0x66 || 0x41 <= b <= 0x46 || 0x30 <= b <= 0x39
  }

  function HexValue(b: byte): (n: nat)
    requires IsHex(b)
    ensures n < 16
  {
    if b <= 0x39 then b - 0x30 else if b <= 0x46 then b - 0x41 + 10 else b - 0x61 + 10
  }

  predicate AllHex(s: seq<byte>) {
    forall k :: 0 <= k < |s| ==> IsHex(s[k])
  }

  function Hex4(s: seq<byte>): u16
    requires |s| == 4 && AllHex(s)
  {
    HexValue(s[0]) * 0x1000 + HexValue(s[1]) * 0x100 + HexValue(s[2]) * 0x10 + HexValue(s[3])
  }

  /** What the short escapes stand for. */
  function ShortEscape(c: byte): Result<byte> {
    if c == 0x62 then Ok(8, 0)
    else if c == 0x66 then Ok(12, 0)
    else if c == 0x6E then Ok(10, 0)
    else if c == 0x72 then Ok(13, 0)
    else if c == 0x74 then Ok(9, 0)
    else if c == QUOTE || c == BACKSLASH || c == SLASH then Ok(c, 0)
    else Fail(InvalidEscape(c))
  }

  /** The next unit of a string literal, if it does not end here. */
  function NextUnit(s: seq<byte>, i: nat): (r: Result<Unit>)
    requires i < |s| && s[i] != QUOTE
    ensures r.Ok? ==> i < r.at <= |s|
  {
    if s[i] <= 0x1F then Fail(ControlInString(s[i]))
    else if s[i] != BACKSLASH then Ok(Raw(s[i]), i + 1)
    else if i + 1 == |s| then Fail(EndInString)
    else if s[i + 1] == 0x75 then
      if i + 6 > |s| || !AllHex(s[i + 2..i + 6]) then Fail(BadUnicodeEscape)
      else Ok(Esc(Hex4(s[i + 2..i + 6])), i + 6)
    else
      match ShortEscape(s[i + 1])
      case Fail(e) => Fail(e)
      case Ok(b, _) => Ok(Raw(b), i + 2)
  }

  /** The units of a string literal, up to and over its closing quote. */
  function Scan(s: seq<byte>, i: nat): (r: Result<seq<Unit>>)
    requires i <= |s|
    ensures r.Ok? ==> i < r.at <= |s|
    decreases |s| - i
  {
    if i == |s| then Fail(EndInString)
    else if s[i] == QUOTE then Ok([], i + 1)
    else
      match NextUnit(s, i)
      case Fail(e) => Fail(e)
      case Ok(u, j) =>
        match Scan(s, j)
        case Fail(e) => Fail(e)
        case Ok(units, k) => Ok([u] + units, k)
  }

  /** `parse_string`. */
  function StringLiteral(s: seq<byte>, i: nat): (r: Result<seq<byte>>)
    requires i <= |s|
    ensures r.Ok? ==> i < r.at <= |s|
  {
    match Scan(s, i)
    case Fail(e) => Fail(e)
    case Ok(units, j) => Ok(Assemble(units), j)
  }

  /* ---- numbers ------------------------------------------------------------------------ */

  predicate IsDigit(b: byte) {
    0x30 <= b <= 0x39
  }

  function DigitValue(b: byte): (n: nat)
    requires IsDigit(b)
    ensures n < 10
  {
    b - 0x30
  }

  predicate AllDigits(digits: seq<byte>) {
    forall k :: 0 <= k < |digits| ==> IsDigit(digits[k])
  }

  function SkipDigits(s: seq<byte>, i: nat): (j: nat)
    requires i <= |s|
    ensures i <= j <= |s| && !IsDigit(ByteAt(s, j)) && AllDigits(s[i..j])
    decreases |s| - i
  {
    if IsDigit(ByteAt(s, i)) then
      var j := SkipDigits(s, i + 1);
      assert s[i..j] == [s[i]] + s[i + 1..j];
      j
    else i
  }

  function NatValue(digits: seq<byte>): nat
    requires AllDigits(digits)
  {
    if digits == [] then 0 else NatValue(digits[..|digits| - 1]) * 10 + DigitValue(digits[|digits| - 1])
  }

  function Pow10(n: nat): (p: nat)
    ensures p > 0
  {
    if n == 0 then 1 else 10 * Pow10(n - 1)
  }

  lemma {:induction false} NatValueBound(digits: seq<byte>)
    requires AllDigits(digits)
    ensures NatValue(digits) < Pow10(|digits|)
  {
    if digits != [] {
      NatValueBound(digits[..|digits| - 1]);
    }
  }

  function Negate(neg: bool, x: real): real {
    if neg then -x else x
  }

  /** The decimal number with this integer part, fraction digits and exponent, exactly. */
  function Decimal(neg: bool, whole: nat, fraction: nat, places: nat, exponent: int): real {
    var mantissa := whole as real + fraction as real / Pow10(places) as real;
    Negate(neg, if exponent >= 0 then mantissa * Pow10(exponent) as real else mantissa / Pow10(-exponent) as real)
  }

  /** Where the integer part of a number ends. */
  function WholeEnd(s: seq<byte>, i: nat): (r: Result<()>)
    requires i <= |s|
    ensures r.Ok? ==> i < r.at <= |s| && AllDigits(s[i..r.at])
  {
    if ByteAt(s, i) == 0x30 then
      if IsDigit(ByteAt(s, i + 1)) then Fail(LeadingZero) else Ok((), i + 1)
    else if IsDigit(ByteAt(s, i)) then
      var j := SkipDigits(s, i + 1);
      assert s[i..j] == [s[i]] + s[i + 1..j];
      Ok((), j)
    else Fail(InvalidNumber(ByteAt(s, i)))
  }

  /** The fraction, if there is one: its digits' value and their number. */
  function Fraction(s: seq<byte>, i: nat): (r: Result<(nat, nat)>)
    requires i <= |s|
    ensures r.Ok? ==> i <= r.at <= |s|
  {
    if ByteAt(s, i) != 0x2E then Ok((0, 0), i)
    else if !IsDigit(ByteAt(s, i + 1)) then Fail(NoFractionDigit)
    else
      var j := SkipDigits(s, i + 1);
      Ok((NatValue(s[i + 1..j]), j - (i + 1)), j)
  }

  predicate IsExponentMark(b: byte) {
    b == 0x65 || b == 0x45
  }

  function Exponent(s: seq<byte>, i: nat): (r: Result<int>)
    requires i <= |s|
    ensures r.Ok? ==> i <= r.at <= |s|
  {
    if !IsExponentMark(ByteAt(s, i)) then Ok(0, i)
    else
      var signed := ByteAt(s, i + 1) == 0x2B || ByteAt(s, i + 1) == MINUS;
      var j := if signed then i + 2 else i + 1;
      if !IsDigit(ByteAt(s, j)) then Fail(NoExponentDigit)
      else
        var k := SkipDigits(s, j);
        Ok(if ByteAt(s, i + 1) == MINUS then -(NatValue(s[j..k]) as int) else NatValue(s[j..k]), k)
  }

  /** `parse_number`: short integers as `int` through `atoi`, the rest as `double`. */
  function Number(s: seq<byte>, i: nat): (r: Result<Json>)
    requires i <= |s|
    ensures r.Ok? ==> i < r.at <= |s|
  {
    var neg := ByteAt(s, i) == MINUS;
    var start := if neg then i + 1 else i;
    match WholeEnd(s, start)
    case Fail(e) => Fail(e)
    case Ok(_, j) =>
      var whole := NatValue(s[start..j]);
      if ByteAt(s, j) != 0x2E && !IsExponentMark(ByteAt(s, j)) && j - i <= INT_DIGITS then
        NatValueBound(s[start..j]);
        PowMonotone(j - start, INT_DIGITS);
        Ok(Int(if neg then -(whole as int) else whole), j)
      else
        match Fraction(s, j)
        case Fail(e) => Fail(e)
        case Ok(f, k) =>
          match Exponent(s, k)
          case Fail(e) => Fail(e)
          case Ok(x, l) => Ok(Double(Decimal(neg, whole, f.0, f.1, x)), l)
  }

  lemma PowMonotone(a: nat, b: nat)
    requires a <= b
    ensures Pow10(a) <= Pow10(b)
    ensures Pow10(INT_DIGITS) == 10_0000_0000
  {
    assert Pow10(4) == 1_0000 by { assert Pow10(2) == 100; }
    assert Pow10(6) == 100_0000;
    assert Pow10(8) == 1_0000_0000;
  }

  /* ---- values ---------------------------------------------------------------------------- */

  /** `expect`, from the first character of the literal. */
  function Literal(s: seq<byte>, i: nat, text: seq<byte>, v: Json): (r: Result<Json>)
    ensures r.Ok? ==> r.value == v && r.at == i + |text| <= |s|
  {
    if i + |text| <= |s| && s[i..i + |text|] == text then Ok(v, i + |text|) else Fail(NotLiteral(text))
  }

  /** `parse_json`. */
  function Value(s: seq<byte>, m: Strategy, i: nat, depth: nat): (r: Result<Json>)
    requires i <= |s| && depth <= MAX_DEPTH + 1
    ensures r.Ok? ==> i < r.at <= |s|
    decreases MAX_DEPTH + 1 - depth, |s| + 1
  {
    if depth > MAX_DEPTH then Fail(TooDeep)
    else
      match Token(s, m, i)
      case Fail(e) => Fail(e)
      case Ok(ch, j) =>
        if ch == MINUS || IsDigit(ch) then Number(s, j - 1)
        else if ch == TRUE_TEXT[0] then Literal(s, j - 1, TRUE_TEXT, Bool(true))
        else if ch == FALSE_TEXT[0] then Literal(s, j - 1, FALSE_TEXT, Bool(false))
        else if ch == NULL_TEXT[0] then Literal(s, j - 1, NULL_TEXT, Null)
        else if ch == QUOTE then
          match StringLiteral(s, j)
          case Fail(e) => Fail(e)
          case Ok(text, k) => Ok(Str(text), k)
        else if ch == LBRACE then
          match Token(s, m, j)
          case Fail(e) => Fail(e)
          case Ok(c, k) => if c == RBRACE then Ok(Obj([]), k) else Members(s, m, c, k, depth, [])
        else if ch == LBRACKET then
          match Token(s, m, j)
          case Fail(e) => Fail(e)
          case Ok(c, k) => if c == RBRACKET then Ok(Arr([]), k) else Elements(s, m, k - 1, depth, [])
        else Fail(ExpectedValue(ch))
  }

  /** The array loop of `parse_json`, with the values it has collected. */
  function Elements(s: seq<byte>, m: Strategy, i: nat, depth: nat, items: seq<Json>): (r: Result<Json>)
    requires i <= |s| && depth <= MAX_DEPTH
    ensures r.Ok? ==> i < r.at <= |s|
    decreases MAX_DEPTH + 1 - depth, |s| - i
  {
    match Value(s, m, i, depth + 1)
    case Fail(e) => Fail(e)
    case Ok(v, j) =>
      match Token(s, m, j)
      case Fail(e) => Fail(e)
      case Ok(c, k) =>
        if c == RBRACKET then Ok(Arr(items + [v]), k)
        else if c != COMMA then Fail(ExpectedCommaInList(c))
        else
          match Token(s, m, k)
          case Fail(e) => Fail(e)
          case Ok(_, l) => Elements(s, m, l - 1, depth, items + [v])
  }

  /** The object loop of `parse_json`; `ch` is the token just read. */
  function Members(s: seq<byte>, m: Strategy, ch: byte, i: nat, depth: nat, members: seq<Member>): (r: Result<Json>)
    requires i <= |s| && depth <= MAX_DEPTH
    ensures r.Ok? ==> i < r.at <= |s|
    decreases MAX_DEPTH + 1 - depth, |s| - i
  {
    if ch != QUOTE then Fail(ExpectedKey(ch))
    else
      match StringLiteral(s, i)
      case Fail(e) => Fail(e)
      case Ok(key, j) =>
        match Token(s, m, j)
        case Fail(e) => Fail(e)
        case Ok(colon, k) =>
          if colon != COLON then Fail(ExpectedColon(colon))
          else
            match Value(s, m, k, depth + 1)
            case Fail(e) => Fail(e)
            case Ok(v, l) =>
              match Token(s, m, l)
              case Fail(e) => Fail(e)
              case Ok(c, n) =>
                var members' := Insert(members, key, v);
                if c == RBRACE then Ok(Obj(members'), n)
                else if c != COMMA then Fail(ExpectedCommaInObject(c))
                else
                  match Token(s, m, n)
                  case Fail(e) => Fail(e)
                  case Ok(next, o) => Members(s, m, next, o, depth, members')
  }

  /** `Json::parse`. */
  function Parse(s: seq<byte>, m: Strategy): (r: Result<Json>)
    ensures r.Ok? ==> r.at == |s|
  {
    match Value(s, m, 0, 0)
    case Fail(e) => Fail(e)
    case Ok(v, i) =>
      match Garbage(s, m, i)
      case Fail(e) => Fail(e)
      case Ok(_, j) => if j != |s| then Fail(Trailing(s[j])) else Ok(v, j)
  }
}
