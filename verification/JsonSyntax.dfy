/**
 * The grammar of RFC 8259, sections 2 to 7, as syntax trees: what a text may be made of, the text of
 * each tree, and what it means. A byte from 0x80 up counts as an unescaped character, as the parser
 * does not look into UTF-8. The white space around a structural character is kept with its neighbours;
 * with json11's second strategy it may hold comments, which the RFC does not have.
 */
module JsonSyntax {
  import opened Bytes
  import opened JsonValues
  import opened JsonStrings
  import opened JsonGrammar

  /* ---- strings (section 7) -------------------------------------------------------------------- */

  datatype Char = Plain(b: byte) | Short(c: byte) | Hex(digits: seq<byte>)

  predicate CharOk(c: Char) {
    match c
    case Plain(b) => b >= 0x20 && b != QUOTE && b != BACKSLASH
    case Short(e) => e in {QUOTE, BACKSLASH, SLASH, 0x62, 0x66, 0x6E, 0x72, 0x74}
    case Hex(digits) => |digits| == 4 && AllHex(digits)
  }

  predicate CharsOk(chars: seq<Char>) {
    forall k :: 0 <= k < |chars| ==> CharOk(chars[k])
  }

  function CharText(c: Char): seq<byte> {
    match c
    case Plain(b) => [b]
    case Short(e) => [BACKSLASH, e]
    case Hex(digits) => [BACKSLASH, 0x75] + digits
  }

  function CharsText(chars: seq<Char>): seq<byte> {
    if chars == [] then [] else CharText(chars[0]) + CharsText(chars[1..])
  }

  function StringText(chars: seq<Char>): seq<byte> {
    [QUOTE] + (CharsText(chars) + [QUOTE])
  }

  function CharUnit(c: Char): Unit
    requires CharOk(c)
  {
    match c
    case Plain(b) => Raw(b)
    case Short(e) => Raw(ShortEscape(e).value)
    case Hex(digits) => Esc(Hex4(digits))
  }

  function Units(chars: seq<Char>): seq<Unit>
    requires CharsOk(chars)
  {
    if chars == [] then [] else [CharUnit(chars[0])] + Units(chars[1..])
  }

  function StringMeaning(chars: seq<Char>): seq<byte>
    requires CharsOk(chars)
  {
    Assemble(Units(chars))
  }

  /* ---- numbers (section 6) -------------------------------------------------------------------- */

  const POINT: byte := 0x2E
  const PLUS: byte := 0x2B

  datatype Part = NoPart | Part(digits: seq<byte>)

  datatype Power = NoPower | Power(mark: byte, sign: seq<byte>, digits: seq<byte>)

  datatype Numeral = Numeral(neg: bool, whole: seq<byte>, fraction: Part, power: Power)

  predicate DigitsOk(d: seq<byte>) {
    d != [] && AllDigits(d)
  }

  predicate SignOk(sign: seq<byte>) {
    sign == [] || sign == [PLUS] || sign == [MINUS]
  }

  predicate NumeralOk(n: Numeral) {
    && DigitsOk(n.whole) && (n.whole[0] == 0x30 ==> |n.whole| == 1)
    && (n.fraction.Part? ==> DigitsOk(n.fraction.digits))
    && (n.power.Power? ==>
          && IsExponentMark(n.power.mark) && SignOk(n.power.sign)
          && DigitsOk(n.power.digits))
  }

  function SignText(neg: bool): seq<byte> {
    if neg then [MINUS] else []
  }

  function FractionText(f: Part): seq<byte> {
    if f.NoPart? then [] else [POINT] + f.digits
  }

  function PowerText(p: Power): seq<byte> {
    if p.NoPower? then [] else [p.mark] + (p.sign + p.digits)
  }

  function NumeralText(n: Numeral): seq<byte> {
    SignText(n.neg) + (n.whole + (FractionText(n.fraction) + PowerText(n.power)))
  }

  function FractionMeaning(f: Part): (nat, nat)
    requires f.Part? ==> DigitsOk(f.digits)
  {
    if f.NoPart? then (0, 0) else (NatValue(f.digits), |f.digits|)
  }

  function PowerMeaning(p: Power): int
    requires p.Power? ==> DigitsOk(p.digits)
  {
    if p.NoPower? then 0
    else if p.sign == [MINUS] then -(NatValue(p.digits) as int)
    else NatValue(p.digits)
  }

  /** A plain integer of at most nine characters is an `int`, any other number its exact value. */
  function NumeralMeaning(n: Numeral): Json
    requires NumeralOk(n)
  {
    var whole := NatValue(n.whole);
    if n.fraction.NoPart? && n.power.NoPower? && |NumeralText(n)| <= INT_DIGITS then
      NatValueBound(n.whole);
      PowMonotone(|n.whole|, INT_DIGITS);
      Int(if n.neg then -(whole as int) else whole)
    else
      var f := FractionMeaning(n.fraction);
      Double(Decimal(n.neg, whole, f.0, f.1, PowerMeaning(n.power)))
  }

  /* ---- values (sections 2 to 5) --------------------------------------------------------------- */

  datatype Tree =
    | NullTree
    | BoolTree(b: bool)
    | NumberTree(n: Numeral)
    | StringTree(chars: seq<Char>)
    | EmptyArray(space: seq<byte>)
    | ArrayTree(first: Item, more: seq<Item>)
    | EmptyObject(space: seq<byte>)
    | ObjectTree(head: Entry, tail: seq<Entry>)

  datatype Item = Item(before: seq<byte>, tree: Tree, after: seq<byte>)

  datatype Entry =
    Entry(before: seq<byte>, key: seq<Char>, mid: seq<byte>, late: seq<byte>, tree: Tree, after: seq<byte>)

  /** A comment: to the end of its line, or up to the first mark that ends it. */
  predicate CommentOk(c: seq<byte>) {
    LineOk(c) || BlockOk(c)
  }

  predicate LineOk(c: seq<byte>) {
    |c| >= 3 && c[..2] == [SLASH, SLASH] && c[|c| - 1] == NEWLINE && NEWLINE !in c[2..|c| - 1]
  }

  predicate BlockOk(c: seq<byte>) {
    && |c| >= 4 && c[..2] == [SLASH, STAR] && c[|c| - 2..] == [STAR, SLASH]
    && forall k :: 2 <= k < |c| - 2 ==> !(c[k] == STAR && c[k + 1] == SLASH)
  }

  /** White space, which may hold comments if the strategy allows them. */
  predicate SpaceOk(m: Strategy, w: seq<byte>): (ok: bool)
    ensures ok && m.Standard? ==> SpaceOk(Comments, w)
    decreases |w|, m.Standard?
  {
    || w == []
    || (IsSpace(w[0]) && SpaceOk(m, w[1..]))
    || (m.Comments? && exists n :: 0 < n <= |w| && CommentOk(w[..n]) && SpaceOk(m, w[n..]))
  }

  /** At the end of a text a last line comment need not be ended. */
  predicate EndOk(m: Strategy, w: seq<byte>) {
    SpaceOk(m, w) || (m.Comments? && exists n :: 0 <= n <= |w| && SpaceOk(m, w[..n]) && OpenLine(w[n..]))
  }

  predicate OpenLine(c: seq<byte>) {
    |c| >= 2 && c[..2] == [SLASH, SLASH] && NEWLINE !in c[2..]
  }

  predicate TreeOk(m: Strategy, t: Tree): (ok: bool)
    ensures ok && m.Standard? ==> TreeOk(Comments, t)
    decreases t, 1, m.Standard?
  {
    match t
    case NumberTree(n) => NumeralOk(n)
    case StringTree(chars) => CharsOk(chars)
    case EmptyArray(space) => SpaceOk(m, space)
    case EmptyObject(space) => SpaceOk(m, space)
    case ArrayTree(first, more) => ItemSpaced(m, first) && TreeOk(m, first.tree) && ItemsOk(m, more)
    case ObjectTree(head, tail) => EntrySpaced(m, head) && TreeOk(m, head.tree) && EntriesOk(m, tail)
    case _ => true
  }

  predicate ItemSpaced(m: Strategy, i: Item) {
    SpaceOk(m, i.before) && SpaceOk(m, i.after)
  }

  predicate EntrySpaced(m: Strategy, p: Entry) {
    SpaceOk(m, p.before) && CharsOk(p.key) && SpaceOk(m, p.mid) && SpaceOk(m, p.late) && SpaceOk(m, p.after)
  }

  predicate ItemsOk(m: Strategy, items: seq<Item>): (ok: bool)
    ensures ok && m.Standard? ==> ItemsOk(Comments, items)
    decreases items, 0, m.Standard?
  {
    items == [] || (ItemSpaced(m, items[0]) && TreeOk(m, items[0].tree) && ItemsOk(m, items[1..]))
  }

  predicate EntriesOk(m: Strategy, entries: seq<Entry>): (ok: bool)
    ensures ok && m.Standard? ==> EntriesOk(Comments, entries)
    decreases entries, 0, m.Standard?
  {
    entries == [] || (EntrySpaced(m, entries[0]) && TreeOk(m, entries[0].tree) && EntriesOk(m, entries[1..]))
  }

  /** The text of a tree. */
  function TreeText(t: Tree): seq<byte>
    decreases t, 1
  {
    match t
    case NullTree => NULL_TEXT
    case BoolTree(b) => if b then TRUE_TEXT else FALSE_TEXT
    case NumberTree(n) => NumeralText(n)
    case StringTree(chars) => StringText(chars)
    case EmptyArray(space) => [LBRACKET] + (space + [RBRACKET])
    case ArrayTree(first, more) => [LBRACKET] + (ItemText(first) + ItemsText(more))
    case EmptyObject(space) => [LBRACE] + (space + [RBRACE])
    case ObjectTree(head, tail) => [LBRACE] + (EntryText(head) + EntriesText(tail))
  }

  function ItemText(i: Item): seq<byte>
    decreases i, 0
  {
    i.before + (TreeText(i.tree) + i.after)
  }

  /** The items after the first, each behind a comma, and the closing bracket. */
  function ItemsText(items: seq<Item>): seq<byte>
    decreases items, 0
  {
    if items == [] then [RBRACKET] else [COMMA] + (ItemText(items[0]) + ItemsText(items[1..]))
  }

  function EntryText(p: Entry): seq<byte>
    decreases p, 0
  {
    p.before + (StringText(p.key) + (p.mid + ([COLON] + (p.late + (TreeText(p.tree) + p.after)))))
  }

  function EntriesText(entries: seq<Entry>): seq<byte>
    decreases entries, 0
  {
    if entries == [] then [RBRACE] else [COMMA] + (EntryText(entries[0]) + EntriesText(entries[1..]))
  }

  /** What a tree means. */
  function Meaning(t: Tree): Json
    requires TreeOk(Comments, t)
    decreases t, 1
  {
    match t
    case NullTree => Null
    case BoolTree(b) => Bool(b)
    case NumberTree(n) => NumeralMeaning(n)
    case StringTree(chars) => Str(StringMeaning(chars))
    case EmptyArray(_) => Arr([])
    case ArrayTree(first, more) => Arr([Meaning(first.tree)] + ItemsMeaning(more))
    case EmptyObject(_) => Obj([])
    case ObjectTree(head, tail) =>
      Obj(EntriesMeaning(tail, Insert([], StringMeaning(head.key), Meaning(head.tree))))
  }

  function ItemsMeaning(items: seq<Item>): seq<Json>
    requires ItemsOk(Comments, items)
    decreases items, 0
  {
    if items == [] then [] else [Meaning(items[0].tree)] + ItemsMeaning(items[1..])
  }

  /** Members are assigned in order: a repeated key keeps its last value. */
  function EntriesMeaning(entries: seq<Entry>, members: seq<Member>): seq<Member>
    requires EntriesOk(Comments, entries)
    decreases entries, 0
  {
    if entries == [] then members
    else EntriesMeaning(entries[1..], Insert(members, StringMeaning(entries[0].key), Meaning(entries[0].tree)))
  }

  /** How deep a tree is nested. */
  function TreeHeight(t: Tree): nat
    decreases t, 1
  {
    match t
    case ArrayTree(first, more) => Max(1 + TreeHeight(first.tree), ItemListHeight(more))
    case ObjectTree(head, tail) => Max(1 + TreeHeight(head.tree), EntryListHeight(tail))
    case _ => 0
  }

  function ItemListHeight(items: seq<Item>): nat
    decreases items, 0
  {
    if items == [] then 0 else Max(1 + TreeHeight(items[0].tree), ItemListHeight(items[1..]))
  }

  function EntryListHeight(entries: seq<Entry>): nat
    decreases entries, 0
  {
    if entries == [] then 0 else Max(1 + TreeHeight(entries[0].tree), EntryListHeight(entries[1..]))
  }

  /** How many values a tree holds. */
  function TreeSize(t: Tree): (n: nat)
    ensures n > 0
    decreases t, 1
  {
    match t
    case ArrayTree(first, more) => 1 + TreeSize(first.tree) + ItemListSize(more)
    case ObjectTree(head, tail) => 1 + TreeSize(head.tree) + EntryListSize(tail)
    case _ => 1
  }

  function ItemListSize(items: seq<Item>): nat
    decreases items, 0
  {
    if items == [] then 0 else TreeSize(items[0].tree) + ItemListSize(items[1..])
  }

  function EntryListSize(entries: seq<Entry>): nat
    decreases entries, 0
  {
    if entries == [] then 0 else TreeSize(entries[0].tree) + EntryListSize(entries[1..])
  }

  /** A text derived by the grammar: one value between white space (section 2) or, if allowed, comments. */
  ghost predicate Derives(text: seq<byte>, m: Strategy, before: seq<byte>, t: Tree, after: seq<byte>) {
    SpaceOk(m, before) && TreeOk(m, t) && EndOk(m, after) && text == before + (TreeText(t) + after)
  }
}
