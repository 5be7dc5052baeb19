/** JSON values and their comparison, as `json11::Json` defines them. */
module JsonValues {
  import opened Bytes

  type int32 = n: int | -0x8000_0000 <= n < 0x8000_0000

  /** `Json`.  An object is its members in the order of `std::map`, strictly ascending by
      key.  A `double` is the real number it stands for. */
  datatype Json =
    | Null
    | Int(n: int32)
    | Double(x: real)
    | Bool(b: bool)
    | Str(s: seq<byte>)
    | Arr(items: seq<Json>)
    | Obj(members: seq<Member>)

  datatype Member = Member(key: seq<byte>, value: Json)

  /** `Json::Type`, in declaration order. */
  function Rank(v: Json): nat {
    match v
    case Null => 0
    case Int(_) => 1
    case Double(_) => 1
    case Bool(_) => 2
    case Str(_) => 3
    case Arr(_) => 4
    case Obj(_) => 5
  }

  function NumberValue(v: Json): real
    requires v.Int? || v.Double?
  {
    if v.Int? then v.n as real else v.x
  }

  /** `operator<` of `std::string`: lexicographic on unsigned bytes. */
  predicate LessBytes(a: seq<byte>, b: seq<byte>) {
    b != [] && (a == [] || a[0] < b[0] || (a[0] == b[0] && LessBytes(a[1..], b[1..])))
  }

  /** `Json::operator==`. */
  predicate Equal(a: Json, b: Json)
    decreases a, 1
  {
    Rank(a) == Rank(b) &&
    match a
    case Null => true
    case Int(_) => NumberValue(a) == NumberValue(b)
    case Double(_) => NumberValue(a) == NumberValue(b)
    case Bool(x) => x == b.b
    case Str(x) => x == b.s
    case Arr(xs) => EqualItems(xs, b.items)
    case Obj(xs) => EqualMembers(xs, b.members)
  }

  predicate EqualItems(xs: seq<Json>, ys: seq<Json>)
    decreases xs, 0
  {
    |xs| == |ys| && (xs == [] || (Equal(xs[0], ys[0]) && EqualItems(xs[1..], ys[1..])))
  }

  predicate EqualMembers(xs: seq<Member>, ys: seq<Member>)
    decreases xs, 0
  {
    |xs| == |ys| &&
    (xs == [] || (xs[0].key == ys[0].key && Equal(xs[0].value, ys[0].value) && EqualMembers(xs[1..], ys[1..])))
  }

  /** How much there is of a value; the measure of comparison. */
  function Size(v: Json): nat
    decreases v, 1
  {
    match v
    case Arr(items) => 1 + ItemsSize(items)
    case Obj(members) => 1 + MembersSize(members)
    case _ => 1
  }

  function ItemsSize(items: seq<Json>): nat
    decreases items, 0
  {
    if items == [] then 0 else 1 + Size(items[0]) + ItemsSize(items[1..])
  }

  function MembersSize(members: seq<Member>): nat
    decreases members, 0
  {
    if members == [] then 0 else 1 + Size(members[0].value) + MembersSize(members[1..])
  }

  /** `Json::operator<`. */
  predicate Less(a: Json, b: Json)
    decreases Size(a) + Size(b), 1
  {
    if Rank(a) != Rank(b) then Rank(a) < Rank(b)
    else
      match a
      case Null => false
      case Int(_) => NumberValue(a) < NumberValue(b)
      case Double(_) => NumberValue(a) < NumberValue(b)
      case Bool(x) => !x && b.b
      case Str(x) => LessBytes(x, b.s)
      case Arr(xs) => LessItems(xs, b.items)
      case Obj(xs) => LessMembers(xs, b.members)
  }

  /** `std::lexicographical_compare` on vectors of values. */
  predicate LessItems(xs: seq<Json>, ys: seq<Json>)
    decreases ItemsSize(xs) + ItemsSize(ys), 0
  {
    if ys == [] then false
    else if xs == [] || Less(xs[0], ys[0]) then true
    else if Less(ys[0], xs[0]) then false
    else LessItems(xs[1..], ys[1..])
  }

  /** The same on maps, whose elements compare as `std::pair`s do. */
  predicate LessMembers(xs: seq<Member>, ys: seq<Member>)
    decreases MembersSize(xs) + MembersSize(ys), 0
  {
    if ys == [] then false
    else if xs == [] || LessMember(xs[0], ys[0]) then true
    else if LessMember(ys[0], xs[0]) then false
    else LessMembers(xs[1..], ys[1..])
  }

  predicate LessMember(x: Member, y: Member)
    decreases Size(x.value) + Size(y.value), 2
  {
    LessBytes(x.key, y.key) || (!LessBytes(y.key, x.key) && Less(x.value, y.value))
  }

  /* ---- shape ---------------------------------------------------------------- */

  function Max(a: nat, b: nat): nat {
    if a < b then b else a
  }

  /** Depth of the deepest node below this one. */
  function Height(v: Json): nat
    decreases v, 1
  {
    match v
    case Arr(items) => ItemsHeight(items)
    case Obj(members) => MembersHeight(members)
    case _ => 0
  }

  function ItemsHeight(items: seq<Json>): nat
    decreases items, 0
  {
    if items == [] then 0 else Max(1 + Height(items[0]), ItemsHeight(items[1..]))
  }

  function MembersHeight(members: seq<Member>): nat
    decreases members, 0
  {
    if members == [] then 0 else Max(1 + Height(members[0].value), MembersHeight(members[1..]))
  }

  /** `std::map::operator[]` followed by assignment. */
  function Insert(members: seq<Member>, key: seq<byte>, value: Json): (r: seq<Member>)
  {
    if members == [] || LessBytes(key, members[0].key) then [Member(key, value)] + members
    else if LessBytes(members[0].key, key) then [members[0]] + Insert(members[1..], key, value)
    else [Member(key, value)] + members[1..]
  }

  ghost predicate Ascending(members: seq<Member>) {
    forall i, j :: 0 <= i < j < |members| ==> LessBytes(members[i].key, members[j].key)
  }

  /** A value as `json11` can build it: every object is a map. */
  ghost predicate WellFormed(v: Json)
    decreases v, 1
  {
    match v
    case Arr(items) => WellFormedItems(items)
    case Obj(members) => Ascending(members) && WellFormedMembers(members)
    case _ => true
  }

  ghost predicate WellFormedItems(items: seq<Json>)
    decreases items, 0
  {
    items == [] || (WellFormed(items[0]) && WellFormedItems(items[1..]))
  }

  ghost predicate WellFormedMembers(members: seq<Member>)
    decreases members, 0
  {
    members == [] || (WellFormed(members[0].value) && WellFormedMembers(members[1..]))
  }
}
