/** Parsing undoes printing. */
module JsonRoundTrip {
  import opened Bytes
  import opened JsonValues
  import opened JsonStrings
  import opened JsonGrammar
  import opened JsonText

  predicate HasAt(s: seq<byte>, i: nat, t: seq<byte>) {
    i + |t| <= |s| && s[i..i + |t|] == t
  }

  lemma HasParts(s: seq<byte>, i: nat, a: seq<byte>, b: seq<byte>)
    requires HasAt(s, i, a + b)
    ensures HasAt(s, i, a) && HasAt(s, i + |a|, b)
  {
    assert s[i..i + |a + b|][..|a|] == a;
    assert s[i..i + |a + b|][|a|..] == b;
  }

  lemma HasFirst(s: seq<byte>, i: nat, t: seq<byte>)
    requires HasAt(s, i, t) && t != []
    ensures i < |s| && s[i] == t[0]
  {
    assert s[i..i + |t|][0] == s[i];
  }

  /* ---- tokens -------------------------------------------------------------------- */

  predicate StartsToken(b: byte) {
    !IsSpace(b) && b != SLASH
  }

  lemma TokenHere(s: seq<byte>, m: Strategy, i: nat)
    requires i < |s| && StartsToken(s[i])
    ensures Token(s, m, i) == Ok(s[i], i + 1)
  {
  }

  lemma TokenBehindSpace(s: seq<byte>, m: Strategy, i: nat)
    requires i + 1 < |s| && s[i] == 0x20 && StartsToken(s[i + 1])
    ensures Token(s, m, i) == Ok(s[i + 1], i + 2)
  {
    assert SkipSpace(s, i) == SkipSpace(s, i + 1) == i + 1;
  }

  /* ---- strings ------------------------------------------------------------------- */

  /** The unit that what `dump` wrote for the head of a string is read as. */
  function HeadUnit(v: seq<byte>): Unit
    requires v != []
  {
    if v[0] <= 0x1F && v[0] !in {8, 9, 10, 12, 13} then Esc(v[0])
    else if v[0] > 0x1F && IsSeparator(v, 0xA8) then Esc(0x2028)
    else if v[0] > 0x1F && IsSeparator(v, 0xA9) then Esc(0x2029)
    else Raw(v[0])
  }

  function UnitsOf(v: seq<byte>): seq<Unit>
    decreases |v|
  {
    if v == [] then [] else [HeadUnit(v)] + UnitsOf(v[Escaped(v).1..])
  }

  lemma HexRoundTrip(code: u16)
    ensures var e := UnicodeEscape(code)[2..]; |e| == 4 && AllHex(e) && Hex4(e) == code
  {
    var e := UnicodeEscape(code)[2..];
    var q1, q2, q3 := code / 0x10, code / 0x100, code / 0x1000;
    assert q2 == q1 / 0x10 && q3 == q2 / 0x10;
    assert e == [HexDigit(q3), HexDigit(q2 % 16), HexDigit(q1 % 16), HexDigit(code % 16)];
    DigitOfHex(q3);
    DigitOfHex(q2 % 16);
    DigitOfHex(q1 % 16);
    DigitOfHex(code % 16);
    hide HexDigit, HexValue;
    assert code == q1 * 0x10 + code % 16 && q1 == q2 * 0x10 + q1 % 16 && q2 == q3 * 0x10 + q2 % 16;
  }

  lemma DigitOfHex(n: nat)
    requires n < 16
    ensures IsHex(HexDigit(n)) && HexValue(HexDigit(n)) == n
  {
  }

  lemma HeadScanned(s: seq<byte>, i: nat, v: seq<byte>)
    requires v != [] && HasAt(s, i, Escaped(v).0)
    ensures i < |s| && s[i] != QUOTE && NextUnit(s, i) == Ok(HeadUnit(v), i + |Escaped(v).0|)
  {
    var e := Escaped(v).0;
    HasFirst(s, i, e);
    if |e| >= 2 {
      assert s[i..i + |e|][1] == s[i + 1];
    }
    if HeadUnit(v).Esc? {
      HexRoundTrip(HeadUnit(v).code);
      assert e == UnicodeEscape(HeadUnit(v).code);
      assert s[i + 2..i + 6] == s[i..i + 6][2..] == e[2..];
    }
  }

  lemma {:induction false} BodyScanned(s: seq<byte>, i: nat, v: seq<byte>)
    requires HasAt(s, i, DumpBody(v) + [QUOTE])
    ensures Scan(s, i) == Ok(UnitsOf(v), i + |DumpBody(v)| + 1)
    decreases |v|
  {
    hide NextUnit, Escaped, HeadUnit, HasAt;
    HasParts(s, i, DumpBody(v), [QUOTE]);
    if v == [] {
      HasFirst(s, i, [QUOTE]);
    } else {
      var e, n := Escaped(v).0, Escaped(v).1;
      assert DumpBody(v) + [QUOTE] == e + (DumpBody(v[n..]) + [QUOTE]);
      HasParts(s, i, e, DumpBody(v[n..]) + [QUOTE]);
      HeadScanned(s, i, v);
      BodyScanned(s, i + |e|, v[n..]);
    }
  }

  /** No escape `dump` writes is half of a surrogate pair. */
  lemma HeadAssembles(v: seq<byte>)
    requires v != []
    ensures var u := HeadUnit(v);
            && (u.Esc? ==> !IsHigh(u.code))
            && v[..Escaped(v).1] == if u.Raw? then [u.b] else EncodeUtf8(u.code)
  {
    assert EncodeUtf8(0x2028) == [0xE2, 0x80, 0xA8] && EncodeUtf8(0x2029) == [0xE2, 0x80, 0xA9];
  }

  lemma {:induction false} UnitsAssemble(v: seq<byte>)
    ensures Assemble(UnitsOf(v)) == v
    decreases |v|
  {
    hide Escaped, HeadUnit, EncodeUtf8;
    if v != [] {
      var n := Escaped(v).1;
      UnitsAssemble(v[n..]);
      HeadAssembles(v);
      assert UnitsOf(v)[1..] == UnitsOf(v[n..]);
      assert v == v[..n] + v[n..];
    }
  }

  /** Any byte string, printed and read, is itself. */
  lemma StringRoundTrip(s: seq<byte>, i: nat, v: seq<byte>)
    requires HasAt(s, i, DumpString(v))
    ensures i < |s| && s[i] == QUOTE && StringLiteral(s, i + 1) == Ok(v, i + |DumpString(v)|)
  {
    assert DumpString(v) == [QUOTE] + (DumpBody(v) + [QUOTE]);
    HasParts(s, i, [QUOTE], DumpBody(v) + [QUOTE]);
    HasFirst(s, i, [QUOTE]);
    BodyScanned(s, i + 1, v);
    UnitsAssemble(v);
  }

  /* ---- numbers -------------------------------------------------------------------- */

  /** Nothing that could continue a number. */
  predicate EndsNumber(b: byte) {
    !IsDigit(b) && b != 0x2E && !IsExponentMark(b)
  }

  lemma {:induction false} DigitsValue(n: nat)
    ensures NatValue(Digits(n)) == n
    ensures Digits(n)[0] == 0x30 ==> n == 0
  {
    if n < 10 {
      assert Digits(n)[..0] == [];
    } else {
      DigitsValue(n / 10);
      assert Digits(n)[..|Digits(n)| - 1] == Digits(n / 10);
    }
  }

  lemma {:induction false} DigitsSkipped(s: seq<byte>, i: nat, d: seq<byte>)
    requires HasAt(s, i, d) && AllDigits(d) && !IsDigit(ByteAt(s, i + |d|))
    ensures SkipDigits(s, i) == i + |d|
    decreases |d|
  {
    if d != [] {
      assert d == d[..1] + d[1..];
      HasFirst(s, i, d);
      HasParts(s, i, d[..1], d[1..]);
      DigitsSkipped(s, i + 1, d[1..]);
    }
  }

  lemma WholeRead(s: seq<byte>, i: nat, n: nat)
    requires HasAt(s, i, Digits(n)) && EndsNumber(ByteAt(s, i + |Digits(n)|))
    ensures WholeEnd(s, i) == Ok((), i + |Digits(n)|)
    ensures s[i..i + |Digits(n)|] == Digits(n) && NatValue(Digits(n)) == n
  {
    DigitsValue(n);
    DigitsSkipped(s, i, Digits(n));
    HasFirst(s, i, Digits(n));
  }

  /** How an int comes back: short ones as ints, the rest as doubles. */
  function RereadInt(n: int32): Json {
    if |DumpInt(n)| <= INT_DIGITS then Int(n) else Double(n as real)
  }

  lemma IntRoundTrip(s: seq<byte>, i: nat, n: int32)
    requires HasAt(s, i, DumpInt(n)) && EndsNumber(ByteAt(s, i + |DumpInt(n)|))
    ensures i < |s| && (s[i] == MINUS || IsDigit(s[i]))
    ensures Number(s, i) == Ok(RereadInt(n), i + |DumpInt(n)|)
  {
    HasFirst(s, i, DumpInt(n));
    if n < 0 {
      var k: nat := -(n as int);
      HasParts(s, i, [MINUS], Digits(k));
      WholeRead(s, i + 1, k);
      assert Decimal(true, k, 0, 0, 0) == n as real;
    } else {
      WholeRead(s, i, n);
      assert Decimal(false, n, 0, 0, 0) == n as real;
    }
  }

  /* ---- values ----------------------------------------------------------------------- */

  /** What reading the printed value yields: the same value, long ints now doubles. */
  function Reread(v: Json): Json
    decreases v, 1
  {
    match v
    case Int(n) => RereadInt(n)
    case Arr(items) => Arr(RereadItems(items))
    case Obj(members) => Obj(RereadMembers(members))
    case _ => v
  }

  function RereadItems(items: seq<Json>): seq<Json>
    decreases items, 0
  {
    if items == [] then [] else [Reread(items[0])] + RereadItems(items[1..])
  }

  function RereadMembers(members: seq<Member>): seq<Member>
    decreases members, 0
  {
    if members == [] then []
    else [Member(members[0].key, Reread(members[0].value))] + RereadMembers(members[1..])
  }

  lemma {:induction false} RereadEqual(v: Json)
    ensures Equal(Reread(v), v)
    decreases v, 1
  {
    match v
    case Arr(items) => RereadItemsEqual(items);
    case Obj(members) => RereadMembersEqual(members);
    case _ =>
  }

  lemma {:induction false} RereadItemsEqual(items: seq<Json>)
    ensures EqualItems(RereadItems(items), items)
    decreases items, 0
  {
    if items != [] {
      RereadEqual(items[0]);
      RereadItemsEqual(items[1..]);
    }
  }

  lemma {:induction false} RereadMembersEqual(members: seq<Member>)
    ensures EqualMembers(RereadMembers(members), members)
    decreases members, 0
  {
    if members != [] {
      RereadEqual(members[0].value);
      RereadMembersEqual(members[1..]);
    }
  }

  lemma DumpStarts(v: Json)
    requires Printable(v)
    ensures Dump(v) != [] && StartsToken(Dump(v)[0]) && Dump(v)[0] != RBRACKET
  {
  }

  /** Everything `dump` writes behind a value ends a number. */
  lemma ItemsStart(items: seq<Json>)
    requires PrintableItems(items)
    ensures var b := DumpItems(items, false)[0];
            StartsToken(b) && EndsNumber(b) && b == if items == [] then RBRACKET else COMMA
  {
  }

  lemma MembersStart(members: seq<Member>)
    requires PrintableMembers(members)
    ensures var b := DumpMembers(members, false)[0];
            StartsToken(b) && EndsNumber(b) && b == if members == [] then RBRACE else COMMA
  {
  }

  lemma MemberStarts(member: Member)
    requires Printable(member.value)
    ensures DumpMember(member) != [] && DumpMember(member)[0] == QUOTE
  {
  }

  /** A key above all the others goes to the end. */
  lemma {:induction false} InsertLast(members: seq<Member>, key: seq<byte>, v: Json)
    requires forall k :: 0 <= k < |members| ==> LessBytes(members[k].key, key)
    ensures Insert(members, key, v) == members + [Member(key, v)]
  {
    if members != [] {
      assert LessBytes(members[0].key, key);
      LessOneWay(members[0].key, key);
      InsertLast(members[1..], key, v);
      assert [members[0]] + (members[1..] + [Member(key, v)]) == members + [Member(key, v)];
    }
  }

  lemma {:induction false} LessOneWay(a: seq<byte>, b: seq<byte>)
    requires LessBytes(a, b)
    ensures !LessBytes(b, a)
  {
    if a != [] && b != [] && a[0] == b[0] {
      LessOneWay(a[1..], b[1..]);
    }
  }

  lemma LiteralRoundTrip(s: seq<byte>, m: Strategy, i: nat, d: nat, v: Json)
    requires (v.Null? || v.Bool?) && HasAt(s, i, Dump(v)) && d <= MAX_DEPTH
    requires i < |s| && s[i] == Dump(v)[0] && Token(s, m, i) == Ok(s[i], i + 1)
    ensures Value(s, m, i, d) == Ok(v, i + |Dump(v)|)
  {
    hide Token;
  }

  /** The dispatch of `parse_json` on a bracket. */
  lemma OpensArray(s: seq<byte>, m: Strategy, i: nat, d: nat)
    requires i < |s| && d <= MAX_DEPTH && Token(s, m, i) == Ok(LBRACKET, i + 1)
    requires Token(s, m, i + 1).Ok?
    ensures var t := Token(s, m, i + 1);
            Value(s, m, i, d) == if t.value == RBRACKET then Ok(Arr([]), t.at) else Elements(s, m, t.at - 1, d, [])
  {
    hide Token, Elements;
  }

  lemma OpensObject(s: seq<byte>, m: Strategy, i: nat, d: nat)
    requires i < |s| && d <= MAX_DEPTH && Token(s, m, i) == Ok(LBRACE, i + 1)
    requires Token(s, m, i + 1).Ok?
    ensures var t := Token(s, m, i + 1);
            Value(s, m, i, d) == if t.value == RBRACE then Ok(Obj([]), t.at) else Members(s, m, t.value, t.at, d, [])
  {
    hide Token, Members;
  }

  lemma ScalarRoundTrip(s: seq<byte>, m: Strategy, i: nat, d: nat, v: Json)
    requires (v.Int? || v.Str?) && HasAt(s, i, Dump(v)) && EndsNumber(ByteAt(s, i + |Dump(v)|)) && d <= MAX_DEPTH
    requires i < |s| && Token(s, m, i) == Ok(s[i], i + 1)
    ensures Value(s, m, i, d) == Ok(Reread(v), i + |Dump(v)|)
  {
    hide Token, Number, StringLiteral, DumpInt, RereadInt, DumpString;
    match v
    case Int(n) => IntRoundTrip(s, i, n);
    case Str(t) => StringRoundTrip(s, i, t);
  }

  lemma {:induction false} ValueRoundTrip(s: seq<byte>, m: Strategy, i: nat, d: nat, v: Json)
    requires Printable(v) && WellFormed(v) && d <= MAX_DEPTH + 1
    requires HasAt(s, i, Dump(v)) && EndsNumber(ByteAt(s, i + |Dump(v)|))
    ensures Value(s, m, i, d)
            == if d + Height(v) <= MAX_DEPTH then Ok(Reread(v), i + |Dump(v)|) else Fail(TooDeep)
    decreases v, 1
  {
    if d <= MAX_DEPTH {
      hide Token, HasAt, ByteAt, IsDigit, DumpInt, DumpString, Value, StartsToken, EndsNumber, SkipSpace;
      DumpStarts(v);
      HasFirst(s, i, Dump(v));
      TokenHere(s, m, i);
      if v.Int? || v.Str? {
        ScalarRoundTrip(s, m, i, d, v);
      } else if v.Arr? {
        ArrayRoundTrip(s, m, i, d, v.items);
      } else if v.Obj? {
        ObjectRoundTrip(s, m, i, d, v.members);
      } else {
        LiteralRoundTrip(s, m, i, d, v);
      }
    }
  }

  lemma {:induction false} ArrayRoundTrip(s: seq<byte>, m: Strategy, i: nat, d: nat, items: seq<Json>)
    requires PrintableItems(items) && WellFormedItems(items) && d <= MAX_DEPTH
    requires HasAt(s, i, [LBRACKET] + DumpItems(items, true))
    ensures Value(s, m, i, d)
            == if d + ItemsHeight(items) <= MAX_DEPTH
               then Ok(Arr(RereadItems(items)), i + |[LBRACKET] + DumpItems(items, true)|) else Fail(TooDeep)
    decreases items, 1
  {
    hide Token, Value, HasAt, Dump, DumpItems, Elements, Printable, ItemsHeight, RereadItems, WellFormed, Height,
      Reread;
    HasFirst(s, i, [LBRACKET] + DumpItems(items, true));
    HasParts(s, i, [LBRACKET], DumpItems(items, true));
    TokenHere(s, m, i);
    HasFirst(s, i + 1, DumpItems(items, true));
    if items == [] {
      EmptyArray();
      TokenHere(s, m, i + 1);
      OpensArray(s, m, i, d);
    } else {
      FirstItem(items);
      TokenHere(s, m, i + 1);
      OpensArray(s, m, i, d);
      ElementsRoundTrip(s, m, i + 1, d, items, []);
      assert [] + RereadItems(items) == RereadItems(items);
    }
  }

  lemma EmptyArray()
    ensures DumpItems([], true) == [RBRACKET] && ItemsHeight([]) == 0 && RereadItems([]) == []
  {
  }

  lemma FirstItem(items: seq<Json>)
    requires items != [] && PrintableItems(items)
    ensures DumpItems(items, true) == Dump(items[0]) + DumpItems(items[1..], false)
    ensures StartsToken(DumpItems(items, true)[0]) && DumpItems(items, true)[0] != RBRACKET
  {
    DumpStarts(items[0]);
  }

  lemma {:induction false} ObjectRoundTrip(s: seq<byte>, m: Strategy, i: nat, d: nat, members: seq<Member>)
    requires PrintableMembers(members) && WellFormedMembers(members) && Ascending(members) && d <= MAX_DEPTH
    requires HasAt(s, i, [LBRACE] + DumpMembers(members, true))
    ensures Value(s, m, i, d)
            == if d + MembersHeight(members) <= MAX_DEPTH
               then Ok(Obj(RereadMembers(members)), i + |[LBRACE] + DumpMembers(members, true)|) else Fail(TooDeep)
    decreases members, 1
  {
    hide Token, Value, HasAt, Dump, DumpString, DumpMember, Members, Ascending;
    HasFirst(s, i, [LBRACE] + DumpMembers(members, true));
    HasParts(s, i, [LBRACE], DumpMembers(members, true));
    TokenHere(s, m, i);
    HasFirst(s, i + 1, DumpMembers(members, true));
    if members == [] {
      TokenHere(s, m, i + 1);
      OpensObject(s, m, i, d);
    } else {
      var text := DumpMember(members[0]) + DumpMembers(members[1..], false);
      assert DumpMembers(members, true) == text;
      MemberStarts(members[0]);
      TokenHere(s, m, i + 1);
      OpensObject(s, m, i, d);
      assert [] + members == members;
      MembersRoundTrip(s, m, i + 1, d, members, []);
      assert [] + RereadMembers(members) == RereadMembers(members);
    }
  }

  /** One turn of the array loop. */
  lemma ElementsTurn(s: seq<byte>, m: Strategy, i: nat, d: nat, acc: seq<Json>)
    requires i <= |s| && d <= MAX_DEPTH
    ensures Value(s, m, i, d + 1).Fail? ==> Elements(s, m, i, d, acc) == Value(s, m, i, d + 1)
    ensures Value(s, m, i, d + 1).Ok? && Token(s, m, Value(s, m, i, d + 1).at).Ok? ==>
              var v := Value(s, m, i, d + 1);
              var t := Token(s, m, v.at);
              && (t.value == RBRACKET ==> Elements(s, m, i, d, acc) == Ok(Arr(acc + [v.value]), t.at))
              && (t.value == COMMA && Token(s, m, t.at).Ok? ==>
                    Elements(s, m, i, d, acc) == Elements(s, m, Token(s, m, t.at).at - 1, d, acc + [v.value]))
  {
    hide Value, Token;
  }

  /** Behind a value comes the closing bracket, or a comma, a space and the next value. */
  lemma ItemsTail(s: seq<byte>, m: Strategy, j: nat, rest: seq<Json>)
    requires PrintableItems(rest) && HasAt(s, j, DumpItems(rest, false))
    ensures j < |s| && EndsNumber(s[j]) && Token(s, m, j) == Ok(if rest == [] then RBRACKET else COMMA, j + 1)
    ensures rest != [] ==>
              var text := Dump(rest[0]) + DumpItems(rest[1..], false);
              && |DumpItems(rest, false)| == 2 + |text|
              && HasAt(s, j + 2, text)
              && Token(s, m, j + 1).Ok? && Token(s, m, j + 1).at == j + 3
  {
    hide Token;
    ItemsStart(rest);
    HasFirst(s, j, DumpItems(rest, false));
    TokenHere(s, m, j);
    if rest != [] {
      var text := Dump(rest[0]) + DumpItems(rest[1..], false);
      assert DumpItems(rest, false) == COMMA_SPACE + text;
      HasParts(s, j, COMMA_SPACE, text);
      assert s[j..j + 2] == COMMA_SPACE && s[j..j + 2][1] == s[j + 1];
      DumpStarts(rest[0]);
      HasFirst(s, j + 2, text);
      TokenBehindSpace(s, m, j + 1);
    }
  }

  /** What the array loop should come to, `at` being the end of the array's text. */
  function ItemsOutcome(d: nat, items: seq<Json>, acc: seq<Json>, at: nat): Result<Json> {
    if d + ItemsHeight(items) <= MAX_DEPTH then Ok(Arr(acc + RereadItems(items)), at) else Fail(TooDeep)
  }

  lemma ItemsOutcomeTurn(d: nat, items: seq<Json>, acc: seq<Json>, at: nat)
    requires items != [] && d <= MAX_DEPTH
    ensures ItemsOutcome(d, items, acc, at)
            == if d + 1 + Height(items[0]) > MAX_DEPTH then Fail(TooDeep)
               else if |items| == 1 then Ok(Arr(acc + [Reread(items[0])]), at)
               else ItemsOutcome(d, items[1..], acc + [Reread(items[0])], at)
  {
    var r := Reread(items[0]);
    assert acc + [r] + RereadItems(items[1..]) == acc + RereadItems(items);
    assert acc + [r] + [] == acc + [r];
  }

  lemma {:induction false} ElementsRoundTrip(s: seq<byte>, m: Strategy, i: nat, d: nat,
                                             items: seq<Json>, acc: seq<Json>)
    requires items != [] && PrintableItems(items) && WellFormedItems(items) && d <= MAX_DEPTH
    requires HasAt(s, i, Dump(items[0]) + DumpItems(items[1..], false))
    ensures Elements(s, m, i, d, acc)
            == ItemsOutcome(d, items, acc, i + |Dump(items[0]) + DumpItems(items[1..], false)|)
    decreases items, 0
  {
    hide Value, Elements, Token, HasAt, Dump, DumpItems, EndsNumber, ItemsOutcome, Height, Reread;
    var v, rest := items[0], items[1..];
    HasParts(s, i, Dump(v), DumpItems(rest, false));
    ItemsTail(s, m, i + |Dump(v)|, rest);
    ValueRoundTrip(s, m, i, d + 1, v);
    ElementsTurn(s, m, i, d, acc);
    ItemsOutcomeTurn(d, items, acc, i + |Dump(v) + DumpItems(rest, false)|);
    if rest != [] {
      ElementsRoundTrip(s, m, i + |Dump(v)| + 2, d, rest, acc + [Reread(v)]);
    } else {
      EmptyText();
    }
  }

  lemma EmptyText()
    ensures DumpItems([], false) == [RBRACKET] && DumpMembers([], false) == [RBRACE]
  {
  }

  ghost predicate KeysAscend(acc: seq<Member>, members: seq<Member>) {
    Ascending(acc + members)
  }

  lemma KeysAdvance(acc: seq<Member>, members: seq<Member>, v: Json)
    requires members != [] && KeysAscend(acc, members)
    ensures Insert(acc, members[0].key, v) == acc + [Member(members[0].key, v)]
    ensures KeysAscend(acc + [Member(members[0].key, v)], members[1..])
  {
    var all := acc + members;
    var acc' := acc + [Member(members[0].key, v)];
    var all' := acc' + members[1..];
    assert forall k :: 0 <= k < |all| ==> all'[k].key == all[k].key;
    forall k | 0 <= k < |acc|
      ensures LessBytes(acc[k].key, members[0].key)
    {
      assert all[k] == acc[k] && all[|acc|] == members[0];
    }
    InsertLast(acc, members[0].key, v);
    forall a, b | 0 <= a < b < |all'|
      ensures LessBytes(all'[a].key, all'[b].key)
    {
      assert LessBytes(all[a].key, all[b].key);
    }
  }

  /** One member, key to value, behind its opening quote. */
  lemma MemberRead(s: seq<byte>, m: Strategy, i: nat, member: Member)
    requires Printable(member.value) && HasAt(s, i, DumpMember(member))
    ensures var j := i + |DumpString(member.key)|;
            && i < |s| && s[i] == QUOTE
            && StringLiteral(s, i + 1) == Ok(member.key, j)
            && j < |s| && Token(s, m, j) == Ok(COLON, j + 1)
            && j + 2 < |s| && s[j + 1] == 0x20 && HasAt(s, j + 2, Dump(member.value))
  {
    hide Token, StringLiteral, DumpString, Dump;
    var j := i + |DumpString(member.key)|;
    var text := Dump(member.value);
    HasParts(s, i, DumpString(member.key), COLON_SPACE + text);
    StringRoundTrip(s, i, member.key);
    HasParts(s, j, COLON_SPACE, text);
    assert s[j..j + 2] == COLON_SPACE;
    assert s[j..j + 2][0] == s[j] && s[j..j + 2][1] == s[j + 1];
    TokenHere(s, m, j);
    DumpStarts(member.value);
    HasFirst(s, j + 2, text);
  }

  /** A value behind one space reads as it would without the space. */
  lemma ValueBehindSpace(s: seq<byte>, m: Strategy, i: nat, d: nat)
    requires i + 1 < |s| && s[i] == 0x20 && StartsToken(s[i + 1]) && d <= MAX_DEPTH + 1
    ensures Value(s, m, i, d) == Value(s, m, i + 1, d)
  {
    hide Token, Elements, Members, Number, StringLiteral, Literal;
    TokenBehindSpace(s, m, i);
    TokenHere(s, m, i + 1);
  }

  /** One turn of the object loop, whose key, colon and value are there. */
  lemma MembersTurn(s: seq<byte>, m: Strategy, i: nat, d: nat, acc: seq<Member>, key: seq<byte>, j: nat, k: nat)
    requires i <= |s| && d <= MAX_DEPTH && k <= |s|
    requires StringLiteral(s, i) == Ok(key, j) && Token(s, m, j) == Ok(COLON, k)
    ensures Value(s, m, k, d + 1).Fail? ==> Members(s, m, QUOTE, i, d, acc) == Value(s, m, k, d + 1)
    ensures Value(s, m, k, d + 1).Ok? && Token(s, m, Value(s, m, k, d + 1).at).Ok? ==>
              var v := Value(s, m, k, d + 1);
              var t := Token(s, m, v.at);
              var acc' := Insert(acc, key, v.value);
              && (t.value == RBRACE ==> Members(s, m, QUOTE, i, d, acc) == Ok(Obj(acc'), t.at))
              && (t.value == COMMA && Token(s, m, t.at).Ok? ==>
                    Members(s, m, QUOTE, i, d, acc)
                    == Members(s, m, Token(s, m, t.at).value, Token(s, m, t.at).at, d, acc'))
  {
    hide Value, Token, StringLiteral, Insert;
  }

  lemma MembersTail(s: seq<byte>, m: Strategy, j: nat, rest: seq<Member>)
    requires PrintableMembers(rest) && HasAt(s, j, DumpMembers(rest, false))
    ensures j < |s| && EndsNumber(s[j]) && Token(s, m, j) == Ok(if rest == [] then RBRACE else COMMA, j + 1)
    ensures rest != [] ==>
              var text := DumpMember(rest[0]) + DumpMembers(rest[1..], false);
              && |DumpMembers(rest, false)| == 2 + |text|
              && HasAt(s, j + 2, text)
              && Token(s, m, j + 1) == Ok(QUOTE, j + 3)
  {
    hide Token;
    MembersStart(rest);
    HasFirst(s, j, DumpMembers(rest, false));
    TokenHere(s, m, j);
    if rest != [] {
      var text := DumpMember(rest[0]) + DumpMembers(rest[1..], false);
      assert DumpMembers(rest, false) == COMMA_SPACE + text;
      HasParts(s, j, COMMA_SPACE, text);
      assert s[j..j + 2] == COMMA_SPACE && s[j..j + 2][1] == s[j + 1];
      MemberStarts(rest[0]);
      HasFirst(s, j + 2, text);
      TokenBehindSpace(s, m, j + 1);
    }
  }

  function MembersOutcome(d: nat, members: seq<Member>, acc: seq<Member>, at: nat): Result<Json> {
    if d + MembersHeight(members) <= MAX_DEPTH then Ok(Obj(acc + RereadMembers(members)), at) else Fail(TooDeep)
  }

  lemma MembersOutcomeTurn(d: nat, members: seq<Member>, acc: seq<Member>, at: nat)
    requires members != [] && d <= MAX_DEPTH
    ensures var r := Member(members[0].key, Reread(members[0].value));
            MembersOutcome(d, members, acc, at)
            == if d + 1 + Height(members[0].value) > MAX_DEPTH then Fail(TooDeep)
               else if |members| == 1 then Ok(Obj(acc + [r]), at)
               else MembersOutcome(d, members[1..], acc + [r], at)
  {
    var r := Member(members[0].key, Reread(members[0].value));
    assert acc + [r] + RereadMembers(members[1..]) == acc + RereadMembers(members);
    assert acc + [r] + [] == acc + [r];
  }

  lemma {:induction false} MembersRoundTrip(s: seq<byte>, m: Strategy, i: nat, d: nat,
                                            members: seq<Member>, acc: seq<Member>)
    requires members != [] && PrintableMembers(members) && WellFormedMembers(members) && d <= MAX_DEPTH
    requires KeysAscend(acc, members)
    requires HasAt(s, i, DumpMember(members[0]) + DumpMembers(members[1..], false))
    ensures i < |s|
    ensures Members(s, m, QUOTE, i + 1, d, acc)
            == MembersOutcome(d, members, acc, i + |DumpMember(members[0]) + DumpMembers(members[1..], false)|)
    decreases members, 0
  {
    hide Value, Members, Token, StringLiteral, HasAt, Dump, DumpMember, DumpMembers, DumpString, EndsNumber,
      StartsToken, Insert, KeysAscend, MembersOutcome, Height, Reread, WellFormed, Printable;
    var member, rest := members[0], members[1..];
    var j := i + |DumpString(member.key)|;
    var k := i + |DumpMember(member)|;
    HasParts(s, i, DumpMember(member), DumpMembers(rest, false));
    MemberRead(s, m, i, member);
    MembersTail(s, m, k, rest);
    MemberValue(s, m, i, d, member);
    MembersTurn(s, m, i + 1, d, acc, member.key, j, j + 1);
    KeysAdvance(acc, members, Reread(member.value));
    MembersOutcomeTurn(d, members, acc, i + |DumpMember(member) + DumpMembers(rest, false)|);
    if rest != [] {
      MembersRoundTrip(s, m, k + 2, d, rest, acc + [Member(member.key, Reread(member.value))]);
    } else {
      EmptyText();
    }
  }

  lemma {:induction false} MemberValue(s: seq<byte>, m: Strategy, i: nat, d: nat, member: Member)
    requires Printable(member.value) && WellFormed(member.value) && d <= MAX_DEPTH
    requires HasAt(s, i, DumpMember(member)) && EndsNumber(ByteAt(s, i + |DumpMember(member)|))
    ensures var k := i + |DumpString(member.key)| + 1;
            && k <= |s|
            && Value(s, m, k, d + 1)
               == if d + 1 + Height(member.value) <= MAX_DEPTH then Ok(Reread(member.value), i + |DumpMember(member)|)
                  else Fail(TooDeep)
    decreases member, 0
  {
    hide Value, Token, StringLiteral, Dump, DumpString, StartsToken, EndsNumber, Height, Reread;
    MemberRead(s, m, i, member);
    var j := i + |DumpString(member.key)|;
    DumpStarts(member.value);
    HasFirst(s, j + 2, Dump(member.value));
    ValueBehindSpace(s, m, j + 1, d + 1);
    ValueRoundTrip(s, m, j + 2, d + 1, member.value);
  }

  /** Parsing inverts printing, under either strategy: a printed value reads back as an
      equal one exactly when no node lies deeper than the parser's limit; otherwise the
      parser reports that and nothing else. */
  lemma ParseDump(v: Json, m: Strategy)
    requires Printable(v) && WellFormed(v)
    ensures Height(v) <= MAX_DEPTH ==> Parse(Dump(v), m) == Ok(Reread(v), |Dump(v)|) && Equal(Reread(v), v)
    ensures Height(v) > MAX_DEPTH ==> Parse(Dump(v), m) == Fail(TooDeep)
  {
    var s := Dump(v);
    assert s[0..|s|] == s;
    ValueRoundTrip(s, m, 0, 0, v);
    RereadEqual(v);
  }
}
