/** Properties of everything the parser accepts. */
module JsonTheorems {
  import opened Bytes
  import opened JsonValues
  import opened JsonStrings
  import opened JsonGrammar
  import opened JsonOrder

  /* ---- objects are maps ------------------------------------------------------------ */

  /** The value under a key. */
  function Lookup(members: seq<Member>, key: seq<byte>): seq<Json> {
    if members == [] then []
    else if members[0].key == key then [members[0].value]
    else Lookup(members[1..], key)
  }

  /** Assignment through `operator[]` changes one key, and keeps the members sorted. */
  lemma {:induction false} InsertAssigns(members: seq<Member>, key: seq<byte>, v: Json, other: seq<byte>)
    requires Ascending(members)
    ensures Lookup(Insert(members, key, v), other) == if other == key then [v] else Lookup(members, other)
  {
    if members != [] {
      BytesTrichotomy(key, members[0].key);
      if LessBytes(members[0].key, key) {
        InsertAssigns(members[1..], key, v, other);
      }
    }
  }

  lemma {:induction false} InsertKeys(members: seq<Member>, key: seq<byte>, v: Json, k: nat)
    requires k < |Insert(members, key, v)|
    ensures Insert(members, key, v)[k].key == key
            || exists j :: 0 <= j < |members| && members[j].key == Insert(members, key, v)[k].key
  {
    if members != [] {
      if LessBytes(key, members[0].key) {
        if k > 0 {
          assert members[k - 1].key == Insert(members, key, v)[k].key;
        }
      } else if LessBytes(members[0].key, key) {
        if k == 0 {
          assert members[0].key == Insert(members, key, v)[k].key;
        } else {
          InsertKeys(members[1..], key, v, k - 1);
          var rest := Insert(members[1..], key, v);
          if rest[k - 1].key != key {
            var j :| 0 <= j < |members[1..]| && members[1..][j].key == rest[k - 1].key;
            assert members[j + 1].key == Insert(members, key, v)[k].key;
          }
        }
      } else {
        if k > 0 {
          assert members[k].key == Insert(members, key, v)[k].key;
        }
      }
    }
  }

  lemma {:induction false} InsertAscends(members: seq<Member>, key: seq<byte>, v: Json)
    requires Ascending(members)
    ensures Ascending(Insert(members, key, v))
  {
    var r := Insert(members, key, v);
    if members != [] {
      BytesTrichotomy(key, members[0].key);
      if LessBytes(key, members[0].key) {
        forall j | 0 < j < |r|
          ensures LessBytes(key, r[j].key)
        {
          if j > 1 {
            BytesTransitive(key, members[0].key, members[j - 1].key);
          }
        }
      } else if LessBytes(members[0].key, key) {
        InsertAscends(members[1..], key, v);
        forall j | 0 < j < |r|
          ensures LessBytes(members[0].key, r[j].key)
        {
          InsertKeys(members[1..], key, v, j - 1);
        }
      }
    }
  }

  lemma {:induction false} InsertKeeps(members: seq<Member>, key: seq<byte>, v: Json, h: nat)
    requires WellFormedMembers(members) && WellFormed(v)
    requires MembersHeight(members) <= h && 1 + Height(v) <= h
    ensures WellFormedMembers(Insert(members, key, v)) && MembersHeight(Insert(members, key, v)) <= h
  {
    if members != [] && LessBytes(members[0].key, key) {
      InsertKeeps(members[1..], key, v, h);
    }
    var r := Insert(members, key, v);
    assert r[1..] == if members == [] then []
                     else if LessBytes(key, members[0].key) then members
                     else if LessBytes(members[0].key, key) then Insert(members[1..], key, v)
                     else members[1..];
  }

  lemma {:induction false} AppendKeeps(items: seq<Json>, v: Json, h: nat)
    requires WellFormedItems(items) && WellFormed(v)
    requires ItemsHeight(items) <= h && 1 + Height(v) <= h
    ensures WellFormedItems(items + [v]) && ItemsHeight(items + [v]) <= h
  {
    if items != [] {
      AppendKeeps(items[1..], v, h);
      assert (items + [v])[1..] == items[1..] + [v];
    } else {
      assert (items + [v])[1..] == [];
    }
  }

  /** What the parser builds is never nested deeper than its limit, and its objects are
      maps. */
  lemma {:induction false} ValueBounded(s: seq<byte>, m: Strategy, i: nat, depth: nat)
    requires i <= |s| && depth <= MAX_DEPTH + 1 && Value(s, m, i, depth).Ok?
    ensures depth + Height(Value(s, m, i, depth).value) <= MAX_DEPTH
    ensures WellFormed(Value(s, m, i, depth).value)
    decreases MAX_DEPTH + 1 - depth, |s| + 1
  {
    hide Token, StringLiteral;
    var t := Token(s, m, i);
    if t.value == LBRACE {
      var t2 := Token(s, m, t.at);
      if t2.value != RBRACE {
        MembersBounded(s, m, t2.value, t2.at, depth, []);
      }
    } else if t.value == LBRACKET {
      var t2 := Token(s, m, t.at);
      if t2.value != RBRACKET {
        ElementsBounded(s, m, t2.at - 1, depth, []);
      }
    }
  }

  lemma {:induction false} ElementsBounded(s: seq<byte>, m: Strategy, i: nat, depth: nat, items: seq<Json>)
    requires i <= |s| && depth <= MAX_DEPTH && Elements(s, m, i, depth, items).Ok?
    requires WellFormedItems(items) && depth + ItemsHeight(items) <= MAX_DEPTH
    ensures depth + Height(Elements(s, m, i, depth, items).value) <= MAX_DEPTH
    ensures WellFormed(Elements(s, m, i, depth, items).value)
    decreases MAX_DEPTH + 1 - depth, |s| - i
  {
    hide Token, Value;
    var v := Value(s, m, i, depth + 1);
    ValueBounded(s, m, i, depth + 1);
    AppendKeeps(items, v.value, MAX_DEPTH - depth);
    var t := Token(s, m, v.at);
    if t.value == COMMA {
      ElementsBounded(s, m, Token(s, m, t.at).at - 1, depth, items + [v.value]);
    }
  }

  lemma {:induction false} MembersBounded(s: seq<byte>, m: Strategy, ch: byte, i: nat, depth: nat, members: seq<Member>)
    requires i <= |s| && depth <= MAX_DEPTH && Members(s, m, ch, i, depth, members).Ok?
    requires WellFormedMembers(members) && Ascending(members) && depth + MembersHeight(members) <= MAX_DEPTH
    ensures depth + Height(Members(s, m, ch, i, depth, members).value) <= MAX_DEPTH
    ensures WellFormed(Members(s, m, ch, i, depth, members).value)
    decreases MAX_DEPTH + 1 - depth, |s| - i
  {
    hide Token, Value, StringLiteral, Insert;
    var key := StringLiteral(s, i);
    var colon := Token(s, m, key.at);
    var v := Value(s, m, colon.at, depth + 1);
    ValueBounded(s, m, colon.at, depth + 1);
    InsertKeeps(members, key.value, v.value, MAX_DEPTH - depth);
    InsertAscends(members, key.value, v.value);
    var t := Token(s, m, v.at);
    if t.value == COMMA {
      var next := Token(s, m, t.at);
      MembersBounded(s, m, next.value, next.at, depth, Insert(members, key.value, v.value));
    }
  }

  /** Whatever parses was read to its end and yields a well-formed value nested at most
      200 deep. */
  lemma ParsedValues(s: seq<byte>, m: Strategy)
    requires Parse(s, m).Ok?
    ensures Parse(s, m).at == |s|
    ensures Height(Parse(s, m).value) <= MAX_DEPTH && WellFormed(Parse(s, m).value)
  {
    hide Value, Garbage;
    ValueBounded(s, m, 0, 0);
  }

  /* ---- comments ------------------------------------------------------------------------ */

  lemma TokenAgrees(s: seq<byte>, i: nat)
    requires i <= |s| && Token(s, Standard, i).Ok? && Token(s, Standard, i).value != SLASH
    ensures Token(s, Comments, i) == Token(s, Standard, i)
  {
    var j := SkipSpace(s, i);
    assert SkipSpace(s, j) == j;
  }

  lemma TokenAgain(s: seq<byte>, m: Strategy, i: nat)
    requires i <= |s| && Token(s, m, i).Ok? && m == Standard
    ensures Token(s, m, Token(s, m, i).at - 1) == Token(s, m, i)
  {
    var j := SkipSpace(s, i);
    assert SkipSpace(s, j) == j;
  }

  lemma FirstToken(s: seq<byte>, i: nat, depth: nat)
    requires i <= |s| && depth <= MAX_DEPTH + 1 && Value(s, Standard, i, depth).Ok?
    ensures depth <= MAX_DEPTH && Token(s, Standard, i).Ok? && Token(s, Standard, i).value != SLASH
  {
    hide Token;
  }

  /** A text the standard grammar accepts means the same with comments allowed. */
  lemma {:induction false} ValueAgrees(s: seq<byte>, i: nat, depth: nat)
    requires i <= |s| && depth <= MAX_DEPTH + 1 && Value(s, Standard, i, depth).Ok?
    ensures Value(s, Comments, i, depth) == Value(s, Standard, i, depth)
    decreases MAX_DEPTH + 1 - depth, |s| + 1
  {
    hide Token, StringLiteral, Number, Literal;
    FirstToken(s, i, depth);
    TokenAgrees(s, i);
    var t := Token(s, Standard, i);
    if t.value == LBRACE {
      var t2 := Token(s, Standard, t.at);
      TokenAgrees(s, t.at);
      if t2.value != RBRACE {
        MembersAgree(s, t2.value, t2.at, depth, []);
      }
    } else if t.value == LBRACKET {
      var t2 := Token(s, Standard, t.at);
      TokenAgain(s, Standard, t.at);
      if t2.value == RBRACKET {
        TokenAgrees(s, t.at);
      } else {
        ElementsStart(s, t2.at - 1, depth, []);
        TokenAgrees(s, t.at);
        ElementsAgree(s, t2.at - 1, depth, []);
      }
    }
  }

  lemma ElementsStart(s: seq<byte>, i: nat, depth: nat, items: seq<Json>)
    requires i <= |s| && depth <= MAX_DEPTH && Elements(s, Standard, i, depth, items).Ok?
    ensures Value(s, Standard, i, depth + 1).Ok?
    ensures Token(s, Standard, i).Ok? && Token(s, Standard, i).value != SLASH
  {
    hide Value, Token;
    FirstToken(s, i, depth + 1);
  }

  lemma {:induction false} ElementsAgree(s: seq<byte>, i: nat, depth: nat, items: seq<Json>)
    requires i <= |s| && depth <= MAX_DEPTH && Elements(s, Standard, i, depth, items).Ok?
    ensures Elements(s, Comments, i, depth, items) == Elements(s, Standard, i, depth, items)
    decreases MAX_DEPTH + 1 - depth, |s| - i
  {
    hide Token, Value;
    var v := Value(s, Standard, i, depth + 1);
    ValueAgrees(s, i, depth + 1);
    var t := Token(s, Standard, v.at);
    TokenAgrees(s, v.at);
    if t.value == COMMA {
      var next := Token(s, Standard, t.at);
      TokenAgain(s, Standard, t.at);
      ElementsStart(s, next.at - 1, depth, items + [v.value]);
      TokenAgrees(s, t.at);
      ElementsAgree(s, next.at - 1, depth, items + [v.value]);
    }
  }

  lemma {:induction false} MembersAgree(s: seq<byte>, ch: byte, i: nat, depth: nat, members: seq<Member>)
    requires i <= |s| && depth <= MAX_DEPTH && Members(s, Standard, ch, i, depth, members).Ok?
    ensures Members(s, Comments, ch, i, depth, members) == Members(s, Standard, ch, i, depth, members)
    decreases MAX_DEPTH + 1 - depth, |s| - i
  {
    hide Token, Value, StringLiteral, Insert;
    var key := StringLiteral(s, i);
    var colon := Token(s, Standard, key.at);
    TokenAgrees(s, key.at);
    var v := Value(s, Standard, colon.at, depth + 1);
    ValueAgrees(s, colon.at, depth + 1);
    var t := Token(s, Standard, v.at);
    TokenAgrees(s, v.at);
    if t.value == COMMA {
      var next := Token(s, Standard, t.at);
      MembersStartQuoted(s, next.value, next.at, depth, Insert(members, key.value, v.value));
      TokenAgrees(s, t.at);
      MembersAgree(s, next.value, next.at, depth, Insert(members, key.value, v.value));
    }
  }

  lemma MembersStartQuoted(s: seq<byte>, ch: byte, i: nat, depth: nat, members: seq<Member>)
    requires i <= |s| && depth <= MAX_DEPTH && Members(s, Standard, ch, i, depth, members).Ok?
    ensures ch == QUOTE
  {
  }

  /** Allowing comments is a conservative extension: every text that parses without
      comments parses to the same value with them. */
  lemma CommentsConservative(s: seq<byte>)
    requires Parse(s, Standard).Ok?
    ensures Parse(s, Comments) == Parse(s, Standard)
  {
    ParsedTo(s);
    var v := Value(s, Standard, 0, 0);
    ValueAgrees(s, 0, 0);
    hide Value;
    assert SkipSpace(s, v.at) == |s|;
    assert SkipSpace(s, |s|) == |s|;
  }

  lemma ParsedTo(s: seq<byte>)
    requires Parse(s, Standard).Ok?
    ensures Value(s, Standard, 0, 0).Ok? && SkipSpace(s, Value(s, Standard, 0, 0).at) == |s|
  {
    hide Value;
  }
}
