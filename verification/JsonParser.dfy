/** `json11`'s parser and printer as they run: an index into the text, a failure flag and
    output buffers, updated in place.  Each method is proved against the grammar. */
module JsonParsing {
  import opened Bytes
  import opened JsonValues
  import opened JsonStrings
  import opened JsonGrammar
  import opened JsonText

  datatype Failure = NoFailure | Failure(error: Error)

  class JsonParser {
    const str: seq<byte>
    const strategy: Strategy
    var i: nat
    var failed: bool
    var err: Failure

    ghost predicate Valid()
      reads this
    {
      i <= |str| && (failed <==> err.Failure?)
    }

    /** The outcome of a parsing method that should do what `r` says: a parser that had
        already failed keeps its first error; one that had not takes over `r`. */
    twostate predicate Follows<T>(r: Result<T>, new value: T)
      reads this
    {
      if old(failed) then failed && err == old(err)
      else
        match r
        case Ok(v, j) => !failed && i == j && value == v
        case Fail(e) => failed && err == Failure(e)
    }

    constructor (str: seq<byte>, strategy: Strategy)
      ensures Valid() && this.str == str && this.strategy == strategy && i == 0 && !failed
    {
      this.str, this.strategy := str, strategy;
      i, failed, err := 0, false, NoFailure;
    }

    /** `str[k]`: at most the terminating NUL is ever read. */
    function StrAt(k: nat): byte
      requires k <= |str|
    {
      ByteAt(str, k)
    }

    /** Mark the parse as failed; the first message stays. */
    method Fail(e: Error)
      modifies this`failed, this`err
      ensures failed && err == if old(failed) then old(err) else Failure(e)
    {
      if !failed {
        err := Failure(e);
      }
      failed := true;
    }

    method ConsumeWhitespace()
      requires Valid()
      modifies this`i
      ensures Valid() && i == SkipSpace(str, old(i))
    {
      while IsSpace(StrAt(i))
        invariant i <= |str| && SkipSpace(str, i) == SkipSpace(str, old(i))
        decreases |str| - i
      {
        i := i + 1;
      }
    }

    method ConsumeComment() returns (commentFound: bool)
      requires Valid()
      modifies this`i, this`failed, this`err
      ensures Valid() && old(i) <= i && Follows(Comment(str, old(i)), commentFound)
      ensures old(failed) ==> failed && err == old(err)
    {
      commentFound := false;
      if StrAt(i) == SLASH {
        i := i + 1;
        if i == |str| {
          Fail(EndAfterSlash);
          return false;
        }
        if StrAt(i) == SLASH {
          i := i + 1;
          while i < |str| && StrAt(i) != NEWLINE
            invariant failed == old(failed) && err == old(err)
            invariant old(i) <= i <= |str| && LineEnd(str, i) == LineEnd(str, old(i) + 2)
            decreases |str| - i
          {
            i := i + 1;
          }
          commentFound := true;
        } else if StrAt(i) == STAR {
          i := i + 1;
          if i > |str| - 2 {
            Fail(EndInComment);
            return false;
          }
          while !(StrAt(i) == STAR && StrAt(i + 1) == SLASH)
            invariant failed == old(failed) && err == old(err)
            invariant old(i) <= i <= |str| - 2 && BlockEnd(str, i) == BlockEnd(str, old(i) + 2)
            decreases |str| - i
          {
            i := i + 1;
            if i > |str| - 2 {
              Fail(EndInComment);
              return false;
            }
          }
          i := i + 2;
          commentFound := true;
        } else {
          Fail(MalformedComment);
          return false;
        }
      }
    }

    method ConsumeGarbage()
      requires Valid()
      modifies this`i, this`failed, this`err
      ensures Valid() && old(i) <= i && Follows(Garbage(str, strategy, old(i)), ())
    {
      ConsumeWhitespace();
      if strategy == Comments {
        ghost var start := i;
        var commentFound := true;
        while commentFound
          invariant Valid() && old(i) <= i
          invariant old(failed) ==> failed && err == old(err)
          invariant !old(failed) ==> !failed
          invariant !failed && commentFound ==> SkipComments(str, i) == SkipComments(str, start)
          invariant !failed && !commentFound ==> SkipComments(str, start) == Ok((), i)
          decreases |str| - i, commentFound
        {
          commentFound := ConsumeComment();
          if failed {
            return;
          }
          ConsumeWhitespace();
        }
      }
    }

    method GetNextToken() returns (ch: byte)
      requires Valid()
      modifies this`i, this`failed, this`err
      ensures Valid() && old(i) <= i && Follows(Token(str, strategy, old(i)), ch)
      ensures failed ==> ch == 0
      ensures !failed ==> old(i) < i
    {
      ConsumeGarbage();
      if failed {
        return 0;
      }
      if i == |str| {
        Fail(EndOfInput);
        return 0;
      }
      ch := StrAt(i);
      i := i + 1;
    }

    /** `encode_utf8`. */
    method AppendUtf8(pt: int, out: seq<byte>) returns (r: seq<byte>)
      requires pt < 0x11_0000
      ensures r == out + EncodeUtf8(pt)
    {
      r := out;
      if pt < 0 {
        return;
      }
      if pt < 0x80 {
        r := r + [pt];
      } else if pt < 0x800 {
        r := r + [pt / 0x40 + 0xC0];
        r := r + [pt % 0x40 + 0x80];
      } else if pt < 0x1_0000 {
        r := r + [pt / 0x1000 + 0xE0];
        r := r + [pt / 0x40 % 0x40 + 0x80];
        r := r + [pt % 0x40 + 0x80];
      } else {
        r := r + [pt / 0x4_0000 + 0xF0];
        r := r + [pt / 0x1000 % 0x40 + 0x80];
        r := r + [pt / 0x40 % 0x40 + 0x80];
        r := r + [pt % 0x40 + 0x80];
      }
    }

    /** An escaped code unit arrives: complete a surrogate pair, or let the one held back
        go and hold this one back. */
    method HoldBack(code: u16, last: PendingCode, out: seq<byte>) returns (out': seq<byte>, last': PendingCode)
      ensures Accumulator(out', last') == Accept(Accumulator(out, last), Esc(code))
    {
      if IsHigh(last) && IsLow(code) {
        out' := AppendUtf8(Pair(last, code), out);
        last' := -1;
      } else {
        out' := AppendUtf8(last, out);
        last' := code;
      }
    }

    /** What a one-letter escape stands for goes out. */
    method AppendShort(ch: byte, out: seq<byte>) returns (ok: bool, out': seq<byte>)
      ensures ok == ShortEscape(ch).Ok?
      ensures out' == if ok then out + [ShortEscape(ch).value] else out
    {
      ok, out' := true, out;
      if ch == 0x62 {
        out' := out + [8];
      } else if ch == 0x66 {
        out' := out + [12];
      } else if ch == 0x6E {
        out' := out + [10];
      } else if ch == 0x72 {
        out' := out + [13];
      } else if ch == 0x74 {
        out' := out + [9];
      } else if ch == QUOTE || ch == BACKSLASH || ch == SLASH {
        out' := out + [ch];
      } else {
        ok := false;
      }
    }

    /** `parse_string`, with its deferred code point. */
    method ParseString() returns (out: seq<byte>)
      requires Valid() && !failed
      modifies this`i, this`failed, this`err
      ensures Valid() && old(i) <= i && Follows(StringLiteral(str, old(i)), out)
      ensures failed ==> out == []
    {
      hide EncodeUtf8, Assemble, Finish, StringLiteral, Scan, ShortEscape;
      out := [];
      var last: PendingCode := -1;
      NothingPending(str, i);
      while true
        invariant Valid() && !failed && old(i) <= i
        invariant StringLiteral(str, old(i)) == Finish(Accumulator(out, last), Scan(str, i))
        decreases |str| - i
      {
        if i == |str| {
          FinishAtEnd(Accumulator(out, last), str);
          Fail(EndInString);
          return [];
        }
        ghost var acc, from := Accumulator(out, last), i;
        var ch := StrAt(i);
        i := i + 1;
        if ch == QUOTE {
          FinishAtQuote(acc, str, from);
          out := AppendUtf8(last, out);
          return;
        }
        FinishStep(acc, str, from);
        if ch <= 0x1F {
          Fail(ControlInString(ch));
          return [];
        }
        if ch != BACKSLASH {
          out := AppendUtf8(last, out);
          last := -1;
          out := out + [ch];
          continue;
        }
        if i == |str| {
          Fail(EndInString);
          return [];
        }
        ch := StrAt(i);
        i := i + 1;
        if ch == 0x75 {
          if i + 4 > |str| || !AllHex(str[i..i + 4]) {
            Fail(BadUnicodeEscape);
            return [];
          }
          out, last := HoldBack(Hex4(str[i..i + 4]), last, out);
          i := i + 4;
          continue;
        }
        out := AppendUtf8(last, out);
        last := -1;
        var ok;
        ok, out := AppendShort(ch, out);
        if !ok {
          UnknownEscape(ch);
          Fail(InvalidEscape(ch));
          return [];
        }
      }
    }

    method ConsumeDigits()
      requires Valid()
      modifies this`i
      ensures Valid() && i == SkipDigits(str, old(i))
    {
      while IsDigit(StrAt(i))
        invariant i <= |str| && SkipDigits(str, i) == SkipDigits(str, old(i))
        decreases |str| - i
      {
        i := i + 1;
      }
    }

    /** The integer part of a number. */
    method ParseWhole() returns (ok: ())
      requires Valid() && !failed
      modifies this`i, this`failed, this`err
      ensures Valid() && old(i) <= i && Follows(WholeEnd(str, old(i)), ok)
    {
      ok := ();
      if StrAt(i) == 0x30 {
        i := i + 1;
        if IsDigit(StrAt(i)) {
          Fail(LeadingZero);
        }
      } else if IsDigit(StrAt(i)) {
        i := i + 1;
        ConsumeDigits();
      } else {
        Fail(InvalidNumber(StrAt(i)));
      }
    }

    /** The decimal part. */
    method ParseFraction() returns (f: (nat, nat))
      requires Valid() && !failed
      modifies this`i, this`failed, this`err
      ensures Valid() && old(i) <= i && Follows(JsonGrammar.Fraction(str, old(i)), f)
    {
      f := (0, 0);
      if StrAt(i) == 0x2E {
        i := i + 1;
        if !IsDigit(StrAt(i)) {
          Fail(NoFractionDigit);
          return;
        }
        var from := i;
        ConsumeDigits();
        f := (NatValue(str[from..i]), i - from);
      }
    }

    method ParseExponent() returns (x: int)
      requires Valid() && !failed
      modifies this`i, this`failed, this`err
      ensures Valid() && old(i) <= i && Follows(JsonGrammar.Exponent(str, old(i)), x)
    {
      x := 0;
      if IsExponentMark(StrAt(i)) {
        i := i + 1;
        var negative := StrAt(i) == MINUS;
        if StrAt(i) == 0x2B || StrAt(i) == MINUS {
          i := i + 1;
        }
        if !IsDigit(StrAt(i)) {
          Fail(NoExponentDigit);
          return;
        }
        var from := i;
        ConsumeDigits();
        x := if negative then -(NatValue(str[from..i]) as int) else NatValue(str[from..i]);
      }
    }

    method ParseNumber() returns (v: Json)
      requires Valid() && !failed
      modifies this`i, this`failed, this`err
      ensures Valid() && old(i) <= i && Follows(Number(str, old(i)), v)
      ensures failed ==> v == Null
    {
      hide NatValue, Decimal, WholeEnd, Fraction, Exponent;
      var startPos := i;
      v := Null;
      var neg := StrAt(i) == MINUS;
      if neg {
        i := i + 1;
      }
      var start := i;
      var _ := ParseWhole();
      if failed {
        return;
      }
      var whole := NatValue(str[start..i]);
      if StrAt(i) != 0x2E && !IsExponentMark(StrAt(i)) && i - startPos <= INT_DIGITS {
        NatValueBound(str[start..i]);
        PowMonotone(i - start, INT_DIGITS);
        return Int(if neg then -(whole as int) else whole);
      }
      var f := ParseFraction();
      if failed {
        return;
      }
      var x := ParseExponent();
      if failed {
        return;
      }
      v := Double(Decimal(neg, whole, f.0, f.1, x));
    }

    /** `expect`: the first character has been read already. */
    method Expect(expected: seq<byte>, res: Json) returns (v: Json)
      requires Valid() && !failed && i != 0
      modifies this`i, this`failed, this`err
      ensures Valid() && Follows(Literal(str, old(i) - 1, expected, res), v)
      ensures failed ==> v == Null
    {
      i := i - 1;
      if i + |expected| <= |str| && str[i..i + |expected|] == expected {
        i := i + |expected|;
        v := res;
      } else {
        Fail(NotLiteral(expected));
        v := Null;
      }
    }

    /** `parse_json`; recursion stops one past the depth limit. */
    method ParseJson(depth: nat) returns (v: Json)
      requires Valid() && depth <= MAX_DEPTH + 1
      modifies this`i, this`failed, this`err
      ensures Valid() && Follows(Value(str, strategy, old(i), depth), v)
      ensures !old(failed) && failed ==> v == FailureValue(str, strategy, old(i), depth)
      decreases MAX_DEPTH + 1 - depth, 1
    {
      hide Token, StringLiteral, Number, Literal, Elements, Members;
      v := Null;
      if depth > MAX_DEPTH {
        Fail(TooDeep);
        return;
      }
      var ch := GetNextToken();
      if failed {
        return;
      }
      if ch == MINUS || IsDigit(ch) {
        i := i - 1;
        v := ParseNumber();
      } else if ch == TRUE_TEXT[0] {
        v := Expect(TRUE_TEXT, Bool(true));
      } else if ch == FALSE_TEXT[0] {
        v := Expect(FALSE_TEXT, Bool(false));
      } else if ch == NULL_TEXT[0] {
        v := Expect(NULL_TEXT, Null);
      } else if ch == QUOTE {
        var text := ParseString();
        v := Str(text);
      } else if ch == LBRACE {
        ch := GetNextToken();
        if ch == RBRACE {
          return Obj([]);
        }
        v := ParseMembers(ch, depth);
      } else if ch == LBRACKET {
        ch := GetNextToken();
        if ch == RBRACKET {
          return Arr([]);
        }
        v := ParseElements(depth);
      } else {
        Fail(ExpectedValue(ch));
      }
    }

    /** The object loop of `parse_json`. */
    method ParseMembers(first: byte, depth: nat) returns (v: Json)
      requires Valid() && depth <= MAX_DEPTH && (failed ==> first == 0)
      modifies this`i, this`failed, this`err
      ensures Valid() && Follows(Members(str, strategy, first, old(i), depth, []), v)
      ensures failed ==> v == Null
      decreases MAX_DEPTH + 1 - depth, 0
    {
      hide Token, StringLiteral, Value, Insert;
      var data: seq<Member> := [];
      var ch := first;
      v := Null;
      while true
        invariant Valid() && (failed ==> ch == 0)
        invariant old(failed) ==> failed && err == old(err)
        invariant !old(failed) && failed ==>
                    Members(str, strategy, first, old(i), depth, []) == Result<Json>.Fail(err.error)
        invariant !old(failed) && !failed ==>
                    Members(str, strategy, first, old(i), depth, []) == Members(str, strategy, ch, i, depth, data)
        decreases !failed, |str| - i
      {
        if ch != QUOTE {
          Fail(ExpectedKey(ch));
          return;
        }
        var key := ParseString();
        if failed {
          return;
        }
        ch := GetNextToken();
        if ch != COLON {
          Fail(ExpectedColon(ch));
          return;
        }
        var value := ParseJson(depth + 1);
        data := Insert(data, key, value);
        if failed {
          return;
        }
        ch := GetNextToken();
        if ch == RBRACE {
          break;
        }
        if ch != COMMA {
          Fail(ExpectedCommaInObject(ch));
          return;
        }
        ch := GetNextToken();
      }
      v := Obj(data);
    }

    /** The array loop of `parse_json`, entered behind the token that starts a value. */
    method ParseElements(depth: nat) returns (v: Json)
      requires Valid() && depth <= MAX_DEPTH && i != 0
      modifies this`i, this`failed, this`err
      ensures Valid() && Follows(Elements(str, strategy, old(i) - 1, depth, []), v)
      ensures failed ==> v == Null
      decreases MAX_DEPTH + 1 - depth, 0
    {
      hide Token, Value;
      var data: seq<Json> := [];
      v := Null;
      while true
        invariant Valid() && i != 0
        invariant old(failed) ==> failed && err == old(err)
        invariant !old(failed) && failed ==>
                    Elements(str, strategy, old(i) - 1, depth, []) == Result<Json>.Fail(err.error)
        invariant !old(failed) && !failed ==>
                    Elements(str, strategy, old(i) - 1, depth, []) == Elements(str, strategy, i - 1, depth, data)
        decreases !failed, |str| - i
      {
        i := i - 1;
        var value := ParseJson(depth + 1);
        data := data + [value];
        if failed {
          return;
        }
        var ch := GetNextToken();
        if ch == RBRACKET {
          break;
        }
        if ch != COMMA {
          Fail(ExpectedCommaInList(ch));
          return;
        }
        ch := GetNextToken();
      }
      v := Arr(data);
    }
  }

  /** What `parse_json` hands back when it fails: null, or an empty string where it was
      reading a string. */
  function FailureValue(s: seq<byte>, m: Strategy, i: nat, depth: nat): Json
    requires i <= |s|
  {
    if depth <= MAX_DEPTH && Token(s, m, i).Ok? && Token(s, m, i).value == QUOTE then Str([]) else Null
  }

  /** The literal that the accumulators and the rest of the scan amount to. */
  function Finish(acc: Accumulator, r: Result<seq<Unit>>): Result<seq<byte>> {
    match r
    case Fail(e) => Result<seq<byte>>.Fail(e)
    case Ok(units, j) => Ok(acc.out + Assemble(Pending(acc) + units), j)
  }

  lemma NothingPending(s: seq<byte>, i: nat)
    requires i <= |s|
    ensures StringLiteral(s, i) == Finish(Accumulator([], -1), Scan(s, i))
  {
    hide Assemble;
    if Scan(s, i).Ok? {
      assert [] + Scan(s, i).value == Scan(s, i).value;
      assert [] + Assemble(Scan(s, i).value) == Assemble(Scan(s, i).value);
    }
  }

  lemma FinishAtEnd(acc: Accumulator, s: seq<byte>)
    ensures Finish(acc, Scan(s, |s|)) == Fail(EndInString)
  {
  }

  lemma UnknownEscape(ch: byte)
    ensures ShortEscape(ch).Fail? ==> ShortEscape(ch) == Fail(InvalidEscape(ch))
  {
  }

  lemma FinishAtQuote(acc: Accumulator, s: seq<byte>, i: nat)
    requires i < |s| && s[i] == QUOTE
    ensures Finish(acc, Scan(s, i)) == Ok(acc.out + EncodeUtf8(acc.last), i + 1)
  {
    assert Scan(s, i) == Ok([], i + 1);
    assert Pending(acc) + [] == Pending(acc);
    assert Assemble(Pending(acc)) == EncodeUtf8(acc.last) by {
      if acc.last >= 0 {
        assert Pending(acc)[1..] == [];
        assert EncodeUtf8(acc.last) + [] == EncodeUtf8(acc.last);
      }
    }
  }

  /** One unit further into the literal. */
  lemma FinishStep(acc: Accumulator, s: seq<byte>, i: nat)
    requires i < |s| && s[i] != QUOTE
    ensures Finish(acc, Scan(s, i))
            == match NextUnit(s, i)
               case Fail(e) => Fail(e)
               case Ok(u, j) => Finish(Accept(acc, u), Scan(s, j))
  {
    hide NextUnit, Assemble, Accept, Pending;
    match NextUnit(s, i)
    case Fail(_) =>
    case Ok(u, j) =>
      match Scan(s, j)
      case Fail(_) =>
      case Ok(rest, _) => AcceptAssembles(acc, u, rest);
  }

  /** `Json::parse`: a value, or the first error. */
  method Parse(text: seq<byte>, strategy: Strategy) returns (v: Json, err: Failure)
    ensures match JsonGrammar.Parse(text, strategy)
            case Ok(x, _) => v == x && err == NoFailure
            case Fail(e) => v == Null && err == Failure(e)
  {
    hide Value, Garbage;
    var parser := new JsonParser(text, strategy);
    v := parser.ParseJson(0);
    parser.ConsumeGarbage();
    if parser.failed {
      return Null, parser.err;
    }
    if parser.i != |text| {
      parser.Fail(Trailing(text[parser.i]));
      return Null, parser.err;
    }
    err := parser.err;
  }

  /* ---- several documents --------------------------------------------------------------- */

  /** What `Json::parse_multi` should return: the values in order (a stand-in for one
      that fails), where the last complete one ended, and the error that stopped it. */
  datatype Documents = Documents(values: seq<Json>, stop: nat, err: Failure)

  function Multi(s: seq<byte>, m: Strategy, i: nat, stop: nat): Documents
    requires i <= |s|
    decreases |s| - i
  {
    if i == |s| then Documents([], stop, NoFailure)
    else
      match Value(s, m, i, 0)
      case Fail(e) => Documents([FailureValue(s, m, i, 0)], stop, Failure(e))
      case Ok(v, j) =>
        match Garbage(s, m, j)
        case Fail(e) => Documents([v], stop, Failure(e))
        case Ok(_, k) =>
          var rest := Multi(s, m, k, k);
          Documents([v] + rest.values, rest.stop, rest.err)
  }

  /** The documents still to come, behind those already collected. */
  function Behind(values: seq<Json>, d: Documents): Documents {
    d.(values := values + d.values)
  }

  method ParseMulti(text: seq<byte>, strategy: Strategy) returns (values: seq<Json>, stop: nat, err: Failure)
    ensures Documents(values, stop, err) == Multi(text, strategy, 0, 0)
  {
    hide Value, Garbage, FailureValue;
    var parser := new JsonParser(text, strategy);
    stop, values := 0, [];
    while parser.i != |text| && !parser.failed
      invariant parser.Valid() && parser.str == text && parser.strategy == strategy
      invariant fresh(parser) && !parser.failed
      invariant Multi(text, strategy, 0, 0) == Behind(values, Multi(text, strategy, parser.i, stop))
      decreases |text| - parser.i
    {
      ghost var was := values;
      ghost var rest := Multi(text, strategy, parser.i, stop);
      var v := parser.ParseJson(0);
      values := values + [v];
      if parser.failed {
        assert rest == Documents([v], stop, parser.err);
        break;
      }
      parser.ConsumeGarbage();
      if parser.failed {
        assert rest == Documents([v], stop, parser.err);
        break;
      }
      stop := parser.i;
      ghost var later := Multi(text, strategy, stop, stop);
      assert was + ([v] + later.values) == values + later.values;
    }
    err := parser.err;
    assert values + [] == values;
  }

  /* ---- printing ------------------------------------------------------------------------- */

  lemma BodyTurn(s: seq<byte>)
    requires s != []
    ensures DumpBody(s) == Escaped(s).0 + DumpBody(s[Escaped(s).1..])
  {
  }

  lemma EmptyBody()
    ensures DumpBody([]) == []
  {
  }

  /** `dump(const string &)`: one pass, skipping ahead over a line separator. */
  method PrintString(value: seq<byte>, before: seq<byte>) returns (out: seq<byte>)
    ensures out == before + DumpString(value)
  {
    hide UnicodeEscape, DumpBody;
    out := before + [QUOTE];
    var i := 0;
    assert value[0..] == value;
    while i < |value|
      invariant i <= |value|
      invariant out + DumpBody(value[i..]) == before + [QUOTE] + DumpBody(value)
    {
      var ch := value[i];
      ghost var at, from := out, value[i..];
      assert forall k: nat :: k < 3 ==> ByteAt(from, k) == ByteAt(value, i + k);
      if ch == BACKSLASH {
        out := out + [BACKSLASH, BACKSLASH];
      } else if ch == QUOTE {
        out := out + [BACKSLASH, QUOTE];
      } else if ch == 8 {
        out := out + [BACKSLASH, 0x62];
      } else if ch == 12 {
        out := out + [BACKSLASH, 0x66];
      } else if ch == 10 {
        out := out + [BACKSLASH, 0x6E];
      } else if ch == 13 {
        out := out + [BACKSLASH, 0x72];
      } else if ch == 9 {
        out := out + [BACKSLASH, 0x74];
      } else if ch <= 0x1F {
        out := out + UnicodeEscape(ch);
      } else if ch == 0xE2 && ByteAt(value, i + 1) == 0x80 && ByteAt(value, i + 2) == 0xA8 {
        out := out + UnicodeEscape(0x2028);
        i := i + 2;
      } else if ch == 0xE2 && ByteAt(value, i + 1) == 0x80 && ByteAt(value, i + 2) == 0xA9 {
        out := out + UnicodeEscape(0x2029);
        i := i + 2;
      } else {
        out := out + [ch];
      }
      i := i + 1;
      assert out == at + Escaped(from).0 && value[i..] == from[Escaped(from).1..];
      BodyTurn(from);
      assert at + (Escaped(from).0 + DumpBody(value[i..])) == at + Escaped(from).0 + DumpBody(value[i..]);
    }
    EmptyBody();
    assert value[i..] == [];
    assert out + [] == out;
    assert DumpString(value) == [QUOTE] + DumpBody(value) + [QUOTE];
    assert before + ([QUOTE] + DumpBody(value) + [QUOTE]) == before + [QUOTE] + DumpBody(value) + [QUOTE];
    out := out + [QUOTE];
  }

  /** `Json::dump`, appending to `out`. */
  method Print(v: Json, before: seq<byte>) returns (out: seq<byte>)
    requires Printable(v)
    ensures out == before + Dump(v)
    decreases v, 1
  {
    match v
    case Null => out := before + NULL_TEXT;
    case Int(n) => out := before + DumpInt(n);
    case Bool(b) => out := before + if b then TRUE_TEXT else FALSE_TEXT;
    case Str(s) => out := PrintString(s, before);
    case Arr(items) => out := PrintItems(items, before + [LBRACKET]);
    case Obj(members) => out := PrintMembers(members, before + [LBRACE]);
  }

  lemma MemberInFront(out: seq<byte>, first: bool, member: Member, more: seq<byte>)
    requires Printable(member.value)
    ensures out + (Separator(first) + (DumpMember(member) + more))
            == (if first then out else out + COMMA_SPACE) + DumpString(member.key) + COLON_SPACE + Dump(member.value)
              + more
  {
    hide DumpString, Dump;
    var key, value := DumpString(member.key), Dump(member.value);
    var front := if first then out else out + COMMA_SPACE;
    assert out + Separator(first) == front;
    assert front + ((key + (COLON_SPACE + value)) + more) == front + key + COLON_SPACE + value + more;
  }

  method PrintItems(items: seq<Json>, before: seq<byte>) returns (out: seq<byte>)
    requires PrintableItems(items)
    ensures out == before + DumpItems(items, true)
    decreases items, 0
  {
    hide Dump;
    assert items[0..] == items;
    out := before;
    var first := true;
    var k := 0;
    while k < |items|
      invariant k <= |items| && first == (k == 0) && PrintableItems(items[k..])
      invariant out + DumpItems(items[k..], first) == before + DumpItems(items, true)
    {
      ghost var at, more := out, DumpItems(items[k + 1..], false);
      assert items[k..][1..] == items[k + 1..] && items[k] == items[k..][0];
      assert DumpItems(items[k..], first) == Separator(first) + (Dump(items[k]) + more);
      assert at + (Separator(first) + (Dump(items[k]) + more)) == at + Separator(first) + Dump(items[k]) + more;
      assert at + [] == at;
      if !first {
        out := out + COMMA_SPACE;
      }
      out := Print(items[k], out);
      first := false;
      k := k + 1;
    }
    out := out + [RBRACKET];
  }

  method PrintMembers(members: seq<Member>, before: seq<byte>) returns (out: seq<byte>)
    requires PrintableMembers(members)
    ensures out == before + DumpMembers(members, true)
    decreases members, 0
  {
    hide Dump, DumpMember, DumpString;
    out := before;
    var first := true;
    var k := 0;
    assert members[0..] == members;
    while k < |members|
      invariant k <= |members| && first == (k == 0) && PrintableMembers(members[k..])
      invariant out + DumpMembers(members[k..], first) == before + DumpMembers(members, true)
    {
      ghost var at, more := out, DumpMembers(members[k + 1..], false);
      assert members[k..][1..] == members[k + 1..] && members[k] == members[k..][0];
      MemberInFront(at, first, members[k], more);
      assert DumpMembers(members[k..], first) == Separator(first) + (DumpMember(members[k]) + more);
      if !first {
        out := out + COMMA_SPACE;
      }
      out := PrintString(members[k].key, out);
      out := out + COLON_SPACE;
      out := Print(members[k].value, out);
      first := false;
      k := k + 1;
    }
    out := out + [RBRACE];
  }
}
