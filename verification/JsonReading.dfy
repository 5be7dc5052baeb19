/** Every text the grammar derives is read, and as what it means: the parser is complete. */
module JsonReading {
  import opened Bytes
  import opened JsonValues
  import opened JsonStrings
  import opened JsonGrammar
  import opened JsonRoundTrip
  import opened JsonSyntax

  /* ---- white space ---------------------------------------------------------------------------- */

  lemma {:induction false} LineEnds(s: seq<byte>, i: nat, j: nat)
    requires i <= j <= |s| && NEWLINE !in s[i..j] && (j == |s| || s[j] == NEWLINE)
    ensures LineEnd(s, i) == j
    decreases j - i
  {
    if i < j {
      assert s[i..j][0] == s[i] && s[i + 1..j] == s[i..j][1..];
      LineEnds(s, i + 1, j);
    }
  }

  lemma {:induction false} BlockEnds(s: seq<byte>, i: nat, j: nat)
    requires i + 2 <= j <= |s| && s[j - 2] == STAR && s[j - 1] == SLASH
    requires forall k :: i <= k < j - 2 ==> !(s[k] == STAR && s[k + 1] == SLASH)
    ensures BlockEnd(s, i) == Ok(true, j)
    decreases j - i
  {
    if i + 2 < j {
      BlockEnds(s, i + 1, j);
    }
  }

  lemma LineRead(s: seq<byte>, i: nat, c: seq<byte>)
    requires HasAt(s, i, c) && LineOk(c)
    ensures s[i] == SLASH && Comment(s, i) == Ok(true, i + |c| - 1) && IsSpace(s[i + |c| - 1])
  {
    var j := i + |c| - 1;
    assert s[i..j + 1] == c;
    assert s[i] == c[..2][0] && s[i + 1] == c[..2][1] && s[j] == c[|c| - 1];
    forall k | i + 2 <= k < j ensures s[k] != NEWLINE {
      assert s[k] == c[2..|c| - 1][k - i - 2];
    }
    hide HasAt, LineOk;
    LineEnds(s, i + 2, j);
  }

  lemma BlockRead(s: seq<byte>, i: nat, c: seq<byte>)
    requires HasAt(s, i, c) && BlockOk(c)
    ensures s[i] == SLASH && Comment(s, i) == Ok(true, i + |c|)
  {
    var j := i + |c|;
    assert s[i..j] == c;
    assert s[i] == c[..2][0] && s[i + 1] == c[..2][1] && s[j - 2] == c[|c| - 2..][0] && s[j - 1] == c[|c| - 2..][1];
    forall k | i + 2 <= k < j - 2 ensures !(s[k] == STAR && s[k + 1] == SLASH) {
      assert s[k] == c[k - i] && s[k + 1] == c[k - i + 1];
    }
    hide HasAt, BlockOk;
    BlockEnds(s, i + 2, j);
  }

  /** A comment moves the parser behind it, and a line comment first to its line's end. */
  lemma CommentRead(s: seq<byte>, i: nat, c: seq<byte>)
    requires HasAt(s, i, c) && CommentOk(c)
    ensures i + |c| <= |s| && |c| > 0 && s[i] == SLASH && Comment(s, i).Ok? && Comment(s, i).value
    ensures SkipSpace(s, Comment(s, i).at) == SkipSpace(s, i + |c|)
  {
    HasEnds(s, i, c);
    if LineOk(c) {
      LineRead(s, i, c);
    } else {
      BlockRead(s, i, c);
    }
  }

  lemma SpaceStep(s: seq<byte>, m: Strategy, i: nat)
    requires i < |s| && IsSpace(s[i])
    ensures Garbage(s, m, i) == Garbage(s, m, i + 1)
  {
    hide SkipComments;
  }

  lemma CommentStep(s: seq<byte>, i: nat, c: seq<byte>)
    requires HasAt(s, i, c) && CommentOk(c)
    ensures i + |c| <= |s| && Garbage(s, Comments, i) == Garbage(s, Comments, i + |c|)
  {
    hide CommentOk, HasAt;
    CommentRead(s, i, c);
    assert SkipSpace(s, i) == i;
    hide Comment;
  }

  /** The first space or comment. */
  lemma SpaceSplit(m: Strategy, w: seq<byte>) returns (n: nat)
    requires SpaceOk(m, w) && w != []
    ensures 0 < n <= |w| && SpaceOk(m, w[n..])
    ensures (n == 1 && IsSpace(w[0])) || (m.Comments? && CommentOk(w[..n]))
  {
    hide CommentOk, IsSpace;
    if IsSpace(w[0]) && SpaceOk(m, w[1..]) {
      n := 1;
    } else {
      n :| 0 < n <= |w| && CommentOk(w[..n]) && SpaceOk(m, w[n..]);
    }
  }

  /** White space does not change what the parser finds behind it. */
  lemma {:induction false} SpacePassed(s: seq<byte>, m: Strategy, i: nat, w: seq<byte>)
    requires HasAt(s, i, w) && SpaceOk(m, w)
    ensures i + |w| <= |s| && Garbage(s, m, i) == Garbage(s, m, i + |w|)
    decreases |w|
  {
    hide HasAt, SpaceOk, Garbage, IsSpace, CommentOk;
    HasEnds(s, i, w);
    if w != [] {
      var n := SpaceSplit(m, w);
      assert w == w[..n] + w[n..];
      HasParts(s, i, w[..n], w[n..]);
      HasFirst(s, i, w);
      if n == 1 && IsSpace(w[0]) {
        SpaceStep(s, m, i);
      } else {
        CommentStep(s, i, w[..n]);
      }
      SpacePassed(s, m, i + n, w[n..]);
    }
  }

  lemma TokenBehind(s: seq<byte>, m: Strategy, i: nat, w: seq<byte>)
    requires HasAt(s, i, w) && SpaceOk(m, w) && i + |w| < |s| && StartsToken(s[i + |w|])
    ensures Token(s, m, i) == Ok(s[i + |w|], i + |w| + 1)
  {
    SpacePassed(s, m, i, w);
    TokenHere(s, m, i + |w|);
  }

  /** The white space a text ends with: the last line comment of it may be open. */
  lemma EndSplit(m: Strategy, w: seq<byte>) returns (n: nat)
    requires EndOk(m, w)
    ensures n <= |w| && SpaceOk(m, w[..n]) && (n == |w| || (m.Comments? && OpenLine(w[n..])))
  {
    hide SpaceOk, OpenLine;
    if SpaceOk(m, w) {
      n := |w|;
      assert w[..n] == w;
    } else {
      n :| 0 <= n <= |w| && SpaceOk(m, w[..n]) && OpenLine(w[n..]);
    }
  }

  /** The white space a text ends with. */
  lemma EndPassed(s: seq<byte>, m: Strategy, i: nat, w: seq<byte>)
    requires HasAt(s, i, w) && EndOk(m, w) && i + |w| == |s|
    ensures Garbage(s, m, i) == Ok((), |s|)
  {
    hide SpaceOk, EndOk, OpenLine, HasAt, Garbage;
    var n := EndSplit(m, w);
    assert w == w[..n] + w[n..];
    HasParts(s, i, w[..n], w[n..]);
    SpacePassed(s, m, i, w[..n]);
    if n == |w| {
      NothingBehind(s, m);
    } else {
      OpenLineRead(s, i + n, w[n..]);
    }
  }

  lemma NothingBehind(s: seq<byte>, m: Strategy)
    ensures Garbage(s, m, |s|) == Ok((), |s|)
  {
    assert Comment(s, |s|) == Ok(false, |s|);
  }

  lemma OpenLineRead(s: seq<byte>, i: nat, c: seq<byte>)
    requires HasAt(s, i, c) && OpenLine(c) && i + |c| == |s|
    ensures Garbage(s, Comments, i) == Ok((), |s|)
  {
    assert s[i..|s|] == c;
    assert s[i] == c[..2][0] && s[i + 1] == c[..2][1] && s[i + 2..|s|] == c[2..];
    LineEnds(s, i + 2, |s|);
    assert SkipSpace(s, i) == i && SkipSpace(s, |s|) == |s|;
    assert Comment(s, i) == Ok(true, |s|) && Comment(s, |s|) == Ok(false, |s|);
    assert SkipComments(s, |s|) == Ok((), |s|) && SkipComments(s, i) == SkipComments(s, |s|);
  }

  lemma ValueBehind(s: seq<byte>, m: Strategy, i: nat, w: seq<byte>, d: nat)
    requires HasAt(s, i, w) && SpaceOk(m, w) && i + |w| < |s| && StartsToken(s[i + |w|]) && d <= MAX_DEPTH + 1
    ensures Value(s, m, i, d) == Value(s, m, i + |w|, d)
  {
    TokenBehind(s, m, i, w);
    TokenHere(s, m, i + |w|);
    SameToken(s, m, i, i + |w|, d);
  }

  lemma SameToken(s: seq<byte>, m: Strategy, i: nat, j: nat, d: nat)
    requires i <= |s| && j <= |s| && d <= MAX_DEPTH + 1 && Token(s, m, i) == Token(s, m, j)
    ensures Value(s, m, i, d) == Value(s, m, j, d)
  {
    hide Token, Elements, Members, Number, StringLiteral, Literal;
  }

  /* ---- strings -------------------------------------------------------------------------------- */

  lemma CharRead(s: seq<byte>, i: nat, c: Char)
    requires CharOk(c) && HasAt(s, i, CharText(c))
    ensures i < |s| && s[i] != QUOTE && NextUnit(s, i) == Ok(CharUnit(c), i + |CharText(c)|)
  {
    HasFirst(s, i, CharText(c));
    if !c.Plain? {
      assert s[i..i + |CharText(c)|][1] == s[i + 1];
    }
    if c.Hex? {
      assert s[i + 2..i + 6] == s[i..i + 6][2..] == c.digits;
    }
  }

  lemma {:induction false} CharsRead(s: seq<byte>, i: nat, chars: seq<Char>)
    requires CharsOk(chars) && HasAt(s, i, CharsText(chars) + [QUOTE])
    ensures i <= |s| && Scan(s, i) == Ok(Units(chars), i + |CharsText(chars)| + 1)
    decreases |chars|
  {
    hide HasAt, NextUnit, CharOk, CharText, CharUnit;
    HasParts(s, i, CharsText(chars), [QUOTE]);
    if chars == [] {
      HasFirst(s, i, [QUOTE]);
    } else {
      var e, rest := CharText(chars[0]), CharsText(chars[1..]) + [QUOTE];
      assert CharsText(chars) + [QUOTE] == e + rest;
      HasParts(s, i, e, rest);
      CharRead(s, i, chars[0]);
      CharsRead(s, i + |e|, chars[1..]);
    }
  }

  /** Any string the grammar allows, with any mixture of raw bytes and escapes, is read as what it means. */
  lemma StringRead(s: seq<byte>, i: nat, chars: seq<Char>)
    requires CharsOk(chars) && HasAt(s, i, StringText(chars))
    ensures i < |s| && s[i] == QUOTE
    ensures StringLiteral(s, i + 1) == Ok(StringMeaning(chars), i + |StringText(chars)|)
  {
    HasFirst(s, i, StringText(chars));
    HasParts(s, i, [QUOTE], CharsText(chars) + [QUOTE]);
    CharsRead(s, i + 1, chars);
  }

  /* ---- what escapes spell --------------------------------------------------------------------- */

  /** One character of a text as it may be spelled in a literal: as itself, by a short escape, or as
      one or two groups of four hex digits, in either case. */
  datatype Spelling = Own(c: Char) | Spelt(pt: nat, high: seq<byte>, low: seq<byte>)

  predicate SpellingOk(p: Spelling) {
    match p
    case Own(c) => CharOk(c) && !c.Hex?
    case Spelt(pt, high, low) =>
      && IsScalar(pt) && |high| == 4 && AllHex(high)
      && if pt < 0x1_0000 then low == [] && Hex4(high) == pt
         else |low| == 4 && AllHex(low) && [Esc(Hex4(high)), Esc(Hex4(low))] == Escapes(pt)
  }

  predicate SpellingsOk(ps: seq<Spelling>) {
    forall k :: 0 <= k < |ps| ==> SpellingOk(ps[k])
  }

  function SpellingChars(p: Spelling): seq<Char> {
    match p
    case Own(c) => [c]
    case Spelt(_, high, low) => if low == [] then [Hex(high)] else [Hex(high), Hex(low)]
  }

  function AllChars(ps: seq<Spelling>): (chars: seq<Char>)
    requires SpellingsOk(ps)
    ensures CharsOk(chars)
  {
    if ps == [] then [] else SpellingChars(ps[0]) + AllChars(ps[1..])
  }

  function SpellingBytes(p: Spelling): seq<byte>
    requires SpellingOk(p)
  {
    match p
    case Own(c) => [CharUnit(c).b]
    case Spelt(pt, _, _) => EncodeUtf8(pt)
  }

  function AllBytes(ps: seq<Spelling>): seq<byte>
    requires SpellingsOk(ps)
  {
    if ps == [] then [] else SpellingBytes(ps[0]) + AllBytes(ps[1..])
  }

  lemma SpellingAssembles(p: Spelling, rest: seq<Unit>)
    requires SpellingOk(p)
    ensures Assemble(Units(SpellingChars(p)) + rest) == SpellingBytes(p) + Assemble(rest)
  {
    var units := Units(SpellingChars(p));
    match p
    case Own(c) =>
      assert units == [CharUnit(c)];
      assert (units + rest)[1..] == rest;
    case Spelt(pt, high, low) =>
      if low == [] {
        assert Units([Hex(high)][1..]) == [];
        assert units == [Esc(Hex4(high))];
        assert (units + rest)[1..] == rest;
      } else {
        assert Units([Hex(high), Hex(low)][1..]) == [Esc(Hex4(low))];
        assert units == Escapes(pt);
        assert (units + rest)[2..] == rest;
        assert Pair(units[0].code, units[1].code) == pt;
      }
  }

  lemma {:induction false} UnitsAppend(a: seq<Char>, b: seq<Char>)
    requires CharsOk(a) && CharsOk(b)
    ensures CharsOk(a + b) && Units(a + b) == Units(a) + Units(b)
  {
    if a == [] {
      assert a + b == b;
    } else {
      UnitsAppend(a[1..], b);
      assert (a + b)[1..] == a[1..] + b;
    }
  }

  /** A literal that spells a text, byte by byte or scalar value by scalar value, means exactly its UTF-8. */
  lemma {:induction false} SpelledText(ps: seq<Spelling>)
    requires SpellingsOk(ps)
    ensures StringMeaning(AllChars(ps)) == AllBytes(ps)
  {
    if ps != [] {
      SpelledText(ps[1..]);
      assert SpellingOk(ps[0]);
      UnitsAppend(SpellingChars(ps[0]), AllChars(ps[1..]));
      SpellingAssembles(ps[0], Units(AllChars(ps[1..])));
    }
  }

  /** So a literal that spells a text, in any mixture of the allowed ways, is read as exactly its UTF-8. */
  lemma SpelledLiteral(s: seq<byte>, i: nat, ps: seq<Spelling>)
    requires SpellingsOk(ps) && HasAt(s, i, StringText(AllChars(ps)))
    ensures i < |s| && StringLiteral(s, i + 1) == Ok(AllBytes(ps), i + |StringText(AllChars(ps))|)
  {
    StringRead(s, i, AllChars(ps));
    SpelledText(ps);
  }

  /* ---- numbers -------------------------------------------------------------------------------- */

  lemma DigitsAt(s: seq<byte>, i: nat, d: seq<byte>)
    requires DigitsOk(d) && HasAt(s, i, d) && !IsDigit(ByteAt(s, i + |d|))
    ensures i + |d| <= |s| && IsDigit(s[i]) && s[i..i + |d|] == d && SkipDigits(s, i) == i + |d|
  {
    HasFirst(s, i, d);
    DigitsSkipped(s, i, d);
  }

  /** The integer part the parser finds. */
  ghost predicate WholeFound(s: seq<byte>, i: nat, w: seq<byte>) {
    i + |w| <= |s| && w != [] && s[i..i + |w|] == w && WholeEnd(s, i) == Ok((), i + |w|)
  }

  lemma WholeAt(s: seq<byte>, i: nat, w: seq<byte>)
    requires DigitsOk(w) && (w[0] == 0x30 ==> |w| == 1) && HasAt(s, i, w) && !IsDigit(ByteAt(s, i + |w|))
    ensures WholeFound(s, i, w)
  {
    DigitsAt(s, i, w);
    assert w == [w[0]] + w[1..];
    HasParts(s, i, [w[0]], w[1..]);
    DigitsSkipped(s, i + 1, w[1..]);
    assert s[i] == w[0];
  }

  lemma FractionAt(s: seq<byte>, i: nat, f: Part)
    requires f.Part? ==> DigitsOk(f.digits)
    requires HasAt(s, i, FractionText(f)) && !IsDigit(ByteAt(s, i + |FractionText(f)|))
    requires f.NoPart? ==> ByteAt(s, i) != POINT
    ensures Fraction(s, i) == Ok(FractionMeaning(f), i + |FractionText(f)|)
  {
    hide HasAt, SkipDigits, NatValue;
    if f.Part? {
      HasFirst(s, i, [POINT] + f.digits);
      HasParts(s, i, [POINT], f.digits);
      DigitsAt(s, i + 1, f.digits);
    }
  }

  lemma PowerAt(s: seq<byte>, i: nat, p: Power)
    requires p.Power? ==> IsExponentMark(p.mark) && SignOk(p.sign) && DigitsOk(p.digits)
    requires i <= |s| && HasAt(s, i, PowerText(p)) && EndsNumber(ByteAt(s, i + |PowerText(p)|))
    ensures Exponent(s, i) == Ok(PowerMeaning(p), i + |PowerText(p)|)
  {
    if p.Power? {
      PowerParts(s, i, p.mark, p.sign, p.digits);
      ExponentOf(s, i, i + 1 + |p.sign|, p.mark, p.sign == [MINUS], p.digits);
    }
  }

  lemma ExponentOf(s: seq<byte>, i: nat, j: nat, mark: byte, down: bool, digits: seq<byte>)
    requires DigitsOk(digits) && IsExponentMark(mark) && j + |digits| <= |s| && i < j && s[i] == mark
    requires j == if s[i + 1] == PLUS || s[i + 1] == MINUS then i + 2 else i + 1
    requires IsDigit(s[j]) && s[j..j + |digits|] == digits && SkipDigits(s, j) == j + |digits|
    requires down <==> s[i + 1] == MINUS
    ensures Exponent(s, i) == Ok(if down then -(NatValue(digits) as int) else NatValue(digits), j + |digits|)
  {
    hide SkipDigits, NatValue, AllDigits, IsDigit, IsExponentMark;
  }

  lemma PowerParts(s: seq<byte>, i: nat, mark: byte, sign: seq<byte>, digits: seq<byte>)
    requires HasAt(s, i, [mark] + (sign + digits)) && DigitsOk(digits) && SignOk(sign)
    requires !IsDigit(ByteAt(s, i + |[mark] + (sign + digits)|))
    ensures var j := i + 1 + |sign|;
            && j + |digits| <= |s| && s[i] == mark && IsDigit(s[j]) && s[j..j + |digits|] == digits
            && SkipDigits(s, j) == j + |digits|
            && (sign != [] <==> s[i + 1] == PLUS || s[i + 1] == MINUS) && (sign == [MINUS] <==> s[i + 1] == MINUS)
  {
    hide HasAt, SkipDigits, DigitsOk;
    HasFirst(s, i, [mark] + (sign + digits));
    HasParts(s, i, [mark], sign + digits);
    HasParts(s, i + 1, sign, digits);
    DigitsAt(s, i + 1 + |sign|, digits);
    if sign != [] {
      HasFirst(s, i + 1, sign);
    }
  }

  lemma SignAt(s: seq<byte>, i: nat, neg: bool, w: seq<byte>)
    requires DigitsOk(w) && HasAt(s, i, SignText(neg)) && HasAt(s, i + |SignText(neg)|, w)
    ensures i < |s| && (s[i] == MINUS <==> neg) && (s[i] == MINUS || IsDigit(s[i]))
  {
    HasFirst(s, i + |SignText(neg)|, w);
    if neg {
      HasFirst(s, i, SignText(neg));
    }
  }

  /** What the parser finds at the three parts of a number. */
  ghost predicate Pieces(s: seq<byte>, i: nat, n: Numeral, j: nat, k: nat, l: nat)
    requires NumeralOk(n)
  {
    var start := i + |SignText(n.neg)|;
    && i < |s| && j <= |s| && k <= |s| && (s[i] == MINUS <==> n.neg) && (s[i] == MINUS || IsDigit(s[i]))
    && j == start + |n.whole| && WholeFound(s, start, n.whole)
    && Fraction(s, j) == Ok(FractionMeaning(n.fraction), k)
    && Exponent(s, k) == Ok(PowerMeaning(n.power), l)
    && (n.fraction.NoPart? && n.power.NoPower? <==> ByteAt(s, j) != POINT && !IsExponentMark(ByteAt(s, j)))
    && (n.fraction.NoPart? && n.power.NoPower? ==> l == j && |NumeralText(n)| == j - i)
  }

  /** They make up the number. */
  lemma PiecesRead(s: seq<byte>, i: nat, n: Numeral, j: nat, k: nat, l: nat)
    requires NumeralOk(n) && Pieces(s, i, n, j, k, l)
    ensures i < |s| && (s[i] == MINUS || IsDigit(s[i])) && Number(s, i) == Ok(NumeralMeaning(n), l)
  {
    hide WholeEnd, Fraction, Exponent, Decimal, NatValue, AllDigits, IsExponentMark, FractionMeaning, PowerMeaning,
      NumeralText;
  }

  lemma NumeralParts(n: Numeral)
    requires NumeralOk(n)
    ensures DigitsOk(n.whole) && |n.whole| > 0 && (n.whole[0] == 0x30 ==> |n.whole| == 1)
  {
  }

  /** Where the parts of a number are, and what follows its integer part. */
  ghost predicate Placed(s: seq<byte>, i: nat, n: Numeral) {
    var start := i + |SignText(n.neg)|;
    var j := start + |n.whole|;
    var k := j + |FractionText(n.fraction)|;
    && HasAt(s, i, SignText(n.neg)) && HasAt(s, start, n.whole)
    && HasAt(s, j, FractionText(n.fraction)) && HasAt(s, k, PowerText(n.power)) && k <= |s|
    && (n.fraction.Part? ==> ByteAt(s, j) == POINT)
    && (n.power.Power? ==> ByteAt(s, k) == n.power.mark)
    && (n.power.NoPower? ==> EndsNumber(ByteAt(s, k)))
    && EndsNumber(ByteAt(s, k + |PowerText(n.power)|))
    && |NumeralText(n)| == k + |PowerText(n.power)| - i
  }

  lemma FourParts(s: seq<byte>, i: nat, a: seq<byte>, b: seq<byte>, c: seq<byte>, d: seq<byte>)
    requires HasAt(s, i, a + (b + (c + d)))
    ensures HasAt(s, i, a) && HasAt(s, i + |a|, b) && HasAt(s, i + |a| + |b|, c) && HasAt(s, i + |a| + |b| + |c|, d)
    ensures |a + (b + (c + d))| == |a| + |b| + |c| + |d|
  {
    hide HasAt;
    HasParts(s, i, a, b + (c + d));
    HasParts(s, i + |a|, b, c + d);
    HasParts(s, i + |a| + |b|, c, d);
  }

  lemma NumeralPlaced(s: seq<byte>, i: nat, n: Numeral)
    requires NumeralOk(n) && HasAt(s, i, NumeralText(n)) && EndsNumber(ByteAt(s, i + |NumeralText(n)|))
    ensures Placed(s, i, n)
  {
    hide HasAt, EndsNumber, NumeralOk, SignText, FractionText, PowerText;
    var k := i + |SignText(n.neg)| + |n.whole| + |FractionText(n.fraction)|;
    FourParts(s, i, SignText(n.neg), n.whole, FractionText(n.fraction), PowerText(n.power));
    PartsStart(s, i + |SignText(n.neg)| + |n.whole|, k, n);
    HasEnds(s, k, PowerText(n.power));
  }

  lemma PartsStart(s: seq<byte>, j: nat, k: nat, n: Numeral)
    requires HasAt(s, j, FractionText(n.fraction)) && HasAt(s, k, PowerText(n.power))
    ensures n.fraction.Part? ==> ByteAt(s, j) == POINT
    ensures n.power.Power? ==> ByteAt(s, k) == n.power.mark
    ensures n.power.NoPower? ==> |PowerText(n.power)| == 0
  {
    hide HasAt;
    if n.fraction.Part? {
      HasFirst(s, j, FractionText(n.fraction));
    }
    if n.power.Power? {
      HasFirst(s, k, PowerText(n.power));
    }
  }

  lemma HasEnds(s: seq<byte>, i: nat, t: seq<byte>)
    requires HasAt(s, i, t)
    ensures i + |t| <= |s|
  {
  }

  lemma WholePlaced(s: seq<byte>, i: nat, n: Numeral)
    requires NumeralOk(n) && Placed(s, i, n)
    ensures WholeFound(s, i + |SignText(n.neg)|, n.whole)
  {
    hide WholeFound, Placed, NumeralOk, HasAt, DigitsOk, SignText, IsExponentMark, FractionText, PowerText, NumeralText,
      IsDigit, EndsNumber;
    BehindWhole(s, i, n);
    NumeralParts(n);
    WholeAt(s, i + |SignText(n.neg)|, n.whole);
  }

  lemma SignPlaced(s: seq<byte>, i: nat, n: Numeral)
    requires NumeralOk(n) && Placed(s, i, n)
    ensures i < |s| && (s[i] == MINUS <==> n.neg) && (s[i] == MINUS || IsDigit(s[i]))
  {
    hide Placed, NumeralOk, HasAt, DigitsOk, SignText, IsExponentMark, FractionText, PowerText, NumeralText, IsDigit,
      EndsNumber;
    BehindWhole(s, i, n);
    NumeralParts(n);
    SignAt(s, i, n.neg, n.whole);
  }

  lemma BehindWhole(s: seq<byte>, i: nat, n: Numeral)
    requires NumeralOk(n) && Placed(s, i, n)
    ensures var start := i + |SignText(n.neg)|;
            var j := start + |n.whole|;
            && HasAt(s, i, SignText(n.neg)) && HasAt(s, start, n.whole) && !IsDigit(ByteAt(s, j))
            && (n.fraction.NoPart? && n.power.NoPower? <==> ByteAt(s, j) != POINT && !IsExponentMark(ByteAt(s, j)))
  {
    hide HasAt, SignText, AllDigits, NumeralText;
  }

  lemma FractionPlaced(s: seq<byte>, i: nat, n: Numeral)
    requires NumeralOk(n) && Placed(s, i, n)
    ensures var j := i + |SignText(n.neg)| + |n.whole|;
            j <= |s| && Fraction(s, j) == Ok(FractionMeaning(n.fraction), j + |FractionText(n.fraction)|)
  {
    hide HasAt, Fraction, FractionMeaning, AllDigits;
    var j := i + |SignText(n.neg)| + |n.whole|;
    HasEnds(s, i + |SignText(n.neg)|, n.whole);
    FractionAt(s, j, n.fraction);
  }

  lemma PowerPlaced(s: seq<byte>, i: nat, n: Numeral)
    requires NumeralOk(n) && Placed(s, i, n)
    ensures var k := i + |SignText(n.neg)| + |n.whole| + |FractionText(n.fraction)|;
            k <= |s| && Exponent(s, k) == Ok(PowerMeaning(n.power), i + |NumeralText(n)|)
  {
    hide HasAt, Exponent, PowerMeaning, AllDigits;
    PowerAt(s, i + |SignText(n.neg)| + |n.whole| + |FractionText(n.fraction)|, n.power);
  }

  lemma PlainLength(n: Numeral)
    requires n.fraction.NoPart? && n.power.NoPower?
    ensures |NumeralText(n)| == |SignText(n.neg)| + |n.whole|
  {
  }

  /** Any number the grammar allows, ended by something that cannot continue it, is read as what it means. */
  lemma NumeralRead(s: seq<byte>, i: nat, n: Numeral)
    requires NumeralOk(n) && HasAt(s, i, NumeralText(n)) && EndsNumber(ByteAt(s, i + |NumeralText(n)|))
    ensures i < |s| && (s[i] == MINUS || IsDigit(s[i]))
    ensures Number(s, i) == Ok(NumeralMeaning(n), i + |NumeralText(n)|)
  {
    hide HasAt, NumeralText, NumeralOk, EndsNumber, Number, NumeralMeaning, Pieces, IsDigit;
    var l := i + |NumeralText(n)|;
    var j, k := NumeralPieces(s, i, n);
    PiecesRead(s, i, n, j, k, l);
  }

  lemma NumeralPieces(s: seq<byte>, i: nat, n: Numeral) returns (j: nat, k: nat)
    requires NumeralOk(n) && HasAt(s, i, NumeralText(n)) && EndsNumber(ByteAt(s, i + |NumeralText(n)|))
    ensures Pieces(s, i, n, j, k, i + |NumeralText(n)|)
  {
    hide HasAt, WholeEnd, Fraction, Exponent, FractionMeaning, PowerMeaning, NumeralText, NumeralOk, SignText,
      FractionText, PowerText, DigitsOk, AllDigits, Placed, IsExponentMark, EndsNumber, IsDigit, WholeFound;
    NumeralPlaced(s, i, n);
    j := i + |SignText(n.neg)| + |n.whole|;
    k := j + |FractionText(n.fraction)|;
    SignPlaced(s, i, n);
    WholePlaced(s, i, n);
    BehindWhole(s, i, n);
    FractionPlaced(s, i, n);
    PowerPlaced(s, i, n);
    if n.fraction.NoPart? && n.power.NoPower? {
      PlainLength(n);
    }
  }

  /* ---- values --------------------------------------------------------------------------------- */

  /** What reading a tree at a depth yields: its meaning, unless it goes deeper than the limit. */
  function Outcome(d: nat, height: nat, v: Json, at: nat): Result<Json> {
    if d + height <= MAX_DEPTH then Ok(v, at) else Fail(TooDeep)
  }

  lemma TreeStarts(m: Strategy, t: Tree)
    requires TreeOk(m, t)
    ensures TreeText(t) != [] && StartsToken(TreeText(t)[0])
    ensures TreeText(t)[0] != RBRACKET && TreeText(t)[0] != RBRACE
  {
    if t.NumberTree? {
      assert t.n.whole[0] == NumeralText(t.n)[if t.n.neg then 1 else 0];
    }
  }

  lemma ScalarRead(s: seq<byte>, m: Strategy, i: nat, d: nat, t: Tree)
    requires TreeOk(m, t) && (t.NullTree? || t.BoolTree? || t.NumberTree? || t.StringTree?) && d <= MAX_DEPTH
    requires HasAt(s, i, TreeText(t)) && EndsNumber(ByteAt(s, i + |TreeText(t)|))
    requires i < |s| && s[i] == TreeText(t)[0] && Token(s, m, i) == Ok(s[i], i + 1)
    ensures Value(s, m, i, d) == Ok(Meaning(t), i + |TreeText(t)|)
  {
    hide Token, Number, StringLiteral, NumeralMeaning, StringMeaning, NumeralText, StringText, SpaceOk;
    match t
    case NumberTree(n) => NumeralRead(s, i, n);
    case StringTree(chars) => StringRead(s, i, chars);
    case _ =>
  }

  lemma TokenAt(s: seq<byte>, m: Strategy, i: nat, w: seq<byte>, b: byte, rest: seq<byte>)
    requires HasAt(s, i, w + ([b] + rest)) && SpaceOk(m, w) && StartsToken(b)
    ensures i + |w| < |s| && s[i + |w|] == b && HasAt(s, i + |w| + 1, rest)
    ensures Token(s, m, i) == Ok(b, i + |w| + 1)
  {
    hide HasAt, Token, SpaceOk, StartsToken;
    HasParts(s, i, w, [b] + rest);
    HasFirst(s, i + |w|, [b] + rest);
    HasParts(s, i + |w|, [b], rest);
    TokenBehind(s, m, i, w);
  }

  /** The spaces in front of a value, and the value's first character. */
  lemma ValueAt(s: seq<byte>, m: Strategy, i: nat, w: seq<byte>, t: Tree, rest: seq<byte>, d: nat)
    requires TreeOk(m, t) && SpaceOk(m, w) && HasAt(s, i, w + (TreeText(t) + rest)) && d <= MAX_DEPTH + 1
    ensures i + |w| < |s| && s[i + |w|] == TreeText(t)[0] && HasAt(s, i + |w|, TreeText(t) + rest)
    ensures Token(s, m, i) == Ok(s[i + |w|], i + |w| + 1)
    ensures Value(s, m, i, d) == Value(s, m, i + |w|, d)
  {
    hide Token, Value, TreeText, SpaceOk;
    TreeStarts(m, t);
    HasParts(s, i, w, TreeText(t) + rest);
    HasFirst(s, i + |w|, TreeText(t) + rest);
    TokenBehind(s, m, i, w);
    ValueBehind(s, m, i, w, d);
  }

  /** Behind a value come spaces and then a comma or a bracket, which ends a number. */
  lemma EndsHere(s: seq<byte>, m: Strategy, i: nat, w: seq<byte>, b: byte, rest: seq<byte>)
    requires HasAt(s, i, w + ([b] + rest)) && SpaceOk(m, w) && b in {COMMA, RBRACKET, RBRACE}
    ensures EndsNumber(ByteAt(s, i))
  {
    hide SpaceOk, HasAt;
    HasFirst(s, i, w + ([b] + rest));
    if w != [] {
      SpaceFirst(m, w);
    }
  }

  lemma {:induction false} TreeRead(s: seq<byte>, m: Strategy, i: nat, d: nat, t: Tree)
    requires TreeOk(m, t) && d <= MAX_DEPTH + 1
    requires HasAt(s, i, TreeText(t)) && EndsNumber(ByteAt(s, i + |TreeText(t)|))
    ensures Value(s, m, i, d) == Outcome(d, TreeHeight(t), Meaning(t), i + |TreeText(t)|)
    decreases TreeSize(t), 2
  {
    if d <= MAX_DEPTH {
      hide Token, Value, HasAt, EndsNumber, StartsToken, TreeText, Meaning, TreeHeight, TreeOk, TreeSize, SpaceOk;
      match t
      case EmptyArray(_) => EmptyTreeRead(s, m, i, d, t);
      case EmptyObject(_) => EmptyTreeRead(s, m, i, d, t);
      case ArrayTree(_, _) => ArrayTreeRead(s, m, i, d, t);
      case ObjectTree(_, _) => ObjectTreeRead(s, m, i, d, t);
      case _ =>
        TreeStarts(m, t);
        HasFirst(s, i, TreeText(t));
        TokenHere(s, m, i);
        ScalarRead(s, m, i, d, t);
        ScalarHeight(t);
    } else {
      TooDeepAt(s, m, i, d);
    }
  }

  lemma TooDeepAt(s: seq<byte>, m: Strategy, i: nat, d: nat)
    requires i <= |s| && d == MAX_DEPTH + 1
    ensures Value(s, m, i, d) == Fail(TooDeep)
  {
  }

  lemma ScalarHeight(t: Tree)
    requires t.NullTree? || t.BoolTree? || t.NumberTree? || t.StringTree?
    ensures TreeHeight(t) == 0
  {
  }

  lemma EmptyTreeRead(s: seq<byte>, m: Strategy, i: nat, d: nat, t: Tree)
    requires TreeOk(m, t) && (t.EmptyArray? || t.EmptyObject?) && d <= MAX_DEPTH && HasAt(s, i, TreeText(t))
    ensures Value(s, m, i, d) == Outcome(d, TreeHeight(t), Meaning(t), i + |TreeText(t)|)
  {
    hide Value, HasAt, SpaceOk;
    match t
    case EmptyArray(space) => EmptyArrayRead(s, m, i, d, space);
    case EmptyObject(space) => EmptyObjectRead(s, m, i, d, space);
  }

  lemma {:induction false} ArrayTreeRead(s: seq<byte>, m: Strategy, i: nat, d: nat, t: Tree)
    requires TreeOk(m, t) && t.ArrayTree? && d <= MAX_DEPTH && HasAt(s, i, TreeText(t))
    ensures Value(s, m, i, d) == Outcome(d, TreeHeight(t), Meaning(t), i + |TreeText(t)|)
    decreases TreeSize(t), 1
  {
    hide Value, HasAt, ItemText, ItemsText, ItemsMeaning, ItemListHeight, ItemListSize, ItemsOk, ItemSpaced, SpaceOk;
    ArrayRead(s, m, i, d, t.first, t.more);
  }

  lemma {:induction false} ObjectTreeRead(s: seq<byte>, m: Strategy, i: nat, d: nat, t: Tree)
    requires TreeOk(m, t) && t.ObjectTree? && d <= MAX_DEPTH && HasAt(s, i, TreeText(t))
    ensures Value(s, m, i, d) == Outcome(d, TreeHeight(t), Meaning(t), i + |TreeText(t)|)
    decreases TreeSize(t), 1
  {
    hide Value, HasAt, EntryText, EntriesText, EntriesMeaning, EntryListHeight, EntryListSize, EntriesOk, EntrySpaced,
      StringMeaning, Insert, SpaceOk;
    assert EntrySpaced(m, t.head) && CharsOk(t.head.key) by { KeyOk(m, t.head); }
    ObjectRead(s, m, i, d, t.head, t.tail);
  }

  lemma KeyOk(m: Strategy, e: Entry)
    requires EntrySpaced(m, e)
    ensures CharsOk(e.key)
  {
  }

  lemma EmptyArrayRead(s: seq<byte>, m: Strategy, i: nat, d: nat, space: seq<byte>)
    requires SpaceOk(m, space) && d <= MAX_DEPTH && HasAt(s, i, [LBRACKET] + (space + [RBRACKET]))
    ensures Value(s, m, i, d) == Ok(Arr([]), i + |[LBRACKET] + (space + [RBRACKET])|)
  {
    hide Token, Value, HasAt, SpaceOk;
    HasFirst(s, i, [LBRACKET] + (space + [RBRACKET]));
    HasParts(s, i, [LBRACKET], space + [RBRACKET]);
    TokenHere(s, m, i);
    assert [RBRACKET] + [] == [RBRACKET];
    TokenAt(s, m, i + 1, space, RBRACKET, []);
    OpensArray(s, m, i, d);
  }

  lemma EmptyObjectRead(s: seq<byte>, m: Strategy, i: nat, d: nat, space: seq<byte>)
    requires SpaceOk(m, space) && d <= MAX_DEPTH && HasAt(s, i, [LBRACE] + (space + [RBRACE]))
    ensures Value(s, m, i, d) == Ok(Obj([]), i + |[LBRACE] + (space + [RBRACE])|)
  {
    hide Token, Value, HasAt, SpaceOk;
    HasFirst(s, i, [LBRACE] + (space + [RBRACE]));
    HasParts(s, i, [LBRACE], space + [RBRACE]);
    TokenHere(s, m, i);
    assert [RBRACE] + [] == [RBRACE];
    TokenAt(s, m, i + 1, space, RBRACE, []);
    OpensObject(s, m, i, d);
  }

  /** The items behind the first, taken apart. */
  lemma ItemsUnfold(m: Strategy, items: seq<Item>)
    requires ItemsOk(m, items)
    ensures items == [] ==> |ItemsText(items)| == 1 && ItemListHeight(items) == 0 && ItemsMeaning(items) == []
    ensures items != [] ==>
              var next, rest := items[0], items[1..];
              && ItemSpaced(m, next) && TreeOk(m, next.tree) && ItemsOk(m, rest)
              && ItemListHeight(items) == Max(1 + TreeHeight(next.tree), ItemListHeight(rest))
              && ItemsMeaning(items) == [Meaning(next.tree)] + ItemsMeaning(rest)
              && ItemListSize(items) == TreeSize(next.tree) + ItemListSize(rest)
  {
    hide TreeText, Meaning, TreeHeight, TreeSize, ItemText;
  }

  lemma ItemsTextUnfold(items: seq<Item>)
    requires items != []
    ensures ItemsText(items)
            == [COMMA] + (items[0].before + (TreeText(items[0].tree) + (items[0].after + ItemsText(items[1..]))))
  {
    hide TreeText, ItemText;
    ItemBehind(items[0], items[1..]);
  }

  lemma ItemBehind(first: Item, more: seq<Item>)
    ensures ItemText(first) + ItemsText(more) == first.before + (TreeText(first.tree) + (first.after + ItemsText(more)))
  {
    hide TreeText, ItemsText;
  }

  lemma {:induction false} ArrayRead(s: seq<byte>, m: Strategy, i: nat, d: nat, first: Item, more: seq<Item>)
    requires ItemSpaced(m, first) && TreeOk(m, first.tree) && ItemsOk(m, more) && d <= MAX_DEPTH
    requires HasAt(s, i, [LBRACKET] + (ItemText(first) + ItemsText(more)))
    ensures Value(s, m, i, d)
            == Outcome(d, Max(1 + TreeHeight(first.tree), ItemListHeight(more)),
                       Arr([Meaning(first.tree)] + ItemsMeaning(more)),
                       i + |[LBRACKET] + (ItemText(first) + ItemsText(more))|)
    decreases TreeSize(first.tree) + ItemListSize(more), 4
  {
    hide Token, Value, HasAt, TreeText, ItemsText, Elements, TreeHeight, ItemListHeight, Meaning, ItemsMeaning, TreeOk,
      ItemsOk, StartsToken, SpaceOk;
    var text := ItemText(first) + ItemsText(more);
    HasFirst(s, i, [LBRACKET] + text);
    HasParts(s, i, [LBRACKET], text);
    BracketStarts();
    TokenHere(s, m, i);
    ItemBehind(first, more);
    ValueAt(s, m, i + 1, first.before, first.tree, first.after + ItemsText(more), d);
    TreeStarts(m, first.tree);
    OpensArray(s, m, i, d);
    ElementsRead(s, m, i + 1 + |first.before|, d, first, more, []);
    assert [] + ([Meaning(first.tree)] + ItemsMeaning(more)) == [Meaning(first.tree)] + ItemsMeaning(more);
  }

  lemma BracketStarts()
    ensures StartsToken(LBRACKET) && StartsToken(LBRACE) && StartsToken(RBRACKET) && StartsToken(RBRACE)
    ensures StartsToken(COMMA) && StartsToken(COLON) && StartsToken(QUOTE)
  {
  }

  /** What follows an item: the closing bracket, or a comma and the next item's first character. */
  lemma AfterItem(s: seq<byte>, m: Strategy, e: nat, w: seq<byte>, more: seq<Item>)
    requires SpaceOk(m, w) && ItemsOk(m, more) && HasAt(s, e, w + ItemsText(more))
    ensures EndsNumber(ByteAt(s, e))
    ensures Token(s, m, e) == Ok(if more == [] then RBRACKET else COMMA, e + |w| + 1)
    ensures more == [] ==> |ItemsText(more)| == 1
    ensures more != [] ==>
              var next, n := more[0], e + |w| + 1;
              var q := n + |next.before|;
              && n <= |s| && q < |s| && Token(s, m, n) == Ok(s[q], q + 1)
              && HasAt(s, q, TreeText(next.tree) + (next.after + ItemsText(more[1..])))
              && e + |w + ItemsText(more)| == q + |TreeText(next.tree) + (next.after + ItemsText(more[1..]))|
  {
    hide Token, HasAt, EndsNumber, ItemsText, ItemsOk, TreeText, StartsToken, SpaceOk;
    if more == [] {
      BracketText();
      ClosesHere(s, m, e, w, RBRACKET);
    } else {
      AtItem(s, m, e, w, more[0], more[1..], more);
    }
  }

  lemma BracketText()
    ensures ItemsText([]) == [RBRACKET]
  {
  }

  lemma AtItem(s: seq<byte>, m: Strategy, e: nat, w: seq<byte>, next: Item, rest: seq<Item>, more: seq<Item>)
    requires SpaceOk(m, w) && ItemsOk(m, more) && more != [] && next == more[0] && rest == more[1..]
    requires HasAt(s, e, w + ItemsText(more))
    ensures var text := TreeText(next.tree) + (next.after + ItemsText(rest));
            var n := e + |w| + 1;
            var q := n + |next.before|;
            && EndsNumber(ByteAt(s, e)) && Token(s, m, e) == Ok(COMMA, n)
            && n <= |s| && q < |s| && Token(s, m, n) == Ok(s[q], q + 1) && HasAt(s, q, text)
            && e + |w + ItemsText(more)| == q + |text|
  {
    var text := TreeText(next.tree) + (next.after + ItemsText(rest));
    assert SpaceOk(m, next.before) && TreeOk(m, next.tree) by {
      ItemsUnfold(m, more);
    }
    ItemsTextUnfold(more);
    TreeStarts(m, next.tree);
    hide Token, HasAt, EndsNumber, ItemsText, ItemsOk, TreeText, TreeOk, StartsToken, SpaceOk;
    CommaThen(s, m, e, w, next.before, text);
  }

  lemma ClosesHere(s: seq<byte>, m: Strategy, e: nat, w: seq<byte>, b: byte)
    requires SpaceOk(m, w) && b in {RBRACKET, RBRACE} && HasAt(s, e, w + [b])
    ensures EndsNumber(ByteAt(s, e)) && Token(s, m, e) == Ok(b, e + |w| + 1)
  {
    hide Token, HasAt, EndsNumber, SpaceOk;
    assert [b] + [] == [b];
    EndsHere(s, m, e, w, b, []);
    TokenAt(s, m, e, w, b, []);
  }

  /** A comma, spaces and some text behind them. */
  lemma CommaThen(s: seq<byte>, m: Strategy, e: nat, w: seq<byte>, before: seq<byte>, text: seq<byte>)
    requires SpaceOk(m, w) && SpaceOk(m, before) && text != [] && StartsToken(text[0])
    requires HasAt(s, e, w + ([COMMA] + (before + text)))
    ensures EndsNumber(ByteAt(s, e)) && Token(s, m, e) == Ok(COMMA, e + |w| + 1)
    ensures var n := e + |w| + 1;
            var q := n + |before|;
            && n <= |s| && q < |s| && s[q] == text[0] && Token(s, m, n) == Ok(s[q], q + 1) && HasAt(s, q, text)
  {
    hide Token, HasAt, EndsNumber, StartsToken, SpaceOk;
    BracketStarts();
    EndsHere(s, m, e, w, COMMA, before + text);
    TokenAt(s, m, e, w, COMMA, before + text);
    HasParts(s, e + |w| + 1, before, text);
    HasFirst(s, e + |w| + 1 + |before|, text);
    NotSpace(text[0]);
    TokenBehind(s, m, e + |w| + 1, before);
  }

  lemma NotSpace(b: byte)
    requires StartsToken(b)
    ensures !IsSpace(b)
  {
  }

  /** The array loop, standing at a value. */
  lemma {:induction false} ElementsRead(s: seq<byte>, m: Strategy, i: nat, d: nat, first: Item, more: seq<Item>,
                                        acc: seq<Json>)
    requires ItemSpaced(m, first) && TreeOk(m, first.tree) && ItemsOk(m, more) && d <= MAX_DEPTH
    requires HasAt(s, i, TreeText(first.tree) + (first.after + ItemsText(more)))
    ensures i <= |s|
    ensures Elements(s, m, i, d, acc)
            == Outcome(d, Max(1 + TreeHeight(first.tree), ItemListHeight(more)),
                       Arr(acc + ([Meaning(first.tree)] + ItemsMeaning(more))),
                       i + |TreeText(first.tree) + (first.after + ItemsText(more))|)
    decreases TreeSize(first.tree) + ItemListSize(more), 3
  {
    hide Token, Value, HasAt, TreeText, ItemsText, Elements, TreeHeight, ItemListHeight, Meaning, ItemsMeaning, TreeOk,
      ItemsOk, EndsNumber, StartsToken, TreeSize, ItemListSize, SpaceOk;
    var v, j := Meaning(first.tree), i + |TreeText(first.tree)|;
    HasParts(s, i, TreeText(first.tree), first.after + ItemsText(more));
    AfterItem(s, m, j, first.after, more);
    TreeRead(s, m, i, d + 1, first.tree);
    ElementsTurn(s, m, i, d, acc);
    ItemsUnfold(m, more);
    if more == [] {
      assert acc + ([v] + []) == acc + [v];
    } else {
      ElementsRead(s, m, j + |first.after| + 1 + |more[0].before|, d, more[0], more[1..], acc + [v]);
      assert acc + [v] + ItemsMeaning(more) == acc + ([v] + ItemsMeaning(more));
    }
  }

  /** A member behind its key. */
  function BehindKey(head: Entry, tail: seq<Entry>): seq<byte> {
    head.mid + ([COLON] + (head.late + (TreeText(head.tree) + (head.after + EntriesText(tail)))))
  }

  /** The members behind the first, taken apart. */
  lemma EntriesUnfold(m: Strategy, entries: seq<Entry>, members: seq<Member>)
    requires EntriesOk(m, entries)
    ensures entries == [] ==>
              && EntriesText(entries) == [RBRACE] && EntryListHeight(entries) == 0
              && EntriesMeaning(entries, members) == members
    ensures entries != [] ==>
              var next, rest := entries[0], entries[1..];
              && EntrySpaced(m, next) && TreeOk(m, next.tree) && EntriesOk(m, rest)
              && EntriesText(entries)
                 == [COMMA] + (next.before + ([QUOTE] + (CharsText(next.key) + [QUOTE] + BehindKey(next, rest))))
              && EntryListHeight(entries) == Max(1 + TreeHeight(next.tree), EntryListHeight(rest))
              && EntriesMeaning(entries, members)
                 == EntriesMeaning(rest, Insert(members, StringMeaning(next.key), Meaning(next.tree)))
              && EntryListSize(entries) == TreeSize(next.tree) + EntryListSize(rest)
  {
    if entries != [] {
      EntryBehindKey(entries[0], entries[1..]);
    }
  }

  lemma EntryBehindKey(head: Entry, tail: seq<Entry>)
    ensures EntryText(head) + EntriesText(tail)
            == head.before + ([QUOTE] + (CharsText(head.key) + [QUOTE] + BehindKey(head, tail)))
    ensures StringText(head.key) + BehindKey(head, tail)
              == [QUOTE] + (CharsText(head.key) + [QUOTE] + BehindKey(head, tail))
  {
    hide TreeText, CharsText, EntriesText;
    var t, more, key := TreeText(head.tree), EntriesText(tail), CharsText(head.key);
    assert head.late + (t + head.after) + more == head.late + (t + (head.after + more));
    assert head.mid + ([COLON] + (head.late + (t + head.after))) + more
             == head.mid + ([COLON] + (head.late + (t + (head.after + more))));
  }

  lemma {:induction false} ObjectRead(s: seq<byte>, m: Strategy, i: nat, d: nat, head: Entry, tail: seq<Entry>)
    requires EntrySpaced(m, head) && TreeOk(m, head.tree) && EntriesOk(m, tail) && d <= MAX_DEPTH
    requires HasAt(s, i, [LBRACE] + (EntryText(head) + EntriesText(tail)))
    ensures Value(s, m, i, d)
            == Outcome(d, Max(1 + TreeHeight(head.tree), EntryListHeight(tail)),
                       Obj(EntriesMeaning(tail, Insert([], StringMeaning(head.key), Meaning(head.tree)))),
                       i + |[LBRACE] + (EntryText(head) + EntriesText(tail))|)
    decreases TreeSize(head.tree) + EntryListSize(tail), 4
  {
    hide Token, Value, HasAt, TreeText, EntryText, EntriesText, Members, TreeHeight, EntryListHeight, Meaning,
      EntriesMeaning, TreeOk, EntriesOk, StartsToken, StringMeaning, BehindKey, StringText, CharsText, CharsOk, SpaceOk;
    var text := EntryText(head) + EntriesText(tail);
    HasFirst(s, i, [LBRACE] + text);
    HasParts(s, i, [LBRACE], text);
    BracketStarts();
    TokenHere(s, m, i);
    EntryBehindKey(head, tail);
    TokenAt(s, m, i + 1, head.before, QUOTE, CharsText(head.key) + [QUOTE] + BehindKey(head, tail));
    HasParts(s, i + 1, head.before, StringText(head.key) + BehindKey(head, tail));
    OpensObject(s, m, i, d);
    MembersRead(s, m, i + 1 + |head.before|, d, head, tail, []);
  }

  /** Where the parts of a member are, from its opening quote on. */
  lemma MemberAt(s: seq<byte>, m: Strategy, i: nat, d: nat, head: Entry, tail: seq<Entry>)
    requires EntrySpaced(m, head) && TreeOk(m, head.tree) && d <= MAX_DEPTH
    requires HasAt(s, i, StringText(head.key) + BehindKey(head, tail))
    ensures var j := i + |StringText(head.key)|;
            var k := j + |head.mid| + 1;
            var l := k + |head.late|;
            var after := head.after + EntriesText(tail);
            && i < |s| && l < |s|
            && StringLiteral(s, i + 1) == Ok(StringMeaning(head.key), j)
            && Token(s, m, j) == Ok(COLON, k)
            && Value(s, m, k, d + 1) == Value(s, m, l, d + 1)
            && HasAt(s, l, TreeText(head.tree)) && HasAt(s, l + |TreeText(head.tree)|, after)
            && i + |StringText(head.key) + BehindKey(head, tail)| == l + |TreeText(head.tree)| + |after|
  {
    hide Token, Value, HasAt, TreeText, EntriesText, TreeOk, StartsToken, StringMeaning, StringText, StringLiteral,
      CharsOk, SpaceOk;
    KeyOk(m, head);
    var j, after := i + |StringText(head.key)|, head.after + EntriesText(tail);
    HasParts(s, i, StringText(head.key), BehindKey(head, tail));
    StringRead(s, i, head.key);
    BracketStarts();
    TokenAt(s, m, j, head.mid, COLON, head.late + (TreeText(head.tree) + after));
    var k := j + |head.mid| + 1;
    ValueAt(s, m, k, head.late, head.tree, after, d + 1);
    HasParts(s, k + |head.late|, TreeText(head.tree), after);
  }

  /** What follows a member: the closing brace, or a comma and the next key's opening quote. */
  lemma AfterMember(s: seq<byte>, m: Strategy, e: nat, w: seq<byte>, tail: seq<Entry>)
    requires SpaceOk(m, w) && EntriesOk(m, tail) && HasAt(s, e, w + EntriesText(tail))
    ensures EndsNumber(ByteAt(s, e))
    ensures Token(s, m, e) == Ok(if tail == [] then RBRACE else COMMA, e + |w| + 1)
    ensures tail == [] ==> |EntriesText(tail)| == 1
    ensures tail != [] ==>
              var next, n := tail[0], e + |w| + 1;
              var q := n + |next.before|;
              && n <= |s| && Token(s, m, n) == Ok(QUOTE, q + 1)
              && HasAt(s, q, StringText(next.key) + BehindKey(next, tail[1..]))
              && e + |w + EntriesText(tail)| == q + |StringText(next.key) + BehindKey(next, tail[1..])|
  {
    hide Token, HasAt, EntriesText, EntriesOk, EndsNumber, StartsToken, StringText, BehindKey, SpaceOk;
    if tail == [] {
      BraceText();
      ClosesHere(s, m, e, w, RBRACE);
    } else {
      AtComma(s, m, e, w, tail);
    }
  }

  lemma BraceText()
    ensures EntriesText([]) == [RBRACE]
  {
  }

  lemma CommaText(m: Strategy, tail: seq<Entry>)
    requires tail != [] && EntriesOk(m, tail)
    ensures EntrySpaced(m, tail[0])
    ensures EntriesText(tail) == [COMMA] + (tail[0].before + (StringText(tail[0].key) + BehindKey(tail[0], tail[1..])))
  {
    hide TreeText, TreeOk, CharsText, StringText, BehindKey;
    EntryBehindKey(tail[0], tail[1..]);
  }

  lemma AtComma(s: seq<byte>, m: Strategy, e: nat, w: seq<byte>, tail: seq<Entry>)
    requires SpaceOk(m, w) && tail != [] && EntriesOk(m, tail) && HasAt(s, e, w + EntriesText(tail))
    ensures EndsNumber(ByteAt(s, e)) && Token(s, m, e) == Ok(COMMA, e + |w| + 1)
    ensures var next, n := tail[0], e + |w| + 1;
            var q := n + |next.before|;
            && n <= |s| && Token(s, m, n) == Ok(QUOTE, q + 1)
            && HasAt(s, q, StringText(next.key) + BehindKey(next, tail[1..]))
            && e + |w + EntriesText(tail)| == q + |StringText(next.key) + BehindKey(next, tail[1..])|
  {
    hide Token, HasAt, EntriesText, EntriesOk, EndsNumber, StartsToken, StringText, CharsText, BehindKey, TreeOk,
      SpaceOk;
    var next := tail[0];
    CommaText(m, tail);
    BracketStarts();
    QuoteFirst(next.key);
    CommaThen(s, m, e, w, next.before, StringText(next.key) + BehindKey(next, tail[1..]));
  }

  lemma QuoteFirst(key: seq<Char>)
    ensures StringText(key) != [] && StringText(key)[0] == QUOTE
  {
  }

  /** The object loop, behind the opening quote of a key. */
  lemma {:induction false} MembersRead(s: seq<byte>, m: Strategy, i: nat, d: nat, head: Entry, tail: seq<Entry>,
                                       acc: seq<Member>)
    requires EntrySpaced(m, head) && TreeOk(m, head.tree) && EntriesOk(m, tail) && d <= MAX_DEPTH
    requires HasAt(s, i, StringText(head.key) + BehindKey(head, tail))
    ensures i < |s|
    ensures Members(s, m, QUOTE, i + 1, d, acc)
            == Outcome(d, Max(1 + TreeHeight(head.tree), EntryListHeight(tail)),
                       Obj(EntriesMeaning(tail, Insert(acc, StringMeaning(head.key), Meaning(head.tree)))),
                       i + |StringText(head.key) + BehindKey(head, tail)|)
    decreases TreeSize(head.tree) + EntryListSize(tail), 3
  {
    hide Token, Value, HasAt, TreeText, EntriesText, Members, TreeHeight, EntryListHeight, Meaning, EntriesMeaning,
      TreeOk, EntriesOk, EndsNumber, StartsToken, TreeSize, EntryListSize, StringMeaning, StringText, StringLiteral,
      CharsOk, CharsText, Insert, BehindKey, SpaceOk;
    KeyOk(m, head);
    var acc' := Insert(acc, StringMeaning(head.key), Meaning(head.tree));
    var j := i + |StringText(head.key)|;
    var k := j + |head.mid| + 1;
    var l := k + |head.late|;
    MemberAt(s, m, i, d, head, tail);
    AfterMember(s, m, l + |TreeText(head.tree)|, head.after, tail);
    TreeRead(s, m, l, d + 1, head.tree);
    MembersTurn(s, m, i + 1, d, acc, StringMeaning(head.key), j, k);
    EntriesUnfold(m, tail, acc');
    if tail != [] {
      MembersRead(s, m, l + |TreeText(head.tree)| + |head.after| + 1 + |tail[0].before|, d, tail[0], tail[1..], acc');
    }
  }

  /* ---- whole texts ---------------------------------------------------------------------------- */

  /**
   * Every text the grammar derives parses to what it means if it is nested at most 200 deep; a deeper
   * one is refused for its depth and nothing else.
   */
  lemma DerivedTextsParse(text: seq<byte>, m: Strategy, before: seq<byte>, t: Tree, after: seq<byte>)
    requires Derives(text, m, before, t, after)
    ensures Parse(text, m) == Outcome(0, TreeHeight(t), Meaning(t), |text|)
  {
    hide Garbage, EndOk, Token, Value, TreeText, TreeHeight, Meaning, TreeOk, HasAt, EndsNumber, SpaceOk;
    assert HasAt(text, 0, before + (TreeText(t) + after)) by {
      WholeText(text);
    }
    ValueAt(text, m, 0, before, t, after, 0);
    var i := |before|;
    HasParts(text, i, TreeText(t), after);
    var j := i + |TreeText(t)|;
    SpaceEnds(text, m, j, after);
    TreeRead(text, m, i, 0, t);
    EndPassed(text, m, j, after);
  }

  lemma WholeText(text: seq<byte>)
    ensures HasAt(text, 0, text)
  {
    assert text[0..|text|] == text;
  }

  lemma SpaceFirst(m: Strategy, w: seq<byte>)
    requires SpaceOk(m, w) && w != []
    ensures IsSpace(w[0]) || w[0] == SLASH
  {
    hide SpaceOk;
    var n := SpaceSplit(m, w);
    assert w[..n][0] == w[0];
  }

  lemma EndFirst(m: Strategy, w: seq<byte>)
    requires EndOk(m, w) && w != []
    ensures IsSpace(w[0]) || w[0] == SLASH
  {
    hide SpaceOk;
    hide EndOk;
    var n := EndSplit(m, w);
    if n > 0 {
      SpaceFirst(m, w[..n]);
    } else {
      assert w[0..][..2][0] == w[0];
    }
  }

  lemma SpaceEnds(text: seq<byte>, m: Strategy, j: nat, w: seq<byte>)
    requires HasAt(text, j, w) && EndOk(m, w) && j + |w| == |text|
    ensures EndsNumber(ByteAt(text, j))
  {
    hide EndOk;
    if w != [] {
      HasFirst(text, j, w);
      EndFirst(m, w);
    }
  }
}
