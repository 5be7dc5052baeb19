/** Every text the parser accepts is derived by the grammar: the parser is sound. */
module JsonDeriving {
  import opened Bytes
  import opened JsonValues
  import opened JsonStrings
  import opened JsonGrammar
  import opened JsonRoundTrip
  import opened JsonSyntax
  import opened JsonReading

  lemma HasJoin(s: seq<byte>, i: nat, a: seq<byte>, b: seq<byte>)
    requires HasAt(s, i, a) && HasAt(s, i + |a|, b)
    ensures HasAt(s, i, a + b)
  {
    assert s[i..i + |a + b|] == s[i..i + |a|] + s[i + |a|..i + |a| + |b|];
  }

  lemma HasOne(s: seq<byte>, i: nat, b: byte)
    requires i < |s| && s[i] == b
    ensures HasAt(s, i, [b])
  {
  }

  lemma HasSlice(s: seq<byte>, i: nat, j: nat)
    requires i <= j <= |s|
    ensures HasAt(s, i, s[i..j])
  {
  }

  /* ---- white space ---------------------------------------------------------------------------- */

  lemma SpaceBegins(m: Strategy, w: seq<byte>, n: nat)
    requires 0 < n <= |w| && SpaceOk(m, w[n..]) && ((n == 1 && IsSpace(w[0])) || (m.Comments? && CommentOk(w[..n])))
    ensures SpaceOk(m, w)
  {
    hide CommentOk;
  }

  lemma {:induction false} SpaceAppend(m: Strategy, a: seq<byte>, b: seq<byte>)
    requires SpaceOk(m, a) && SpaceOk(m, b)
    ensures SpaceOk(m, a + b)
    decreases |a|
  {
    hide SpaceOk, CommentOk;
    if a == [] {
      assert a + b == b;
    } else {
      var n := SpaceSplit(m, a);
      SpaceAppend(m, a[n..], b);
      assert (a + b)[n..] == a[n..] + b && (a + b)[..n] == a[..n];
      SpaceBegins(m, a + b, n);
    }
  }

  lemma {:induction false} SkippedSpace(s: seq<byte>, m: Strategy, i: nat)
    requires i <= |s|
    ensures SpaceOk(m, s[i..SkipSpace(s, i)])
    decreases |s| - i
  {
    if IsSpace(ByteAt(s, i)) {
      SkippedSpace(s, m, i + 1);
      assert s[i..SkipSpace(s, i)][1..] == s[i + 1..SkipSpace(s, i)];
      SpaceBegins(m, s[i..SkipSpace(s, i)], 1);
    }
  }

  lemma {:induction false} LineFound(s: seq<byte>, i: nat)
    requires i <= |s|
    ensures NEWLINE !in s[i..LineEnd(s, i)] && (LineEnd(s, i) < |s| ==> s[LineEnd(s, i)] == NEWLINE)
    decreases |s| - i
  {
    if i < |s| && s[i] != NEWLINE {
      LineFound(s, i + 1);
      assert s[i..LineEnd(s, i)] == [s[i]] + s[i + 1..LineEnd(s, i)];
    }
  }

  lemma {:induction false} BlockFound(s: seq<byte>, i: nat)
    requires BlockEnd(s, i).Ok?
    ensures var j := BlockEnd(s, i).at;
            && s[j - 2] == STAR && s[j - 1] == SLASH
            && forall k :: i <= k < j - 2 ==> !(s[k] == STAR && s[k + 1] == SLASH)
    decreases |s| - i
  {
    if !(s[i] == STAR && s[i + 1] == SLASH) {
      BlockFound(s, i + 1);
    }
  }

  lemma LineText(s: seq<byte>, i: nat, j: nat)
    requires i + 2 <= j < |s| && s[i] == SLASH && s[i + 1] == SLASH && NEWLINE !in s[i + 2..j] && s[j] == NEWLINE
    ensures CommentOk(s[i..j + 1])
  {
    var c := s[i..j + 1];
    assert c[..2] == [SLASH, SLASH];
    forall k | 2 <= k < |c| - 1 ensures c[k] != NEWLINE {
      assert c[k] == s[i + 2..j][k - 2];
    }
    hide BlockOk;
  }

  lemma OpenText(s: seq<byte>, i: nat)
    requires i + 2 <= |s| && s[i] == SLASH && s[i + 1] == SLASH && NEWLINE !in s[i + 2..|s|]
    ensures OpenLine(s[i..])
  {
    assert s[i..][..2] == [SLASH, SLASH];
    assert s[i..][2..] == s[i + 2..|s|];
  }

  lemma BlockText(s: seq<byte>, i: nat, j: nat)
    requires i + 4 <= j <= |s| && s[i] == SLASH && s[i + 1] == STAR && s[j - 2] == STAR && s[j - 1] == SLASH
    requires forall k :: i + 2 <= k < j - 2 ==> !(s[k] == STAR && s[k + 1] == SLASH)
    ensures CommentOk(s[i..j])
  {
    var c := s[i..j];
    assert c[..2] == [SLASH, STAR] && c[|c| - 2..] == [STAR, SLASH];
    forall k | 2 <= k < |c| - 2 ensures !(c[k] == STAR && c[k + 1] == SLASH) {
      assert c[k] == s[i + k] && c[k + 1] == s[i + k + 1];
    }
    hide LineOk;
  }

  /** A comment that was read, with the end of its line, or up to the end of the text. */
  lemma CommentFound(s: seq<byte>, i: nat) returns (j: nat)
    requires i <= |s| && Comment(s, i).Ok? && Comment(s, i).value
    ensures i < j <= |s| && SkipSpace(s, Comment(s, i).at) == SkipSpace(s, j)
    ensures CommentOk(s[i..j]) || (j == |s| && OpenLine(s[i..]))
  {
    j := Comment(s, i).at;
    hide CommentOk, OpenLine;
    if s[i + 1] == SLASH {
      LineFound(s, i + 2);
      if j < |s| {
        LineText(s, i, j);
        j := j + 1;
      } else {
        OpenText(s, i);
      }
    } else {
      BlockFound(s, i + 2);
      BlockText(s, i, j);
    }
  }

  /** What was skipped is white space; at the end of the text it may be the white space that ends one. */
  ghost predicate Skipped(s: seq<byte>, m: Strategy, i: nat, j: nat) {
    i <= j <= |s| && if j < |s| then SpaceOk(m, s[i..j]) else EndOk(m, s[i..j])
  }

  lemma SkippedMore(s: seq<byte>, m: Strategy, i: nat, k: nat, j: nat)
    requires i <= k <= |s| && SpaceOk(m, s[i..k]) && Skipped(s, m, k, j)
    ensures Skipped(s, m, i, j)
  {
    hide SpaceOk, OpenLine;
    assert s[i..j] == s[i..k] + s[k..j];
    if SpaceOk(m, s[k..j]) {
      SpaceAppend(m, s[i..k], s[k..j]);
    } else {
      var n :| 0 <= n <= |s[k..j]| && SpaceOk(m, s[k..j][..n]) && OpenLine(s[k..j][n..]);
      SpaceAppend(m, s[i..k], s[k..j][..n]);
      var e := k - i + n;
      assert s[i..j][..e] == s[i..k] + s[k..j][..n] && s[i..j][e..] == s[k..j][n..];
      assert EndOk(m, s[i..j]);
    }
  }

  lemma NoSpace(s: seq<byte>, m: Strategy, i: nat)
    requires i <= |s|
    ensures Skipped(s, m, i, i)
  {
    assert s[i..i] == [];
  }

  lemma SpaceOnce(s: seq<byte>, i: nat)
    requires i <= |s|
    ensures SkipSpace(s, SkipSpace(s, i)) == SkipSpace(s, i)
  {
  }

  lemma OpenEnds(s: seq<byte>, i: nat)
    requires i <= |s| && OpenLine(s[i..])
    ensures Skipped(s, Comments, i, |s|)
  {
    hide OpenLine;
    assert s[i..|s|] == s[i..] && s[i..][..0] == [] && s[i..][0..] == s[i..];
  }

  lemma {:induction false} CommentsSkipped(s: seq<byte>, i: nat)
    requires i <= |s| && SkipComments(s, i).Ok? && SkipSpace(s, i) == i
    ensures Skipped(s, Comments, i, SkipComments(s, i).at)
    decreases |s| - i
  {
    hide SpaceOk, EndOk, CommentOk, Comment, OpenLine, SkipSpace, Skipped;
    if Comment(s, i).value {
      var k := CommentFound(s, i);
      var l := SkipSpace(s, k);
      if CommentOk(s[i..k]) {
        SpaceOnce(s, k);
        CommentsSkipped(s, l);
        BehindComment(s, i, k, SkipComments(s, i).at);
      } else {
        AtEnd(s);
        OpenEnds(s, i);
      }
    } else {
      NoSpace(s, Comments, i);
    }
  }

  lemma AtEnd(s: seq<byte>)
    ensures SkipSpace(s, |s|) == |s| && SkipComments(s, |s|) == Ok((), |s|)
  {
    assert Comment(s, |s|) == Ok(false, |s|);
  }

  lemma OneComment(c: seq<byte>)
    requires CommentOk(c)
    ensures SpaceOk(Comments, c)
  {
    var n := |c|;
    assert n > 0 && c[..n] == c && c[n..] == [];
    hide CommentOk;
    SpaceBegins(Comments, c, n);
  }

  lemma BehindComment(s: seq<byte>, i: nat, k: nat, j: nat)
    requires i < k <= |s| && CommentOk(s[i..k]) && Skipped(s, Comments, SkipSpace(s, k), j)
    ensures Skipped(s, Comments, i, j)
  {
    var c, l := s[i..k], SkipSpace(s, k);
    OneComment(c);
    SkippedSpace(s, Comments, k);
    hide SpaceOk, Skipped, CommentOk;
    SpaceAppend(Comments, c, s[k..l]);
    assert s[i..l] == c + s[k..l];
    SkippedMore(s, Comments, i, l, j);
  }

  lemma GarbageSkipped(s: seq<byte>, m: Strategy, i: nat)
    requires i <= |s| && Garbage(s, m, i).Ok?
    ensures Skipped(s, m, i, Garbage(s, m, i).at)
  {
    var k := SkipSpace(s, i);
    SkippedSpace(s, m, i);
    if m.Comments? {
      SpaceOnce(s, i);
      hide SpaceOk, Skipped, SkipComments, SkipSpace;
      CommentsSkipped(s, k);
      SkippedMore(s, Comments, i, k, SkipComments(s, k).at);
    }
  }

  /** The white space in front of a token. */
  lemma TokenDerived(s: seq<byte>, m: Strategy, i: nat) returns (w: seq<byte>)
    requires i <= |s| && Token(s, m, i).Ok?
    ensures SpaceOk(m, w) && HasAt(s, i, w) && HasAt(s, i + |w|, [Token(s, m, i).value])
    ensures Token(s, m, i).at == i + |w| + 1
  {
    hide SpaceOk, Garbage, EndOk;
    GarbageSkipped(s, m, i);
    w := s[i..Token(s, m, i).at - 1];
  }

  /* ---- strings -------------------------------------------------------------------------------- */

  lemma CharDerived(s: seq<byte>, i: nat) returns (c: Char)
    requires i < |s| && s[i] != QUOTE && NextUnit(s, i).Ok?
    ensures CharOk(c) && HasAt(s, i, CharText(c)) && NextUnit(s, i).at == i + |CharText(c)|
  {
    if s[i] != BACKSLASH {
      c := Plain(s[i]);
    } else if s[i + 1] == 0x75 {
      c := Hex(s[i + 2..i + 6]);
      assert s[i..i + 6] == [BACKSLASH, 0x75] + s[i + 2..i + 6];
    } else {
      c := Short(s[i + 1]);
      assert s[i..i + 2] == [BACKSLASH, s[i + 1]];
    }
  }

  lemma {:induction false} CharsDerived(s: seq<byte>, i: nat) returns (chars: seq<Char>)
    requires i <= |s| && Scan(s, i).Ok?
    ensures CharsOk(chars) && HasAt(s, i, CharsText(chars) + [QUOTE]) && Scan(s, i).at == i + |CharsText(chars)| + 1
    decreases |s| - i
  {
    hide HasAt, NextUnit, CharOk, CharText;
    if s[i] == QUOTE {
      chars := [];
      HasOne(s, i, QUOTE);
      assert [] + [QUOTE] == [QUOTE];
    } else {
      var c := CharDerived(s, i);
      var rest := CharsDerived(s, NextUnit(s, i).at);
      chars := [c] + rest;
      HasJoin(s, i, CharText(c), CharsText(rest) + [QUOTE]);
      assert chars[1..] == rest;
      assert CharsText(chars) + [QUOTE] == CharText(c) + (CharsText(rest) + [QUOTE]);
    }
  }

  lemma StringDerived(s: seq<byte>, i: nat) returns (chars: seq<Char>)
    requires i < |s| && s[i] == QUOTE && StringLiteral(s, i + 1).Ok?
    ensures CharsOk(chars) && HasAt(s, i, StringText(chars)) && StringLiteral(s, i + 1).at == i + |StringText(chars)|
  {
    hide HasAt, Assemble;
    chars := CharsDerived(s, i + 1);
    HasOne(s, i, QUOTE);
    HasJoin(s, i, [QUOTE], CharsText(chars) + [QUOTE]);
  }

  /* ---- numbers -------------------------------------------------------------------------------- */

  lemma WholeDerived(s: seq<byte>, i: nat)
    requires i <= |s| && WholeEnd(s, i).Ok?
    ensures var w := s[i..WholeEnd(s, i).at];
            DigitsOk(w) && (w[0] == 0x30 ==> |w| == 1)
  {
  }

  lemma FractionDerived(s: seq<byte>, i: nat) returns (f: Part)
    requires i <= |s| && Fraction(s, i).Ok?
    ensures f.Part? ==> DigitsOk(f.digits)
    ensures HasAt(s, i, FractionText(f)) && Fraction(s, i).at == i + |FractionText(f)|
  {
    if ByteAt(s, i) != POINT {
      f := NoPart;
    } else {
      var j := SkipDigits(s, i + 1);
      f := Part(s[i + 1..j]);
      assert SkipDigits(s, i + 1) > i + 1;
      HasOne(s, i, POINT);
      HasSlice(s, i + 1, j);
      HasJoin(s, i, [POINT], s[i + 1..j]);
    }
  }

  lemma PowerDerived(s: seq<byte>, i: nat) returns (p: Power)
    requires i <= |s| && Exponent(s, i).Ok?
    ensures p.Power? ==> IsExponentMark(p.mark) && SignOk(p.sign) && DigitsOk(p.digits)
    ensures HasAt(s, i, PowerText(p)) && Exponent(s, i).at == i + |PowerText(p)|
  {
    hide NatValue, HasAt;
    if !IsExponentMark(ByteAt(s, i)) {
      HasNothing(s, i);
      p := NoPower;
    } else {
      var signed := ByteAt(s, i + 1) == PLUS || ByteAt(s, i + 1) == MINUS;
      var j := if signed then i + 2 else i + 1;
      var k := SkipDigits(s, j);
      assert k > j;
      var sign, digits := s[i + 1..j], s[j..k];
      assert signed ==> sign == [s[i + 1]];
      p := Power(s[i], sign, digits);
      HasOne(s, i, s[i]);
      HasSlice(s, i + 1, j);
      HasSlice(s, j, k);
      HasJoin(s, i + 1, sign, digits);
      HasJoin(s, i, [s[i]], sign + digits);
    }
  }

  /** What a number that was read is made of. */
  lemma NumberSplits(s: seq<byte>, i: nat)
    requires i <= |s| && Number(s, i).Ok?
    ensures var start := if ByteAt(s, i) == MINUS then i + 1 else i;
            && start <= |s| && WholeEnd(s, start).Ok?
            && var j := WholeEnd(s, start).at;
               || (Fraction(s, j).Ok? && Exponent(s, Fraction(s, j).at).Ok?
                   && Number(s, i).at == Exponent(s, Fraction(s, j).at).at)
               || (ByteAt(s, j) != POINT && !IsExponentMark(ByteAt(s, j)) && Number(s, i).at == j)
  {
    hide WholeEnd, Fraction, Exponent, Decimal, NatValue, IsExponentMark;
  }

  lemma NumeralDerived(s: seq<byte>, i: nat) returns (n: Numeral)
    requires i <= |s| && Number(s, i).Ok?
    ensures NumeralOk(n) && HasAt(s, i, NumeralText(n)) && Number(s, i).at == i + |NumeralText(n)|
  {
    hide HasAt, WholeEnd, Fraction, Exponent, Number, AllDigits, IsExponentMark, SignOk, NumeralText, FractionText,
      PowerText;
    NoPartText();
    NumberSplits(s, i);
    var neg := ByteAt(s, i) == MINUS;
    var start := if neg then i + 1 else i;
    var j := WholeEnd(s, start).at;
    var whole := s[start..j];
    WholeDerived(s, start);
    HasSlice(s, start, j);
    HasSign(s, i, neg);
    if Fraction(s, j).Ok? && Exponent(s, Fraction(s, j).at).Ok?
      && Number(s, i).at == Exponent(s, Fraction(s, j).at).at {
      var f := FractionDerived(s, j);
      var p := PowerDerived(s, Fraction(s, j).at);
      n := Numeral(neg, whole, f, p);
      NumeralJoined(s, i, n);
    } else {
      n := Numeral(neg, whole, NoPart, NoPower);
      HasNothing(s, j);
      NumeralJoined(s, i, n);
    }
  }

  lemma NoPartText()
    ensures FractionText(NoPart) == [] && PowerText(NoPower) == []
  {
  }

  lemma HasNothing(s: seq<byte>, i: nat)
    requires i <= |s|
    ensures HasAt(s, i, [])
  {
  }

  lemma HasSign(s: seq<byte>, i: nat, neg: bool)
    requires i <= |s| && (ByteAt(s, i) == MINUS <==> neg)
    ensures HasAt(s, i, SignText(neg))
  {
  }

  lemma NumeralJoined(s: seq<byte>, i: nat, n: Numeral)
    requires HasAt(s, i, SignText(n.neg)) && HasAt(s, i + |SignText(n.neg)|, n.whole)
    requires HasAt(s, i + |SignText(n.neg)| + |n.whole|, FractionText(n.fraction))
    requires HasAt(s, i + |SignText(n.neg)| + |n.whole| + |FractionText(n.fraction)|, PowerText(n.power))
    ensures HasAt(s, i, NumeralText(n))
    ensures |NumeralText(n)| == |SignText(n.neg)| + |n.whole| + |FractionText(n.fraction)| + |PowerText(n.power)|
  {
    hide HasAt, SignText, FractionText, PowerText;
    var sign, f, p := SignText(n.neg), FractionText(n.fraction), PowerText(n.power);
    HasJoin(s, i + |sign| + |n.whole|, f, p);
    HasJoin(s, i + |sign|, n.whole, f + p);
    HasJoin(s, i, sign, n.whole + (f + p));
  }

  /* ---- values --------------------------------------------------------------------------------- */

  /** A value behind its spaces. */
  ghost predicate Derived(s: seq<byte>, m: Strategy, i: nat, w: seq<byte>, t: Tree, at: nat) {
    SpaceOk(m, w) && TreeOk(m, t) && HasAt(s, i, w + TreeText(t)) && at == i + |w + TreeText(t)|
  }

  lemma ScalarDerived(s: seq<byte>, m: Strategy, i: nat, d: nat) returns (w: seq<byte>, t: Tree)
    requires i <= |s| && d <= MAX_DEPTH && Value(s, m, i, d).Ok?
    requires Token(s, m, i).value != LBRACE && Token(s, m, i).value != LBRACKET
    ensures Derived(s, m, i, w, t, Value(s, m, i, d).at) && TreeHeight(t) == 0
  {
    ScalarSplits(s, m, i, d);
    hide HasAt, Token, Value, Number, StringLiteral, SpaceOk, TreeText, TreeOk, TreeHeight, IsDigit, Derived;
    w := TokenDerived(s, m, i);
    var k := i + |w|;
    HasFirst(s, k, [Token(s, m, i).value]);
    t := ScalarTree(s, m, k, Value(s, m, i, d).at, Token(s, m, i).value);
    DerivedJoined(s, m, i, w, t, Value(s, m, i, d).at);
  }

  lemma DerivedJoined(s: seq<byte>, m: Strategy, i: nat, w: seq<byte>, t: Tree, at: nat)
    requires SpaceOk(m, w) && HasAt(s, i, w) && TreeOk(m, t) && HasAt(s, i + |w|, TreeText(t))
    requires at == i + |w| + |TreeText(t)|
    ensures Derived(s, m, i, w, t, at)
  {
    hide HasAt, TreeText, TreeOk, SpaceOk;
    HasJoin(s, i, w, TreeText(t));
  }

  /** How a value starting with this character was read up to `at`. */
  ghost predicate ScalarOf(s: seq<byte>, k: nat, ch: byte, at: nat) {
    k < |s| && s[k] == ch &&
    if ch == MINUS || IsDigit(ch) then Number(s, k).Ok? && Number(s, k).at == at
    else if ch == QUOTE then StringLiteral(s, k + 1).Ok? && StringLiteral(s, k + 1).at == at
    else
      || (ch == TRUE_TEXT[0] && at == k + 4 <= |s| && s[k..at] == TRUE_TEXT)
      || (ch == FALSE_TEXT[0] && at == k + 5 <= |s| && s[k..at] == FALSE_TEXT)
      || (ch == NULL_TEXT[0] && at == k + 4 <= |s| && s[k..at] == NULL_TEXT)
  }

  lemma ScalarSplits(s: seq<byte>, m: Strategy, i: nat, d: nat)
    requires i <= |s| && d <= MAX_DEPTH && Value(s, m, i, d).Ok?
    requires Token(s, m, i).value != LBRACE && Token(s, m, i).value != LBRACKET
    ensures Token(s, m, i).Ok?
    ensures ScalarOf(s, Token(s, m, i).at - 1, Token(s, m, i).value, Value(s, m, i, d).at)
  {
    hide Token, Number, StringLiteral, Elements, Members;
  }

  lemma ScalarTree(s: seq<byte>, m: Strategy, k: nat, at: nat, ch: byte) returns (t: Tree)
    requires ScalarOf(s, k, ch, at)
    ensures TreeOk(m, t) && HasAt(s, k, TreeText(t)) && at == k + |TreeText(t)| && TreeHeight(t) == 0
  {
    hide HasAt, Number, StringLiteral, NumeralText, NumeralOk, StringText, CharsOk;
    if ch == MINUS || IsDigit(ch) {
      var n := NumeralDerived(s, k);
      t := NumberTree(n);
    } else if ch == QUOTE {
      var chars := StringDerived(s, k);
      t := StringTree(chars);
    } else {
      t := if ch == TRUE_TEXT[0] then BoolTree(true) else if ch == FALSE_TEXT[0] then BoolTree(false) else NullTree;
      LiteralDerived(s, k, TreeText(t));
    }
  }

  lemma LiteralDerived(s: seq<byte>, k: nat, text: seq<byte>)
    requires k + |text| <= |s| && s[k..k + |text|] == text
    ensures HasAt(s, k, text)
  {
  }

  /** How the parser goes on at a bracket, when it succeeds. */
  lemma BracketSplits(s: seq<byte>, m: Strategy, i: nat, d: nat)
    requires i <= |s| && d <= MAX_DEPTH && Value(s, m, i, d).Ok?
    ensures Token(s, m, i).Ok?
    ensures var j := Token(s, m, i).at;
            var ch := Token(s, m, i).value;
            ch == LBRACE || ch == LBRACKET ==>
              && Token(s, m, j).Ok?
              && var t := Token(s, m, j);
                 if t.value == (if ch == LBRACE then RBRACE else RBRACKET) then Value(s, m, i, d).at == t.at
                 else if ch == LBRACE then
                   t.value == QUOTE && Value(s, m, i, d) == Members(s, m, QUOTE, t.at, d, [])
                 else Value(s, m, i, d) == Elements(s, m, t.at - 1, d, [])
  {
    hide Token, Number, StringLiteral, Literal, Elements;
  }

  lemma {:induction false} ValueDerived(s: seq<byte>, m: Strategy, i: nat, d: nat) returns (w: seq<byte>, t: Tree)
    requires i <= |s| && d <= MAX_DEPTH + 1 && Value(s, m, i, d).Ok?
    ensures Derived(s, m, i, w, t, Value(s, m, i, d).at) && d + TreeHeight(t) <= MAX_DEPTH
    decreases MAX_DEPTH + 1 - d, |s| + 1
  {
    NotTooDeep(s, m, i, d);
    BracketSplits(s, m, i, d);
    hide Value, Token, HasAt, Elements, Members, TreeOk, TreeText, TreeHeight, Derived;
    var ch := Token(s, m, i).value;
    if ch == LBRACE {
      w, t := ObjectDerived(s, m, i, d);
    } else if ch == LBRACKET {
      w, t := ArrayDerived(s, m, i, d);
    } else {
      w, t := ScalarDerived(s, m, i, d);
    }
  }

  lemma NotTooDeep(s: seq<byte>, m: Strategy, i: nat, d: nat)
    requires i <= |s| && d <= MAX_DEPTH + 1 && Value(s, m, i, d).Ok?
    ensures d <= MAX_DEPTH
  {
  }

  /** An opening bracket, and what stands behind it. */
  lemma BracketJoined(s: seq<byte>, i: nat, w: seq<byte>, b: byte, text: seq<byte>)
    requires HasAt(s, i, w) && HasAt(s, i + |w|, [b]) && HasAt(s, i + |w| + 1, text)
    ensures HasAt(s, i, w + ([b] + text)) && |w + ([b] + text)| == |w| + 1 + |text|
  {
    hide HasAt;
    HasJoin(s, i + |w|, [b], text);
    HasJoin(s, i, w, [b] + text);
  }

  /** An array's items, from the first on. */
  ghost predicate ItemsFound(s: seq<byte>, m: Strategy, i: nat, first: Item, more: seq<Item>, at: nat, d: nat) {
    && ItemSpaced(m, first) && TreeOk(m, first.tree) && ItemsOk(m, more)
    && HasAt(s, i, ItemText(first) + ItemsText(more)) && at == i + |ItemText(first) + ItemsText(more)|
    && d + 1 + TreeHeight(first.tree) <= MAX_DEPTH && d + ItemListHeight(more) <= MAX_DEPTH
  }

  lemma ArrayJoined(s: seq<byte>, m: Strategy, i: nat, w: seq<byte>, first: Item, more: seq<Item>, at: nat, d: nat)
    requires SpaceOk(m, w) && HasAt(s, i, w) && HasAt(s, i + |w|, [LBRACKET])
    requires ItemsFound(s, m, i + |w| + 1, first, more, at, d)
    ensures Derived(s, m, i, w, ArrayTree(first, more), at) && d + TreeHeight(ArrayTree(first, more)) <= MAX_DEPTH
  {
    hide HasAt, ItemText, ItemsText, ItemsOk, ItemListHeight, ItemSpaced, SpaceOk;
    BracketJoined(s, i, w, LBRACKET, ItemText(first) + ItemsText(more));
  }

  lemma EmptyJoined(s: seq<byte>, i: nat, w: seq<byte>, open: byte, space: seq<byte>, close: byte)
    requires HasAt(s, i, w) && HasAt(s, i + |w|, [open]) && HasAt(s, i + |w| + 1, space)
    requires HasAt(s, i + |w| + 1 + |space|, [close])
    ensures HasAt(s, i, w + ([open] + (space + [close]))) && |w + ([open] + (space + [close]))| == |w| + |space| + 2
  {
    hide HasAt;
    HasJoin(s, i + |w| + 1, space, [close]);
    BracketJoined(s, i, w, open, space + [close]);
  }

  lemma EmptyDerived(s: seq<byte>, m: Strategy, i: nat, d: nat, close: byte) returns (w: seq<byte>, space: seq<byte>)
    requires i <= |s| && Token(s, m, i).Ok? && Token(s, m, Token(s, m, i).at).Ok?
    requires Token(s, m, Token(s, m, i).at).value == close
    ensures var open := Token(s, m, i).value;
            && SpaceOk(m, w) && SpaceOk(m, space) && HasAt(s, i, w + ([open] + (space + [close])))
            && Token(s, m, Token(s, m, i).at).at == i + |w + ([open] + (space + [close]))|
  {
    hide Token, HasAt, SpaceOk;
    w := TokenDerived(s, m, i);
    space := TokenDerived(s, m, i + |w| + 1);
    EmptyJoined(s, i, w, Token(s, m, i).value, space, close);
  }

  lemma {:induction false} ArrayDerived(s: seq<byte>, m: Strategy, i: nat, d: nat) returns (w: seq<byte>, t: Tree)
    requires i <= |s| && d <= MAX_DEPTH && Value(s, m, i, d).Ok?
    requires Token(s, m, i).Ok? && Token(s, m, i).value == LBRACKET
    ensures Derived(s, m, i, w, t, Value(s, m, i, d).at) && d + TreeHeight(t) <= MAX_DEPTH
    decreases MAX_DEPTH + 1 - d, |s|
  {
    hide Value, Token, HasAt, Elements, SpaceOk, ItemsFound, TreeOk, TreeText, TreeHeight, Derived;
    BracketSplits(s, m, i, d);
    var j := Token(s, m, i).at;
    if Token(s, m, j).value == RBRACKET {
      var space;
      w, space := EmptyDerived(s, m, i, d, RBRACKET);
      t := EmptyArray(space);
      EmptyTree(s, m, i, w, t, Value(s, m, i, d).at, [LBRACKET] + (space + [RBRACKET]));
    } else {
      w := TokenDerived(s, m, i);
      var space := TokenDerived(s, m, j);
      var first, more := ElementsDerived(s, m, j + |space|, d, []);
      first := Widen(s, m, j, space, first, more, Value(s, m, i, d).at, d);
      t := ArrayTree(first, more);
      ArrayJoined(s, m, i, w, first, more, Value(s, m, i, d).at, d);
    }
  }

  lemma EmptyTree(s: seq<byte>, m: Strategy, i: nat, w: seq<byte>, t: Tree, at: nat, text: seq<byte>)
    requires (t.EmptyArray? || t.EmptyObject?) && SpaceOk(m, w) && SpaceOk(m, t.space)
    requires text == if t.EmptyArray? then [LBRACKET] + (t.space + [RBRACKET]) else [LBRACE] + (t.space + [RBRACE])
    requires HasAt(s, i, w + text) && at == i + |w + text|
    ensures Derived(s, m, i, w, t, at) && TreeHeight(t) == 0
  {
    hide HasAt;
  }

  /** More spaces in front of an item. */
  lemma Widen(s: seq<byte>, m: Strategy, i: nat, space: seq<byte>, first: Item, more: seq<Item>, at: nat, d: nat)
    returns (wide: Item)
    requires SpaceOk(m, space) && HasAt(s, i, space) && ItemsFound(s, m, i + |space|, first, more, at, d)
    ensures wide == first.(before := space + first.before) && ItemsFound(s, m, i, wide, more, at, d)
  {
    wide := first.(before := space + first.before);
    hide HasAt, ItemsText, TreeText, TreeOk, ItemsOk, TreeHeight, ItemListHeight, SpaceOk;
    SpaceAppend(m, space, first.before);
    HasJoin(s, i, space, ItemText(first) + ItemsText(more));
    assert space + first.before + (TreeText(first.tree) + first.after) + ItemsText(more)
        == space + (first.before + (TreeText(first.tree) + first.after) + ItemsText(more));
  }

  /** How the array loop goes on when it succeeds. */
  lemma ElementsSplit(s: seq<byte>, m: Strategy, i: nat, d: nat, acc: seq<Json>)
    requires i <= |s| && d <= MAX_DEPTH && Elements(s, m, i, d, acc).Ok?
    ensures Value(s, m, i, d + 1).Ok? && Token(s, m, Value(s, m, i, d + 1).at).Ok?
    ensures var v := Value(s, m, i, d + 1);
            var t := Token(s, m, v.at);
            || (t.value == RBRACKET && Elements(s, m, i, d, acc).at == t.at)
            || (t.value == COMMA && Token(s, m, t.at).Ok?
                && Elements(s, m, i, d, acc) == Elements(s, m, Token(s, m, t.at).at - 1, d, acc + [v.value]))
  {
    hide Value, Token;
  }

  lemma {:induction false} ElementsDerived(s: seq<byte>, m: Strategy, i: nat, d: nat, acc: seq<Json>)
    returns (first: Item, more: seq<Item>)
    requires i <= |s| && d <= MAX_DEPTH && Elements(s, m, i, d, acc).Ok?
    ensures ItemsFound(s, m, i, first, more, Elements(s, m, i, d, acc).at, d)
    decreases MAX_DEPTH + 1 - d, |s| - i
  {
    hide Value, Token, HasAt, Elements, TreeOk, TreeText, TreeHeight, SpaceOk, ItemsFound, ItemsText, Derived, ItemsOk,
      ItemListHeight;
    ElementsSplit(s, m, i, d, acc);
    var before, tree := ValueDerived(s, m, i, d + 1);
    var v := Value(s, m, i, d + 1);
    var after := TokenDerived(s, m, v.at);
    var t := Token(s, m, v.at);
    first := Item(before, tree, after);
    if t.value == RBRACKET && Elements(s, m, i, d, acc).at == t.at {
      more := [];
      NoItems(m);
      ItemJoined(s, m, i, first, more, v.at, d);
    } else {
      var space := TokenDerived(s, m, t.at);
      var next, rest := ElementsDerived(s, m, t.at + |space|, d, acc + [v.value]);
      next := Widen(s, m, t.at, space, next, rest, Elements(s, m, i, d, acc).at, d);
      more := [next] + rest;
      CommaJoined(s, m, v.at + |after|, next, rest, more, Elements(s, m, i, d, acc).at, d);
      ItemJoined(s, m, i, first, more, v.at, d);
    }
  }

  lemma NoItems(m: Strategy)
    ensures ItemsOk(m, []) && ItemsText([]) == [RBRACKET] && ItemListHeight([]) == 0
  {
  }

  lemma CommaJoined(s: seq<byte>, m: Strategy, i: nat, next: Item, rest: seq<Item>, more: seq<Item>, at: nat, d: nat)
    requires more == [next] + rest && HasAt(s, i, [COMMA]) && ItemsFound(s, m, i + 1, next, rest, at, d)
    ensures ItemsOk(m, more) && HasAt(s, i, ItemsText(more)) && at == i + |ItemsText(more)|
    ensures d + ItemListHeight(more) <= MAX_DEPTH
  {
    hide HasAt, ItemText, TreeOk, TreeHeight, ItemSpaced;
    assert more[0] == next && more[1..] == rest;
    HasJoin(s, i, [COMMA], ItemText(next) + ItemsText(rest));
  }

  lemma ItemJoined(s: seq<byte>, m: Strategy, i: nat, first: Item, more: seq<Item>, at: nat, d: nat)
    requires Derived(s, m, i, first.before, first.tree, at) && SpaceOk(m, first.after) && HasAt(s, at, first.after)
    requires ItemsOk(m, more) && HasAt(s, at + |first.after|, ItemsText(more))
    requires d + 1 + TreeHeight(first.tree) <= MAX_DEPTH && d + ItemListHeight(more) <= MAX_DEPTH
    ensures ItemsFound(s, m, i, first, more, at + |first.after| + |ItemsText(more)|, d)
  {
    hide HasAt, TreeText, ItemsText, TreeOk, SpaceOk, ItemsOk, TreeHeight, ItemListHeight;
    var t, rest := TreeText(first.tree), ItemsText(more);
    HasJoin(s, at, first.after, rest);
    HasJoin(s, i, first.before + t, first.after + rest);
    assert first.before + t + (first.after + rest) == first.before + (t + first.after) + rest;
  }

  /** An object's members, from the first on. */
  ghost predicate MembersFound(s: seq<byte>, m: Strategy, i: nat, head: Entry, tail: seq<Entry>, at: nat, d: nat) {
    && EntrySpaced(m, head) && TreeOk(m, head.tree) && EntriesOk(m, tail)
    && HasAt(s, i, EntryText(head) + EntriesText(tail)) && at == i + |EntryText(head) + EntriesText(tail)|
    && d + 1 + TreeHeight(head.tree) <= MAX_DEPTH && d + EntryListHeight(tail) <= MAX_DEPTH
  }

  lemma ObjectJoined(s: seq<byte>, m: Strategy, i: nat, w: seq<byte>, head: Entry, tail: seq<Entry>, at: nat, d: nat)
    requires SpaceOk(m, w) && HasAt(s, i, w) && HasAt(s, i + |w|, [LBRACE])
    requires MembersFound(s, m, i + |w| + 1, head, tail, at, d)
    ensures Derived(s, m, i, w, ObjectTree(head, tail), at) && d + TreeHeight(ObjectTree(head, tail)) <= MAX_DEPTH
  {
    hide HasAt, EntryText, EntriesText, EntriesOk, EntryListHeight, EntrySpaced, SpaceOk;
    BracketJoined(s, i, w, LBRACE, EntryText(head) + EntriesText(tail));
  }

  lemma {:induction false} ObjectDerived(s: seq<byte>, m: Strategy, i: nat, d: nat) returns (w: seq<byte>, t: Tree)
    requires i <= |s| && d <= MAX_DEPTH && Value(s, m, i, d).Ok?
    requires Token(s, m, i).Ok? && Token(s, m, i).value == LBRACE
    ensures Derived(s, m, i, w, t, Value(s, m, i, d).at) && d + TreeHeight(t) <= MAX_DEPTH
    decreases MAX_DEPTH + 1 - d, |s|
  {
    hide Value, Token, HasAt, Members, SpaceOk, MembersFound, TreeOk, TreeText, TreeHeight, Derived;
    BracketSplits(s, m, i, d);
    var j := Token(s, m, i).at;
    if Token(s, m, j).value == RBRACE {
      var space;
      w, space := EmptyDerived(s, m, i, d, RBRACE);
      t := EmptyObject(space);
      EmptyTree(s, m, i, w, t, Value(s, m, i, d).at, [LBRACE] + (space + [RBRACE]));
    } else {
      w := TokenDerived(s, m, i);
      var space := TokenDerived(s, m, j);
      HasFirst(s, j + |space|, [QUOTE]);
      var head, tail := MembersDerived(s, m, j + |space| + 1, d, []);
      head := WidenEntry(s, m, j, space, head, tail, Value(s, m, i, d).at, d);
      t := ObjectTree(head, tail);
      ObjectJoined(s, m, i, w, head, tail, Value(s, m, i, d).at, d);
    }
  }

  /** Spaces in front of a member. */
  lemma WidenEntry(s: seq<byte>, m: Strategy, i: nat, space: seq<byte>, head: Entry, tail: seq<Entry>, at: nat, d: nat)
    returns (wide: Entry)
    requires SpaceOk(m, space) && head.before == [] && HasAt(s, i, space)
    requires MembersFound(s, m, i + |space|, head, tail, at, d)
    ensures wide == head.(before := space) && MembersFound(s, m, i, wide, tail, at, d)
  {
    wide := head.(before := space);
    hide HasAt, EntriesText, TreeText, CharsOk, BehindKey, StringText, CharsText, TreeOk, EntriesOk, TreeHeight,
      EntryListHeight;
    EntryBehindKey(head, tail);
    EntryBehindKey(wide, tail);
    SameBehindKey(head, wide, tail);
    var text := [QUOTE] + (CharsText(head.key) + [QUOTE] + BehindKey(head, tail));
    assert [] + text == text;
    HasJoin(s, i, space, text);
  }

  lemma SameBehindKey(a: Entry, b: Entry, tail: seq<Entry>)
    requires b == a.(before := b.before)
    ensures BehindKey(a, tail) == BehindKey(b, tail)
  {
  }

  /** How the object loop goes on when it succeeds. */
  lemma MembersSplit(s: seq<byte>, m: Strategy, i: nat, d: nat, acc: seq<Member>)
    requires i <= |s| && d <= MAX_DEPTH && Members(s, m, QUOTE, i, d, acc).Ok?
    ensures StringLiteral(s, i).Ok? && Token(s, m, StringLiteral(s, i).at).Ok?
    ensures var c := Token(s, m, StringLiteral(s, i).at);
            && c.value == COLON && Value(s, m, c.at, d + 1).Ok?
            && Token(s, m, Value(s, m, c.at, d + 1).at).Ok?
            && var v := Value(s, m, c.at, d + 1);
               var t := Token(s, m, v.at);
               || (t.value == RBRACE && Members(s, m, QUOTE, i, d, acc).at == t.at)
               || (t.value == COMMA && Token(s, m, t.at).Ok? && Token(s, m, t.at).value == QUOTE
                   && Members(s, m, QUOTE, i, d, acc)
                      == Members(s, m, QUOTE, Token(s, m, t.at).at, d, Insert(acc, StringLiteral(s, i).value, v.value)))
  {
    hide Value, Token, StringLiteral, Insert;
  }

  /** One member, from its opening quote to the end of its value. */
  ghost predicate MemberFound(s: seq<byte>, m: Strategy, i: nat, e: Entry, at: nat, d: nat) {
    && e.before == [] && e.after == [] && EntrySpaced(m, e) && TreeOk(m, e.tree)
    && d + 1 + TreeHeight(e.tree) <= MAX_DEPTH
    && HasAt(s, i, EntryText(e)) && at == i + |EntryText(e)|
  }

  lemma {:induction false} MemberDerived(s: seq<byte>, m: Strategy, i: nat, d: nat, acc: seq<Member>)
    returns (head: Entry)
    requires 0 < i <= |s| && d <= MAX_DEPTH && Members(s, m, QUOTE, i, d, acc).Ok? && s[i - 1] == QUOTE
    ensures StringLiteral(s, i).Ok? && Token(s, m, StringLiteral(s, i).at).Ok?
    ensures var v := Value(s, m, Token(s, m, StringLiteral(s, i).at).at, d + 1);
            v.Ok? && MemberFound(s, m, i - 1, head, v.at, d)
    decreases MAX_DEPTH + 1 - d, |s| - i, 0
  {
    hide Value, Token, HasAt, Members, TreeOk, TreeText, TreeHeight, SpaceOk, CharsOk, StringText, StringLiteral,
      MemberFound, Derived;
    MembersSplit(s, m, i, d, acc);
    var key := StringDerived(s, i - 1);
    var j := StringLiteral(s, i).at;
    var mid := TokenDerived(s, m, j);
    var k := Token(s, m, j).at;
    var late, tree := ValueDerived(s, m, k, d + 1);
    head := Entry([], key, mid, late, tree, []);
    EntryJoined(s, m, i - 1, head, Value(s, m, k, d + 1).at, d);
  }

  lemma EntryJoined(s: seq<byte>, m: Strategy, i: nat, e: Entry, at: nat, d: nat)
    requires e.before == [] && e.after == [] && CharsOk(e.key) && SpaceOk(m, e.mid)
    requires HasAt(s, i, StringText(e.key)) && HasAt(s, i + |StringText(e.key)|, e.mid)
    requires HasAt(s, i + |StringText(e.key)| + |e.mid|, [COLON])
    requires Derived(s, m, i + |StringText(e.key)| + |e.mid| + 1, e.late, e.tree, at)
    requires d + 1 + TreeHeight(e.tree) <= MAX_DEPTH
    ensures MemberFound(s, m, i, e, at, d)
  {
    hide HasAt, TreeText, TreeOk, StringText, TreeHeight, CharsOk;
    var t, key := TreeText(e.tree), StringText(e.key);
    HasJoin(s, i + |key| + |e.mid|, [COLON], e.late + t);
    HasJoin(s, i + |key|, e.mid, [COLON] + (e.late + t));
    HasJoin(s, i, key, e.mid + ([COLON] + (e.late + t)));
    assert t + [] == t && [] + (key + (e.mid + ([COLON] + (e.late + t)))) == key + (e.mid + ([COLON] + (e.late + t)));
  }

  lemma {:induction false} MembersDerived(s: seq<byte>, m: Strategy, i: nat, d: nat, acc: seq<Member>)
    returns (head: Entry, tail: seq<Entry>)
    requires 0 < i <= |s| && d <= MAX_DEPTH && Members(s, m, QUOTE, i, d, acc).Ok? && s[i - 1] == QUOTE
    ensures head.before == [] && MembersFound(s, m, i - 1, head, tail, Members(s, m, QUOTE, i, d, acc).at, d)
    decreases MAX_DEPTH + 1 - d, |s| - i, 1
  {
    hide Value, Token, HasAt, Members, TreeOk, TreeText, TreeHeight, SpaceOk, CharsOk, StringLiteral, Insert,
      MemberFound, MembersFound, EntriesText, EntriesOk, EntryListHeight;
    MembersSplit(s, m, i, d, acc);
    var end := Members(s, m, QUOTE, i, d, acc).at;
    var bare := MemberDerived(s, m, i, d, acc);
    var key := StringLiteral(s, i);
    var v := Value(s, m, Token(s, m, key.at).at, d + 1);
    var after := TokenDerived(s, m, v.at);
    var t := Token(s, m, v.at);
    head := bare.(after := after);
    if t.value == RBRACE && end == t.at {
      tail := [];
      NoEntries(m);
      EntryEnds(s, m, i - 1, bare, head, tail, v.at, d);
    } else {
      var space := TokenDerived(s, m, t.at);
      HasFirst(s, t.at + |space|, [QUOTE]);
      var next, rest := MembersDerived(s, m, t.at + |space| + 1, d, Insert(acc, key.value, v.value));
      next := WidenEntry(s, m, t.at, space, next, rest, end, d);
      tail := [next] + rest;
      EntryComma(s, m, v.at + |after|, next, rest, tail, end, d);
      EntryEnds(s, m, i - 1, bare, head, tail, v.at, d);
    }
  }

  lemma NoEntries(m: Strategy)
    ensures EntriesOk(m, []) && EntriesText([]) == [RBRACE] && EntryListHeight([]) == 0
  {
  }

  lemma EntryEnds(s: seq<byte>, m: Strategy, i: nat, bare: Entry, head: Entry, tail: seq<Entry>, at: nat, d: nat)
    requires head == bare.(after := head.after) && MemberFound(s, m, i, bare, at, d) && SpaceOk(m, head.after)
    requires HasAt(s, at, head.after) && EntriesOk(m, tail) && HasAt(s, at + |head.after|, EntriesText(tail))
    requires d + EntryListHeight(tail) <= MAX_DEPTH
    ensures head.before == [] && MembersFound(s, m, i, head, tail, at + |head.after| + |EntriesText(tail)|, d)
  {
    hide HasAt, EntriesText, TreeOk, EntriesOk, TreeHeight, EntryListHeight, CharsOk;
    EntryAfter(bare, head);
    hide EntryText;
    HasJoin(s, i, EntryText(bare), head.after);
    HasJoin(s, i, EntryText(bare) + head.after, EntriesText(tail));
  }

  lemma EntryAfter(bare: Entry, head: Entry)
    requires bare.after == [] && head == bare.(after := head.after)
    ensures EntryText(head) == EntryText(bare) + head.after
  {
    hide TreeText, StringText;
    var t, key := TreeText(bare.tree), StringText(bare.key);
    assert t + [] == t;
    var inner := [COLON] + (bare.late + t);
    assert [COLON] + (bare.late + (t + head.after)) == inner + head.after;
    assert bare.before + (key + (bare.mid + (inner + head.after)))
             == bare.before + (key + (bare.mid + inner)) + head.after;
  }

  lemma EntryComma(s: seq<byte>, m: Strategy, i: nat, next: Entry, rest: seq<Entry>, more: seq<Entry>, at: nat, d: nat)
    requires more == [next] + rest && HasAt(s, i, [COMMA]) && MembersFound(s, m, i + 1, next, rest, at, d)
    ensures EntriesOk(m, more) && HasAt(s, i, EntriesText(more)) && at == i + |EntriesText(more)|
    ensures d + EntryListHeight(more) <= MAX_DEPTH
  {
    hide HasAt, EntryText, TreeOk, TreeHeight, EntrySpaced;
    assert more[0] == next && more[1..] == rest;
    HasJoin(s, i, [COMMA], EntryText(next) + EntriesText(rest));
  }

  /* ---- whole texts ---------------------------------------------------------------------------- */

  /** Every text that parses is derived by the grammar, from a tree nested at most 200 deep. */
  lemma ParsedTextsDerive(text: seq<byte>, m: Strategy) returns (before: seq<byte>, t: Tree, after: seq<byte>)
    requires Parse(text, m).Ok?
    ensures Derives(text, m, before, t, after) && TreeHeight(t) <= MAX_DEPTH
  {
    hide Value, TreeText, TreeOk, TreeHeight, Garbage, SpaceOk, EndOk, Derived;
    ParseSplits(text, m);
    before, t := ValueDerived(text, m, 0, 0);
    var j := Value(text, m, 0, 0).at;
    after := text[j..];
    GarbageSkipped(text, m, j);
    assert text[j..|text|] == after;
    WholeDerives(text, m, before, t, after, j);
  }

  lemma WholeDerives(text: seq<byte>, m: Strategy, before: seq<byte>, t: Tree, after: seq<byte>, j: nat)
    requires j <= |text| && after == text[j..] && EndOk(m, after) && Derived(text, m, 0, before, t, j)
    ensures Derives(text, m, before, t, after)
  {
    hide TreeText, TreeOk, SpaceOk, EndOk;
    assert text == text[0..j] + text[j..];
    assert before + TreeText(t) + after == before + (TreeText(t) + after);
  }

  lemma ParseSplits(text: seq<byte>, m: Strategy)
    requires Parse(text, m).Ok?
    ensures Value(text, m, 0, 0).Ok?
    ensures var g := Garbage(text, m, Value(text, m, 0, 0).at); g.Ok? && g.at == |text|
  {
    hide Value;
  }

  ghost predicate Derivable(text: seq<byte>, m: Strategy) {
    exists before: seq<byte>, t: Tree, after: seq<byte> ::
      Derives(text, m, before, t, after) && TreeHeight(t) <= MAX_DEPTH
  }

  /**
   * The parser accepts exactly the texts of the RFC 8259 grammar that are nested at most 200 deep, and
   * with comments allowed exactly those that have comments where the grammar has white space.
   */
  lemma AcceptsExactly(text: seq<byte>, m: Strategy)
    ensures Parse(text, m).Ok? <==> Derivable(text, m)
  {
    hide Parse;
    if Parse(text, m).Ok? {
      var before, t, after := ParsedTextsDerive(text, m);
    } else if Derivable(text, m) {
      var before: seq<byte>, t: Tree, after: seq<byte> :|
        Derives(text, m, before, t, after) && TreeHeight(t) <= MAX_DEPTH;
      DerivedTextsParse(text, m, before, t, after);
    }
  }
}
