/** Several printed documents, one a line, read back by `Json::parse_multi`. */
module JsonStream {
  import opened Bytes
  import opened JsonValues
  import opened JsonText
  import opened JsonGrammar
  import opened JsonRoundTrip
  import opened JsonParsing

  function Lines(values: seq<Json>): seq<byte>
    requires forall k :: 0 <= k < |values| ==> Printable(values[k])
  {
    if values == [] then [] else Dump(values[0]) + ([NEWLINE] + Lines(values[1..]))
  }

  lemma GarbageLine(s: seq<byte>, m: Strategy, j: nat)
    requires j < |s| && s[j] == NEWLINE && (j + 1 == |s| || StartsToken(s[j + 1]))
    ensures Garbage(s, m, j) == Ok((), j + 1)
  {
    assert SkipSpace(s, j + 1) == j + 1;
    assert SkipSpace(s, j) == j + 1;
    assert Comment(s, j + 1) == Ok(false, j + 1);
  }

  /** What reading printed documents from position `at` on yields: all of them, or those up to the
      first that is nested too deep, with null in its place and where the last good one ended. */
  function LinesOutcome(values: seq<Json>, at: nat, stop: nat): Documents
    requires forall k :: 0 <= k < |values| ==> Printable(values[k])
  {
    if values == [] then Documents([], stop, NoFailure)
    else if Height(values[0]) > MAX_DEPTH then Documents([Null], stop, Failure(TooDeep))
    else
      var next := at + |Dump(values[0])| + 1;
      Behind([Reread(values[0])], LinesOutcome(values[1..], next, next))
  }

  lemma {:induction false} LinesRead(s: seq<byte>, m: Strategy, i: nat, stop: nat, values: seq<Json>)
    requires forall k :: 0 <= k < |values| ==> Printable(values[k]) && WellFormed(values[k])
    requires HasAt(s, i, Lines(values)) && i + |Lines(values)| == |s|
    ensures Multi(s, m, i, stop) == LinesOutcome(values, i, stop)
    decreases |values|
  {
    hide Value, Garbage, Dump, HasAt, Height, WellFormed, Printable, Reread, StartsToken, EndsNumber, FailureValue;
    if values != [] {
      var v, rest := values[0], values[1..];
      var j := i + |Dump(v)|;
      HasParts(s, i, Dump(v), [NEWLINE] + Lines(rest));
      HasParts(s, j, [NEWLINE], Lines(rest));
      HasFirst(s, j, [NEWLINE]);
      NewlineEnds();
      ValueRoundTrip(s, m, i, 0, v);
      DumpStarts(v);
      HasFirst(s, i, Dump(v));
      if Height(v) > MAX_DEPTH {
        DeepStandIn(s, m, i, v);
      } else {
        NextLine(s, j + 1, rest);
        GarbageLine(s, m, j);
        LinesRead(s, m, j + 1, j + 1, rest);
      }
    }
  }

  lemma DeepStandIn(s: seq<byte>, m: Strategy, i: nat, v: Json)
    requires Printable(v) && Height(v) > 0 && HasAt(s, i, Dump(v))
    ensures i <= |s| && FailureValue(s, m, i, 0) == Null
  {
    DumpStarts(v);
    HasFirst(s, i, Dump(v));
    TokenHere(s, m, i);
    hide Token;
  }

  lemma NewlineEnds()
    ensures EndsNumber(NEWLINE)
  {
  }

  lemma NextLine(s: seq<byte>, i: nat, rest: seq<Json>)
    requires forall k :: 0 <= k < |rest| ==> Printable(rest[k])
    requires HasAt(s, i, Lines(rest)) && i + |Lines(rest)| == |s|
    ensures i == |s| || StartsToken(s[i])
  {
    if rest != [] {
      HasParts(s, i, Dump(rest[0]), [NEWLINE] + Lines(rest[1..]));
      DumpStarts(rest[0]);
      HasFirst(s, i, Dump(rest[0]));
    }
  }

  /** Reading any number of printed documents, one a line, yields exactly that, under either strategy. */
  lemma MultiReadsLines(values: seq<Json>, m: Strategy)
    requires forall k :: 0 <= k < |values| ==> Printable(values[k]) && WellFormed(values[k])
    ensures Multi(Lines(values), m, 0, 0) == LinesOutcome(values, 0, 0)
  {
    var s := Lines(values);
    assert s[0..|s|] == s;
    LinesRead(s, m, 0, 0, values);
  }

  lemma {:induction false} AllLines(values: seq<Json>, at: nat, stop: nat)
    requires forall k :: 0 <= k < |values| ==> Printable(values[k]) && Height(values[k]) <= MAX_DEPTH
    ensures LinesOutcome(values, at, stop)
            == Documents(RereadItems(values), if values == [] then stop else at + |Lines(values)|, NoFailure)
    decreases |values|
  {
    hide Dump, Height, Printable, Reread;
    if values != [] {
      AllLines(values[1..], at + |Dump(values[0])| + 1, at + |Dump(values[0])| + 1);
    }
  }

  /** If none is nested too deep all are there, equal to what was printed, and the text is read to its end. */
  lemma MultiReadsAllLines(values: seq<Json>, m: Strategy)
    requires forall k :: 0 <= k < |values| ==>
               Printable(values[k]) && WellFormed(values[k]) && Height(values[k]) <= MAX_DEPTH
    ensures Multi(Lines(values), m, 0, 0) == Documents(RereadItems(values), |Lines(values)|, NoFailure)
    ensures EqualItems(RereadItems(values), values)
  {
    MultiReadsLines(values, m);
    AllLines(values, 0, 0);
    RereadItemsEqual(values);
  }
}
