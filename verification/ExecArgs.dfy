/**
 * The exec probe's concatenation of a program's arguments, and of its environment, into a fixed
 * buffer, one `bpf_probe_read_str` at a time.
 */
module ExecArgs {
  import opened Bytes

  const MAX_TEXT_SIZE := 4096
  const MAX_NUM_ARGS := 64
  const SPACE: byte := 0x20

  /**
   * What the probe finds at one position of the argument vector: the end (or a pointer it cannot
   * read), a pointer to memory it cannot read, in which case the helper leaves the rest of the
   * buffer as `left` says, or a string.
   */
  datatype Arg = Absent | Unreadable(left: nat -> byte) | Readable(text: seq<byte>)

  /** A C string holds no NUL. */
  ghost predicate CStrings(args: nat -> Arg) {
    forall i: nat :: args(i).Readable? ==> 0 !in args(i).text
  }

  /** The strings from position `i` up to the first that is not readable, within the limit of 64. */
  function Texts(args: nat -> Arg, i: nat): (texts: seq<seq<byte>>)
    decreases MAX_NUM_ARGS - i
  {
    if i >= MAX_NUM_ARGS || !args(i).Readable? then [] else [args(i).text] + Texts(args, i + 1)
  }

  function Join(texts: seq<seq<byte>>): seq<byte> {
    if texts == [] then [] else if |texts| == 1 then texts[0] else texts[0] + [SPACE] + Join(texts[1..])
  }

  function Take(s: seq<byte>, n: nat): seq<byte> {
    if |s| <= n then s else s[..n]
  }

  /** The C string at the start of a buffer. */
  function CString(s: seq<byte>): seq<byte> {
    if s == [] || s[0] == 0 then [] else [s[0]] + CString(s[1..])
  }

  lemma {:induction false} JoinSnoc(texts: seq<seq<byte>>, last: seq<byte>)
    requires texts != []
    ensures Join(texts + [last]) == Join(texts) + [SPACE] + last
  {
    if |texts| == 1 {
      assert (texts + [last])[1..] == [last];
    } else {
      JoinSnoc(texts[1..], last);
      assert (texts + [last])[1..] == texts[1..] + [last];
    }
  }

  /** Joining more strings only appends. */
  lemma {:induction false} JoinPrefix(texts: seq<seq<byte>>, more: seq<seq<byte>>)
    requires texts != []
    ensures Join(texts) <= Join(texts + more)
    decreases |more|
  {
    if more == [] {
      assert texts + more == texts;
    } else {
      JoinSnoc(texts, more[0]);
      JoinPrefix(texts + [more[0]], more[1..]);
      assert texts + [more[0]] + more[1..] == texts + more;
    }
  }

  lemma {:induction false} JoinNoNul(texts: seq<seq<byte>>)
    requires NulFree(texts)
    ensures 0 !in Join(texts)
  {
    if |texts| == 1 {
      assert 0 !in texts[0];
    } else if |texts| > 1 {
      JoinNoNul(texts[1..]);
      assert 0 !in texts[0];
    }
  }

  lemma {:induction false} CStringIs(s: seq<byte>, n: nat)
    requires n < |s| && s[n] == 0 && 0 !in s[..n]
    ensures CString(s) == s[..n]
  {
    if n > 0 {
      assert s[..n][0] != 0;
      assert s[1..][..n - 1] == s[..n][1..];
      CStringIs(s[1..], n - 1);
    }
  }

  lemma TextsNext(args: nat -> Arg, i: nat, done: seq<seq<byte>>)
    ensures i >= MAX_NUM_ARGS || !args(i).Readable? ==> done + Texts(args, i) == done
    ensures i < MAX_NUM_ARGS && args(i).Readable? ==>
              done + Texts(args, i) == done + [args(i).text] + Texts(args, i + 1)
  {
  }

  ghost predicate NulFree(texts: seq<seq<byte>>) {
    forall k :: 0 <= k < |texts| ==> 0 !in texts[k]
  }

  lemma {:induction false} TextsSplit(args: nat -> Arg, i: nat)
    requires CStrings(args)
    ensures NulFree(Texts(args, i))
    decreases MAX_NUM_ARGS - i
  {
    if i < MAX_NUM_ARGS && args(i).Readable? {
      TextsSplit(args, i + 1);
    }
  }

  /** `bpf_probe_read_str` into the buffer from `pos` on: copies up to the room, always with a NUL. */
  method ReadStr(buf: array<byte>, pos: nat, arg: Arg) returns (len: int)
    requires buf.Length == MAX_TEXT_SIZE && pos < MAX_TEXT_SIZE && !arg.Absent?
    modifies buf
    ensures forall k :: 0 <= k < pos ==> buf[k] == old(buf[k])
    ensures arg.Unreadable? ==> len < 0 && forall k :: pos <= k < MAX_TEXT_SIZE ==> buf[k] == arg.left(k)
    ensures arg.Readable? ==>
              && len == (if |arg.text| < MAX_TEXT_SIZE - pos then |arg.text| + 1 else MAX_TEXT_SIZE - pos)
              && buf[pos + len - 1] == 0
              && buf[pos..pos + len - 1] == arg.text[..len - 1]
  {
    match arg
    case Unreadable(left) =>
      for k := pos to MAX_TEXT_SIZE
        invariant forall j :: 0 <= j < pos ==> buf[j] == old(buf[j])
        invariant forall j :: pos <= j < k ==> buf[j] == left(j)
      {
        buf[k] := left(k);
      }
      return -1;
    case Readable(text) =>
      var n := if |text| < MAX_TEXT_SIZE - pos then |text| else MAX_TEXT_SIZE - pos - 1;
      for k := 0 to n
        invariant forall j :: 0 <= j < pos ==> buf[j] == old(buf[j])
        invariant forall j :: 0 <= j < k ==> buf[pos + j] == text[j]
      {
        buf[pos + k] := text[k];
      }
      buf[pos + n] := 0;
      return n + 1;
  }

  lemma Joined(done: seq<seq<byte>>, text: seq<byte>, before: seq<byte>, pos: nat)
    requires pos == |before|
    requires done == [] ==> pos == 0
    requires done != [] ==> pos == |Join(done)| + 1 && before[..pos - 1] == Join(done) && before[pos - 1] == SPACE
    ensures Join(done + [text]) == before + text
  {
    if done == [] {
      assert done + [text] == [text];
    } else {
      JoinSnoc(done, text);
      assert before == Join(done) + [SPACE];
    }
  }

  /** A buffer that the last string filled to its end. */
  ghost predicate Full(s: seq<byte>, done: seq<seq<byte>>) {
    && |s| == MAX_TEXT_SIZE && s[MAX_TEXT_SIZE - 1] == 0 && done != []
    && |Join(done)| >= MAX_TEXT_SIZE - 1 && s[..MAX_TEXT_SIZE - 1] == Join(done)[..MAX_TEXT_SIZE - 1]
  }

  /** A buffer filled to its end holds the first 4095 bytes of all the strings. */
  lemma Truncated(s: seq<byte>, next: seq<seq<byte>>, more: seq<seq<byte>>)
    requires Full(s, next)
    requires NulFree(next + more)
    ensures |s| == MAX_TEXT_SIZE && s[MAX_TEXT_SIZE - 1 := 0] == s
    ensures CString(s) == Take(Join(next + more), MAX_TEXT_SIZE - 1)
  {
    JoinPrefix(next, more);
    JoinNoNul(next + more);
    hide Join, CString;
    assert Join(next)[..MAX_TEXT_SIZE - 1] == Join(next + more)[..MAX_TEXT_SIZE - 1];
    CStringIs(s, MAX_TEXT_SIZE - 1);
  }

  /** A buffer with room to spare holds all of them. */
  lemma Complete(s: seq<byte>, all: seq<seq<byte>>)
    requires |s| == MAX_TEXT_SIZE && |Join(all)| < MAX_TEXT_SIZE - 1
    requires s[..|Join(all)|] == Join(all) && s[|Join(all)|] == 0
    requires NulFree(all)
    ensures CString(s) == Take(Join(all), MAX_TEXT_SIZE - 1)
  {
    JoinNoNul(all);
    CStringIs(s, |Join(all)|);
  }

  /** Between two reads: the strings so far, joined, and one more space, end at `pos`. */
  ghost predicate Joining(s: seq<byte>, done: seq<seq<byte>>, pos: nat) {
    && |s| == MAX_TEXT_SIZE && pos < MAX_TEXT_SIZE
    && if done == [] then pos == 0
       else pos == |Join(done)| + 1 && s[..pos - 1] == Join(done) && s[pos - 1] == SPACE
  }

  lemma ReadMore(was: seq<byte>, mid: seq<byte>, done: seq<seq<byte>>, pos: nat, text: seq<byte>, len: nat)
    requires Joining(was, done, pos) && |mid| == MAX_TEXT_SIZE && mid[..pos] == was[..pos]
    requires len == if |text| < MAX_TEXT_SIZE - pos then |text| + 1 else MAX_TEXT_SIZE - pos
    requires mid[pos + len - 1] == 0 && mid[pos..pos + len - 1] == text[..len - 1]
    ensures pos + len < MAX_TEXT_SIZE ==> Joining(mid[pos + len - 1 := SPACE], done + [text], pos + len)
    ensures pos + len >= MAX_TEXT_SIZE ==>
              && pos + len == MAX_TEXT_SIZE && |Join(done + [text])| >= MAX_TEXT_SIZE - 1
              && mid[..MAX_TEXT_SIZE - 1] == Join(done + [text])[..MAX_TEXT_SIZE - 1]
  {
    Joined(done, text, was[..pos], pos);
    hide Join;
    assert mid[..pos + len - 1] == mid[..pos] + mid[pos..pos + len - 1];
    assert Join(done + [text])[..pos + len - 1] == was[..pos] + text[..len - 1];
  }

  lemma ReadNothing(was: seq<byte>, mid: seq<byte>, done: seq<seq<byte>>, pos: nat)
    requires Joining(was, done, pos) && |mid| == MAX_TEXT_SIZE && mid[..pos] == was[..pos]
    ensures Joining(mid, done, pos)
  {
    if done != [] {
      assert mid[..pos - 1] == mid[..pos][..pos - 1] && mid[pos - 1] == mid[..pos][pos - 1];
    }
  }

  lemma Closed(s: seq<byte>, done: seq<seq<byte>>, pos: nat)
    requires Joining(s, done, pos) && done != []
    requires NulFree(done)
    ensures pos > 0 && CString(s[pos - 1 := 0]) == Take(Join(done), MAX_TEXT_SIZE - 1)
  {
    Complete(s[pos - 1 := 0], done);
  }

  ghost predicate AsLeft(s: seq<byte>, left: nat -> byte, from: nat) {
    forall k :: from <= k < |s| ==> s[k] == left(k)
  }

  function Content(buf: array<byte>): (s: seq<byte>)
    reads buf
    ensures |s| == buf.Length
  {
    buf[..]
  }

  /** Right after a read that ended at `end`: a space in place of the last NUL, or a full buffer. */
  ghost predicate ReadUpTo(s: seq<byte>, done: seq<seq<byte>>, end: nat) {
    && |s| == MAX_TEXT_SIZE && 0 < end <= MAX_TEXT_SIZE
    && if end < MAX_TEXT_SIZE then Joining(s[end - 1 := SPACE], done, end) else Full(s, done)
  }

  lemma NextRead(s: seq<byte>, done: seq<seq<byte>>, end: nat)
    requires ReadUpTo(s, done, end)
    ensures |s| == MAX_TEXT_SIZE && 0 < end <= MAX_TEXT_SIZE
    ensures if end < MAX_TEXT_SIZE then Joining(s[end - 1 := SPACE], done, end) else Full(s, done)
  {
  }

  /** One read of the loop. */
  method ReadArg(buf: array<byte>, pos: nat, arg: Arg, ghost done: seq<seq<byte>>) returns (len: int)
    requires buf.Length == MAX_TEXT_SIZE && Joining(Content(buf), done, pos) && !arg.Absent?
    modifies buf
    ensures arg.Unreadable? <==> len < 0
    ensures arg.Unreadable? ==> Joining(Content(buf), done, pos) && AsLeft(Content(buf), arg.left, pos)
    ensures arg.Readable? ==>
              && 0 < len <= MAX_TEXT_SIZE - pos
              && ReadUpTo(Content(buf), done + [arg.text], pos + len)
  {
    ghost var was := Content(buf);
    len := ReadStr(buf, pos, arg);
    assert Content(buf)[..pos] == was[..pos];
    if arg.Readable? {
      ReadMore(was, Content(buf), done, pos, arg.text, len);
    } else {
      ReadNothing(was, Content(buf), done, pos);
    }
  }

  method Overwrite(buf: array<byte>, k: nat, b: byte)
    requires k < buf.Length
    modifies buf
    ensures Content(buf) == old(Content(buf))[k := b]
  {
    buf[k] := b;
  }

  /** What one of the loops leaves in a buffer that held `before`. */
  ghost predicate Filled(before: seq<byte>, after: seq<byte>, args: nat -> Arg) {
    && (Texts(args, 0) != [] ==> CString(after) == Take(Join(Texts(args, 0)), MAX_TEXT_SIZE - 1))
    && (Texts(args, 0) == [] && args(0).Absent? ==> after == before)
    && (Texts(args, 0) == [] && args(0).Unreadable? ==> AsLeft(after, args(0).left, 0))
  }

  lemma FilledText(before: seq<byte>, after: seq<byte>, args: nat -> Arg)
    requires Texts(args, 0) != [] && CString(after) == Take(Join(Texts(args, 0)), MAX_TEXT_SIZE - 1)
    ensures Filled(before, after, args)
  {
  }

  /** After the loop: a NUL takes the place of the last space, if there is one. */
  method Terminate(buf: array<byte>, pos: nat, args: nat -> Arg, ghost before: seq<byte>)
    requires buf.Length == MAX_TEXT_SIZE && CStrings(args)
    requires Joining(Content(buf), Texts(args, 0), pos)
    requires pos == 0 && args(0).Absent? ==> Content(buf) == before
    requires pos == 0 && args(0).Unreadable? ==> AsLeft(Content(buf), args(0).left, 0)
    modifies buf
    ensures Filled(before, Content(buf), args)
  {
    if pos > 0 {
      TextsSplit(args, 0);
      Closed(Content(buf), Texts(args, 0), pos);
      buf[pos - 1] := 0;
      assert Content(buf) == old(Content(buf))[pos - 1 := 0];
    }
  }

  /** One of the two loops of `handle_execve_cmd`. */
  method Concatenate(buf: array<byte>, args: nat -> Arg)
    requires buf.Length == MAX_TEXT_SIZE && CStrings(args)
    modifies buf
    ensures Filled(old(Content(buf)), Content(buf), args)
  {
    TextsSplit(args, 0);
    var pos := 0;
    ghost var done: seq<seq<byte>> := [];
    ghost var all := Texts(args, 0);
    var i := 0;
    assert Joining(Content(buf), done, pos);
    TextsNext(args, 0, []);
    assert [] + all == all;
    hide Content, ReadUpTo, Texts, NulFree, Join, CString, Take, CStrings, Joining, Full, AsLeft, Filled;
    while i < MAX_NUM_ARGS
      invariant i <= MAX_NUM_ARGS && |done| == i && all == done + Texts(args, i)
      invariant i == 0 <==> pos == 0
      invariant i == 0 ==> Content(buf) == old(Content(buf))
      invariant pos < MAX_TEXT_SIZE && Joining(Content(buf), done, pos)
    {
      var arg := args(i);
      if arg.Absent? {
        break;
      }
      var len := ReadArg(buf, pos, arg, done);
      if len < 0 {
        break;
      }
      TextsNext(args, i, done);
      pos := pos + len;
      NextRead(Content(buf), done + [arg.text], pos);
      if pos >= MAX_TEXT_SIZE {
        Truncated(Content(buf), done + [arg.text], Texts(args, i + 1));
        Overwrite(buf, pos - 1, 0);
        FilledText(old(Content(buf)), Content(buf), args);
        return;
      }
      Overwrite(buf, pos - 1, SPACE);
      done := done + [arg.text];
      i := i + 1;
    }
    TextsNext(args, i, done);
    Terminate(buf, pos, args, old(Content(buf)));
  }

  /** `handle_execve_cmd`, as far as the two text buffers are concerned. */
  method HandleExecve(argv: array<byte>, envp: array<byte>, args: nat -> Arg, env: nat -> Arg)
    requires argv != envp && argv.Length == MAX_TEXT_SIZE && envp.Length == MAX_TEXT_SIZE
    requires CStrings(args) && CStrings(env)
    modifies argv, envp
    ensures Filled(old(Content(argv)), Content(argv), args)
    ensures Filled(old(Content(envp)), Content(envp), env)
  {
    Concatenate(argv, args);
    Concatenate(envp, env);
  }

  /* ---- what the joined text still tells ------------------------------------------------------- */

  /** A byte in front of some words: a space opens a new word, another joins the first. */
  function Onto(b: byte, words: seq<seq<byte>>): seq<seq<byte>>
    requires words != []
  {
    if b == SPACE then [[]] + words else [[b] + words[0]] + words[1..]
  }

  /** The words between the spaces of a text. */
  function Split(s: seq<byte>): (words: seq<seq<byte>>)
    ensures words != []
  {
    if s == [] then [[]] else Onto(s[0], Split(s[1..]))
  }

  lemma {:induction false} SplitWord(a: seq<byte>)
    requires SPACE !in a
    ensures Split(a) == [a]
  {
    if a != [] {
      SplitWord(a[1..]);
      assert [a[0]] + a[1..] == a;
    }
  }

  lemma {:induction false} SplitHasNoSpace(s: seq<byte>)
    ensures forall k :: 0 <= k < |Split(s)| ==> SPACE !in Split(s)[k]
  {
    if s != [] {
      SplitHasNoSpace(s[1..]);
    }
  }

  /** The words of a list of strings: each split at its spaces. */
  function Words(texts: seq<seq<byte>>): seq<seq<byte>> {
    if texts == [] then [] else Split(texts[0]) + Words(texts[1..])
  }

  lemma SplitHead(b: byte, s: seq<byte>)
    ensures Split([b] + s) == Onto(b, Split(s))
  {
    assert ([b] + s)[1..] == s;
  }

  lemma OntoConcat(b: byte, words: seq<seq<byte>>, more: seq<seq<byte>>)
    requires words != []
    ensures Onto(b, words + more) == Onto(b, words) + more
  {
    assert (words + more)[1..] == words[1..] + more;
  }

  lemma {:induction false} SplitConcat(a: seq<byte>, b: seq<byte>)
    ensures Split(a + [SPACE] + b) == Split(a) + Split(b)
  {
    if a == [] {
      SplitHead(SPACE, b);
      assert a + [SPACE] + b == [SPACE] + b;
    } else {
      hide Split, Onto;
      SplitConcat(a[1..], b);
      SplitHead(a[0], a[1..]);
      SplitHead(a[0], a[1..] + [SPACE] + b);
      OntoConcat(a[0], Split(a[1..]), Split(b));
      assert [a[0]] + a[1..] == a && [a[0]] + (a[1..] + [SPACE] + b) == a + [SPACE] + b;
    }
  }

  /** The joined text has the words of its strings. */
  lemma {:induction false} SplitJoin(texts: seq<seq<byte>>)
    requires texts != []
    ensures Split(Join(texts)) == Words(texts)
  {
    if |texts| == 1 {
      assert Words(texts) == Split(texts[0]) + [];
    } else {
      SplitJoin(texts[1..]);
      SplitConcat(texts[0], Join(texts[1..]));
    }
  }

  lemma {:induction false} JoinSplit(s: seq<byte>)
    ensures Join(Split(s)) == s
  {
    if s != [] {
      JoinSplit(s[1..]);
      var rest := Split(s[1..]);
      if s[0] == SPACE {
        assert ([[]] + rest)[1..] == rest;
        assert [] + [SPACE] + Join(rest) == s;
      } else {
        JoinHead(s[0], rest);
      }
    }
  }

  lemma JoinHead(b: byte, words: seq<seq<byte>>)
    requires words != []
    ensures Join([[b] + words[0]] + words[1..]) == [b] + Join(words)
  {
    var more := [[b] + words[0]] + words[1..];
    if |words| > 1 {
      assert more[1..] == words[1..];
      assert [b] + words[0] + [SPACE] + Join(words[1..]) == [b] + (words[0] + [SPACE] + Join(words[1..]));
    }
  }

  /** Two lists of strings join to the same text exactly when they have the same words. */
  lemma SameTextExactly(a: seq<seq<byte>>, b: seq<seq<byte>>)
    requires a != [] && b != []
    ensures Join(a) == Join(b) <==> Words(a) == Words(b)
  {
    SplitJoin(a);
    SplitJoin(b);
    JoinSplit(Join(a));
    JoinSplit(Join(b));
  }

  ghost predicate SpaceFree(texts: seq<seq<byte>>) {
    forall k :: 0 <= k < |texts| ==> SPACE !in texts[k]
  }

  lemma {:induction false} WordsOfSpaceFree(texts: seq<seq<byte>>)
    requires SpaceFree(texts)
    ensures Words(texts) == texts
  {
    if texts != [] {
      SplitWord(texts[0]);
      WordsOfSpaceFree(texts[1..]);
      assert [texts[0]] + texts[1..] == texts;
    }
  }

  /** Splitting the text gives the arguments back exactly when none of them contains a space. */
  lemma JoinReversible(texts: seq<seq<byte>>)
    requires texts != []
    ensures Split(Join(texts)) == texts <==> SpaceFree(texts)
  {
    SplitHasNoSpace(Join(texts));
    SplitJoin(texts);
    if SpaceFree(texts) {
      WordsOfSpaceFree(texts);
    }
  }

  /** Among lists without spaces the text tells the arguments apart. */
  lemma SpaceFreeApart(a: seq<seq<byte>>, b: seq<seq<byte>>)
    requires a != [] && b != [] && SpaceFree(a) && SpaceFree(b) && Join(a) == Join(b)
    ensures a == b
  {
    JoinReversible(a);
    JoinReversible(b);
  }

  /** The text comes from no other list of arguments. */
  ghost predicate OnlyPreimage(texts: seq<seq<byte>>) {
    forall other: seq<seq<byte>> :: other != [] && Join(other) == Join(texts) ==> other == texts
  }

  /** Among all lists the text determines the arguments exactly when it has no space at all: a single word. */
  lemma DeterminedExactly(texts: seq<seq<byte>>)
    requires texts != []
    ensures OnlyPreimage(texts) <==> SPACE !in Join(texts)
  {
    var s := Join(texts);
    JoinSplit(s);
    if SPACE in s {
      SplitLonger(s);
      assert Join([s]) == s && Join(Split(s)) == s;
      assert [s] != Split(s);
    } else {
      forall other: seq<seq<byte>> | other != [] && Join(other) == s ensures other == [s] {
        OneWord(other);
      }
      OneWord(texts);
    }
  }

  lemma {:induction false} SplitLonger(s: seq<byte>)
    requires SPACE in s
    ensures |Split(s)| > 1
  {
    if s[0] != SPACE {
      SplitLonger(s[1..]);
    }
  }

  lemma OneWord(texts: seq<seq<byte>>)
    requires texts != [] && SPACE !in Join(texts)
    ensures texts == [Join(texts)]
  {
    JoinHasSpace(texts);
  }

  lemma JoinHasSpace(texts: seq<seq<byte>>)
    ensures |texts| > 1 ==> SPACE in Join(texts)
  {
    if |texts| > 1 {
      assert Join(texts)[|texts[0]|] == SPACE;
    }
  }

  /**
   * What the buffer tells: two argument lists leave the same text in it exactly when they have the
   * same words, or both are too long for it and agree in the first 4095 bytes.
   */
  lemma SameBufferExactly(a: seq<seq<byte>>, b: seq<seq<byte>>)
    requires a != [] && b != []
    ensures Take(Join(a), MAX_TEXT_SIZE - 1) == Take(Join(b), MAX_TEXT_SIZE - 1) <==>
              || Words(a) == Words(b)
              || (|Join(a)| >= MAX_TEXT_SIZE - 1 && |Join(b)| >= MAX_TEXT_SIZE - 1
                  && Join(a)[..MAX_TEXT_SIZE - 1] == Join(b)[..MAX_TEXT_SIZE - 1])
  {
    SameTextExactly(a, b);
    hide Join, Words;
    var s, t := Join(a), Join(b);
    assert |s| == MAX_TEXT_SIZE - 1 ==> s[..MAX_TEXT_SIZE - 1] == s;
    assert |t| == MAX_TEXT_SIZE - 1 ==> t[..MAX_TEXT_SIZE - 1] == t;
  }

  /** No other list of C strings leaves the same text in the buffer with other words. */
  ghost predicate BufferTellsWords(a: seq<seq<byte>>) {
    forall b: seq<seq<byte>> :: b != [] && NulFree(b) && SameBuffer(a, b) ==> Words(b) == Words(a)
  }

  predicate SameBuffer(a: seq<seq<byte>>, b: seq<seq<byte>>) {
    Take(Join(a), MAX_TEXT_SIZE - 1) == Take(Join(b), MAX_TEXT_SIZE - 1)
  }

  /** The buffer tells the words of the arguments exactly when their text is shorter than 4095 bytes. */
  lemma WordsToldExactly(a: seq<seq<byte>>)
    requires a != [] && NulFree(a)
    ensures BufferTellsWords(a) <==> |Join(a)| < MAX_TEXT_SIZE - 1
  {
    var s := Join(a);
    if |s| < MAX_TEXT_SIZE - 1 {
      forall b: seq<seq<byte>> | b != [] && SameBuffer(a, b) ensures Words(b) == Words(a) {
        SameBufferExactly(a, b);
      }
    } else {
      var other := [s + [0x61]];
      JoinNoNul(a);
      assert NulFree(other) && Join(other) == s + [0x61];
      assert (s + [0x61])[..MAX_TEXT_SIZE - 1] == s[..MAX_TEXT_SIZE - 1];
      assert SameBuffer(a, other);
      SameTextExactly(a, other);
    }
  }
}
