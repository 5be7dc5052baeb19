/**
 * The change-detection unit: a baseline of measurements, compared with each later round, reporting
 * every change as a name with its old and its new value and moving the baseline along.
 */
module SaveCheck {
  import opened Bytes
  import opened Options

  const RESPONSE_OK := 0
  const RESPONSE_REPORT := 1
  const ENOMEM := 12

  type word = n: int | 0 <= n < 0x1_0000_0000_0000_0000

  /** A collected value: a number, the bytes of a memory region, or a kind the unit does not know. */
  datatype Value = Number(n: word) | Region(bytes: seq<byte>) | Other

  datatype Item = Item(name: Option<string>, value: Value)

  datatype Report = Report(name: string, was: word, now: word)

  /** Which allocations of one round succeed: the table of reports, the report of the k-th change, the text. */
  datatype Memory = Memory(table: bool, report: nat -> bool, text: bool)

  /** `hash` stands for the digest of a region folded to one word. */
  function Measure(v: Value, hash: seq<byte> -> word): word {
    match v
    case Number(n) => n
    case Region(bytes) => hash(bytes)
    case Other => 0
  }

  /** The named items, in order; the others are skipped. */
  function Named(items: seq<Item>): (named: seq<Item>)
    ensures forall k :: 0 <= k < |named| ==> named[k].name.Some?
  {
    if items == [] then [] else (if items[0].name.Some? then [items[0]] else []) + Named(items[1..])
  }

  function Names(named: seq<Item>): (names: seq<string>)
    requires forall k :: 0 <= k < |named| ==> named[k].name.Some?
    ensures |names| == |named| && forall k :: 0 <= k < |named| ==> names[k] == named[k].name.value
  {
    if named == [] then [] else [named[0].name.value] + Names(named[1..])
  }

  function Measures(named: seq<Item>, hash: seq<byte> -> word): (values: seq<word>)
    ensures |values| == |named| && forall k :: 0 <= k < |named| ==> values[k] == Measure(named[k].value, hash)
  {
    if named == [] then [] else [Measure(named[0].value, hash)] + Measures(named[1..], hash)
  }

  /* ---- what one round does ------------------------------------------------------------------ */

  /** The comparison from item `k` on: the baseline after it, whether every report was allocated, the reports. */
  function Compare(base: seq<word>, names: seq<string>, now: seq<word>, k: nat, found: seq<Report>,
                   report: nat -> bool): (r: (seq<word>, bool, seq<Report>))
    requires k <= |now| == |names| && |now| <= |base|
    ensures |r.0| == |base|
    decreases |now| - k
  {
    if k == |now| then (base, true, found)
    else if now[k] == base[k] then Compare(base, names, now, k + 1, found, report)
    else if !report(|found|) then (base, false, found)
    else Compare(base[k := now[k]], names, now, k + 1, found + [Report(names[k], base[k], now[k])], report)
  }

  /** One round of `analyze_save_check_normal`: the new baseline, the answer, and what is reported. */
  function Round(base: seq<word>, names: seq<string>, now: seq<word>, memory: Memory): (seq<word>, int, seq<Report>)
    requires |now| == |names| && |now| <= |base|
  {
    if !memory.table then (base, -ENOMEM, [])
    else
      var (next, complete, found) := Compare(base, names, now, 0, [], memory.report);
      if !complete then (next, -ENOMEM, [])
      else if found == [] then (next, RESPONSE_OK, [])
      else if !memory.text then (next, -ENOMEM, [])
      else (next, RESPONSE_REPORT, found)
  }

  /* ---- the unit ------------------------------------------------------------------------------- */

  class Checker {
    var data: array<word>
    var initTag: bool

    constructor ()
      ensures !initTag && fresh(data)
    {
      data := new word[0];
      initTag := false;
    }

    method CountNamed(items: seq<Item>) returns (n: nat)
      ensures n == |Named(items)|
    {
      n := 0;
      assert items[0..] == items;
      for i := 0 to |items|
        invariant n + |Named(items[i..])| == |Named(items)|
      {
        assert items[i..][1..] == items[i + 1..];
        if items[i].name.None? {
          continue;
        }
        n := n + 1;
      }
      assert items[|items|..] == [];
    }

    /** One measurement is put into its slot; an unknown kind leaves the slot as it is. */
    method Store(base: array<word>, index: nat, value: Value, hash: seq<byte> -> word)
      requires index < base.Length
      modifies base
      ensures base[index] == if value.Other? then old(base[index]) else Measure(value, hash)
      ensures forall k :: 0 <= k < base.Length && k != index ==> base[k] == old(base[k])
    {
      match value {
        case Number(v) => base[index] := v;
        case Region(bytes) => base[index] := hash(bytes);
        case Other =>
      }
    }

    /** `analyze_save_check_init`; `memory` says whether the baseline can be allocated. */
    method Initialise(items: seq<Item>, hash: seq<byte> -> word, memory: bool) returns (ret: int)
      modifies this
      ensures !memory ==> ret == -ENOMEM && data == old(data) && initTag == old(initTag)
      ensures memory ==> ret == RESPONSE_OK && initTag && fresh(data) && data.Length == |Named(items)|
      ensures memory ==> forall k :: 0 <= k < data.Length && !Named(items)[k].value.Other? ==>
                           data[k] == Measure(Named(items)[k].value, hash)
    {
      var n := CountNamed(items);
      if !memory {
        return -ENOMEM;
      }
      var base := new word[n];
      var index := 0;
      ghost var named := Named(items);
      assert items[0..] == items && named[0..] == named;
      for i := 0 to |items|
        invariant index <= n && named[index..] == Named(items[i..])
        invariant forall k :: 0 <= k < index && !named[k].value.Other? ==> base[k] == Measure(named[k].value, hash)
      {
        assert items[i..][1..] == items[i + 1..];
        if items[i].name.None? {
          continue;
        }
        assert named[index..][0] == items[i] && named[index..][1..] == named[index + 1..];
        Store(base, index, items[i].value, hash);
        index := index + 1;
      }
      data := base;
      initTag := true;
      return RESPONSE_OK;
    }

    /** `analyze_save_check_normal`. */
    method Normal(items: seq<Item>, hash: seq<byte> -> word, memory: Memory) returns (ret: int, reports: seq<Report>)
      requires |Named(items)| <= data.Length
      modifies data
      ensures (data[..], ret, reports)
              == Round(old(data[..]), Names(Named(items)), Measures(Named(items), hash), memory)
    {
      ghost var named := Named(items);
      ghost var names, now := Names(named), Measures(named, hash);
      reports := [];
      var n := CountNamed(items);
      if !memory.table {
        return -ENOMEM, [];
      }
      ret := RESPONSE_OK;
      var index := 0;
      var found: seq<Report> := [];
      ghost var all := Compare(data[..], names, now, 0, [], memory.report);
      assert items[0..] == items && named[0..] == named;
      for i := 0 to |items|
        invariant index <= n && named[index..] == Named(items[i..])
        invariant ret == (if found == [] then RESPONSE_OK else RESPONSE_REPORT) && reports == []
        invariant all == Compare(data[..], names, now, index, found, memory.report)
      {
        assert items[i..][1..] == items[i + 1..];
        if items[i].name.None? {
          continue;
        }
        assert named[index..][0] == items[i] && named[index..][1..] == named[index + 1..];
        var value: word;
        match items[i].value {
          case Number(v) => value := v;
          case Region(bytes) => value := hash(bytes);
          case Other => value := 0;
        }
        assert value == now[index];
        if value != data[index] {
          if !memory.report(|found|) {
            return -ENOMEM, [];
          }
          ghost var before := data[..];
          found := found + [Report(items[i].name.value, data[index], value)];
          ret := RESPONSE_REPORT;
          data[index] := value;
          assert data[..] == before[index := value];
        }
        index := index + 1;
      }
      if ret == RESPONSE_REPORT {
        if !memory.text {
          return -ENOMEM, [];
        }
        reports := found;
      }
    }

    /** `analyze_save_check`. */
    method Analyze(items: seq<Item>, hash: seq<byte> -> word, memory: Memory) returns (ret: int, reports: seq<Report>)
      requires initTag ==> |Named(items)| <= data.Length
      modifies this, data
      ensures old(initTag) ==>
                && initTag && data == old(data)
                && (data[..], ret, reports)
                   == Round(old(data[..]), Names(Named(items)), Measures(Named(items), hash), memory)
      ensures !old(initTag) && memory.table ==>
                && ret == RESPONSE_OK && reports == [] && initTag && data.Length == |Named(items)|
                && forall k :: 0 <= k < data.Length && !Named(items)[k].value.Other? ==>
                     data[k] == Measures(Named(items), hash)[k]
      ensures !old(initTag) && !memory.table ==> ret == -ENOMEM && reports == [] && !initTag
    {
      if initTag {
        ret, reports := Normal(items, hash, memory);
      } else {
        ret := Initialise(items, hash, memory.table);
        reports := [];
      }
    }
  }

  /* ---- what the reports say ------------------------------------------------------------------- */

  /**
   * A sequence of reports can lead a reader from some known values to others: each report is of an
   * item with its name, gives that item's present value as the old one, and changes it.
   */
  ghost predicate Tells(names: seq<string>, values: seq<word>, reports: seq<Report>, end: seq<word>)
    requires |names| <= |values|
    decreases |reports|
  {
    if reports == [] then values == end
    else
      exists k :: 0 <= k < |names| && names[k] == reports[0].name
                  && values[k] == reports[0].was && reports[0].was != reports[0].now
                  && Tells(names, values[k := reports[0].now], reports[1..], end)
  }

  lemma {:induction false} TellsAppend(names: seq<string>, values: seq<word>, a: seq<Report>, mid: seq<word>,
                                       b: seq<Report>, end: seq<word>)
    requires |names| <= |values| == |mid| && Tells(names, values, a, mid) && Tells(names, mid, b, end)
    ensures Tells(names, values, a + b, end)
    decreases |a|
  {
    if a == [] {
      assert a + b == b;
    } else {
      var k :| 0 <= k < |names| && names[k] == a[0].name && values[k] == a[0].was && a[0].was != a[0].now
               && Tells(names, values[k := a[0].now], a[1..], mid);
      TellsAppend(names, values[k := a[0].now], a[1..], mid, b, end);
      assert (a + b)[1..] == a[1..] + b;
    }
  }

  ghost predicate Distinct(names: seq<string>) {
    forall i, j :: 0 <= i < j < |names| ==> names[i] != names[j]
  }

  lemma {:induction false} OneReading(names: seq<string>, values: seq<word>, reports: seq<Report>,
                                      end: seq<word>, other: seq<word>)
    requires |names| <= |values| && Distinct(names)
    requires Tells(names, values, reports, end) && Tells(names, values, reports, other)
    ensures end == other
    decreases |reports|
  {
    if reports != [] {
      var r := reports[0];
      var k :| 0 <= k < |names| && names[k] == r.name && Tells(names, values[k := r.now], reports[1..], end);
      var j :| 0 <= j < |names| && names[j] == r.name && Tells(names, values[j := r.now], reports[1..], other);
      assert j == k;
      OneReading(names, values[k := r.now], reports[1..], end, other);
    }
  }

  /** Reports on these items always have one reading at most. */
  ghost predicate Unambiguous(names: seq<string>) {
    forall values: seq<word>, reports: seq<Report>, end: seq<word>, other: seq<word> ::
      |names| <= |values| && Tells(names, values, reports, end) && Tells(names, values, reports, other) ==> end == other
  }

  /** Reports leave no doubt about the values they lead to exactly when no two items share a name. */
  lemma ReadingExact(names: seq<string>)
    ensures Unambiguous(names) <==> Distinct(names)
  {
    if Distinct(names) {
      forall values: seq<word>, reports: seq<Report>, end: seq<word>, other: seq<word>
        | |names| <= |values| && Tells(names, values, reports, end) && Tells(names, values, reports, other)
        ensures end == other
      {
        OneReading(names, values, reports, end, other);
      }
    } else {
      var i, j :| 0 <= i < j < |names| && names[i] == names[j];
      var values: seq<word> := seq(|names|, _ => 0);
      var r := Report(names[i], 0, 1);
      assert [r][1..] == [];
      assert Tells(names, values[i := 1], [], values[i := 1]) && Tells(names, values[j := 1], [], values[j := 1]);
      assert Tells(names, values, [r], values[i := 1]) && Tells(names, values, [r], values[j := 1]);
      assert values[i := 1][i] != values[j := 1][i];
    }
  }

  /** How many of the items have changed. */
  function Changes(base: seq<word>, now: seq<word>): nat
    requires |now| <= |base|
  {
    if now == [] then 0 else (if base[0] == now[0] then 0 else 1) + Changes(base[1..], now[1..])
  }

  /** The allocations of reports `from` up to `to` succeed. */
  ghost predicate AllWork(report: nat -> bool, from: nat, to: nat) {
    forall j: nat :: from <= j < to ==> report(j)
  }

  lemma {:induction false} ChangesUpdate(base: seq<word>, now: seq<word>, k: nat)
    requires k < |now| <= |base|
    ensures Changes(base[k := now[k]][k + 1..], now[k + 1..]) == Changes(base[k + 1..], now[k + 1..])
    ensures Changes(base[k..], now[k..]) == (if base[k] == now[k] then 0 else 1) + Changes(base[k + 1..], now[k + 1..])
  {
    assert base[k := now[k]][k + 1..] == base[k + 1..];
    assert base[k..][1..] == base[k + 1..] && now[k..][1..] == now[k + 1..];
  }

  /** The comparison from item `k` on leaves the items before it alone, and the baseline moves with every report. */
  lemma {:induction false} CompareBase(base: seq<word>, names: seq<string>, now: seq<word>, k: nat, found: seq<Report>,
                                       report: nat -> bool)
    requires k <= |now| == |names| && |now| <= |base|
    ensures var (next, complete, all) := Compare(base, names, now, k, found, report);
            && found <= all
            && (forall j :: 0 <= j < k || |now| <= j < |base| ==> next[j] == base[j])
            && (complete ==> forall j :: k <= j < |now| ==> next[j] == now[j])
            && (next == base <==> all == found)
    decreases |now| - k
  {
    if k < |now| {
      if now[k] == base[k] {
        CompareBase(base, names, now, k + 1, found, report);
      } else if report(|found|) {
        CompareBase(base[k := now[k]], names, now, k + 1, found + [Report(names[k], base[k], now[k])], report);
        assert Compare(base, names, now, k, found, report).0[k] == now[k];
      }
    }
  }

  /** It reports every change while the allocations last, and it is complete exactly when they do. */
  lemma {:induction false} CompareCount(base: seq<word>, names: seq<string>, now: seq<word>, k: nat, found: seq<Report>,
                                        report: nat -> bool)
    requires k <= |now| == |names| && |now| <= |base|
    ensures var (next, complete, all) := Compare(base, names, now, k, found, report);
            var n := Changes(base[k..], now[k..]);
            && (complete ==> |all| == |found| + n)
            && (complete <==> AllWork(report, |found|, |found| + n))
            && (|found| < |all| <==> n > 0 && report(|found|))
    decreases |now| - k
  {
    if k < |now| {
      ChangesUpdate(base, now, k);
      if now[k] == base[k] {
        CompareCount(base, names, now, k + 1, found, report);
      } else if report(|found|) {
        var more := found + [Report(names[k], base[k], now[k])];
        CompareCount(base[k := now[k]], names, now, k + 1, more, report);
        CompareBase(base[k := now[k]], names, now, k + 1, more, report);
      }
    }
  }

  /** Its reports lead from the old baseline to the new one. */
  lemma {:induction false} CompareTells(base: seq<word>, names: seq<string>, now: seq<word>, k: nat, found: seq<Report>,
                                          report: nat -> bool)
    requires k <= |now| == |names| && |now| <= |base|
    ensures var (next, complete, all) := Compare(base, names, now, k, found, report);
            found <= all && Tells(names, base, all[|found|..], next)
    decreases |now| - k
  {
    CompareBase(base, names, now, k, found, report);
    if k < |now| && now[k] == base[k] {
      CompareTells(base, names, now, k + 1, found, report);
    } else if k < |now| && report(|found|) {
      var r := Report(names[k], base[k], now[k]);
      var all := Compare(base, names, now, k, found, report).2;
      CompareTells(base[k := now[k]], names, now, k + 1, found + [r], report);
      assert all[|found|..][0] == r && all[|found|..][1..] == all[|found| + 1..];
    } else {
      assert found[|found|..] == [];
    }
  }

  /**
   * A round's reports lead to the new baseline exactly when nothing had changed, or the round
   * failed before it touched the baseline, or no allocation it needed failed. When an allocation
   * after the first report's fails, the baseline has moved and the change is never reported.
   */
  lemma RoundTells(base: seq<word>, names: seq<string>, now: seq<word>, memory: Memory)
    requires |now| == |names| && |now| <= |base|
    ensures var (next, ret, reports) := Round(base, names, now, memory);
            var n := Changes(base, now);
            && (Tells(names, base, reports, next) <==>
                n == 0 || !memory.table || !memory.report(0) || (AllWork(memory.report, 0, n) && memory.text))
            && (ret >= 0 ==> next == now + base[|now|..] && |reports| == n)
            && (ret == RESPONSE_REPORT <==> n > 0 && memory.table && AllWork(memory.report, 0, n) && memory.text)
            && (ret == RESPONSE_OK <==> n == 0 && memory.table)
  {
    var (next, complete, all) := Compare(base, names, now, 0, [], memory.report);
    CompareFromStart(base, names, now, memory.report);
    assert forall end :: Tells(names, base, [], end) <==> end == base;
    hide Compare, Tells, Changes;
    assert AllWork(memory.report, 0, 0);
    if complete {
      assert all != [] ==>
               Round(base, names, now, memory).1 == if memory.table && memory.text then RESPONSE_REPORT else -ENOMEM;
    }
  }

  lemma CompareFromStart(base: seq<word>, names: seq<string>, now: seq<word>, report: nat -> bool)
    requires |now| == |names| && |now| <= |base|
    ensures var (next, complete, all) := Compare(base, names, now, 0, [], report);
            var n := Changes(base, now);
            && Tells(names, base, all, next)
            && (next == base <==> all == [])
            && (complete ==> next == now + base[|now|..] && |all| == n)
            && (complete <==> AllWork(report, 0, n))
            && (all != [] <==> n > 0 && report(0))
  {
    hide Compare, Tells, Changes, AllWork;
    var (next, complete, all) := Compare(base, names, now, 0, [], report);
    assert Tells(names, base, all, next) by {
      CompareTells(base, names, now, 0, [], report);
      assert all[0..] == all;
    }
    CompareShape(base, names, now, report);
    assert base[0..] == base && now[0..] == now;
    CompareCount(base, names, now, 0, [], report);
  }

  lemma CompareShape(base: seq<word>, names: seq<string>, now: seq<word>, report: nat -> bool)
    requires |now| == |names| && |now| <= |base|
    ensures var (next, complete, all) := Compare(base, names, now, 0, [], report);
            (next == base <==> all == []) && (complete ==> next == now + base[|now|..])
  {
    hide Compare;
    CompareBase(base, names, now, 0, [], report);
  }

  /* ---- whole runs ----------------------------------------------------------------------------- */

  datatype Measurement = Measurement(now: seq<word>, memory: Memory)

  /** The baseline after some rounds, and everything they reported. */
  function Rounds(base: seq<word>, names: seq<string>, rounds: seq<Measurement>): (r: (seq<word>, seq<Report>))
    requires |names| <= |base| && forall k :: 0 <= k < |rounds| ==> |rounds[k].now| == |names|
    ensures |r.0| == |base|
    decreases |rounds|
  {
    if rounds == [] then (base, [])
    else
      var (next, _, reports) := Round(base, names, rounds[0].now, rounds[0].memory);
      var (end, later) := Rounds(next, names, rounds[1..]);
      (end, reports + later)
  }

  /** The allocations a round needs, and makes, succeed, or it fails before it has changed anything. */
  ghost predicate Lossless(base: seq<word>, m: Measurement)
    requires |m.now| <= |base|
  {
    var n := Changes(base, m.now);
    n == 0 || !m.memory.table || !m.memory.report(0) || (AllWork(m.memory.report, 0, n) && m.memory.text)
  }

  ghost predicate LosslessRounds(base: seq<word>, names: seq<string>, rounds: seq<Measurement>)
    requires |names| <= |base| && forall k :: 0 <= k < |rounds| ==> |rounds[k].now| == |names|
    decreases |rounds|
  {
    rounds == [] ||
    (Lossless(base, rounds[0])
     && LosslessRounds(Round(base, names, rounds[0].now, rounds[0].memory).0, names, rounds[1..]))
  }

  /**
   * Over any lossless run of any length on a fixed list of items, all the reports together lead from
   * the first baseline to the last one: every old value is the previous new value of its item, no
   * report is of something unchanged, and no change is missing.
   */
  lemma {:induction false} ReportsTellTheStory(base: seq<word>, names: seq<string>, rounds: seq<Measurement>)
    requires |names| <= |base| && forall k :: 0 <= k < |rounds| ==> |rounds[k].now| == |names|
    requires LosslessRounds(base, names, rounds)
    ensures var (end, reports) := Rounds(base, names, rounds);
            Tells(names, base, reports, end)
    decreases |rounds|
  {
    if rounds != [] {
      var (next, _, reports) := Round(base, names, rounds[0].now, rounds[0].memory);
      RoundTells(base, names, rounds[0].now, rounds[0].memory);
      ReportsTellTheStory(next, names, rounds[1..]);
      var (end, later) := Rounds(next, names, rounds[1..]);
      TellsAppend(names, base, reports, next, later, end);
    }
  }

  /** While allocations succeed, the baseline is always the latest measurement. */
  lemma {:induction false} BaselineIsLatest(base: seq<word>, names: seq<string>, rounds: seq<Measurement>)
    requires |names| == |base| && rounds != []
    requires forall k :: 0 <= k < |rounds| ==> |rounds[k].now| == |names|
    requires forall k :: 0 <= k < |rounds| ==>
               rounds[k].memory.table && rounds[k].memory.text && forall j: nat :: rounds[k].memory.report(j)
    ensures Rounds(base, names, rounds).0 == rounds[|rounds| - 1].now
    ensures LosslessRounds(base, names, rounds)
    decreases |rounds|
  {
    var next := Round(base, names, rounds[0].now, rounds[0].memory).0;
    RoundTells(base, names, rounds[0].now, rounds[0].memory);
    assert rounds[0].now + base[|rounds[0].now|..] == rounds[0].now;
    if |rounds| == 1 {
      assert rounds[1..] == [];
    } else {
      BaselineIsLatest(next, names, rounds[1..]);
    }
  }
}
