/** The timer machine, seen through the timers that have workflows, runs the registry operations. */
module TimerRefinement {
  import opened HookTable
  import opened TimerMachine
  import opened TimerInvariant

  /** The listed timers that still have a workflow, in list order. */
  function Shown(heap: seq<Clock>, list: seq<nat>): seq<Timer> {
    if list == [] then []
    else (if list[0] < |heap| then One(heap[list[0]]) else []) + Shown(heap, list[1..])
  }

  function One(c: Clock): seq<Timer> {
    if c.callbacks == [] then [] else [Timer(c.interval, c.callbacks)]
  }

  function Timers(m: Machine): seq<Timer> {
    Shown(m.heap, m.list)
  }

  function Registry(m: Machine): State {
    EMPTY.(timers := Timers(m))
  }

  lemma {:induction false} ShownSame(heap: seq<Clock>, other: seq<Clock>, list: seq<nat>)
    requires forall k :: 0 <= k < |list| ==> list[k] < |heap| && list[k] < |other|
    requires forall k :: 0 <= k < |list| ==>
               other[list[k]].interval == heap[list[k]].interval && other[list[k]].callbacks == heap[list[k]].callbacks
    ensures Shown(other, list) == Shown(heap, list)
  {
    if list != [] {
      ShownSame(heap, other, list[1..]);
    }
  }

  lemma {:induction false} ShownAppend(heap: seq<Clock>, a: seq<nat>, b: seq<nat>)
    ensures Shown(heap, a + b) == Shown(heap, a) + Shown(heap, b)
  {
    if a == [] {
      assert a + b == b;
    } else {
      ShownAppend(heap, a[1..], b);
      assert (a + b)[1..] == a[1..] + b;
      var first := if a[0] < |heap| then One(heap[a[0]]) else [];
      assert first + (Shown(heap, a[1..]) + Shown(heap, b)) == first + Shown(heap, a[1..]) + Shown(heap, b);
    }
  }

  /** While every listed timer has a workflow, all of them are shown, and searches agree. */
  lemma {:induction false} ShownAll(heap: seq<Clock>, list: seq<nat>, interval: int)
    requires forall k :: 0 <= k < |list| ==> list[k] < |heap| && heap[list[k]].callbacks != []
    ensures |Shown(heap, list)| == |list|
    ensures forall k :: 0 <= k < |list| ==>
              Shown(heap, list)[k] == Timer(heap[list[k]].interval, heap[list[k]].callbacks)
    ensures FindTimer(Shown(heap, list), interval) == Find(heap, list, interval)
  {
    if list != [] {
      ShownAll(heap, list[1..], interval);
      assert Shown(heap, list)[1..] == Shown(heap, list[1..]);
    }
  }

  lemma ShownHead(heap: seq<Clock>, t: nat, tail: seq<nat>)
    requires t < |heap|
    ensures Shown(heap, [t] + tail) == One(heap[t]) + Shown(heap, tail)
  {
    assert ([t] + tail)[1..] == tail;
  }

  lemma ShownSplit(heap: seq<Clock>, list: seq<nat>, k: nat)
    requires k < |list| && list[k] < |heap|
    ensures Shown(heap, list) == Shown(heap, list[..k]) + (One(heap[list[k]]) + Shown(heap, list[k + 1..]))
  {
    hide Shown, One;
    assert list == list[..k] + ([list[k]] + list[k + 1..]);
    ShownHead(heap, list[k], list[k + 1..]);
    ShownAppend(heap, list[..k], [list[k]] + list[k + 1..]);
  }

  /** What is shown once the timer at position `k` changes. */
  lemma ShownChange(heap: seq<Clock>, list: seq<nat>, k: nat, c: Clock)
    requires ListFine(heap, list) && k < |list| && forall j :: 0 <= j < |list| ==> heap[list[j]].callbacks != []
    requires c.interval == heap[list[k]].interval
    ensures var shown := Shown(heap, list);
            && |shown| == |list|
            && Shown(heap[list[k] := c], list)
               == if c.callbacks == [] then shown[..k] + shown[k + 1..] else shown[k := Timer(c.interval, c.callbacks)]
  {
    var other, front, tail := heap[list[k] := c], list[..k], list[k + 1..];
    ListNoRepeats(heap, list);
    hide ListFine;
    ShownSame(heap, other, front);
    ShownSame(heap, other, tail);
    ShownAll(heap, list, 0);
    ShownAll(heap, front, 0);
    ShownSplit(heap, list, k);
    ShownSplit(other, list, k);
    hide Shown, Find;
    Splice(Shown(heap, list), Shown(heap, front), One(heap[list[k]]), Shown(heap, tail), c);
  }

  lemma Splice(shown: seq<Timer>, front: seq<Timer>, mid: seq<Timer>, tail: seq<Timer>, c: Clock)
    requires shown == front + (mid + tail) && |mid| == 1
    ensures var k := |front|;
            front + (One(c) + tail)
            == if c.callbacks == [] then shown[..k] + shown[k + 1..] else shown[k := Timer(c.interval, c.callbacks)]
  {
    assert shown[|front| + 1..] == tail;
  }

  lemma NonEmptyWhenReady(m: Machine)
    requires Inv(m) && m.holder == Registrar(Ready)
    ensures forall k :: 0 <= k < |m.list| ==> m.heap[m.list[k]].callbacks != []
  {
    forall k | 0 <= k < |m.list| ensures m.heap[m.list[k]].callbacks != [] {
      assert ClockFine(m.heap[m.list[k]], m.list[k], m.list[k] in m.list, m.holder);
    }
  }

  lemma LinkRefines(m: Machine, w: Workflow)
    requires Inv(m) && Enabled(m, LinkWorkflow(w))
    ensures (Registry(Step(m, LinkWorkflow(w))), 0) == AddTimer(Registry(m), w, true)
  {
    var k := Find(m.heap, m.list, w.interval);
    var c := m.heap[m.list[k]];
    NonEmptyWhenReady(m);
    ShownAll(m.heap, m.list, w.interval);
    ShownChange(m.heap, m.list, k, c.(callbacks := [w] + c.callbacks));
  }

  lemma CreateRefines(m: Machine, w: Workflow)
    requires Inv(m) && Enabled(m, CreateTimer(w))
    ensures (Registry(Step(m, CreateTimer(w))), 0) == AddTimer(Registry(m), w, true)
  {
    var after := Step(m, CreateTimer(w));
    NonEmptyWhenReady(m);
    ShownAll(m.heap, m.list, w.interval);
    ShownSame(m.heap, after.heap, m.list);
    assert after.list[1..] == m.list;
  }

  lemma UnlinkRefines(m: Machine, w: Workflow)
    requires Inv(m) && Enabled(m, UnlinkWorkflow(w))
    ensures FindTimer(Timers(m), w.interval) < |Timers(m)|
    ensures Registry(Step(m, UnlinkWorkflow(w))) == DropTimer(Registry(m), w)
  {
    var k := Find(m.heap, m.list, w.interval);
    var c := m.heap[m.list[k]];
    NonEmptyWhenReady(m);
    ShownAll(m.heap, m.list, w.interval);
    ShownChange(m.heap, m.list, k, c.(callbacks := Without(c.callbacks, w)));
  }

  lemma {:induction false} ShownDelist(heap: seq<Clock>, list: seq<nat>, t: nat)
    requires t < |heap| && heap[t].callbacks == []
    ensures Shown(heap, Without(list, t)) == Shown(heap, list)
  {
    if list != [] {
      if list[0] == t {
        assert Shown(heap, list) == Shown(heap, list[1..]);
      } else {
        ShownDelist(heap, list[1..], t);
        assert ([list[0]] + Without(list[1..], t))[1..] == Without(list[1..], t);
      }
    }
  }

  lemma DelistStutters(m: Machine)
    requires Inv(m) && Enabled(m, DelistTimer)
    ensures Registry(Step(m, DelistTimer)) == Registry(m)
  {
    var t := m.holder.stage.t;
    assert ClockFine(m.heap[t], t, t in m.list, m.holder);
    ShownDelist(m.heap, m.list, t);
  }

  lemma OtherStepsStutter(m: Machine, a: Action)
    requires Inv(m) && Enabled(m, a) && !a.LinkWorkflow? && !a.CreateTimer? && !a.UnlinkWorkflow? && !a.DelistTimer?
    ensures Registry(Step(m, a)) == Registry(m)
  {
    hide Shown, ClockFine, Find, Without;
    assert forall k :: 0 <= k < |m.list| ==> m.list[k] < |m.heap|;
    ShownSame(m.heap, Step(m, a).heap, m.list);
  }

  /**
   * Every step of every run either links or unlinks a workflow exactly as the registry operation
   * does, or changes nothing the registry shows: the teardown of a timer takes effect at one point,
   * the unlinking of its last workflow.
   */
  lemma StepRefinesRegistry(actions: seq<Action>, a: Action)
    requires Enabled(Exec(actions), a)
    ensures var before, after := Registry(Exec(actions)), Registry(Step(Exec(actions), a));
            match a
            case LinkWorkflow(w) => (after, 0) == AddTimer(before, w, true)
            case CreateTimer(w) => (after, 0) == AddTimer(before, w, true)
            case UnlinkWorkflow(w) =>
              FindTimer(before.timers, w.interval) < |before.timers| && after == DropTimer(before, w)
            case _ => after == before
  {
    var m := Exec(actions);
    ReachableInv(actions);
    match a
    case LinkWorkflow(w) => LinkRefines(m, w);
    case CreateTimer(w) => CreateRefines(m, w);
    case UnlinkWorkflow(w) => UnlinkRefines(m, w);
    case DelistTimer => DelistStutters(m);
    case _ => OtherStepsStutter(m, a);
  }
}
