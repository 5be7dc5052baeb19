/** What the timer machine guarantees in every interleaving. */
module TimerTheorems {
  import opened HookTable
  import opened TimerMachine
  import opened TimerInvariant

  /* ---- no use of a freed timer ------------------------------------------------------------- */

  /** The timers a step reads or writes. */
  function Touches(m: Machine, a: Action): set<nat>
    requires Enabled(m, a)
  {
    if a.LinkWorkflow? || a.UnlinkWorkflow? then {m.list[Find(m.heap, m.list, a.w.interval)]}
    else if a.MutexLock? || a.MutexUnlock? || a.CreateTimer? then {}
    else if OfRegistrar(a) then {m.holder.stage.t}
    else {a.t}
  }

  /** No handler, no work function and no holder of the mutex ever touches a timer that was freed. */
  lemma NoUseAfterFree(actions: seq<Action>, a: Action)
    ensures var m := Exec(actions);
            Enabled(m, a) ==> forall t :: t in Touches(m, a) ==> t < |m.heap| && !m.heap[t].freed
  {
    var m := Exec(actions);
    ReachableInv(actions);
    if Enabled(m, a) {
      forall t | t in Touches(m, a) ensures t < |m.heap| && !m.heap[t].freed {
        assert t < |m.heap|;
        assert ClockFine(m.heap[t], t, t in m.list, m.holder);
      }
    }
  }

  lemma ExecOne(before: seq<Action>, a: Action)
    ensures Exec(before + [a]) == if Enabled(Exec(before), a) then Step(Exec(before), a) else Exec(before)
  {
    assert (before + [a])[..|before|] == before;
  }

  lemma {:induction false} FreedStays(actions: seq<Action>, more: seq<Action>, t: nat)
    requires t < |Exec(actions).heap| && Exec(actions).heap[t].freed
    ensures t < |Exec(actions + more).heap| && Exec(actions + more).heap[t] == Exec(actions).heap[t]
    decreases |more|
  {
    hide Exec;
    if more == [] {
      assert actions + more == actions;
    } else {
      var n := |more| - 1;
      FreedStays(actions, more[..n], t);
      assert actions + more[..n] + [more[n]] == actions + more;
      FreedStep(actions + more[..n], more[n], t);
    }
  }

  /** A freed timer stays quiet forever: nothing is armed, queued or running on it again. */
  lemma FreedStaysQuiet(actions: seq<Action>, more: seq<Action>, t: nat)
    requires t < |Exec(actions).heap| && Exec(actions).heap[t].freed
    ensures var m := Exec(actions + more);
            && t < |m.heap| && m.heap[t] == Exec(actions).heap[t]
            && !m.heap[t].armed && m.heap[t].handler == Resting && !m.heap[t].pending && m.heap[t].work == Idle
  {
    FreedStays(actions, more, t);
    ReachableInv(actions);
    hide Exec;
    assert ClockFine(Exec(actions).heap[t], t, t in Exec(actions).list, Exec(actions).holder);
  }

  lemma FreedStep(before: seq<Action>, a: Action, t: nat)
    requires t < |Exec(before).heap| && Exec(before).heap[t].freed
    ensures t < |Exec(before + [a]).heap| && Exec(before + [a]).heap[t] == Exec(before).heap[t]
  {
    var m := Exec(before);
    ExecOne(before, a);
    hide Exec;
    if Enabled(m, a) {
      NoUseAfterFree(before, a);
      hide Touches, Step;
      UntouchedStays(m, a, t);
    }
  }

  lemma UntouchedStays(m: Machine, a: Action, t: nat)
    requires Enabled(m, a) && t < |m.heap| && t !in Touches(m, a)
    ensures t < |Step(m, a).heap| && Step(m, a).heap[t] == m.heap[t]
  {
  }

  /* ---- no call of an unlinked workflow ------------------------------------------------------ */

  function LinkedAfter(before: set<Workflow>, e: Entry): set<Workflow> {
    match e
    case Link(w) => before + {w}
    case Unlink(w) => before - {w}
    case _ => before
  }

  function RunningAfter(before: set<Workflow>, e: Entry): set<Workflow> {
    match e
    case Start(w) => before + {w}
    case End(w) => before - {w}
    case _ => before
  }

  /** The workflows linked, and those being called, after these entries. */
  function LinkedSet(log: seq<Entry>): set<Workflow> {
    if log == [] then {} else LinkedAfter(LinkedSet(log[..|log| - 1]), log[|log| - 1])
  }

  function RunningSet(log: seq<Entry>): set<Workflow> {
    if log == [] then {} else RunningAfter(RunningSet(log[..|log| - 1]), log[|log| - 1])
  }

  /** One more entry is in order: calls are of linked workflows, and nothing is linked or unlinked during a call. */
  predicate InOrder(log: seq<Entry>, e: Entry) {
    match e
    case Link(w) => w !in LinkedSet(log) && RunningSet(log) == {}
    case Unlink(w) => w in LinkedSet(log) && RunningSet(log) == {}
    case Start(w) => w in LinkedSet(log) && RunningSet(log) == {}
    case End(w) => RunningSet(log) == {w}
    case _ => true
  }

  ghost predicate LogFine(log: seq<Entry>) {
    forall i :: 0 <= i < |log| ==> InOrder(log[..i], log[i])
  }

  /** The linked workflows are the callbacks of the timers. */
  ghost predicate LinkedAgrees(m: Machine) {
    && (forall t, j :: 0 <= t < |m.heap| && 0 <= j < |m.heap[t].callbacks| ==>
          m.heap[t].callbacks[j] in LinkedSet(m.log))
    && (forall w :: w in LinkedSet(m.log) ==> exists t :: 0 <= t < |m.heap| && w in m.heap[t].callbacks)
  }

  function InCall(m: Machine): set<Workflow> {
    if m.holder.Worker? && m.holder.t < |m.heap| then
      var c := m.heap[m.holder.t];
      if c.work.Calling? && c.work.at < |c.callbacks| then {c.callbacks[c.work.at]} else {}
    else {}
  }

  ghost predicate Story(m: Machine) {
    LogFine(m.log) && LinkedAgrees(m) && RunningSet(m.log) == InCall(m)
  }

  lemma OneMore(log: seq<Entry>, e: Entry)
    requires LogFine(log) && InOrder(log, e)
    ensures LogFine(log + [e]) && (log + [e])[..|log|] == log
  {
    forall i | 0 <= i < |log + [e]| ensures InOrder((log + [e])[..i], (log + [e])[i]) {
      if i < |log| {
        assert (log + [e])[..i] == log[..i];
      } else {
        assert (log + [e])[..i] == log;
      }
    }
  }

  /** What one more entry does to the two sets. */
  lemma OneEntry(log: seq<Entry>, e: Entry)
    ensures LinkedSet(log + [e]) == LinkedAfter(LinkedSet(log), e)
    ensures RunningSet(log + [e]) == RunningAfter(RunningSet(log), e)
  {
    assert (log + [e])[..|log|] == log;
  }

  /** Linking a workflow that no timer calls, on a timer that may be new. */
  lemma LinkOne(m: Machine, after: Machine, w: Workflow, t: nat)
    requires LinkedAgrees(m) && LogFine(m.log) && RunningSet(m.log) == {} && InCall(after) == {}
    requires after.log == m.log + [Link(w)]
    requires forall u: nat :: u < |m.heap| ==> w !in m.heap[u].callbacks
    requires |m.heap| <= |after.heap| <= |m.heap| + 1 && t < |after.heap| && (|after.heap| > |m.heap| ==> t == |m.heap|)
    requires after.heap[t].callbacks == [w] + if t < |m.heap| then m.heap[t].callbacks else []
    requires forall u: nat :: u < |m.heap| && u != t ==> after.heap[u].callbacks == m.heap[u].callbacks
    ensures Story(after)
  {
    OneEntry(m.log, Link(w));
    OneMore(m.log, Link(w));
    hide LinkedSet, RunningSet, LogFine, InCall;
    forall x | x in LinkedSet(after.log) ensures exists u :: 0 <= u < |after.heap| && x in after.heap[u].callbacks {
      if x == w {
        assert x in after.heap[t].callbacks;
      } else {
        var u :| 0 <= u < |m.heap| && x in m.heap[u].callbacks;
        assert x in after.heap[u].callbacks;
      }
    }
    forall u, j | 0 <= u < |after.heap| && 0 <= j < |after.heap[u].callbacks|
      ensures after.heap[u].callbacks[j] in LinkedSet(after.log)
    {
      if u == t && j > 0 {
        assert after.heap[u].callbacks[j] == m.heap[u].callbacks[j - 1];
      }
    }
  }

  lemma LinkStory(m: Machine, w: Workflow)
    requires Inv(m) && Story(m) && Enabled(m, LinkWorkflow(w))
    ensures Story(Step(m, LinkWorkflow(w)))
  {
    hide LinkedAgrees, LogFine, ClockFine, LinkedSet, RunningSet, AllClocksFine;
    var t := m.list[Find(m.heap, m.list, w.interval)];
    NotElsewhere(m, w, t);
    LinkOne(m, Step(m, LinkWorkflow(w)), w, t);
  }

  /** Under the invariant a workflow can only be a callback of the one listed timer with its interval. */
  lemma NotElsewhere(m: Machine, w: Workflow, t: nat)
    requires Inv(m) && t < |m.heap| && t in m.list && m.heap[t].interval == w.interval
    ensures forall u: nat :: u < |m.heap| && w in m.heap[u].callbacks ==> u == t
  {
    forall u: nat | u < |m.heap| && w in m.heap[u].callbacks ensures u == t {
      assert ClockFine(m.heap[u], u, u in m.list, m.holder);
      var j :| 0 <= j < |m.list| && m.list[j] == u;
      var k :| 0 <= k < |m.list| && m.list[k] == t;
    }
  }

  lemma NotAnywhere(m: Machine, w: Workflow)
    requires Inv(m) && Find(m.heap, m.list, w.interval) == |m.list|
    ensures forall u: nat :: u < |m.heap| ==> w !in m.heap[u].callbacks
  {
    forall u: nat | u < |m.heap| ensures w !in m.heap[u].callbacks {
      assert ClockFine(m.heap[u], u, u in m.list, m.holder);
      if u in m.list {
        var j :| 0 <= j < |m.list| && m.list[j] == u;
        assert m.heap[m.list[j]].interval != w.interval;
      }
    }
  }

  lemma CreateStory(m: Machine, w: Workflow)
    requires Inv(m) && Story(m) && Enabled(m, CreateTimer(w))
    ensures Story(Step(m, CreateTimer(w)))
  {
    hide LinkedAgrees, LogFine, ClockFine, LinkedSet, RunningSet, AllClocksFine;
    NotAnywhere(m, w);
    LinkOne(m, Step(m, CreateTimer(w)), w, |m.heap|);
  }

  /** Unlinking a workflow from the one timer that calls it. */
  lemma UnlinkOne(m: Machine, after: Machine, w: Workflow, t: nat)
    requires LinkedAgrees(m) && LogFine(m.log) && RunningSet(m.log) == {} && InCall(after) == {}
    requires after.log == m.log + [Unlink(w)]
    requires t < |m.heap| && NoRepeats(m.heap[t].callbacks) && w in m.heap[t].callbacks
    requires forall u: nat :: u < |m.heap| && w in m.heap[u].callbacks ==> u == t
    requires |after.heap| == |m.heap| && after.heap[t].callbacks == Without(m.heap[t].callbacks, w)
    requires forall u: nat :: u < |m.heap| && u != t ==> after.heap[u].callbacks == m.heap[u].callbacks
    ensures Story(after)
  {
    OneEntry(m.log, Unlink(w));
    assert w in LinkedSet(m.log) by {
      var k :| 0 <= k < |m.heap[t].callbacks| && m.heap[t].callbacks[k] == w;
      assert m.heap[t].callbacks[k] in LinkedSet(m.log);
    }
    OneMore(m.log, Unlink(w));
    hide LinkedSet, RunningSet, LogFine, InCall;
    WithoutMembers(m.heap[t].callbacks, w);
    forall x | x in LinkedSet(after.log) ensures exists u :: 0 <= u < |after.heap| && x in after.heap[u].callbacks {
      var u :| 0 <= u < |m.heap| && x in m.heap[u].callbacks;
      assert x in after.heap[u].callbacks;
    }
    forall u, j | 0 <= u < |after.heap| && 0 <= j < |after.heap[u].callbacks|
      ensures after.heap[u].callbacks[j] in LinkedSet(after.log)
    {
      var x := after.heap[u].callbacks[j];
      if u == t {
        WithoutFrom(m.heap[t].callbacks, w, x);
        assert x in after.heap[t].callbacks;
      }
      assert x in m.heap[u].callbacks;
      var k :| 0 <= k < |m.heap[u].callbacks| && m.heap[u].callbacks[k] == x;
      assert m.heap[u].callbacks[k] in LinkedSet(m.log);
    }
  }

  lemma UnlinkStory(m: Machine, w: Workflow)
    requires Inv(m) && Story(m) && Enabled(m, UnlinkWorkflow(w))
    ensures Story(Step(m, UnlinkWorkflow(w)))
  {
    hide LinkedAgrees, LogFine, LinkedSet, RunningSet;
    var t := m.list[Find(m.heap, m.list, w.interval)];
    assert ClockFine(m.heap[t], t, t in m.list, m.holder);
    NotElsewhere(m, w, t);
    UnlinkOne(m, Step(m, UnlinkWorkflow(w)), w, t);
  }

  lemma CallOne(m: Machine, after: Machine, e: Entry)
    requires Story(m) && InOrder(m.log, e) && after.log == m.log + [e] && !e.Link? && !e.Unlink?
    requires |after.heap| == |m.heap|
    requires forall t :: 0 <= t < |m.heap| ==>
               after.heap[t].callbacks == m.heap[t].callbacks
    requires InCall(after) == if e.Start? then {e.w} else if e.End? then {} else InCall(m)
    ensures Story(after)
  {
    OneMore(m.log, e);
    OneEntry(m.log, e);
    hide LinkedSet, RunningSet, LogFine, InCall, LinkedAgrees;
    SameCallbacks(m, after);
  }

  lemma CallStory(m: Machine, a: Action)
    requires Inv(m) && Story(m) && Enabled(m, a) && (a.Visit? || a.CallEnds?)
    ensures Story(Step(m, a))
  {
    var after := Step(m, a);
    var c := m.heap[a.t];
    assert ClockFine(c, a.t, a.t in m.list, m.holder);
    assert m.holder == Worker(a.t);
    assert InCall(m) == if c.work.Calling? then {c.callbacks[c.work.at]} else {};
    hide ClockFine, AllClocksFine, LogFine, ListFine, LinkedSet, RunningSet;
    if a.CallEnds? {
      CallOne(m, after, End(c.callbacks[c.work.at]));
    } else if a.enabled {
      assert c.callbacks[c.work.next] in LinkedSet(m.log);
      CallOne(m, after, Start(c.callbacks[c.work.next]));
    } else {
      CallOne(m, after, Pass(c.callbacks[c.work.next]));
    }
  }

  lemma SameCallbacks(m: Machine, after: Machine)
    requires LinkedAgrees(m) && |after.heap| == |m.heap| && LinkedSet(after.log) == LinkedSet(m.log)
    requires forall t :: 0 <= t < |m.heap| ==> after.heap[t].callbacks == m.heap[t].callbacks
    ensures LinkedAgrees(after)
  {
    forall w | w in LinkedSet(after.log) ensures exists t :: 0 <= t < |after.heap| && w in after.heap[t].callbacks {
      var t :| 0 <= t < |m.heap| && w in m.heap[t].callbacks;
      assert w in after.heap[t].callbacks;
    }
  }

  lemma QuietStory(m: Machine, a: Action)
    requires Inv(m) && Story(m) && Enabled(m, a)
    requires !a.LinkWorkflow? && !a.CreateTimer? && !a.UnlinkWorkflow? && !a.Visit? && !a.CallEnds?
    ensures Story(Step(m, a))
  {
    hide LogFine, ListFine, LinkedAgrees, LinkedSet, RunningSet;
    if !OfRegistrar(a) {
      assert ClockFine(m.heap[a.t], a.t, a.t in m.list, m.holder);
    }
    if a.TryLock? && m.holder == Nobody {
      CallOne(m, Step(m, a), Begin);
    } else {
      SameCallbacks(m, Step(m, a));
    }
  }

  lemma {:induction false} ReachableStory(actions: seq<Action>)
    ensures Story(Exec(actions))
    decreases |actions|
  {
    if actions != [] {
      var before := actions[..|actions| - 1];
      var m, a := Exec(before), actions[|actions| - 1];
      ReachableStory(before);
      ReachableInv(before);
      if Enabled(m, a) {
        match a
        case LinkWorkflow(w) => LinkStory(m, w);
        case CreateTimer(w) => CreateStory(m, w);
        case UnlinkWorkflow(w) => UnlinkStory(m, w);
        case Visit(_, _) => CallStory(m, a);
        case CallEnds(_) => CallStory(m, a);
        case _ => QuietStory(m, a);
      }
    }
  }

  /**
   * In every run a call starts only on a workflow that is linked at that moment, and no call is in
   * progress when a workflow is unlinked: after its unlinking, none of its calls runs or starts
   * until it is linked again.
   */
  lemma NoCallAfterUnlink(actions: seq<Action>, i: nat, w: Workflow)
    requires i < |Exec(actions).log|
    ensures var log := Exec(actions).log;
            && (log[i] == Start(w) ==> w in LinkedSet(log[..i]))
            && (log[i] == Unlink(w) ==> RunningSet(log[..i]) == {})
  {
    ReachableStory(actions);
    var log := Exec(actions).log;
    assert InOrder(log[..i], log[i]);
  }

  /* ---- no deadlock -------------------------------------------------------------------------- */

  /** How many of its own steps the handler of a timer is from returning. */
  function HandlerSteps(c: Clock): nat {
    match c.handler
    case Resting => 0
    case Rearmed => 1
    case Queued => 2
    case Fired => 3
  }

  /** How many steps the work of a timer that no longer fires is from being idle and not pending. */
  function WorkSteps(c: Clock): nat {
    (if c.pending then 2 else 0) + if c.work == Idle then 0 else 1
  }

  function HandlerNext(c: Clock, t: nat): Action
    requires c.handler != Resting
  {
    match c.handler
    case Fired => QueueWork(t)
    case Queued => Rearm(t)
    case Rearmed => HandlerReturns(t)
  }

  /**
   * The registrar waits in two places with the mutex held, and neither wait is on someone who waits for
   * the mutex. Waiting for the handler: the handler's next step is possible and brings it closer to
   * its end. Waiting for the work: the work is at its trylock, which is possible, fails, and ends it.
   */
  lemma TeardownCannotDeadlock(actions: seq<Action>)
    ensures var m := Exec(actions);
            && (m.holder.Registrar? && m.holder.stage.Deactivate? ==>
                  var t := m.holder.stage.t;
                  && t < |m.heap|
                  && (m.heap[t].handler == Resting ==> Enabled(m, DelTimerSync))
                  && (m.heap[t].handler != Resting ==>
                        && Enabled(m, HandlerNext(m.heap[t], t))
                        && HandlerSteps(Step(m, HandlerNext(m.heap[t], t)).heap[t]) < HandlerSteps(m.heap[t])))
            && (m.holder.Registrar? && m.holder.stage.CancelWork? ==>
                  var t := m.holder.stage.t;
                  && t < |m.heap|
                  && (m.heap[t].work == Idle ==> Enabled(m, CancelWorkSync))
                  && (m.heap[t].work != Idle ==>
                        && Enabled(m, TryLock(t))
                        && Step(m, TryLock(t)).heap[t].work == Idle))
  {
    var m := Exec(actions);
    ReachableInv(actions);
    if Busy(m) {
      var t := m.holder.stage.t;
      assert ClockFine(m.heap[t], t, t in m.list, m.holder);
    }
  }

  /** How far the work that holds the mutex is from the end of its walk. */
  function WalkSteps(c: Clock): int {
    match c.work
    case Walking(k) => 2 * (|c.callbacks| - k) + 1
    case Calling(k) => 2 * (|c.callbacks| - k)
    case _ => 0
  }

  function WorkerNext(c: Clock, t: nat, enabled: bool): Action {
    match c.work
    case Calling(_) => CallEnds(t)
    case Walking(k) => if k < |c.callbacks| then Visit(t, enabled) else WorkEnds(t)
    case _ => WorkEnds(t)
  }

  /** A work function that holds the mutex can always go on, and each of its steps brings it nearer to releasing it. */
  lemma WorkerReleases(actions: seq<Action>, enabled: bool)
    requires Exec(actions).holder.Worker?
    ensures var m := Exec(actions);
            var t := m.holder.t;
            && t < |m.heap|
            && var a := WorkerNext(m.heap[t], t, enabled);
            && Enabled(m, a)
            && t < |Step(m, a).heap|
            && (Step(m, a).holder == Nobody
                || (Step(m, a).holder == m.holder && 0 < WalkSteps(Step(m, a).heap[t]) < WalkSteps(m.heap[t])))
  {
    var m := Exec(actions);
    ReachableInv(actions);
    assert ClockFine(m.heap[m.holder.t], m.holder.t, m.holder.t in m.list, m.holder);
  }

  /** While the registrar waits for the work, no step of anyone gives the work more to do. */
  lemma WorkOnlyDrains(actions: seq<Action>, a: Action)
    requires Exec(actions).holder.Registrar? && Exec(actions).holder.stage.CancelWork?
    requires Enabled(Exec(actions), a) && a != CancelWorkSync
    ensures var m, after := Exec(actions), Step(Exec(actions), a);
            var t := m.holder.stage.t;
            && after.holder == m.holder && t < |m.heap| && t < |after.heap|
            && WorkSteps(after.heap[t]) <= WorkSteps(m.heap[t])
            && (WorkSteps(after.heap[t]) == WorkSteps(m.heap[t]) ==> after.heap[t] == m.heap[t])
  {
    var m := Exec(actions);
    ReachableInv(actions);
    var t := m.holder.stage.t;
    assert ClockFine(m.heap[t], t, t in m.list, m.holder);
    if !OfRegistrar(a) && a.t != t {
      assert ClockFine(m.heap[a.t], a.t, a.t in m.list, m.holder);
    }
  }

  /** Every listed timer keeps ticking: it is armed or its handler is on the way to re-arm it. */
  lemma ListedTimersTick(actions: seq<Action>, t: nat)
    requires t in Exec(actions).list
    ensures var m := Exec(actions);
            && t < |m.heap|
            && (m.heap[t].armed || m.heap[t].handler == Fired || m.heap[t].handler == Queued
                || AtStage(m, Created(t)) || AtStage(m, Delist(t)))
  {
    var m := Exec(actions);
    ReachableInv(actions);
    var k :| 0 <= k < |m.list| && m.list[k] == t;
    assert ClockFine(m.heap[t], t, t in m.list, m.holder);
  }

  /* ---- every walk covers the list ------------------------------------------------------------- */

  function VisitedAfter(before: seq<Workflow>, e: Entry): seq<Workflow> {
    match e
    case Begin => []
    case Start(w) => before + [w]
    case Pass(w) => before + [w]
    case _ => before
  }

  /** The workflows called or passed over since the last walk began, in order. */
  function Visited(log: seq<Entry>): seq<Workflow> {
    if log == [] then [] else VisitedAfter(Visited(log[..|log| - 1]), log[|log| - 1])
  }

  /** The part of its list that the work holding the mutex has dealt with. */
  ghost predicate Covered(m: Machine) {
    m.holder.Worker? && m.holder.t < |m.heap| ==>
      var c := m.heap[m.holder.t];
      && (c.work.Walking? && c.work.next <= |c.callbacks| ==> Visited(m.log) == c.callbacks[..c.work.next])
      && (c.work.Calling? && c.work.at < |c.callbacks| ==> Visited(m.log) == c.callbacks[..c.work.at + 1])
  }

  lemma VisitedOne(log: seq<Entry>, e: Entry)
    ensures Visited(log + [e]) == VisitedAfter(Visited(log), e)
  {
    assert (log + [e])[..|log|] == log;
  }

  lemma WalkBegins(m: Machine, t: nat)
    requires Inv(m) && Covered(m) && Enabled(m, TryLock(t))
    ensures Covered(Step(m, TryLock(t)))
  {
    assert ClockFine(m.heap[t], t, t in m.list, m.holder);
    VisitedOne(m.log, Begin);
    hide Visited, AllClocksFine, ListFine, ClockFine;
  }

  lemma VisitCovered(m: Machine, t: nat, enabled: bool)
    requires Inv(m) && Covered(m) && Enabled(m, Visit(t, enabled))
    ensures Covered(Step(m, Visit(t, enabled)))
  {
    var c := m.heap[t];
    assert ClockFine(c, t, t in m.list, m.holder);
    hide Visited, AllClocksFine, ListFine, ClockFine;
    var w := c.callbacks[c.work.next];
    VisitedOne(m.log, if enabled then Start(w) else Pass(w));
    assert c.callbacks[..c.work.next + 1] == c.callbacks[..c.work.next] + [w];
  }

  lemma CallEndsCovered(m: Machine, t: nat)
    requires Inv(m) && Covered(m) && Enabled(m, CallEnds(t))
    ensures Covered(Step(m, CallEnds(t)))
  {
    var c := m.heap[t];
    assert ClockFine(c, t, t in m.list, m.holder);
    hide Visited, AllClocksFine, ListFine, ClockFine;
    VisitedOne(m.log, End(c.callbacks[c.work.at]));
  }

  lemma OtherCovered(m: Machine, a: Action)
    requires Inv(m) && Covered(m) && Enabled(m, a) && !a.TryLock? && !a.Visit? && !a.CallEnds?
    ensures Covered(Step(m, a))
  {
    hide Visited, ListFine;
    if !OfRegistrar(a) {
      assert ClockFine(m.heap[a.t], a.t, a.t in m.list, m.holder);
    }
  }

  lemma {:induction false} ReachableCovered(actions: seq<Action>)
    ensures Covered(Exec(actions))
    decreases |actions|
  {
    if actions != [] {
      var before := actions[..|actions| - 1];
      var m, a := Exec(before), actions[|actions| - 1];
      ReachableCovered(before);
      ReachableInv(before);
      if Enabled(m, a) {
        match a
        case TryLock(t) => WalkBegins(m, t);
        case Visit(t, enabled) => VisitCovered(m, t, enabled);
        case CallEnds(t) => CallEndsCovered(m, t);
        case _ => OtherCovered(m, a);
      }
    }
  }

  /** When a work function ends its walk it has dealt with every workflow of its timer, once each and in list order. */
  lemma WalkVisitsAll(actions: seq<Action>, t: nat)
    requires Enabled(Exec(actions), WorkEnds(t))
    ensures Visited(Exec(actions).log) == Exec(actions).heap[t].callbacks
  {
    var m := Exec(actions);
    ReachableInv(actions);
    ReachableCovered(actions);
    var c := m.heap[t];
    assert ClockFine(c, t, t in m.list, m.holder);
    assert c.callbacks[..|c.callbacks|] == c.callbacks;
  }
}
