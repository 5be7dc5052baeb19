/** Every step of the timer machine keeps its invariant. */
module TimerInvariant {
  import opened HookTable
  import opened TimerMachine

  predicate Mentions(h: Holder, t: nat) {
    match h
    case Nobody => false
    case Worker(u) => u == t
    case Registrar(stage) => !stage.Ready? && stage.t == t
  }

  /** What a timer's condition says does not depend on who holds the mutex for another timer. */
  lemma OtherHolder(c: Clock, t: nat, listed: bool, h: Holder, k: Holder)
    requires ClockFine(c, t, listed, h) && !Mentions(h, t) && !Mentions(k, t)
    ensures ClockFine(c, t, listed, k)
  {
  }

  /** A step on one timer, made by a holder that names no other timer. */
  lemma OneClock(m: Machine, t: nat, c: Clock, h: Holder)
    requires Inv(m) && t < |m.heap| && c.interval == m.heap[t].interval
    requires forall u: nat :: u < |m.heap| && u != t ==> !Mentions(m.holder, u) && !Mentions(h, u)
    requires HolderFine(m.heap, h) && ClockFine(c, t, t in m.list, h)
    ensures AllClocksFine(m.heap[t := c], m.list, h) && ListFine(m.heap[t := c], m.list)
    ensures HolderFine(m.heap[t := c], h)
  {
    hide ClockFine;
    forall u: nat | u < |m.heap| ensures ClockFine(m.heap[t := c][u], u, u in m.list, h) {
      if u != t {
        OtherHolder(m.heap[u], u, u in m.list, m.holder, h);
      }
    }
  }

  /** A step on one timer that leaves the mutex alone. */
  lemma SameHolder(m: Machine, t: nat, c: Clock)
    requires Inv(m) && t < |m.heap| && c.interval == m.heap[t].interval
    requires ClockFine(c, t, t in m.list, m.holder)
    ensures Inv(Put(m, t, c))
  {
    hide ClockFine;
    assert forall u: nat :: u < |m.heap| ==> ClockFine(m.heap[t := c][u], u, u in m.list, m.holder);
  }

  lemma {:induction false} WithoutKeeps(list: seq<nat>, t: nat)
    requires forall j, k :: 0 <= j < k < |list| ==> list[j] != list[k]
    ensures forall u :: u in Without(list, t) <==> u in list && u != t
    ensures forall j, k :: 0 <= j < k < |Without(list, t)| ==> Without(list, t)[j] != Without(list, t)[k]
  {
    if list != [] && list[0] != t {
      WithoutKeeps(list[1..], t);
      assert list == [list[0]] + list[1..];
      assert list[0] !in list[1..];
    }
  }

  lemma ListNoRepeats(heap: seq<Clock>, list: seq<nat>)
    requires ListFine(heap, list)
    ensures forall j, k :: 0 <= j < k < |list| ==> list[j] != list[k]
  {
  }

  lemma DelistKeepsList(heap: seq<Clock>, list: seq<nat>, t: nat)
    requires ListFine(heap, list)
    ensures ListFine(heap, Without(list, t))
    ensures forall u: nat :: u in Without(list, t) <==> u in list && u != t
  {
    ListNoRepeats(heap, list);
    WithoutKeeps(list, t);
    var rest := Without(list, t);
    forall k | 0 <= k < |rest| ensures rest[k] < |heap| {
      assert rest[k] in rest;
    }
    forall j, k | 0 <= j < k < |rest| ensures heap[rest[j]].interval != heap[rest[k]].interval {
      assert rest[j] in rest && rest[k] in rest;
      var p :| 0 <= p < |list| && list[p] == rest[j];
      var q :| 0 <= q < |list| && list[q] == rest[k];
      assert p != q;
    }
  }

  lemma DelistInv(m: Machine)
    requires Inv(m) && Enabled(m, DelistTimer)
    ensures Inv(Step(m, DelistTimer))
  {
    var t := m.holder.stage.t;
    var after := Step(m, DelistTimer);
    DelistKeepsList(m.heap, m.list, t);
    forall u: nat | u < |after.heap| ensures ClockFine(after.heap[u], u, u in after.list, after.holder) {
      assert ClockFine(m.heap[u], u, u in m.list, m.holder);
    }
  }

  lemma CreateInv(m: Machine, w: Workflow)
    requires Inv(m) && Enabled(m, CreateTimer(w))
    ensures Inv(Step(m, CreateTimer(w)))
  {
    var after := Step(m, CreateTimer(w));
    forall u: nat | u < |after.heap| ensures ClockFine(after.heap[u], u, u in after.list, after.holder) {
      if u < |m.heap| {
        assert ClockFine(m.heap[u], u, u in m.list, m.holder);
        assert u in after.list <==> u in m.list;
      } else {
        assert after.list[0] == u;
      }
    }
  }

  lemma LinkInv(m: Machine, w: Workflow)
    requires Inv(m) && Enabled(m, LinkWorkflow(w))
    ensures Inv(Step(m, LinkWorkflow(w)))
  {
    var t := m.list[Find(m.heap, m.list, w.interval)];
    assert ClockFine(m.heap[t], t, t in m.list, m.holder);
    SameHolder(m, t, m.heap[t].(callbacks := [w] + m.heap[t].callbacks));
  }

  lemma UnlinkInv(m: Machine, w: Workflow)
    requires Inv(m) && Enabled(m, UnlinkWorkflow(w))
    ensures Inv(Step(m, UnlinkWorkflow(w)))
  {
    var t := m.list[Find(m.heap, m.list, w.interval)];
    assert ClockFine(m.heap[t], t, t in m.list, m.holder);
    WithoutMembers(m.heap[t].callbacks, w);
    var rest := Without(m.heap[t].callbacks, w);
    forall k | 0 <= k < |rest| ensures rest[k].interval == m.heap[t].interval {
      WithoutFrom(m.heap[t].callbacks, w, rest[k]);
    }
    OneClock(m, t, m.heap[t].(callbacks := rest), Registrar(Unlinked(t)));
  }

  lemma RegistrarStepInv(m: Machine, a: Action)
    requires Inv(m) && Enabled(m, a) && OfRegistrar(a)
    ensures Inv(Step(m, a))
  {
    match a
    case MutexLock => HandOver(m, Registrar(Ready));
    case MutexUnlock => HandOver(m, Nobody);
    case LinkWorkflow(w) => LinkInv(m, w);
    case CreateTimer(w) => CreateInv(m, w);
    case UnlinkWorkflow(w) => UnlinkInv(m, w);
    case DelistTimer => DelistInv(m);
    case _ => TeardownInv(m, a);
  }

  lemma HandOver(m: Machine, h: Holder)
    requires Inv(m) && (m.holder == Nobody || m.holder == Registrar(Ready)) && (h == Nobody || h == Registrar(Ready))
    ensures Inv(m.(holder := h))
  {
    forall u: nat | u < |m.heap| ensures ClockFine(m.heap[u], u, u in m.list, h) {
      OtherHolder(m.heap[u], u, u in m.list, m.holder, h);
    }
  }

  lemma TeardownInv(m: Machine, a: Action)
    requires Inv(m) && Enabled(m, a)
    requires a.ArmTimer? || a.Synchronize? || a.DelTimerSync? || a.CancelWorkSync? || a.FreeTimer?
    ensures Inv(Step(m, a))
  {
    var t := m.holder.stage.t;
    var after := Step(m, a);
    var c := after.heap[t];
    assert ClockFine(m.heap[t], t, t in m.list, m.holder);
    assert after.heap == m.heap[t := c];
    OneClock(m, t, c, after.holder);
  }

  lemma ClockStepInv(m: Machine, a: Action)
    requires Inv(m) && Enabled(m, a) && !OfRegistrar(a)
    ensures Inv(Step(m, a))
  {
    var t := a.t;
    var after := Step(m, a);
    var c := after.heap[t];
    assert ClockFine(m.heap[t], t, t in m.list, m.holder);
    assert after.heap == m.heap[t := c];
    if after.holder == m.holder {
      SameHolder(m, t, c);
    } else {
      OneClock(m, t, c, after.holder);
    }
  }

  lemma StepInv(m: Machine, a: Action)
    requires Inv(m) && Enabled(m, a)
    ensures Inv(Step(m, a))
  {
    if OfRegistrar(a) {
      RegistrarStepInv(m, a);
    } else {
      ClockStepInv(m, a);
    }
  }

  lemma {:induction false} ReachableInv(actions: seq<Action>)
    ensures Inv(Exec(actions))
    decreases |actions|
  {
    if actions != [] {
      var before := actions[..|actions| - 1];
      ReachableInv(before);
      if Enabled(Exec(before), actions[|actions| - 1]) {
        StepInv(Exec(before), actions[|actions| - 1]);
      }
    }
  }
}
