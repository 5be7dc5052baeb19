/** What registrations and removals of modules do over whole runs. */
module ModuleTheorems {
  import opened HookTable
  import opened HookEffects
  import opened ModuleManager

  /* ---- lists ------------------------------------------------------------------------------ */

  /** The workflows that belong at a place, newest first. */
  function OnPlace(ws: seq<Workflow>, p: Place): seq<Workflow> {
    if ws == [] then [] else OnPlace(ws[1..], p) + if PlaceOf(ws[0]) == p then [ws[0]] else []
  }

  /** What a place should hold while these modules, newest first, are registered. */
  function Expected(modules: seq<Module>, p: Place): seq<Workflow> {
    if modules == [] || p.Nowhere? then [] else OnPlace(modules[0].workflows, p) + Expected(modules[1..], p)
  }

  function Excluding(list: seq<Workflow>, ws: seq<Workflow>): seq<Workflow> {
    if list == [] then [] else (if list[0] in ws then [] else [list[0]]) + Excluding(list[1..], ws)
  }

  lemma {:induction false} OnPlaceMembers(ws: seq<Workflow>, p: Place)
    ensures forall w: Workflow :: w in OnPlace(ws, p) <==> w in ws && PlaceOf(w) == p
  {
    if ws != [] {
      OnPlaceMembers(ws[1..], p);
      assert ws == [ws[0]] + ws[1..];
    }
  }

  lemma {:induction false} ExcludeNone(list: seq<Workflow>, ws: seq<Workflow>)
    requires forall w: Workflow :: w in list ==> w !in ws
    ensures Excluding(list, ws) == list
  {
    if list != [] {
      ExcludeNone(list[1..], ws);
      assert list == [list[0]] + list[1..];
    }
  }

  lemma {:induction false} ExcludeAll(list: seq<Workflow>, ws: seq<Workflow>)
    requires forall w: Workflow :: w in list ==> w in ws
    ensures Excluding(list, ws) == []
  {
    if list != [] {
      ExcludeAll(list[1..], ws);
      assert list[0] in list;
    }
  }

  lemma ExcludeHead(w: Workflow, rest: seq<Workflow>, ws: seq<Workflow>)
    ensures Excluding([w] + rest, ws) == (if w in ws then [] else [w]) + Excluding(rest, ws)
  {
    assert ([w] + rest)[1..] == rest;
  }

  lemma {:induction false} ExcludeAppend(a: seq<Workflow>, b: seq<Workflow>, ws: seq<Workflow>)
    ensures Excluding(a + b, ws) == Excluding(a, ws) + Excluding(b, ws)
  {
    if a == [] {
      assert a + b == b;
    } else {
      hide Excluding;
      var head, tail := a[0], a[1..];
      assert [head] + tail == a && [head] + (tail + b) == a + b;
      ExcludeHead(head, tail, ws);
      ExcludeHead(head, tail + b, ws);
      ExcludeAppend(tail, b, ws);
    }
  }

  lemma {:induction false} ExcludeTwice(list: seq<Workflow>, w: Workflow, rest: seq<Workflow>)
    ensures Excluding(Excluding(list, [w]), rest) == Excluding(list, [w] + rest)
  {
    if list != [] {
      ExcludeTwice(list[1..], w, rest);
      ExcludeAppend(if list[0] == w then [] else [list[0]], Excluding(list[1..], [w]), rest);
    }
  }

  lemma {:induction false} WithoutExcludes(list: seq<Workflow>, w: Workflow)
    requires NoRepeats(list)
    ensures Without(list, w) == Excluding(list, [w])
  {
    if list != [] {
      if list[0] == w {
        assert forall x: Workflow :: x in list[1..] ==> x != w;
        ExcludeNone(list[1..], [w]);
      } else {
        WithoutExcludes(list[1..], w);
      }
    }
  }

  /* ---- the two loops ---------------------------------------------------------------------- */

  /** The insertion loop stacks the inserted workflows on top of each list. */
  lemma {:induction false} InsertFromEffect(s: State, ws: seq<Workflow>, k: nat, last: int, env: nat -> Outcome)
    requires k <= |ws| && WellFormed(s) && last >= 0
    ensures var (after, ret, n) := InsertFrom(s, ws, k, last, env);
            forall p :: Lookup(after, p) == (if p.Nowhere? then [] else OnPlace(ws[k..n], p)) + Lookup(s, p)
    decreases |ws| - k
  {
    var (after, ret, n) := InsertFrom(s, ws, k, last, env);
    if k < |ws| {
      InsertEffect(s, ws[k], env(k));
      var (next, answer) := Insert(s, ws[k], env(k));
      if answer >= 0 {
        InsertFromEffect(next, ws, k + 1, answer, env);
        forall p ensures Lookup(after, p) == (if p.Nowhere? then [] else OnPlace(ws[k..n], p)) + Lookup(s, p) {
          hide Lookup, Insert, PlaceOf;
          OnPlaceSplit(ws, k, n, p, Lookup(s, p));
        }
      }
    }
  }

  lemma OnPlaceSplit(ws: seq<Workflow>, k: nat, n: nat, p: Place, list: seq<Workflow>)
    requires k < n <= |ws|
    ensures OnPlace(ws[k..n], p) + list
            == OnPlace(ws[k + 1..n], p) + if p == PlaceOf(ws[k]) then [ws[k]] + list else list
  {
    hide PlaceOf;
    assert ws[k..n][1..] == ws[k + 1..n];
    var later, first := OnPlace(ws[k + 1..n], p), if PlaceOf(ws[k]) == p then [ws[k]] else [];
    assert OnPlace(ws[k..n], p) == later + first;
    hide OnPlace;
    assert later + first + list == later + (first + list);
    assert [] + list == list;
  }

  /** The deletion loop takes exactly the given workflows out of every list. */
  lemma {:induction false} DeleteAllEffect(s: State, ws: seq<Workflow>)
    requires WellFormed(s)
    ensures forall p :: Lookup(DeleteAll(s, ws), p) == Excluding(Lookup(s, p), ws)
    decreases |ws|
  {
    forall p ensures Lookup(DeleteAll(s, ws), p) == Excluding(Lookup(s, p), ws) {
      DeleteAllAt(s, ws, p);
    }
  }

  lemma {:induction false} DeleteAllAt(s: State, ws: seq<Workflow>, p: Place)
    requires WellFormed(s)
    ensures Lookup(DeleteAll(s, ws), p) == Excluding(Lookup(s, p), ws)
    decreases |ws|
  {
    hide Delete, Lookup, PlaceOf, Without;
    if ws == [] {
      ExcludeNone(Lookup(s, p), ws);
    } else {
      assert WellFormed(Delete(s, ws[0]).0) by {
        DeleteEffect(s, ws[0]);
      }
      DeleteAllAt(Delete(s, ws[0]).0, ws[1..], p);
      DeleteOneExcludes(s, ws[0], p);
      ExcludeTwice(Lookup(s, p), ws[0], ws[1..]);
      assert [ws[0]] + ws[1..] == ws;
    }
  }

  lemma DeleteOneExcludes(s: State, w: Workflow, p: Place)
    requires WellFormed(s)
    ensures Lookup(Delete(s, w).0, p) == Excluding(Lookup(s, p), [w])
  {
    DeleteEffect(s, w);
    LookupNoRepeats(s, p);
    if p == PlaceOf(w) {
      WithoutExcludes(Lookup(s, p), w);
    } else {
      if w in Lookup(s, p) {
        OnlyAtItsPlace(s, w, p);
      }
      ExcludeNone(Lookup(s, p), [w]);
    }
  }

  /* ---- the order of the timer list -------------------------------------------------------- */

  function Intervals(timers: seq<Timer>): (order: seq<int>)
    ensures |order| == |timers| && forall k :: 0 <= k < |timers| ==> order[k] == timers[k].interval
  {
    if timers == [] then [] else [timers[0].interval] + Intervals(timers[1..])
  }

  function Known(order: seq<int>, base: seq<int>): seq<int> {
    if order == [] then [] else (if order[0] in base then [order[0]] else []) + Known(order[1..], base)
  }

  lemma {:induction false} KnownAppend(a: seq<int>, b: seq<int>, base: seq<int>)
    ensures Known(a + b, base) == Known(a, base) + Known(b, base)
  {
    if a == [] {
      assert a + b == b;
    } else {
      KnownAppend(a[1..], b, base);
      assert (a + b)[1..] == a[1..] + b;
      var front, rest, more := if a[0] in base then [a[0]] else [], Known(a[1..], base), Known(b, base);
      assert front + (rest + more) == front + rest + more;
    }
  }

  lemma {:induction false} KnownMembers(order: seq<int>, base: seq<int>)
    ensures forall i :: i in Known(order, base) <==> i in order && i in base
    ensures (forall i :: i in order ==> i in base) ==> Known(order, base) == order
  {
    if order != [] {
      KnownMembers(order[1..], base);
      assert order == [order[0]] + order[1..];
      if forall i :: i in order ==> i in base {
        assert order[0] in order && forall i :: i in order[1..] ==> i in order;
        assert Known(order, base) == [order[0]] + order[1..];
      }
    }
  }

  /** Everything in `old_` is still there, and its timers stand in the same order. */
  ghost predicate Retains(s: State, old_: State) {
    && (forall p :: forall w: Workflow :: w in Lookup(old_, p) ==> w in Lookup(s, p))
    && Known(Intervals(s.timers), Intervals(old_.timers)) == Intervals(old_.timers)
  }

  lemma InsertRetains(s: State, w: Workflow, o: Outcome, old_: State)
    requires WellFormed(s) && WellFormed(old_) && Retains(s, old_)
    ensures Retains(Insert(s, w, o).0, old_)
  {
    InsertEffect(s, w, o);
    InsertKeepsOrder(s, w, o, Intervals(old_.timers));
    hide Insert, WellFormed, Known, Admissible;
    var after := Insert(s, w, o).0;
    forall p, x | x in Lookup(old_, p) ensures x in Lookup(after, p) {
      assert x in Lookup(s, p);
    }
  }

  lemma InsertKeepsOrder(s: State, w: Workflow, o: Outcome, base: seq<int>)
    requires WellFormed(s) && Known(Intervals(s.timers), base) == base
    ensures Known(Intervals(Insert(s, w, o).0.timers), base) == base
  {
    var after := Insert(s, w, o).0;
    if |after.timers| == |s.timers| {
      assert Intervals(after.timers) == Intervals(s.timers);
    } else {
      hide WellFormed;
      KnownMembers(Intervals(s.timers), base);
      assert after.timers == [Timer(w.interval, [w])] + s.timers;
      assert Intervals(after.timers) == [w.interval] + Intervals(s.timers);
      KnownAppend([w.interval], Intervals(s.timers), base);
      IntervalFound(s.timers, w.interval);
    }
  }

  lemma DeleteRetains(s: State, w: Workflow, old_: State)
    requires WellFormed(s) && WellFormed(old_) && Retains(s, old_) && w !in Lookup(old_, PlaceOf(w))
    ensures Retains(Delete(s, w).0, old_)
  {
    DeleteEffect(s, w);
    var after := Delete(s, w).0;
    var p := PlaceOf(w);
    LookupNoRepeats(s, p);
    WithoutMembers(Lookup(s, p), w);
    if |after.timers| == |s.timers| {
      assert Intervals(after.timers) == Intervals(s.timers);
    } else {
      DroppedTimerIsNew(s, w, old_);
    }
  }

  lemma DroppedTimerIsNew(s: State, w: Workflow, old_: State)
    requires WellFormed(s) && WellFormed(old_) && Retains(s, old_) && w !in Lookup(old_, PlaceOf(w))
    requires |Delete(s, w).0.timers| != |s.timers|
    ensures Known(Intervals(Delete(s, w).0.timers), Intervals(old_.timers)) == Intervals(old_.timers)
  {
    var base, order := Intervals(old_.timers), Intervals(s.timers);
    var k := FindTimer(s.timers, w.interval);
    var after := Delete(s, w).0;
    assert after.timers == s.timers[..k] + s.timers[k + 1..];
    assert Intervals(after.timers) == order[..k] + order[k + 1..];
    var list := Lookup(s, Every(w.interval));
    assert Without(list, w) == [];
    LookupNoRepeats(s, Every(w.interval));
    WithoutMembers(list, w);
    assert forall x: Workflow :: x in list ==> x == w || x in Without(list, w);
    var before := Lookup(old_, Every(w.interval));
    assert forall x: Workflow :: x in before ==> x == w;
    SomethingIn(before);
    NoCallbacksNoTimer(old_, w.interval);
    KnownSkips(order, k, base);
  }

  lemma SomethingIn(list: seq<Workflow>)
    ensures list != [] ==> exists x: Workflow :: x in list
  {
    if list != [] {
      assert list[0] in list;
    }
  }

  lemma NoCallbacksNoTimer(s: State, interval: int)
    requires WellFormed(s)
    ensures interval in Intervals(s.timers) <==> Lookup(s, Every(interval)) != []
  {
    IntervalFound(s.timers, interval);
    var k := FindTimer(s.timers, interval);
    if k < |s.timers| {
      assert TimerFine(s.timers[k]);
    }
  }

  lemma KnownSkips(order: seq<int>, k: nat, base: seq<int>)
    requires k < |order| && order[k] !in base
    ensures Known(order[..k] + order[k + 1..], base) == Known(order, base)
  {
    var front, tail := order[..k], order[k + 1..];
    assert order == front + ([order[k]] + tail);
    KnownAppend(front, tail, base);
    KnownAppend(front, [order[k]] + tail, base);
    KnownAppend([order[k]], tail, base);
    assert Known([order[k]], base) == [];
    assert [] + Known(tail, base) == Known(tail, base);
  }

  lemma IntervalFound(timers: seq<Timer>, interval: int)
    ensures FindTimer(timers, interval) < |timers| <==> interval in Intervals(timers)
  {
    var k := FindTimer(timers, interval);
    if k < |timers| {
      assert Intervals(timers)[k] == interval;
    }
  }

  /** Two registries with the same lists, and no fewer old timers than timers, are equal. */
  lemma SameLists(s: State, old_: State)
    requires WellFormed(s) && WellFormed(old_) && Retains(s, old_)
    requires forall p :: Lookup(s, p) == Lookup(old_, p)
    ensures s == old_
  {
    SameHooks(s, old_);
    SameTimers(s, old_);
  }

  lemma SameHooks(s: State, old_: State)
    requires WellFormed(s) && WellFormed(old_) && forall p :: Lookup(s, p) == Lookup(old_, p)
    ensures s.hooks == old_.hooks && s.probes == old_.probes
  {
    forall h | 0 <= h < HOOKEND ensures s.hooks[h] == old_.hooks[h] {
      assert Lookup(s, Hook(h)) == Lookup(old_, Hook(h));
    }
    assert s.hooks == old_.hooks;
    assert forall h :: 0 <= h < |s.probes| ==> s.probes[h] == old_.probes[h];
  }

  lemma SameTimers(s: State, old_: State)
    requires WellFormed(s) && WellFormed(old_) && Retains(s, old_)
    requires forall p :: Lookup(s, p) == Lookup(old_, p)
    ensures s.timers == old_.timers
  {
    var order, base := Intervals(s.timers), Intervals(old_.timers);
    forall i | i in order ensures i in base {
      NoCallbacksNoTimer(s, i);
      NoCallbacksNoTimer(old_, i);
      assert Lookup(s, Every(i)) == Lookup(old_, Every(i));
    }
    KnownMembers(order, base);
    forall k | 0 <= k < |s.timers| ensures s.timers[k] == old_.timers[k] {
      assert order[k] == base[k];
      CallbacksAt(s.timers, k);
      CallbacksAt(old_.timers, k);
      assert Lookup(s, Every(order[k])) == Lookup(old_, Every(order[k]));
    }
  }

  /* ---- a registration that fails ---------------------------------------------------------- */

  /** None of the workflows is in the registry. */
  predicate Fresh(s: State, ws: seq<Workflow>) {
    forall k :: 0 <= k < |ws| ==> ws[k] !in Lookup(s, PlaceOf(ws[k]))
  }

  lemma {:induction false} InsertFromRetains(s: State, ws: seq<Workflow>, k: nat, last: int, env: nat -> Outcome,
                                             old_: State)
    requires k <= |ws| && WellFormed(s) && last >= 0 && WellFormed(old_) && Retains(s, old_)
    ensures Retains(InsertFrom(s, ws, k, last, env).0, old_)
    decreases |ws| - k
  {
    if k < |ws| {
      InsertEffect(s, ws[k], env(k));
      InsertRetains(s, ws[k], env(k), old_);
      var (next, answer) := Insert(s, ws[k], env(k));
      if answer >= 0 {
        InsertFromRetains(next, ws, k + 1, answer, env, old_);
      }
    }
  }

  lemma {:induction false} DeleteAllRetains(s: State, ws: seq<Workflow>, old_: State)
    requires WellFormed(s) && WellFormed(old_) && Retains(s, old_) && Fresh(old_, ws)
    ensures Retains(DeleteAll(s, ws), old_)
    decreases |ws|
  {
    if ws != [] {
      DeleteEffect(s, ws[0]);
      DeleteRetains(s, ws[0], old_);
      DeleteAllRetains(Delete(s, ws[0]).0, ws[1..], old_);
    }
  }

  lemma StackRemoved(top: seq<Workflow>, list: seq<Workflow>, ws: seq<Workflow>)
    requires forall w: Workflow :: w in top ==> w in ws
    requires forall w: Workflow :: w in list ==> w !in ws
    ensures Excluding(top + list, ws) == list
  {
    ExcludeAppend(top, list, ws);
    ExcludeAll(top, ws);
    ExcludeNone(list, ws);
    assert [] + list == list;
  }

  /**
   * However far the insertion of fresh workflows got, the deletion loop over all of them restores
   * the registry exactly: every list, every kprobe, and the timers in their order.
   */
  lemma RollbackRestores(s: State, ws: seq<Workflow>, env: nat -> Outcome)
    requires WellFormed(s) && Fresh(s, ws)
    ensures DeleteAll(InsertFrom(s, ws, 0, 0, env).0, ws) == s
  {
    hide Lookup, Retains, PlaceOf, Fresh, OnPlace, Excluding, Intervals, Known;
    var mid := InsertFrom(s, ws, 0, 0, env).0;
    RetainsItself(s);
    InsertFromRetains(s, ws, 0, 0, env, s);
    DeleteAllRetains(mid, ws, s);
    forall p ensures Lookup(DeleteAll(mid, ws), p) == Lookup(s, p) {
      RollbackAt(s, ws, env, p);
    }
    SameLists(DeleteAll(mid, ws), s);
  }

  lemma RetainsItself(s: State)
    ensures Retains(s, s)
  {
    KnownMembers(Intervals(s.timers), Intervals(s.timers));
  }

  lemma RollbackAt(s: State, ws: seq<Workflow>, env: nat -> Outcome, p: Place)
    requires WellFormed(s) && Fresh(s, ws)
    ensures Lookup(DeleteAll(InsertFrom(s, ws, 0, 0, env).0, ws), p) == Lookup(s, p)
  {
    hide Lookup, InsertFrom, DeleteAll, WellFormed, PlaceOf, Fresh, Excluding;
    var (mid, _, n) := InsertFrom(s, ws, 0, 0, env);
    var top, list := if p.Nowhere? then [] else OnPlace(ws[0..n], p), Lookup(s, p);
    assert Lookup(mid, p) == top + list by {
      InsertFromEffect(s, ws, 0, 0, env);
    }
    assert Lookup(DeleteAll(mid, ws), p) == Excluding(top + list, ws) by {
      DeleteAllEffect(mid, ws);
    }
    FreshAt(s, ws, p);
    TopMembers(ws, n, p);
    StackRemoved(top, list, ws);
  }

  lemma TopMembers(ws: seq<Workflow>, n: nat, p: Place)
    requires n <= |ws|
    ensures forall w: Workflow :: w in OnPlace(ws[0..n], p) ==> w in ws
  {
    var some := ws[0..n];
    OnPlaceMembers(some, p);
    forall w: Workflow | w in OnPlace(some, p) ensures w in ws {
      assert PlaceOf(w) == p;
      var k :| 0 <= k < |some| && some[k] == w;
      assert ws[k] == w;
    }
  }

  lemma FreshAt(s: State, ws: seq<Workflow>, p: Place)
    requires WellFormed(s) && Fresh(s, ws)
    ensures forall w: Workflow :: w in Lookup(s, p) ==> w !in ws
  {
    forall w: Workflow | w in Lookup(s, p) ensures w !in ws {
      OnlyAtItsPlace(s, w, p);
    }
  }

  /** The insertion loop changes the registry exactly if it gets past the first workflow. */
  lemma FirstInserted(s: State, ws: seq<Workflow>, env: nat -> Outcome)
    requires WellFormed(s)
    ensures InsertFrom(s, ws, 0, 0, env).0 == s <==> ws == [] || !Admissible(s, ws[0], env(0))
  {
    if ws != [] {
      var (mid, _, n) := InsertFrom(s, ws, 0, 0, env);
      var p := PlaceOf(ws[0]);
      InsertEffect(s, ws[0], env(0));
      if Admissible(s, ws[0], env(0)) {
        InsertFromEffect(s, ws, 0, 0, env);
        OnPlaceMembers(ws[0..n], p);
        assert ws[0] == ws[0..n][0];
        assert ws[0] in Lookup(mid, p);
      }
    }
  }

  lemma {:induction false} ExcludedGone(list: seq<Workflow>, ws: seq<Workflow>)
    ensures forall w :: w in Excluding(list, ws) ==> w !in ws
  {
    if list != [] {
      ExcludedGone(list[1..], ws);
    }
  }

  /** Insertion and then deletion restore the registry exactly if none of the workflows was in it. */
  lemma RollbackExact(s: State, ws: seq<Workflow>, env: nat -> Outcome)
    requires WellFormed(s)
    ensures DeleteAll(InsertFrom(s, ws, 0, 0, env).0, ws) == s <==> Fresh(s, ws)
  {
    if Fresh(s, ws) {
      RollbackRestores(s, ws, env);
    } else {
      var mid := InsertFrom(s, ws, 0, 0, env).0;
      var k :| 0 <= k < |ws| && ws[k] in Lookup(s, PlaceOf(ws[k]));
      DeleteAllAt(mid, ws, PlaceOf(ws[k]));
      ExcludedGone(Lookup(mid, PlaceOf(ws[k])), ws);
    }
  }

  lemma {:induction false} WithoutShorter<T>(list: seq<T>, x: T)
    requires x in list
    ensures |Without(list, x)| == |list| - 1
  {
    if list[0] != x {
      WithoutShorter(list[1..], x);
    }
  }

  /**
   * The rollback inside `secDetector_module_register` removes the id the module carries, not the id
   * just allocated. So a registration that fails restores the hooks exactly in these cases: the
   * allocator knows the carried id and no workflow of the module was linked before; or it does not,
   * and the first workflow was refused. The ids are restored exactly when the two ids agree, and a
   * sound module list exactly when the module is not on it and was not taken off it.
   */
  lemma FailedRegistration(sys: System, m: Module, id: nat, luck: Luck)
    requires WellFormed(sys.hooks)
    requires luck.slot >= 0 ==> luck.slot !in sys.ids
    requires Registered(sys, m, id, luck).1 < 0
    ensures var after := Registered(sys, m, id, luck).0;
            if luck.slot < 0 then after == sys
            else
              && (after.hooks == sys.hooks <==>
                  if id == luck.slot || id in sys.ids then Fresh(sys.hooks, m.workflows)
                  else m.workflows == [] || !Admissible(sys.hooks, m.workflows[0], luck.env(0)))
              && (after.ids == sys.ids <==> id == luck.slot)
              && (!sys.list.damaged ==>
                    && (after.list == sys.list <==> m !in sys.list.nodes && m !in sys.list.removed)
                    && (after.list.damaged <==> m !in sys.list.nodes && m in sys.list.removed))
  {
    hide InsertFrom, DeleteAll, Fresh, Admissible, WellFormed, Without;
    if luck.slot >= 0 {
      var after := Registered(sys, m, id, luck).0;
      RollbackExact(sys.hooks, m.workflows, luck.env);
      FirstInserted(sys.hooks, m.workflows, luck.env);
      if id != luck.slot {
        assert luck.slot in after.ids;
      }
      if m in sys.list.nodes {
        WithoutShorter(sys.list.nodes, m);
      }
    }
  }

  /** Only workflows with a place, and not in the registry, get inserted. */
  lemma {:induction false} InsertedWereNew(s: State, ws: seq<Workflow>, k: nat, last: int, env: nat -> Outcome)
    requires k <= |ws| && WellFormed(s) && last >= 0
    ensures forall j :: k <= j < InsertFrom(s, ws, k, last, env).2 ==>
              !PlaceOf(ws[j]).Nowhere? && ws[j] !in Lookup(s, PlaceOf(ws[j]))
    decreases |ws| - k
  {
    if k < |ws| {
      InsertEffect(s, ws[k], env(k));
      var (next, ret) := Insert(s, ws[k], env(k));
      if ret >= 0 {
        InsertedWereNew(next, ws, k + 1, ret, env);
      }
    }
  }
}
