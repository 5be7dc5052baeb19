/** Properties of every sequence of registrations and removals. */
module ModuleRuns {
  import opened HookTable
  import opened HookEffects
  import opened ModuleList
  import opened ModuleManager
  import opened ModuleTheorems

  datatype Event = Register(m: Module, luck: Luck) | Unregister(m: Module)

  /** A run's state: the system, and the id each module carries (zero until it is first registered). */
  datatype World = World(sys: System, number: map<Module, nat>)

  function Number(world: World, m: Module): nat {
    if m in world.number then world.number[m] else 0
  }

  /** The id allocator hands out ids that are not in use. */
  predicate Legal(world: World, e: Event) {
    e.Register? && e.luck.slot >= 0 ==> e.luck.slot !in world.sys.ids
  }

  ghost function Step(world: World, e: Event): (after: World)
    requires WellFormed(world.sys.hooks)
    ensures WellFormed(after.sys.hooks)
  {
    match e
    case Register(m, luck) =>
      var (sys, _, id) := Registered(world.sys, m, Number(world, m), luck);
      World(sys, world.number[m := id])
    case Unregister(m) =>
      World(Unregistered(world.sys, m, Number(world, m)), world.number)
  }

  const START := World(NOTHING, map[])

  ghost function Run(events: seq<Event>): (world: World)
    ensures WellFormed(world.sys.hooks)
  {
    if events == [] then START else Step(Run(events[..|events| - 1]), events[|events| - 1])
  }

  /**
   * After any events whatever (failures, repeated registrations, stray removals) a kprobe is
   * registered exactly while its list is non-empty, no two timers share an interval, every timer
   * calls something and only workflows of its own interval, and no workflow is in two places.
   */
  lemma RegistryInvariant(events: seq<Event>)
    ensures var s := Run(events).sys.hooks;
            && |s.hooks| == HOOKEND && |s.probes| == KPROBE_HOOK_END + 1
            && (forall h :: 0 <= h <= KPROBE_HOOK_END ==> (s.probes[h] <==> s.hooks[h] != []))
            && (forall i, j :: 0 <= i < j < |s.timers| ==> s.timers[i].interval != s.timers[j].interval)
            && (forall k :: 0 <= k < |s.timers| ==> s.timers[k].callbacks != [])
            && (forall k, j :: 0 <= k < |s.timers| && 0 <= j < |s.timers[k].callbacks| ==>
                  s.timers[k].callbacks[j].interval == s.timers[k].interval)
            && (forall p, q, w :: w in Lookup(s, p) && w in Lookup(s, q) ==> p == q)
  {
    var s := Run(events).sys.hooks;
    forall p, q, w | w in Lookup(s, p) && w in Lookup(s, q) ensures p == q {
      OnlyAtItsPlace(s, w, p);
      OnlyAtItsPlace(s, w, q);
    }
    forall k, j | 0 <= k < |s.timers| && 0 <= j < |s.timers[k].callbacks|
      ensures s.timers[k].callbacks[j].interval == s.timers[k].interval
    {
      assert TimerFine(s.timers[k]);
      assert PlaceOf(s.timers[k].callbacks[j]) == Every(s.timers[k].interval);
    }
    assert forall k :: 0 <= k < |s.timers| ==> TimerFine(s.timers[k]);
  }

  /* ---- runs in which modules are used as they are meant to be ------------------------------ */

  predicate Disjoint(a: Module, b: Module) {
    forall w :: w in a.workflows ==> w !in b.workflows
  }

  /**
   * A registration that succeeds is of a module that is not registered; one that fails got no id, or
   * got the id the module carries while none of its workflows was linked and it had not been taken off
   * the module list. A removal is of a registered module, or of one whose id is not in use and which
   * had not been taken off the list.
   */
  ghost predicate Orderly(world: World, e: Event)
    requires WellFormed(world.sys.hooks)
  {
    match e
    case Register(m, luck) =>
      if Registered(world.sys, m, Number(world, m), luck).1 >= 0 then m !in world.sys.list.nodes
      else
        || luck.slot < 0
        || (luck.slot == Number(world, m) && Fresh(world.sys.hooks, m.workflows) && m !in world.sys.list.removed)
    case Unregister(m) =>
      m in world.sys.list.nodes || (Number(world, m) !in world.sys.ids && m !in world.sys.list.removed)
  }

  ghost predicate OrderlyRun(events: seq<Event>) {
    forall n: nat :: n < |events| ==> Legal(Run(events[..n]), events[n]) && Orderly(Run(events[..n]), events[n])
  }

  ghost predicate SeparateModules(modules: seq<Module>) {
    forall i, j :: 0 <= i < j < |modules| ==> modules[i] != modules[j] && Disjoint(modules[i], modules[j])
  }

  ghost predicate ListsAgree(sys: System) {
    forall p :: Lookup(sys.hooks, p) == Expected(sys.list.nodes, p)
  }

  /** The ids in use are those of the registered modules, one each. */
  ghost predicate IdsAgree(world: World) {
    && (forall m :: m in world.sys.list.nodes ==>
          m in world.number && world.number[m] in world.sys.ids && world.sys.ids[world.number[m]] == m)
    && (forall id :: id in world.sys.ids ==> world.sys.ids[id] in world.sys.list.nodes)
    && (forall id :: id in world.sys.ids ==> world.sys.ids[id] in world.number && world.number[world.sys.ids[id]] == id)
  }

  ghost predicate Tidy(world: World) {
    && WellFormed(world.sys.hooks)
    && !world.sys.list.damaged
    && SeparateModules(world.sys.list.nodes)
    && ListsAgree(world.sys)
    && IdsAgree(world)
  }

  lemma {:induction false} ExpectedHas(modules: seq<Module>, i: nat, w: Workflow)
    requires i < |modules| && w in modules[i].workflows && !PlaceOf(w).Nowhere?
    ensures w in Expected(modules, PlaceOf(w))
  {
    if i == 0 {
      OnPlaceMembers(modules[0].workflows, PlaceOf(w));
    } else {
      ExpectedHas(modules[1..], i - 1, w);
    }
  }

  /** A registration that succeeds is of a module that shares no workflow with a registered one. */
  lemma SuccessIsSeparate(world: World, m: Module, luck: Luck)
    requires Tidy(world) && Registered(world.sys, m, Number(world, m), luck).1 >= 0
    ensures forall i :: 0 <= i < |world.sys.list.nodes| ==> Disjoint(m, world.sys.list.nodes[i])
  {
    InsertedWereNew(world.sys.hooks, m.workflows, 0, 0, luck.env);
    forall i, w | 0 <= i < |world.sys.list.nodes| && w in m.workflows ensures w !in world.sys.list.nodes[i].workflows {
      var k :| 0 <= k < |m.workflows| && m.workflows[k] == w;
      assert w !in Lookup(world.sys.hooks, PlaceOf(w));
      if w in world.sys.list.nodes[i].workflows {
        ExpectedHas(world.sys.list.nodes, i, w);
      }
    }
  }

  lemma OwnExcluded(m: Module, p: Place)
    ensures Excluding(OnPlace(m.workflows, p), m.workflows) == []
  {
    var list := OnPlace(m.workflows, p);
    OnPlaceMembers(m.workflows, p);
    forall w: Workflow | w in list ensures w in m.workflows {
      assert PlaceOf(w) == p;
    }
    ExcludeAll(list, m.workflows);
  }

  lemma OthersKept(a: Module, m: Module, p: Place)
    requires Disjoint(a, m)
    ensures Excluding(OnPlace(a.workflows, p), m.workflows) == OnPlace(a.workflows, p)
  {
    var list := OnPlace(a.workflows, p);
    OnPlaceMembers(a.workflows, p);
    forall w: Workflow | w in list ensures w !in m.workflows {
      assert PlaceOf(w) == p;
    }
    ExcludeNone(list, m.workflows);
  }

  lemma {:induction false} AllOthersKept(modules: seq<Module>, m: Module, p: Place)
    requires forall i :: 0 <= i < |modules| ==> Disjoint(modules[i], m)
    ensures Excluding(Expected(modules, p), m.workflows) == Expected(modules, p)
  {
    if modules != [] && !p.Nowhere? {
      OthersKept(modules[0], m, p);
      AllOthersKept(modules[1..], m, p);
      ExcludeAppend(OnPlace(modules[0].workflows, p), Expected(modules[1..], p), m.workflows);
    }
  }

  lemma {:induction false} ExpectedExcluding(modules: seq<Module>, m: Module, p: Place)
    requires SeparateModules(modules) && m in modules
    ensures Excluding(Expected(modules, p), m.workflows) == Expected(Without(modules, m), p)
  {
    if !p.Nowhere? {
      ExcludeAppend(OnPlace(modules[0].workflows, p), Expected(modules[1..], p), m.workflows);
      if modules[0] == m {
        OwnExcluded(m, p);
        forall i | 0 <= i < |modules[1..]| ensures Disjoint(modules[1..][i], m) {
          assert Disjoint(modules[0], modules[i + 1]);
        }
        AllOthersKept(modules[1..], m, p);
      } else {
        assert exists i :: 0 < i < |modules| && modules[i] == m;
        OthersKept(modules[0], m, p);
        ExpectedExcluding(modules[1..], m, p);
      }
    }
  }

  lemma {:induction false} WithoutModule(modules: seq<Module>, m: Module)
    requires SeparateModules(modules) && m in modules
    ensures SeparateModules(Without(modules, m))
    ensures forall x: Module :: x in Without(modules, m) <==> x in modules && x != m
  {
    if modules[0] != m {
      WithoutModule(modules[1..], m);
      assert forall x: Module :: x in modules <==> x == modules[0] || x in modules[1..];
      var rest := Without(modules[1..], m);
      forall j | 0 <= j < |rest| ensures rest[j] != modules[0] && Disjoint(modules[0], rest[j]) {
        WithoutFrom(modules[1..], m, rest[j]);
      }
    } else {
      assert modules == [m] + modules[1..];
    }
  }

  lemma SuccessLists(world: World, m: Module, luck: Luck)
    requires Tidy(world) && Registered(world.sys, m, Number(world, m), luck).1 >= 0
    ensures ListsAgree(Step(world, Register(m, luck)).sys)
  {
    var after := Step(world, Register(m, luck));
    InsertFromEffect(world.sys.hooks, m.workflows, 0, 0, luck.env);
    assert m.workflows[0..|m.workflows|] == m.workflows;
    assert after.sys.list.nodes == [m] + world.sys.list.nodes && after.sys.list.nodes[1..] == world.sys.list.nodes;
  }

  lemma SuccessStep(world: World, m: Module, luck: Luck)
    requires Tidy(world) && Legal(world, Register(m, luck))
    requires Registered(world.sys, m, Number(world, m), luck).1 >= 0
    ensures Tidy(Step(world, Register(m, luck))) <==> m !in world.sys.list.nodes
  {
    hide InsertFrom, DeleteAll, ListsAgree;
    var after := Step(world, Register(m, luck));
    if m in world.sys.list.nodes {
      assert world.number[m] in after.sys.ids && after.number[m] != world.number[m];
    } else {
      SuccessIsSeparate(world, m, luck);
      SuccessLists(world, m, luck);
    }
  }

  lemma FailureStep(world: World, m: Module, luck: Luck)
    requires Tidy(world) && Legal(world, Register(m, luck))
    requires Registered(world.sys, m, Number(world, m), luck).1 < 0
    ensures Orderly(world, Register(m, luck)) ==> Step(world, Register(m, luck)).sys == world.sys
    ensures Tidy(Step(world, Register(m, luck))) <==> Orderly(world, Register(m, luck))
  {
    hide InsertFrom, DeleteAll, Fresh, WellFormed, SeparateModules, ListsAgree, Admissible;
    var after := Step(world, Register(m, luck));
    FailedRegistration(world.sys, m, Number(world, m), luck);
    if luck.slot >= 0 {
      if luck.slot != Number(world, m) {
        assert luck.slot in after.sys.ids && after.sys.ids[luck.slot] == m;
      } else if !Fresh(world.sys.hooks, m.workflows) {
        FailureUnlinks(world, m, luck);
      }
    }
  }

  /** A failed registration of a module with a linked workflow takes that workflow from its own module. */
  lemma FailureUnlinks(world: World, m: Module, luck: Luck)
    requires Tidy(world) && Legal(world, Register(m, luck)) && luck.slot == Number(world, m)
    requires Registered(world.sys, m, Number(world, m), luck).1 < 0 && !Fresh(world.sys.hooks, m.workflows)
    ensures !ListsAgree(Step(world, Register(m, luck)).sys)
  {
    hide InsertFrom, DeleteAll, WellFormed, PlaceOf, Lookup, Excluding, Expected;
    var after := Step(world, Register(m, luck));
    WithoutAbsent(world.sys.list.nodes, m);
    var k :| 0 <= k < |m.workflows| && m.workflows[k] in Lookup(world.sys.hooks, PlaceOf(m.workflows[k]));
    var p := PlaceOf(m.workflows[k]);
    var mid := InsertFrom(world.sys.hooks, m.workflows, 0, 0, luck.env).0;
    DeleteAllAt(mid, m.workflows, p);
    ExcludedGone(Lookup(mid, p), m.workflows);
    assert m.workflows[k] in Expected(world.sys.list.nodes, p);
    assert m.workflows[k] !in Lookup(after.sys.hooks, p);
  }

  lemma RemovalStep(world: World, m: Module)
    requires Tidy(world) && m in world.sys.list.nodes
    ensures Tidy(Step(world, Unregister(m)))
  {
    var after := Step(world, Unregister(m));
    assert ListsAgree(after.sys) by {
      DeleteAllEffect(world.sys.hooks, m.workflows);
      forall p ensures Lookup(after.sys.hooks, p) == Expected(after.sys.list.nodes, p) {
        ExpectedExcluding(world.sys.list.nodes, m, p);
      }
    }
    WithoutModule(world.sys.list.nodes, m);
    hide WellFormed, ListsAgree, SeparateModules, DeleteAll, Without;
  }

  lemma StrayRemovalStep(world: World, m: Module)
    requires Tidy(world) && m !in world.sys.list.nodes
    ensures Tidy(Step(world, Unregister(m))) <==>
              Number(world, m) !in world.sys.ids && m !in world.sys.list.removed
  {
    var after := Step(world, Unregister(m));
    WithoutAbsent(world.sys.list.nodes, m);
    hide WellFormed, ListsAgree, SeparateModules, DeleteAll, Without;
    if Number(world, m) in world.sys.ids {
      var b := world.sys.ids[Number(world, m)];
      assert b in after.sys.list.nodes && after.number[b] !in after.sys.ids;
    } else {
      assert after.sys.ids == world.sys.ids;
    }
  }

  /** While lists and ids agree with the registered modules, an event keeps them so exactly if it is orderly. */
  lemma OrderlyExact(world: World, e: Event)
    requires Tidy(world) && Legal(world, e)
    ensures Tidy(Step(world, e)) <==> Orderly(world, e)
  {
    match e
    case Register(m, luck) =>
      if Registered(world.sys, m, Number(world, m), luck).1 >= 0 {
        SuccessStep(world, m, luck);
      } else {
        FailureStep(world, m, luck);
      }
    case Unregister(m) =>
      if m in world.sys.list.nodes {
        RemovalStep(world, m);
      } else {
        StrayRemovalStep(world, m);
      }
  }

  /**
   * After any orderly run each hook's list and each interval's list is exactly the workflows of the
   * registered modules on that hook or interval, newest first, and the ids in use are theirs.
   */
  lemma {:induction false} ListsAreTheRegisteredModules(events: seq<Event>)
    requires OrderlyRun(events)
    ensures Tidy(Run(events))
    ensures forall p :: Lookup(Run(events).sys.hooks, p) == Expected(Run(events).sys.list.nodes, p)
    decreases |events|
  {
    if events != [] {
      var n := |events| - 1;
      var before := Run(events[..n]);
      assert forall k: nat :: k < n ==> events[..n][..k] == events[..k];
      ListsAreTheRegisteredModules(events[..n]);
      OrderlyExact(before, events[n]);
    }
  }

  /* ---- what goes wrong otherwise ------------------------------------------------------------ */

  /** A removal takes a module's workflows out of the registry exactly when its id is known. */
  lemma RemovalNeedsTheId(world: World, m: Module)
    requires WellFormed(world.sys.hooks) && !Fresh(world.sys.hooks, m.workflows)
    ensures Fresh(Step(world, Unregister(m)).sys.hooks, m.workflows) <==> Number(world, m) in world.sys.ids
  {
    var after := Step(world, Unregister(m));
    DeleteAllEffect(world.sys.hooks, m.workflows);
    if Number(world, m) in world.sys.ids {
      forall k | 0 <= k < |m.workflows| ensures m.workflows[k] !in Lookup(after.sys.hooks, PlaceOf(m.workflows[k])) {
        ExcludedGone(Lookup(world.sys.hooks, PlaceOf(m.workflows[k])), m.workflows);
      }
    }
  }

  /**
   * The module list is damaged by exactly these events: a registration that succeeds for a module on
   * the list, and the removal, by the caller or by a rollback, of a module taken off it before.
   */
  lemma DamageExact(world: World, e: Event)
    requires WellFormed(world.sys.hooks) && !world.sys.list.damaged
    ensures var list := world.sys.list;
            Step(world, e).sys.list.damaged <==>
              match e
              case Register(m, luck) =>
                if Registered(world.sys, m, Number(world, m), luck).1 >= 0 then m in list.nodes
                else luck.slot >= 0 && m !in list.nodes && m in list.removed
              case Unregister(m) => m !in list.nodes && m in list.removed
  {
    hide InsertFrom, DeleteAll, WellFormed;
  }

  lemma RunOn(before: seq<Event>, e: Event)
    ensures Run(before + [e]) == Step(Run(before), e)
  {
    assert (before + [e])[..|before|] == before;
  }

  /** The first kprobe hook whose table entry names a kernel function. */
  const PROBED := KPROBE_HOOK_START + 1

  function Holding(w: Workflow): State {
    State([[], [w], [], [], []], [false, true, false], [])
  }

  predicate OneProbe(a: Module, w: Workflow) {
    a.workflows == [w] && !a.parameter && w.hookType == PROBED
  }

  const GRANTED: nat -> Outcome := _ => Outcome(0, true)

  const REFUSED: nat -> Outcome := _ => Outcome(-EINVAL, true)

  lemma FirstModuleRegisters(a: Module, w: Workflow)
    requires OneProbe(a, w)
    ensures Run([Register(a, Luck(0, true, GRANTED))])
            == World(System(Holding(w), map[0 := a], Listing([a], {}, false)), map[a := 0])
  {
    assert [] + [Register(a, Luck(0, true, GRANTED))] == [Register(a, Luck(0, true, GRANTED))];
    RunOn([], Register(a, Luck(0, true, GRANTED)));
    assert [w] + EMPTY.hooks[PROBED] == [w];
    assert EMPTY.hooks[PROBED := [w]] == Holding(w).hooks && EMPTY.probes[PROBED := true] == Holding(w).probes;
    assert InsertFrom(EMPTY, [w], 0, 0, GRANTED) == InsertFrom(Holding(w), [w], 1, 0, GRANTED) == (Holding(w), 0, 1);
  }

  lemma OnlyWorkflowUnlinked(w: Workflow)
    requires w.hookType == PROBED
    ensures WellFormed(Holding(w)) && DeleteAll(Holding(w), [w]) == EMPTY
  {
    assert HookFine([w], PROBED);
    DeleteEffect(Holding(w), w);
    assert Without([w], w) == [];
    assert Holding(w).hooks[PROBED := []] == EMPTY.hooks && Holding(w).probes[PROBED := false] == EMPTY.probes;
    assert Delete(Holding(w), w).0 == EMPTY;
    assert [w][1..] == [];
  }

  /** A module that was registered and removed. */
  lemma FirstModuleRemoved(a: Module, w: Workflow)
    requires OneProbe(a, w)
    ensures Run([Register(a, Luck(0, true, GRANTED)), Unregister(a)])
            == World(System(EMPTY, map[], Listing([], {a}, false)), map[a := 0])
  {
    var e0 := Register(a, Luck(0, true, GRANTED));
    assert [e0] + [Unregister(a)] == [e0, Unregister(a)];
    RunOn([e0], Unregister(a));
    FirstModuleRegisters(a, w);
    OnlyWorkflowUnlinked(w);
    assert map[0 := a] - {0} == map[];
    assert Without([a], a) == [];
  }

  /**
   * Removing it a second time damages the list: its pointers, poisoned by the first removal, pass the
   * test for a listed module.
   */
  lemma RemovingTwiceDamages(a: Module, w: Workflow)
    requires OneProbe(a, w)
    ensures Run([Register(a, Luck(0, true, GRANTED)), Unregister(a), Unregister(a)]).sys.list.damaged
  {
    var events := [Register(a, Luck(0, true, GRANTED)), Unregister(a)];
    assert events + [Unregister(a)] == [events[0], events[1], Unregister(a)];
    RunOn(events, Unregister(a));
    FirstModuleRemoved(a, w);
  }

  /** So does registering it again when the kernel refuses its kprobe, even with the same id. */
  lemma FailingAfterRemovalDamages(a: Module, w: Workflow)
    requires OneProbe(a, w)
    ensures var events := [Register(a, Luck(0, true, GRANTED)), Unregister(a), Register(a, Luck(0, true, REFUSED))];
            Run(events).sys == System(EMPTY, map[], Listing([], {a}, true))
  {
    var events, e := [Register(a, Luck(0, true, GRANTED)), Unregister(a)], Register(a, Luck(0, true, REFUSED));
    assert events + [e] == [events[0], events[1], e];
    RunOn(events, e);
    FirstModuleRemoved(a, w);
    assert InsertFrom(EMPTY, [w], 0, 0, REFUSED) == (EMPTY, -EINVAL, 0);
    FailedRegistration(Run(events).sys, a, 0, e.luck);
  }

  /**
   * The case the rollback misses: a first module is registered with id 0; a second, new module (whose id
   * is still 0) fails; its rollback drops id 0, so removing the first module afterwards leaves its
   * workflow on the hook although the module is no longer listed.
   */
  lemma FailureStrandsAnotherModule(a: Module, b: Module, w: Workflow, x: Workflow)
    requires a != b && OneProbe(a, w)
    requires b.workflows == [x] && x.hookType == KPROBE_HOOK_END + 1
    ensures var end := Run([Register(a, Luck(0, true, GRANTED)), Register(b, Luck(1, true, GRANTED)), Unregister(a)]);
            && end.sys.list.nodes == [] && end.sys.ids == map[1 := b]
            && Lookup(end.sys.hooks, Hook(PROBED)) == [w]
  {
    var e0, e1, e2 := Register(a, Luck(0, true, GRANTED)), Register(b, Luck(1, true, GRANTED)), Unregister(a);
    assert [e0] + [e1] == [e0, e1] && [e0, e1] + [e2] == [e0, e1, e2];
    RunOn([e0], e1);
    RunOn([e0, e1], e2);
    FirstModuleRegisters(a, w);
    OnlyWorkflowUnlinked(w);
    SecondModuleFails(a, b, w, x);
    assert Run([e0, e1]).sys == System(Holding(w), map[1 := b], Listing([a], {}, false));
  }

  lemma SecondModuleFails(a: Module, b: Module, w: Workflow, x: Workflow)
    requires a != b && b.workflows == [x] && x.hookType == KPROBE_HOOK_END + 1 && WellFormed(Holding(w))
    ensures Step(World(System(Holding(w), map[0 := a], Listing([a], {}, false)), map[a := 0]),
                 Register(b, Luck(1, true, GRANTED)))
            == World(System(Holding(w), map[1 := b], Listing([a], {}, false)), map[a := 0, b := 0])
  {
    assert InsertFrom(Holding(w), [x], 0, 0, GRANTED) == (Holding(w), -EFAULT, 0);
    assert DeleteAll(Holding(w), [x]) == Holding(w) by {
      DeleteEffect(Holding(w), x);
      assert [x][1..] == [];
    }
    assert map[0 := a][1 := b] - {0} == map[1 := b];
    assert map[a := 0][b := 0] == map[a := 0, b := 0];
  }

  /**
   * The other case: a module is registered a second time. Its first workflow is refused because it is
   * linked already, and the rollback then unlinks it and takes the module from the list, although the
   * first registration was never removed.
   */
  lemma RegisteringTwiceUnlinks(a: Module, w: Workflow)
    requires OneProbe(a, w)
    ensures var end := Run([Register(a, Luck(0, true, GRANTED)), Register(a, Luck(1, true, GRANTED))]);
            end.sys == System(EMPTY, map[1 := a], Listing([], {a}, false))
  {
    var e0, e1 := Register(a, Luck(0, true, GRANTED)), Register(a, Luck(1, true, GRANTED));
    assert [e0] + [e1] == [e0, e1];
    RunOn([e0], e1);
    FirstModuleRegisters(a, w);
    OnlyWorkflowUnlinked(w);
    assert InsertFrom(Holding(w), [w], 0, 0, GRANTED) == (Holding(w), -EEXIST, 0);
    assert Without([a], a) == [];
    assert map[0 := a][1 := a] - {0} == map[1 := a];
  }
}
