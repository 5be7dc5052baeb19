/**
 * Registrations and removals that overlap: a registration allocates its id before it takes the mutex,
 * inserts the workflows under it, and releases it before a rollback takes it again.
 */
module ModuleCalls {
  import opened HookTable
  import opened HookEffects
  import opened ModuleList
  import opened ModuleManager
  import opened ModuleTheorems
  import opened ModuleRuns

  /** How far a call of `secDetector_module_register` has got. */
  datatype Phase = Allocated(slot: nat) | Failed(ret: int) | Done(ret: int)

  datatype Call = Call(m: Module, phase: Phase)

  datatype Scene = Scene(world: World, calls: seq<Call>)

  /** Each action is one stretch of a call no other call can come into. */
  datatype Action =
    | Alloc(m: Module, slot: int)
    | Insert(call: nat, entry: bool, env: nat -> Outcome)
    | Rollback(call: nat)
    | Remove(m: Module)

  ghost predicate Possible(s: Scene, a: Action) {
    match a
    case Alloc(_, slot) => slot >= 0 ==> slot !in s.world.sys.ids
    case Insert(c, _, _) => c < |s.calls| && s.calls[c].phase.Allocated?
    case Rollback(c) => c < |s.calls| && s.calls[c].phase.Failed?
    case Remove(_) => true
  }

  /** What the insertion loop of call `c` does: the hooks after it, its answer, and where it stopped. */
  ghost function Inserted(s: Scene, c: nat, env: nat -> Outcome): (r: (State, int, nat))
    requires WellFormed(s.world.sys.hooks) && c < |s.calls|
    ensures WellFormed(r.0) && r.2 <= |s.calls[c].m.workflows|
  {
    InsertFrom(s.world.sys.hooks, s.calls[c].m.workflows, 0, 0, env)
  }

  ghost function Act(s: Scene, a: Action): (after: Scene)
    requires WellFormed(s.world.sys.hooks) && Possible(s, a)
    ensures WellFormed(after.world.sys.hooks)
  {
    var sys, number := s.world.sys, s.world.number;
    match a
    case Alloc(m, slot) =>
      var known := number[m := Number(s.world, m)];
      if slot < 0 then Scene(World(sys, known), s.calls + [Call(m, Done(slot))])
      else Scene(World(sys.(ids := sys.ids[slot := m]), known), s.calls + [Call(m, Allocated(slot))])
    case Insert(c, entry, env) =>
      var m := s.calls[c].m;
      var (hooks, ret, _) := Inserted(s, c, env);
      if ret < 0 then
        Scene(World(sys.(hooks := hooks), number), s.calls[c := Call(m, Failed(ret))])
      else if m.parameter && !entry then
        Scene(World(sys.(hooks := hooks), number), s.calls[c := Call(m, Failed(-EINVAL))])
      else
        Scene(World(System(hooks, sys.ids, Added(sys.list, m)), number[m := s.calls[c].phase.slot]),
              s.calls[c := Call(m, Done(ret))])
    case Rollback(c) =>
      var m := s.calls[c].m;
      Scene(World(Unregistered(sys, m, Number(s.world, m)), number), s.calls[c := Call(m, Done(s.calls[c].phase.ret))])
    case Remove(m) => s.(world := Step(s.world, Unregister(m)))
  }

  ghost predicate AllPossible(s: Scene, actions: seq<Action>)
    requires WellFormed(s.world.sys.hooks)
    decreases |actions|
  {
    actions != [] ==> Possible(s, actions[0]) && AllPossible(Act(s, actions[0]), actions[1..])
  }

  ghost function Acts(s: Scene, actions: seq<Action>): (after: Scene)
    requires WellFormed(s.world.sys.hooks) && AllPossible(s, actions)
    ensures WellFormed(after.world.sys.hooks)
    decreases |actions|
  {
    if actions == [] then s else Acts(Act(s, actions[0]), actions[1..])
  }

  /* ---- calls that do not overlap ---------------------------------------------------------------- */

  /** The stretches of one call, with nothing in between, are the registration of `ModuleRuns`. */
  lemma UninterruptedCall(s: Scene, m: Module, luck: Luck)
    requires WellFormed(s.world.sys.hooks) && Possible(s, Alloc(m, luck.slot))
    ensures var a := Act(s, Alloc(m, luck.slot));
            var c := |s.calls|;
            if luck.slot < 0 then a.world == Step(s.world, Register(m, luck))
            else
              && Possible(a, Insert(c, luck.entry, luck.env))
              && var b := Act(a, Insert(c, luck.entry, luck.env));
                 if b.calls[c].phase.Done? then b.world == Step(s.world, Register(m, luck))
                 else Possible(b, Rollback(c)) && Act(b, Rollback(c)).world == Step(s.world, Register(m, luck))
  {
    hide InsertFrom, DeleteAll, WellFormed, Added, Dropped;
  }

  /* ---- a rollback among other calls --------------------------------------------------------------- */

  /** The part of a list that is in `ws`, as `Excluding` is the part that is not. */
  function Within(list: seq<Workflow>, ws: seq<Workflow>): seq<Workflow> {
    if list == [] then [] else (if list[0] in ws then [list[0]] else []) + Within(list[1..], ws)
  }

  lemma WithinHead(w: Workflow, rest: seq<Workflow>, ws: seq<Workflow>)
    ensures Within([w] + rest, ws) == (if w in ws then [w] else []) + Within(rest, ws)
  {
    assert ([w] + rest)[1..] == rest;
  }

  lemma {:induction false} WithinAppend(a: seq<Workflow>, b: seq<Workflow>, ws: seq<Workflow>)
    ensures Within(a + b, ws) == Within(a, ws) + Within(b, ws)
  {
    if a == [] {
      assert a + b == b;
    } else {
      hide Within;
      var head, tail := a[0], a[1..];
      assert [head] + tail == a && [head] + (tail + b) == a + b;
      WithinHead(head, tail, ws);
      WithinHead(head, tail + b, ws);
      WithinAppend(tail, b, ws);
    }
  }

  lemma {:induction false} WithinAll(list: seq<Workflow>, ws: seq<Workflow>)
    requires forall w: Workflow :: w in list ==> w in ws
    ensures Within(list, ws) == list
  {
    if list != [] {
      assert list[0] in list && list == [list[0]] + list[1..];
      WithinAll(list[1..], ws);
    }
  }

  lemma {:induction false} WithinNone(list: seq<Workflow>, ws: seq<Workflow>)
    ensures (forall w: Workflow :: w in list ==> w !in ws) <==> Within(list, ws) == []
  {
    if list != [] {
      assert list == [list[0]] + list[1..];
      WithinNone(list[1..], ws);
    }
  }

  /** What others are removed does not matter to it. */
  lemma {:induction false} WithinExcluding(list: seq<Workflow>, others: seq<Workflow>, ws: seq<Workflow>)
    requires forall w: Workflow :: w in others ==> w !in ws
    ensures Within(Excluding(list, others), ws) == Within(list, ws)
  {
    if list != [] {
      WithinExcluding(list[1..], others, ws);
      var rest := Excluding(list[1..], others);
      if list[0] in others {
        assert [] + rest == rest;
      } else {
        assert ([list[0]] + rest)[1..] == rest;
      }
    }
  }

  function Own(s: Scene, p: Place, m: Module): seq<Workflow> {
    Within(Lookup(s.world.sys.hooks, p), m.workflows)
  }

  function Others(s: Scene, p: Place, m: Module): seq<Workflow> {
    Excluding(Lookup(s.world.sys.hooks, p), m.workflows)
  }

  /** Whose workflows an action inserts or unlinks. */
  function Subject(s: Scene, a: Action): (m: Module)
    requires a.Insert? || a.Rollback? ==> a.call < |s.calls|
  {
    match a
    case Alloc(m, _) => m
    case Insert(c, _, _) => s.calls[c].m
    case Rollback(c) => s.calls[c].m
    case Remove(m) => m
  }

  /** The other actions are on modules that share no workflow with `m`. */
  ghost predicate Apart(s: Scene, actions: seq<Action>, m: Module)
    requires WellFormed(s.world.sys.hooks) && AllPossible(s, actions)
    decreases |actions|
  {
    actions != [] ==> Disjoint(Subject(s, actions[0]), m) && Apart(Act(s, actions[0]), actions[1..], m)
  }

  lemma InsertOwn(s: Scene, a: Action, p: Place)
    requires WellFormed(s.world.sys.hooks) && Possible(s, a) && a.Insert?
    ensures var m := s.calls[a.call].m;
            && Others(Act(s, a), p, m) == Others(s, p, m)
            && Own(Act(s, a), p, m)
               == (if p.Nowhere? then [] else OnPlace(m.workflows[..Inserted(s, a.call, a.env).2], p)) + Own(s, p, m)
  {
    var m, hooks := s.calls[a.call].m, s.world.sys.hooks;
    var n := Inserted(s, a.call, a.env).2;
    var top := if p.Nowhere? then [] else OnPlace(m.workflows[..n], p);
    assert Lookup(Act(s, a).world.sys.hooks, p) == top + Lookup(hooks, p) by {
      InsertFromEffect(hooks, m.workflows, 0, 0, a.env);
      assert m.workflows[0..n] == m.workflows[..n];
    }
    TopMembers(m.workflows, n, p);
    assert m.workflows[0..n] == m.workflows[..n];
    hide Lookup, InsertFrom, Act, WellFormed, Inserted;
    ExcludeAppend(top, Lookup(hooks, p), m.workflows);
    ExcludeAll(top, m.workflows);
    WithinAppend(top, Lookup(hooks, p), m.workflows);
    WithinAll(top, m.workflows);
  }

  /** An action on a module that shares no workflow leaves `m`'s part of every list as it is. */
  lemma OwnKept(s: Scene, a: Action, p: Place, m: Module)
    requires WellFormed(s.world.sys.hooks) && Possible(s, a) && Disjoint(Subject(s, a), m)
    ensures Own(Act(s, a), p, m) == Own(s, p, m)
  {
    hide InsertFrom, DeleteAll, Lookup, WellFormed, Within, Excluding, OnPlace;
    var b, hooks := Subject(s, a), s.world.sys.hooks;
    if a.Insert? {
      InsertFromEffect(hooks, b.workflows, 0, 0, a.env);
      InsertedApart(b, m, Lookup(hooks, p), Inserted(s, a.call, a.env).2, p);
    } else if !a.Alloc? && Number(s.world, b) in s.world.sys.ids {
      DeleteAllEffect(hooks, b.workflows);
      WithinExcluding(Lookup(hooks, p), b.workflows, m.workflows);
    }
  }

  lemma InsertedApart(b: Module, m: Module, list: seq<Workflow>, n: nat, p: Place)
    requires n <= |b.workflows| && Disjoint(b, m)
    ensures Within((if p.Nowhere? then [] else OnPlace(b.workflows[0..n], p)) + list, m.workflows)
            == Within(list, m.workflows)
  {
    if p.Nowhere? {
      assert [] + list == list;
    } else {
      hide OnPlace, Within;
      TopMembers(b.workflows, n, p);
      WithinNone(OnPlace(b.workflows[0..n], p), m.workflows);
      WithinAppend(OnPlace(b.workflows[0..n], p), list, m.workflows);
    }
  }

  lemma {:induction false} OwnKeptThrough(s: Scene, actions: seq<Action>, p: Place, m: Module)
    requires WellFormed(s.world.sys.hooks) && AllPossible(s, actions) && Apart(s, actions, m)
    ensures Own(Acts(s, actions), p, m) == Own(s, p, m)
    decreases |actions|
  {
    hide Act, Own, Possible, WellFormed;
    if actions != [] {
      OwnKept(s, actions[0], p, m);
      OwnKeptThrough(Act(s, actions[0]), actions[1..], p, m);
    }
  }

  lemma {:induction false} CallKept(s: Scene, actions: seq<Action>, c: nat)
    requires WellFormed(s.world.sys.hooks) && AllPossible(s, actions) && c < |s.calls|
    ensures var after := Acts(s, actions);
            c < |after.calls| && after.calls[c].m == s.calls[c].m
    decreases |actions|
  {
    if actions != [] {
      CallKept(Act(s, actions[0]), actions[1..], c);
    }
  }

  /** No workflow is linked exactly when no list has a part in `ws`. */
  lemma FreshExactly(s: Scene, m: Module)
    requires WellFormed(s.world.sys.hooks)
    ensures Fresh(s.world.sys.hooks, m.workflows) <==> forall p :: Own(s, p, m) == []
  {
    var hooks := s.world.sys.hooks;
    forall p ensures Fresh(hooks, m.workflows) ==> Own(s, p, m) == [] {
      WithinNone(Lookup(hooks, p), m.workflows);
      if Fresh(hooks, m.workflows) {
        FreshAt(hooks, m.workflows, p);
      }
    }
    if !Fresh(hooks, m.workflows) {
      var k :| 0 <= k < |m.workflows| && m.workflows[k] in Lookup(hooks, PlaceOf(m.workflows[k]));
      WithinNone(Lookup(hooks, PlaceOf(m.workflows[k])), m.workflows);
      assert Own(s, PlaceOf(m.workflows[k]), m) != [];
    }
  }

  /** The insertion leaves the module's part of every list as it was exactly if it inserts nothing. */
  lemma NothingInserted(s: Scene, a: Action)
    requires WellFormed(s.world.sys.hooks) && Possible(s, a) && a.Insert?
    ensures var m := s.calls[a.call].m;
            (forall p :: Own(Act(s, a), p, m) == Own(s, p, m)) <==>
              m.workflows == [] || !Admissible(s.world.sys.hooks, m.workflows[0], a.env(0))
  {
    var m, hooks := s.calls[a.call].m, s.world.sys.hooks;
    var n := Inserted(s, a.call, a.env).2;
    forall p ensures n == 0 ==> Own(Act(s, a), p, m) == Own(s, p, m) {
      InsertOwn(s, a, p);
    }
    if n > 0 {
      var p := PlaceOf(m.workflows[0]);
      InsertedWereNew(hooks, m.workflows, 0, 0, a.env);
      InsertOwn(s, a, p);
      OnPlaceMembers(m.workflows[..n], p);
      assert m.workflows[..n][0] == m.workflows[0];
      assert Own(Act(s, a), p, m) != Own(s, p, m);
    }
    if m.workflows != [] {
      InsertEffect(hooks, m.workflows[0], a.env(0));
    }
  }

  /**
   * A registration fails, other calls on modules that share no workflow with it come in between, and
   * then it is rolled back. The rollback takes nothing of the others. It takes exactly what the call
   * inserted if the carried id is known by then and none of the workflows was linked before; if the id
   * is not known it takes nothing, which is right exactly if nothing was inserted.
   */
  lemma RollbackAmongOthers(s: Scene, a: Action, between: seq<Action>)
    requires WellFormed(s.world.sys.hooks) && Possible(s, a) && a.Insert?
    requires AllPossible(Act(s, a), between) && Apart(Act(s, a), between, s.calls[a.call].m)
    requires Possible(Acts(Act(s, a), between), Rollback(a.call))
    ensures var m := s.calls[a.call].m;
            var before := Acts(Act(s, a), between);
            var after := Act(before, Rollback(a.call));
            var known := Number(before.world, m) in before.world.sys.ids;
            && (forall p :: Others(after, p, m) == Others(before, p, m))
            && (forall p :: Own(after, p, m) == if known then [] else Own(Act(s, a), p, m))
            && ((forall p :: Own(after, p, m) == Own(s, p, m)) <==>
                  if known then Fresh(s.world.sys.hooks, m.workflows)
                  else m.workflows == [] || !Admissible(s.world.sys.hooks, m.workflows[0], a.env(0)))
  {
    var m := s.calls[a.call].m;
    var first := Act(s, a);
    var before := Acts(first, between);
    var after := Act(before, Rollback(a.call));
    CallKept(first, between, a.call);
    forall p
      ensures Others(after, p, m) == Others(before, p, m)
      ensures Own(after, p, m) == if Number(before.world, m) in before.world.sys.ids then [] else Own(first, p, m)
    {
      OwnKeptThrough(first, between, p, m);
      RollbackOwn(before, a.call, p);
    }
    FreshExactly(s, m);
    NothingInserted(s, a);
  }

  lemma RollbackOwn(s: Scene, c: nat, p: Place)
    requires WellFormed(s.world.sys.hooks) && Possible(s, Rollback(c))
    ensures var m := s.calls[c].m;
            var after := Act(s, Rollback(c));
            && Others(after, p, m) == Others(s, p, m)
            && Own(after, p, m) == if Number(s.world, m) in s.world.sys.ids then [] else Own(s, p, m)
  {
    var m, list := s.calls[c].m, Lookup(s.world.sys.hooks, p);
    DeleteAllEffect(s.world.sys.hooks, m.workflows);
    ExcludedGone(list, m.workflows);
    ExcludeNone(Excluding(list, m.workflows), m.workflows);
    WithinNone(Excluding(list, m.workflows), m.workflows);
  }
}
