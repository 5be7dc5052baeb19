/** Every run in which calls overlap but no two live modules share a workflow. */
module ModuleOverlap {
  import opened HookTable
  import opened ModuleList
  import opened ModuleManager
  import opened ModuleTheorems
  import opened ModuleRuns
  import opened ModuleCalls

  /* ---- who has inserted what -------------------------------------------------------------------- */

  /** The first workflows of a module, linked by a call that has listed it or is to be rolled back. */
  datatype Hold = Hold(m: Module, part: seq<Workflow>, listed: bool)

  ghost predicate Fits(h: Hold) {
    h.part <= h.m.workflows && (h.listed ==> h.part == h.m.workflows)
  }

  /** What a place holds while these insertions, newest first, are in the registry. */
  function Stacked(stack: seq<Hold>, p: Place): seq<Workflow> {
    if stack == [] || p.Nowhere? then []
    else OnPlace(stack[0].part, p) + Stacked(stack[1..], p)
  }

  /** The listed modules, newest first. */
  function Listed(stack: seq<Hold>): seq<Module> {
    if stack == [] then [] else (if stack[0].listed then [stack[0].m] else []) + Listed(stack[1..])
  }

  ghost predicate Stack(stack: seq<Hold>) {
    && (forall k :: 0 <= k < |stack| ==> Fits(stack[k]))
    && (forall i, j :: 0 <= i < j < |stack| ==> stack[i].m != stack[j].m && Disjoint(stack[i].m, stack[j].m))
  }

  ghost predicate Clear(stack: seq<Hold>, m: Module) {
    forall k :: 0 <= k < |stack| ==> stack[k].m != m && Disjoint(stack[k].m, m)
  }

  predicate ListedAt(stack: seq<Hold>, k: nat, m: Module) {
    k < |stack| && stack[k].listed && stack[k].m == m
  }

  lemma {:induction false} ListedMembers(stack: seq<Hold>)
    ensures forall m :: m in Listed(stack) <==> exists k :: ListedAt(stack, k, m)
  {
    if stack != [] {
      var rest := stack[1..];
      ListedMembers(rest);
      forall m ensures m in Listed(stack) <==> exists k :: ListedAt(stack, k, m) {
        if k: nat :| ListedAt(rest, k, m) {
          assert ListedAt(stack, k + 1, m);
        }
        if k: nat :| ListedAt(stack, k, m) {
          assert k == 0 || ListedAt(rest, k - 1, m);
        }
        assert ListedAt(stack, 0, m) <==> stack[0].listed && stack[0].m == m;
      }
    }
  }

  lemma PartKept(part: seq<Workflow>, b: Module, m: Module, p: Place)
    requires part <= b.workflows && Disjoint(b, m)
    ensures Excluding(OnPlace(part, p), m.workflows) == OnPlace(part, p)
  {
    OnPlaceMembers(part, p);
    forall w: Workflow | w in OnPlace(part, p) ensures w !in m.workflows {
      assert PlaceOf(w) == p;
      assert w in b.workflows;
    }
    ExcludeNone(OnPlace(part, p), m.workflows);
  }

  lemma PartGone(part: seq<Workflow>, ws: seq<Workflow>, p: Place)
    requires part <= ws
    ensures Excluding(OnPlace(part, p), ws) == []
  {
    OnPlaceMembers(part, p);
    forall w: Workflow | w in OnPlace(part, p) ensures w in ws {
      assert PlaceOf(w) == p;
    }
    ExcludeAll(OnPlace(part, p), ws);
  }

  /** A module that shares no workflow with the stack loses nothing. */
  lemma {:induction false} StackedClear(stack: seq<Hold>, m: Module, p: Place)
    requires Stack(stack) && Clear(stack, m)
    ensures Excluding(Stacked(stack, p), m.workflows) == Stacked(stack, p)
  {
    if stack != [] && !p.Nowhere? {
      StackedClear(stack[1..], m, p);
      PartKept(stack[0].part, stack[0].m, m, p);
      ExcludeAppend(OnPlace(stack[0].part, p), Stacked(stack[1..], p), m.workflows);
    }
  }

  /** Taking one module's workflows out takes its insertion off the stack. */
  lemma {:induction false} StackedWithout(stack: seq<Hold>, k: nat, p: Place)
    requires Stack(stack) && k < |stack|
    ensures Excluding(Stacked(stack, p), stack[k].m.workflows) == Stacked(stack[..k] + stack[k + 1..], p)
  {
    if !p.Nowhere? {
      hide Stack, Stacked, Excluding, OnPlace, Clear, Disjoint;
      var head, tail, m := stack[0], stack[1..], stack[k].m;
      StackTail(stack, k);
      StackedOn(head, tail, p);
      ExcludeAppend(OnPlace(head.part, p), Stacked(tail, p), m.workflows);
      if k == 0 {
        PartGone(head.part, m.workflows, p);
        StackedClear(tail, m, p);
        assert stack[..0] + stack[1..] == tail && [] + Stacked(tail, p) == Stacked(tail, p);
      } else {
        var less := tail[..k - 1] + tail[k..];
        StackedWithout(tail, k - 1, p);
        PartKept(head.part, head.m, m, p);
        LessTail(stack, k);
        StackedOn(head, less, p);
      }
    }
  }

  lemma LessTail<T>(s: seq<T>, k: nat)
    requires 0 < k < |s|
    ensures s[..k] + s[k + 1..] == [s[0]] + (s[1..][..k - 1] + s[1..][k..])
  {
  }

  lemma StackTail(stack: seq<Hold>, k: nat)
    requires Stack(stack) && k < |stack|
    ensures stack == [stack[0]] + stack[1..] && Fits(stack[0])
    ensures Stack(stack[1..]) && Clear(stack[1..], stack[0].m) && (k > 0 ==> Disjoint(stack[0].m, stack[k].m))
  {
  }

  lemma StackedOn(h: Hold, rest: seq<Hold>, p: Place)
    requires !p.Nowhere?
    ensures Stacked([h] + rest, p) == OnPlace(h.part, p) + Stacked(rest, p)
  {
    assert ([h] + rest)[1..] == rest;
  }

  lemma LessStack(stack: seq<Hold>, k: nat)
    requires Stack(stack) && k < |stack|
    ensures Stack(stack[..k] + stack[k + 1..]) && Clear(stack[..k] + stack[k + 1..], stack[k].m)
  {
  }

  lemma {:induction false} ListedWithout(stack: seq<Hold>, k: nat)
    requires Stack(stack) && k < |stack|
    ensures Listed(stack[..k] + stack[k + 1..])
            == if stack[k].listed then Without(Listed(stack), stack[k].m) else Listed(stack)
  {
    var less := stack[..k] + stack[k + 1..];
    if k == 0 {
      assert less == stack[1..];
    } else {
      ListedWithout(stack[1..], k - 1);
      assert less[1..] == stack[1..][..k - 1] + stack[1..][k..];
      assert less[0] == stack[0] && stack[0].m != stack[k].m;
      assert [] + Listed(stack[1..]) == Listed(stack[1..]) && [] + Listed(less[1..]) == Listed(less[1..]);
      assert ([stack[0].m] + Listed(stack[1..]))[1..] == Listed(stack[1..]);
    }
  }

  /** When every insertion is of a listed module, the stack is what the listed modules should hold. */
  lemma {:induction false} StackedExpected(stack: seq<Hold>, p: Place)
    requires Stack(stack) && forall k :: 0 <= k < |stack| ==> stack[k].listed
    ensures Stacked(stack, p) == Expected(Listed(stack), p)
  {
    if stack != [] {
      StackedExpected(stack[1..], p);
      assert Fits(stack[0]);
      assert Listed(stack)[1..] == Listed(stack[1..]);
    }
  }

  /* ---- orderly actions ------------------------------------------------------------------------- */

  predicate Live(s: Scene, c: nat) {
    c < |s.calls| && !s.calls[c].phase.Done?
  }

  /** The id a live call has allocated. */
  function Slot(s: Scene, c: nat): nat
    requires Live(s, c)
  {
    if s.calls[c].phase.Allocated? then s.calls[c].phase.slot else Number(s.world, s.calls[c].m)
  }

  /**
   * A call starts on a module that shares no workflow with a registered module or one in a call. If it
   * fails, it got the id the module carries, and the module had not been taken off the list. A removal
   * is of a registered module, or of one whose id is not in use and which had not been taken off.
   */
  ghost predicate OrderlyAction(s: Scene, a: Action)
    requires WellFormed(s.world.sys.hooks) && Possible(s, a)
  {
    var sys := s.world.sys;
    match a
    case Alloc(m, slot) =>
      slot >= 0 ==>
        && (forall b :: b in sys.list.nodes ==> b != m && Disjoint(b, m))
        && (forall c :: 0 <= c < |s.calls| && Live(s, c) ==> s.calls[c].m != m && Disjoint(s.calls[c].m, m))
    case Insert(c, _, _) =>
      var m := s.calls[c].m;
      Act(s, a).calls[c].phase.Failed? ==> s.calls[c].phase.slot == Number(s.world, m) && m !in sys.list.removed
    case Rollback(_) => true
    case Remove(m) => m in sys.list.nodes || (Number(s.world, m) !in sys.ids && m !in sys.list.removed)
  }

  /* ---- what they keep ---------------------------------------------------------------------------- */

  ghost predicate HooksShow(s: Scene, stack: seq<Hold>) {
    && WellFormed(s.world.sys.hooks) && Stack(stack)
    && (forall p :: Lookup(s.world.sys.hooks, p) == Stacked(stack, p))
  }

  ghost predicate ListShows(s: Scene, stack: seq<Hold>) {
    !s.world.sys.list.damaged && s.world.sys.list.nodes == Listed(stack)
  }

  /** Live calls are on different modules without a common workflow; each holds its id. */
  ghost predicate CallsApart(s: Scene) {
    && (forall c, d :: 0 <= c < d < |s.calls| && Live(s, c) && Live(s, d) ==>
          s.calls[c].m != s.calls[d].m && Disjoint(s.calls[c].m, s.calls[d].m))
    && (forall c :: 0 <= c < |s.calls| && Live(s, c) ==>
          Slot(s, c) in s.world.sys.ids && s.world.sys.ids[Slot(s, c)] == s.calls[c].m)
  }

  /** A failed call has its insertion on the stack, one that has not inserted has none. */
  ghost predicate CallsHold(calls: seq<Call>, removed: set<Module>, stack: seq<Hold>) {
    Waiting(calls, stack) && Kept(calls, removed, stack) && Accounted(calls, stack)
  }

  ghost predicate Waiting(calls: seq<Call>, stack: seq<Hold>) {
    forall c :: 0 <= c < |calls| && calls[c].phase.Allocated? ==> Clear(stack, calls[c].m)
  }

  ghost predicate Kept(calls: seq<Call>, removed: set<Module>, stack: seq<Hold>) {
    forall c :: 0 <= c < |calls| && calls[c].phase.Failed? ==>
      calls[c].m !in removed && exists k :: Holds(stack, k, calls[c].m)
  }

  ghost predicate Accounted(calls: seq<Call>, stack: seq<Hold>) {
    forall k :: 0 <= k < |stack| && !stack[k].listed ==> exists c :: HasFailed(calls, c, stack[k].m)
  }

  predicate Holds(stack: seq<Hold>, k: nat, m: Module) {
    k < |stack| && stack[k].m == m && !stack[k].listed
  }

  predicate HasFailed(calls: seq<Call>, c: nat, m: Module) {
    c < |calls| && calls[c].phase.Failed? && calls[c].m == m
  }

  ghost predicate Uses(s: Scene, c: nat, id: nat)
    requires id in s.world.sys.ids
  {
    Live(s, c) && s.calls[c].m == s.world.sys.ids[id] && Slot(s, c) == id
  }

  /** An id in use is that of a listed module or of a live call. */
  ghost predicate Backed(s: Scene, id: nat)
    requires id in s.world.sys.ids
  {
    var m := s.world.sys.ids[id];
    || (m in s.world.sys.list.nodes && m in s.world.number && s.world.number[m] == id)
    || exists c :: Uses(s, c, id)
  }

  ghost predicate IdsShow(s: Scene) {
    var sys, number := s.world.sys, s.world.number;
    && (forall m :: m in sys.list.nodes ==> m in number && number[m] in sys.ids && sys.ids[number[m]] == m)
    && (forall id :: id in sys.ids ==> Backed(s, id))
  }

  ghost predicate CallsHeld(s: Scene, stack: seq<Hold>) {
    CallsHold(s.calls, s.world.sys.list.removed, stack)
  }

  ghost predicate Settled(s: Scene, stack: seq<Hold>) {
    HooksShow(s, stack) && ListShows(s, stack) && CallsApart(s) && IdsShow(s) && CallsHeld(s, stack)
  }

  /* ---- the actions one by one ---------------------------------------------------------------------- */

  lemma AllocIds(s: Scene, a: Action)
    requires WellFormed(s.world.sys.hooks) && IdsShow(s) && CallsApart(s) && a.Alloc? && Possible(s, a)
    requires a.slot >= 0 ==> a.m !in s.world.sys.list.nodes
    ensures IdsShow(Act(s, a))
  {
    var after, c := Act(s, a), |s.calls|;
    forall id | id in after.world.sys.ids ensures Backed(after, id) {
      if id == a.slot {
        assert Uses(after, c, id);
      } else {
        assert Backed(s, id);
        if d: nat :| Uses(s, d, id) {
          assert Uses(after, d, id);
        }
      }
    }
  }

  lemma AllocCalls(s: Scene, a: Action)
    requires WellFormed(s.world.sys.hooks) && CallsApart(s) && a.Alloc? && Possible(s, a) && OrderlyAction(s, a)
    ensures CallsApart(Act(s, a))
  {
    var after, c := Act(s, a), |s.calls|;
    hide Disjoint, WellFormed;
    assert forall d :: 0 <= d < c ==> after.calls[d] == s.calls[d] && Live(after, d) == Live(s, d);
    assert forall d :: 0 <= d < c && Live(s, d) ==> Slot(after, d) == Slot(s, d);
  }

  lemma AllocHold(s: Scene, a: Action, stack: seq<Hold>)
    requires Settled(s, stack) && a.Alloc? && Possible(s, a) && OrderlyAction(s, a)
    ensures CallsHeld(Act(s, a), stack)
  {
    var after, c := Act(s, a), |s.calls|;
    ListedMembers(stack);
    if a.slot >= 0 {
      forall k | 0 <= k < |stack| ensures stack[k].m != a.m && Disjoint(stack[k].m, a.m) {
        if stack[k].listed {
          assert ListedAt(stack, k, stack[k].m) && stack[k].m in s.world.sys.list.nodes;
        }
      }
      assert Clear(stack, a.m);
    }
    hide HooksShow, WellFormed, Stack, CallsApart, IdsShow, Clear;
    AppendHolds(s.calls, s.world.sys.list.removed, stack, after.calls[c]);
  }

  lemma AppendHolds(calls: seq<Call>, removed: set<Module>, stack: seq<Hold>, call: Call)
    requires CallsHold(calls, removed, stack) && !call.phase.Failed?
    requires call.phase.Allocated? ==> Clear(stack, call.m)
    ensures CallsHold(calls + [call], removed, stack)
  {
    hide Clear, Kept, Accounted;
    AppendKept(calls, removed, stack, call);
    AppendAccounted(calls, stack, call);
  }

  lemma AppendAccounted(calls: seq<Call>, stack: seq<Hold>, call: Call)
    requires Accounted(calls, stack)
    ensures Accounted(calls + [call], stack)
  {
    forall k | 0 <= k < |stack| && !stack[k].listed ensures exists c :: HasFailed(calls + [call], c, stack[k].m) {
      var c: nat :| HasFailed(calls, c, stack[k].m);
      assert HasFailed(calls + [call], c, stack[k].m);
    }
  }

  lemma AppendKept(calls: seq<Call>, removed: set<Module>, stack: seq<Hold>, call: Call)
    requires Kept(calls, removed, stack) && !call.phase.Failed?
    ensures Kept(calls + [call], removed, stack)
  {
    hide Holds;
  }

  lemma AllocSettled(s: Scene, a: Action, stack: seq<Hold>)
    requires Settled(s, stack) && a.Alloc? && Possible(s, a) && OrderlyAction(s, a)
    ensures Settled(Act(s, a), stack)
  {
    AllocIds(s, a);
    AllocCalls(s, a);
    AllocHold(s, a, stack);
    hide WellFormed, Stack, CallsApart, CallsHeld, IdsShow, Stacked;
  }

  /** The stack after an insertion. */
  ghost function Pushed(s: Scene, a: Action, stack: seq<Hold>): seq<Hold>
    requires WellFormed(s.world.sys.hooks) && a.Insert? && Possible(s, a)
  {
    var m := s.calls[a.call].m;
    [Hold(m, m.workflows[..Inserted(s, a.call, a.env).2], Act(s, a).calls[a.call].phase.Done?)] + stack
  }

  lemma InsertHooks(s: Scene, a: Action, stack: seq<Hold>)
    requires HooksShow(s, stack) && a.Insert? && Possible(s, a) && Clear(stack, s.calls[a.call].m)
    ensures HooksShow(Act(s, a), Pushed(s, a, stack))
  {
    var m, after, next := s.calls[a.call].m, Act(s, a), Pushed(s, a, stack);
    var n := Inserted(s, a.call, a.env).2;
    InsertFromEffect(s.world.sys.hooks, m.workflows, 0, 0, a.env);
    assert m.workflows[0..n] == m.workflows[..n];
    forall p ensures Lookup(after.world.sys.hooks, p) == Stacked(next, p) {
      if !p.Nowhere? {
        StackedOn(next[0], stack, p);
      }
    }
    assert Fits(next[0]);
    PushStack(next[0], stack);
  }

  lemma PushStack(h: Hold, stack: seq<Hold>)
    requires Stack(stack) && Fits(h) && Clear(stack, h.m)
    ensures Stack([h] + stack)
  {
  }

  lemma InsertList(s: Scene, a: Action, stack: seq<Hold>)
    requires WellFormed(s.world.sys.hooks) && ListShows(s, stack) && a.Insert? && Possible(s, a)
    requires Clear(stack, s.calls[a.call].m)
    ensures ListShows(Act(s, a), Pushed(s, a, stack)) && s.calls[a.call].m !in s.world.sys.list.nodes
  {
    ListedMembers(stack);
    var next := Pushed(s, a, stack);
    assert next[1..] == stack && [] + Listed(stack) == Listed(stack);
    hide InsertFrom, WellFormed;
  }

  lemma InsertCalls(s: Scene, a: Action)
    requires WellFormed(s.world.sys.hooks) && CallsApart(s) && a.Insert? && Possible(s, a) && OrderlyAction(s, a)
    ensures CallsApart(Act(s, a))
  {
    var after := Act(s, a);
    hide Disjoint, WellFormed, InsertFrom;
    assert Live(s, a.call);
    assert forall d :: 0 <= d < |s.calls| && Live(after, d) ==>
             Live(s, d) && after.calls[d].m == s.calls[d].m && Slot(after, d) == Slot(s, d);
  }

  lemma InsertIds(s: Scene, a: Action)
    requires WellFormed(s.world.sys.hooks) && CallsApart(s) && IdsShow(s)
    requires a.Insert? && Possible(s, a) && OrderlyAction(s, a) && s.calls[a.call].m !in s.world.sys.list.nodes
    ensures IdsShow(Act(s, a))
  {
    var after := Act(s, a);
    assert Live(s, a.call);
    OnlyCall(s, a.call);
    hide CallsApart, WellFormed, InsertFrom;
    forall id | id in after.world.sys.ids ensures Backed(after, id) {
      assert Backed(s, id);
      if d: nat :| Uses(s, d, id) {
        if after.calls[d].phase.Done? {
          assert d == a.call;
        } else {
          assert Uses(after, d, id);
        }
      }
    }
  }

  lemma InsertHold(s: Scene, a: Action, stack: seq<Hold>)
    requires Settled(s, stack) && a.Insert? && Possible(s, a) && OrderlyAction(s, a)
    requires s.calls[a.call].m !in s.world.sys.list.nodes
    ensures CallsHeld(Act(s, a), Pushed(s, a, stack))
  {
    var after, next, c := Act(s, a), Pushed(s, a, stack), a.call;
    var m := s.calls[c].m;
    assert Live(s, c);
    forall d | 0 <= d < |s.calls| && d != c && s.calls[d].phase.Allocated?
      ensures s.calls[d].m != m && Disjoint(m, s.calls[d].m)
    {
      assert Live(s, d);
      DisjointBack(s.calls[d].m, m);
    }
    hide WellFormed, Stack, InsertFrom;
    PushHolds(s.calls, s.world.sys.list.removed, stack, c, next[0], after.calls[c].phase);
  }

  lemma PushClear(h: Hold, stack: seq<Hold>, m: Module)
    requires Clear(stack, m) && h.m != m && Disjoint(h.m, m)
    ensures Clear([h] + stack, m)
  {
  }

  lemma PushHolds(calls: seq<Call>, removed: set<Module>, stack: seq<Hold>, c: nat, h: Hold, phase: Phase)
    requires CallsHold(calls, removed, stack) && c < |calls| && h.m == calls[c].m && calls[c].phase.Allocated?
    requires if h.listed then phase.Done? else phase.Failed? && h.m !in removed
    requires forall d :: 0 <= d < |calls| && d != c && calls[d].phase.Allocated? ==>
               calls[d].m != h.m && Disjoint(h.m, calls[d].m)
    ensures CallsHold(calls[c := Call(h.m, phase)], if h.listed then removed - {h.m} else removed, [h] + stack)
  {
    var next, after := [h] + stack, calls[c := Call(h.m, phase)];
    hide Clear, Disjoint;
    forall d | 0 <= d < |calls| && after[d].phase.Allocated? ensures Clear(next, after[d].m) {
      PushClear(h, stack, calls[d].m);
    }
    assert Waiting(after, next);
    hide Waiting;
    PushKept(calls, removed, stack, c, h, phase);
    PushAccounted(calls, stack, c, h, phase);
  }

  lemma PushKept(calls: seq<Call>, removed: set<Module>, stack: seq<Hold>, c: nat, h: Hold, phase: Phase)
    requires Kept(calls, removed, stack) && c < |calls| && h.m == calls[c].m && !phase.Allocated?
    requires phase.Failed? ==> !h.listed && h.m !in removed
    ensures Kept(calls[c := Call(h.m, phase)], if h.listed then removed - {h.m} else removed, [h] + stack)
  {
    var next, after := [h] + stack, calls[c := Call(h.m, phase)];
    forall d | 0 <= d < |calls| && after[d].phase.Failed? ensures exists k :: Holds(next, k, after[d].m) {
      if d == c {
        assert Holds(next, 0, h.m);
      } else {
        var k: nat :| Holds(stack, k, calls[d].m);
        assert Holds(next, k + 1, calls[d].m);
      }
    }
  }

  lemma PushAccounted(calls: seq<Call>, stack: seq<Hold>, c: nat, h: Hold, phase: Phase)
    requires Accounted(calls, stack) && c < |calls| && h.m == calls[c].m && calls[c].phase.Allocated?
    requires h.listed || phase.Failed?
    ensures Accounted(calls[c := Call(h.m, phase)], [h] + stack)
  {
    var next, after := [h] + stack, calls[c := Call(h.m, phase)];
    forall k | 0 <= k < |next| && !next[k].listed ensures exists d :: HasFailed(after, d, next[k].m) {
      if k == 0 {
        assert HasFailed(after, c, h.m);
      } else {
        var d: nat :| HasFailed(calls, d, stack[k - 1].m);
        assert HasFailed(after, d, next[k].m);
      }
    }
  }

  lemma DisjointBack(a: Module, b: Module)
    ensures Disjoint(a, b) <==> Disjoint(b, a)
  {
  }

  lemma InsertSettled(s: Scene, a: Action, stack: seq<Hold>)
    requires Settled(s, stack) && a.Insert? && Possible(s, a) && OrderlyAction(s, a)
    ensures Settled(Act(s, a), Pushed(s, a, stack))
  {
    hide WellFormed, InsertFrom, Stacked, Clear, Stack, Act, Pushed;
    InsertHooks(s, a, stack);
    InsertList(s, a, stack);
    InsertCalls(s, a);
    InsertIds(s, a);
    InsertHold(s, a, stack);
  }

  function TakenOff(stack: seq<Hold>, k: nat): seq<Hold>
    requires k < |stack|
  {
    stack[..k] + stack[k + 1..]
  }

  lemma TakenOffHooks(s: Scene, after: Scene, stack: seq<Hold>, k: nat)
    requires HooksShow(s, stack) && k < |stack|
    requires after.world.sys.hooks == DeleteAll(s.world.sys.hooks, stack[k].m.workflows)
    ensures HooksShow(after, TakenOff(stack, k))
  {
    DeleteAllEffect(s.world.sys.hooks, stack[k].m.workflows);
    LessStack(stack, k);
    forall p ensures Lookup(after.world.sys.hooks, p) == Stacked(TakenOff(stack, k), p) {
      StackedWithout(stack, k, p);
    }
  }

  /** Where the holds of the shorter stack come from. */
  lemma TakenOffMembers(stack: seq<Hold>, k: nat, m: Module)
    requires k < |stack|
    ensures m != stack[k].m && (exists j :: Holds(stack, j, m)) ==> exists j :: Holds(TakenOff(stack, k), j, m)
  {
    if m != stack[k].m {
      if j: nat :| Holds(stack, j, m) {
        assert Holds(TakenOff(stack, k), if j < k then j else j - 1, m);
      }
    }
  }

  ghost predicate AllButOne(calls: seq<Call>, after: seq<Call>, m: Module) {
    && |after| == |calls|
    && (forall c :: 0 <= c < |calls| ==> after[c] == calls[c] || (after[c].phase.Done? && calls[c].m == m))
    && (forall c :: 0 <= c < |calls| && !after[c].phase.Done? ==> calls[c].m != m)
  }

  /** One module's insertion comes off the stack, and no call on that module goes on. */
  lemma TakenOffHolds(calls: seq<Call>, after: seq<Call>, removed: set<Module>, gone: set<Module>, stack: seq<Hold>,
                      k: nat)
    requires CallsHold(calls, removed, stack) && k < |stack| && AllButOne(calls, after, stack[k].m)
    requires gone <= removed + {stack[k].m}
    requires forall j :: 0 <= j < |stack| && j != k ==> stack[j].m != stack[k].m
    ensures CallsHold(after, gone, TakenOff(stack, k))
  {
    var less := TakenOff(stack, k);
    forall c | 0 <= c < |after| && after[c].phase.Allocated? ensures Clear(less, after[c].m) {
      assert Clear(stack, calls[c].m);
    }
    assert Waiting(after, less);
    hide Waiting, Clear;
    forall c | 0 <= c < |after| && after[c].phase.Failed? ensures exists j :: Holds(less, j, after[c].m) {
      TakenOffMembers(stack, k, calls[c].m);
    }
    assert Kept(after, gone, less);
    hide Kept;
    forall j | 0 <= j < |less| && !less[j].listed ensures exists c :: HasFailed(after, c, less[j].m) {
      var i := if j < k then j else j + 1;
      assert less[j] == stack[i];
      var c: nat :| HasFailed(calls, c, stack[i].m);
      assert HasFailed(after, c, less[j].m);
    }
  }

  /** The id of `m`, listed or in call `c`, goes out of use, and `m` is no longer listed or in a call. */
  lemma DroppedIds(s: Scene, after: Scene, m: Module, id: nat)
    requires IdsShow(s) && CallsApart(s) && id in s.world.sys.ids && s.world.sys.ids[id] == m
    requires after.world.number == s.world.number && after.world.sys.ids == s.world.sys.ids - {id}
    requires forall b :: b in after.world.sys.list.nodes <==> b in s.world.sys.list.nodes && b != m
    requires AllButOne(s.calls, after.calls, m)
    requires forall i :: i in s.world.sys.ids && s.world.sys.ids[i] == m ==> i == id
    ensures IdsShow(after) && CallsApart(after)
  {
    assert forall c: nat :: Live(after, c) ==>
             Live(s, c) && after.calls[c] == s.calls[c] && Slot(after, c) == Slot(s, c);
    assert CallsApart(after) by { hide Disjoint; }
    hide CallsApart, Disjoint;
    forall i | i in after.world.sys.ids ensures Backed(after, i) {
      assert Backed(s, i);
      if c: nat :| Uses(s, c, i) {
        assert Uses(after, c, i);
      }
    }
  }

  /** No call but `c` is on `m`. */
  lemma OnlyCall(s: Scene, c: nat)
    requires CallsApart(s) && Live(s, c)
    ensures forall d: nat :: Live(s, d) && s.calls[d].m == s.calls[c].m ==> d == c
  {
  }

  /** A module in a call has no id but the call's. */
  lemma OwnIdOnly(s: Scene, c: nat)
    requires IdsShow(s) && CallsApart(s) && Live(s, c) && s.calls[c].m !in s.world.sys.list.nodes
    ensures forall i :: i in s.world.sys.ids && s.world.sys.ids[i] == s.calls[c].m ==> i == Slot(s, c)
  {
    OnlyCall(s, c);
    hide CallsApart, Disjoint;
    forall i | i in s.world.sys.ids && s.world.sys.ids[i] == s.calls[c].m ensures i == Slot(s, c) {
      assert Backed(s, i);
    }
  }

  /** Module `m` with its insertion on the stack leaves, with the one id it has, listed or rolled back. */
  lemma TakeOffSettled(s: Scene, after: Scene, stack: seq<Hold>, k: nat, id: nat)
    requires Settled(s, stack) && k < |stack| && id in s.world.sys.ids && s.world.sys.ids[id] == stack[k].m
    requires forall i :: i in s.world.sys.ids && s.world.sys.ids[i] == stack[k].m ==> i == id
    requires var m, sys := stack[k].m, s.world.sys;
             && after.world.number == s.world.number && AllButOne(s.calls, after.calls, m)
             && after.world.sys == System(DeleteAll(sys.hooks, m.workflows), sys.ids - {id}, Dropped(sys.list, m))
             && (m in sys.list.nodes || m !in sys.list.removed)
    ensures Settled(after, TakenOff(stack, k))
  {
    TakenOffHooks(s, after, stack, k);
    TakenOffList(s, after, stack, k);
    hide WellFormed, Stack, Disjoint, Clear, DeleteAll, Without, CallsHold, Stacked, Listed, CallsApart, IdsShow;
    hide AllButOne;
    TakenOffHolds(s.calls, after.calls, s.world.sys.list.removed, after.world.sys.list.removed, stack, k);
    DroppedIds(s, after, stack[k].m, id);
  }

  lemma TakenOffList(s: Scene, after: Scene, stack: seq<Hold>, k: nat)
    requires Stack(stack) && ListShows(s, stack) && k < |stack|
    requires after.world.sys.list == Dropped(s.world.sys.list, stack[k].m)
    requires stack[k].m in s.world.sys.list.nodes || stack[k].m !in s.world.sys.list.removed
    ensures ListShows(after, TakenOff(stack, k)) && (stack[k].m in s.world.sys.list.nodes <==> stack[k].listed)
    ensures forall m :: m in after.world.sys.list.nodes <==> m in s.world.sys.list.nodes && m != stack[k].m
    ensures forall j :: 0 <= j < |stack| && j != k ==> stack[j].m != stack[k].m
  {
    ListedMembers(stack);
    ListedWithout(stack, k);
    if stack[k].listed {
      assert ListedAt(stack, k, stack[k].m);
      ListedSeparate(stack);
      WithoutModule(Listed(stack), stack[k].m);
    }
  }

  /** Where a failed call has its insertion. */
  lemma FailedHold(s: Scene, stack: seq<Hold>, c: nat) returns (k: nat)
    requires Stack(stack) && ListShows(s, stack) && CallsHeld(s, stack) && c < |s.calls| && s.calls[c].phase.Failed?
    ensures k < |stack| && stack[k].m == s.calls[c].m
    ensures s.calls[c].m !in s.world.sys.list.nodes && s.calls[c].m !in s.world.sys.list.removed
  {
    hide Waiting, Accounted;
    k :| Holds(stack, k, s.calls[c].m);
    ListedMembers(stack);
  }

  lemma RollbackActs(s: Scene, c: nat)
    requires WellFormed(s.world.sys.hooks) && CallsApart(s) && Possible(s, Rollback(c))
    ensures Live(s, c) && Slot(s, c) in s.world.sys.ids && s.world.sys.ids[Slot(s, c)] == s.calls[c].m
    ensures var m, sys, after := s.calls[c].m, s.world.sys, Act(s, Rollback(c));
            && after.world.number == s.world.number && AllButOne(s.calls, after.calls, m)
            && after.world.sys
               == System(DeleteAll(sys.hooks, m.workflows), sys.ids - {Slot(s, c)}, Dropped(sys.list, m))
  {
    hide DeleteAll, WellFormed, Disjoint;
    assert Live(s, c) && Slot(s, c) == Number(s.world, s.calls[c].m);
    OnlyCall(s, c);
  }

  lemma RollbackSettled(s: Scene, a: Action, stack: seq<Hold>) returns (less: seq<Hold>)
    requires Settled(s, stack) && a.Rollback? && Possible(s, a)
    ensures Settled(Act(s, a), less)
  {
    hide Act, WellFormed, Stack, Stacked, ListShows, IdsShow, CallsApart, CallsHeld, AllButOne, DeleteAll;
    var k := FailedHold(s, stack, a.call);
    RollbackActs(s, a.call);
    OwnIdOnly(s, a.call);
    less := TakenOff(stack, k);
    TakeOffSettled(s, Act(s, a), stack, k, Slot(s, a.call));
  }

  lemma RemoveSettled(s: Scene, a: Action, stack: seq<Hold>) returns (less: seq<Hold>)
    requires Settled(s, stack) && a.Remove? && OrderlyAction(s, a)
    ensures Settled(Act(s, a), less)
  {
    var m, after := a.m, Act(s, a);
    if m in s.world.sys.list.nodes {
      ListedMembers(stack);
      var k: nat :| ListedAt(stack, k, m);
      less := TakenOff(stack, k);
      NoCallOnListed(s, stack, k);
      hide HooksShow, ListShows, CallsHold, DeleteAll, WellFormed, Disjoint;
      forall i | i in s.world.sys.ids && s.world.sys.ids[i] == m ensures i == Number(s.world, m) {
        assert Backed(s, i);
      }
      assert AllButOne(s.calls, after.calls, m);
      TakeOffSettled(s, after, stack, k, Number(s.world, m));
    } else {
      less := stack;
      assert s.world.sys.ids - {Number(s.world, m)} == s.world.sys.ids;
      assert after == s;
    }
  }

  lemma NoCallOnListed(s: Scene, stack: seq<Hold>, k: nat)
    requires Stack(stack) && CallsHeld(s, stack) && k < |stack| && stack[k].listed
    ensures forall c :: 0 <= c < |s.calls| && !s.calls[c].phase.Done? ==> s.calls[c].m != stack[k].m
  {
    forall c | 0 <= c < |s.calls| && !s.calls[c].phase.Done? ensures s.calls[c].m != stack[k].m {
      if s.calls[c].phase.Allocated? {
        assert Clear(stack, s.calls[c].m);
      } else {
        var j: nat :| Holds(stack, j, s.calls[c].m);
      }
    }
  }

  /* ---- whole runs ------------------------------------------------------------------------------------ */

  const BEGIN := Scene(START, [])

  ghost predicate OrderlyActions(s: Scene, actions: seq<Action>)
    requires WellFormed(s.world.sys.hooks) && AllPossible(s, actions)
    decreases |actions|
  {
    actions != [] ==> OrderlyAction(s, actions[0]) && OrderlyActions(Act(s, actions[0]), actions[1..])
  }

  lemma {:induction false} ActsSettled(s: Scene, actions: seq<Action>, stack: seq<Hold>) returns (end: seq<Hold>)
    requires WellFormed(s.world.sys.hooks) && Settled(s, stack)
    requires AllPossible(s, actions) && OrderlyActions(s, actions)
    ensures Settled(Acts(s, actions), end)
    decreases |actions|
  {
    hide Act, Settled, OrderlyAction, Possible;
    end := stack;
    if actions != [] {
      var a := actions[0];
      match a {
        case Alloc(_, _) => AllocSettled(s, a, stack);
        case Insert(_, _, _) =>
          InsertSettled(s, a, stack);
          end := Pushed(s, a, stack);
        case Rollback(_) => end := RollbackSettled(s, a, stack);
        case Remove(_) => end := RemoveSettled(s, a, stack);
      }
      end := ActsSettled(Act(s, a), actions[1..], end);
    }
  }

  lemma BeginSettled()
    ensures Settled(BEGIN, [])
  {
    assert forall p :: Lookup(EMPTY, p) == [];
  }

  /** A scene with no call under way is as tidy as one that calls never overlapped in. */
  lemma SettledTidy(s: Scene, stack: seq<Hold>)
    requires Settled(s, stack) && forall c :: 0 <= c < |s.calls| ==> s.calls[c].phase.Done?
    ensures Tidy(s.world)
  {
    assert forall k :: 0 <= k < |stack| ==> stack[k].listed;
    ListedSeparate(stack);
    forall p ensures Lookup(s.world.sys.hooks, p) == Expected(s.world.sys.list.nodes, p) {
      StackedExpected(stack, p);
    }
    hide Stack, WellFormed, SeparateModules;
    assert forall id :: id in s.world.sys.ids ==> Backed(s, id);
  }

  lemma {:induction false} ListedFrom(stack: seq<Hold>, j: nat) returns (k: nat)
    requires j < |Listed(stack)|
    ensures k < |stack| && stack[k].m == Listed(stack)[j]
  {
    if stack[0].listed && j == 0 {
      k := 0;
    } else {
      var i := ListedFrom(stack[1..], if stack[0].listed then j - 1 else j);
      k := i + 1;
    }
  }

  lemma {:induction false} ListedSeparate(stack: seq<Hold>)
    requires Stack(stack)
    ensures SeparateModules(Listed(stack))
  {
    if stack != [] {
      var tail := stack[1..];
      var rest := Listed(tail);
      ListedSeparate(tail);
      forall j | 0 <= j < |rest| ensures stack[0].m != rest[j] && Disjoint(stack[0].m, rest[j]) {
        var k := ListedFrom(tail, j);
        assert stack[k + 1].m == rest[j];
      }
    }
  }

  /**
   * After any run of overlapping orderly calls, each list holds the insertions of the registered modules
   * and of the failed calls not yet rolled back, and nothing else, newest first; and once every call
   * has returned, lists and ids are exactly those of the registered modules.
   */
  lemma OverlapIsTidy(actions: seq<Action>) returns (stack: seq<Hold>)
    requires AllPossible(BEGIN, actions) && OrderlyActions(BEGIN, actions)
    ensures var end := Acts(BEGIN, actions);
            && Settled(end, stack)
            && (forall p :: Lookup(end.world.sys.hooks, p) == Stacked(stack, p))
            && ((forall c :: 0 <= c < |end.calls| ==> end.calls[c].phase.Done?) ==> Tidy(end.world))
  {
    BeginSettled();
    stack := ActsSettled(BEGIN, actions, []);
    var end := Acts(BEGIN, actions);
    if forall c :: 0 <= c < |end.calls| ==> end.calls[c].phase.Done? {
      SettledTidy(end, stack);
    }
  }
}
