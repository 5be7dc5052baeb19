/**
 * The registry of workflows: which workflows hang on which kernel hook, and which hang on which
 * periodic timer. This module holds the state and the effect of each registry operation on it;
 * `HookRegistry` holds the operations themselves.
 */
module HookTable {

  const KPROBE_HOOK_START := 0
  const KPROBE_HOOK_END := 2
  const TRACEPOINT_HOOK_START := 4
  const TRACEPOINT_HOOK_END := 4
  const HOOKEND := 5
  const SECDETECTOR_TIMER := 6

  const ENOMEM := 12
  const EFAULT := 14
  const EEXIST := 17
  const EINVAL := 22

  /** What a workflow is to the registry; `owner` and `id` are set when its module is registered. */
  class Workflow {
    const hookType: nat
    const interval: int
    var owner: Module?
    var id: nat

    constructor (hookType: nat, interval: int)
      ensures this.hookType == hookType && this.interval == interval
    {
      this.hookType := hookType;
      this.interval := interval;
      owner := null;
      id := 0;
    }
  }

  /** A detector module; `parameter` says whether it wants an entry under /proc. */
  class Module {
    const workflows: seq<Workflow>
    const parameter: bool
    var id: nat

    constructor (workflows: seq<Workflow>, parameter: bool)
      ensures this.workflows == workflows && this.parameter == parameter && id == 0
    {
      this.workflows := workflows;
      this.parameter := parameter;
      id := 0;
    }
  }

  datatype Timer = Timer(interval: int, callbacks: seq<Workflow>)

  /** `probes[t]` is true while the kprobe of hook type `t` is registered with the kernel. */
  datatype State = State(hooks: seq<seq<Workflow>>, probes: seq<bool>, timers: seq<Timer>)

  const EMPTY := State([[], [], [], [], []], [false, false, false], [])

  /** What the kernel answers during one insertion: `register_kprobe`, and whether `kzalloc` succeeds. */
  datatype Outcome = Outcome(probe: int, memory: bool)

  predicate IsKprobe(hookType: nat) {
    KPROBE_HOOK_START <= hookType <= KPROBE_HOOK_END
  }

  predicate IsTracepoint(hookType: nat) {
    TRACEPOINT_HOOK_START <= hookType <= TRACEPOINT_HOOK_END
  }

  /* ---- where a workflow belongs --------------------------------------------------------- */

  datatype Place = Hook(hookType: nat) | Every(interval: int) | Nowhere

  function PlaceOf(w: Workflow): Place {
    if IsKprobe(w.hookType) then Hook(w.hookType)
    else if w.hookType == SECDETECTOR_TIMER then Every(w.interval)
    else Nowhere
  }

  /** The first timer with this interval, or `|timers|`. */
  function FindTimer(timers: seq<Timer>, interval: int): (k: nat)
    ensures k <= |timers|
    ensures k < |timers| ==> timers[k].interval == interval
    ensures forall j :: 0 <= j < k ==> timers[j].interval != interval
  {
    if timers == [] || timers[0].interval == interval then 0 else 1 + FindTimer(timers[1..], interval)
  }

  function Callbacks(timers: seq<Timer>, interval: int): seq<Workflow> {
    var k := FindTimer(timers, interval);
    if k < |timers| then timers[k].callbacks else []
  }

  /** The list kept at a place. */
  function Lookup(s: State, p: Place): seq<Workflow> {
    match p
    case Hook(h) => if h < |s.hooks| then s.hooks[h] else []
    case Every(interval) => Callbacks(s.timers, interval)
    case Nowhere => []
  }

  /* ---- the invariant -------------------------------------------------------------------- */

  ghost predicate NoRepeats(list: seq<Workflow>) {
    forall i, j :: 0 <= i < j < |list| ==> list[i] != list[j]
  }

  ghost predicate AllAt(list: seq<Workflow>, p: Place) {
    forall k :: 0 <= k < |list| ==> PlaceOf(list[k]) == p
  }

  /** One hook's list: only kprobe hooks hold anything, and each holds its own workflows, once. */
  ghost predicate HookFine(list: seq<Workflow>, h: nat) {
    && NoRepeats(list)
    && if IsKprobe(h) then AllAt(list, Hook(h)) else list == []
  }

  ghost predicate TimerFine(t: Timer) {
    t.callbacks != [] && NoRepeats(t.callbacks) && AllAt(t.callbacks, Every(t.interval))
  }

  ghost predicate HooksFine(hooks: seq<seq<Workflow>>) {
    |hooks| == HOOKEND && forall h :: 0 <= h < HOOKEND ==> HookFine(hooks[h], h)
  }

  /** A kprobe is registered exactly while its list holds a workflow. */
  ghost predicate ProbesFine(hooks: seq<seq<Workflow>>, probes: seq<bool>)
    requires |hooks| == HOOKEND
  {
    |probes| == KPROBE_HOOK_END + 1 && forall h :: 0 <= h <= KPROBE_HOOK_END ==> (probes[h] <==> hooks[h] != [])
  }

  ghost predicate DistinctIntervals(timers: seq<Timer>) {
    forall i, j :: 0 <= i < j < |timers| ==> timers[i].interval != timers[j].interval
  }

  ghost predicate TimersFine(timers: seq<Timer>) {
    DistinctIntervals(timers) && forall k :: 0 <= k < |timers| ==> TimerFine(timers[k])
  }

  ghost predicate WellFormed(s: State) {
    HooksFine(s.hooks) && ProbesFine(s.hooks, s.probes) && TimersFine(s.timers)
  }

  /* ---- the effect of each operation ----------------------------------------------------- */

  /** The list once the node of `x` is unlinked from it. */
  function Without<T(==)>(list: seq<T>, x: T): seq<T> {
    if list == [] then [] else if list[0] == x then list[1..] else [list[0]] + Without(list[1..], x)
  }

  function AddProbe(s: State, w: Workflow, answer: int): (State, int)
    requires IsKprobe(w.hookType) && |s.hooks| == HOOKEND && |s.probes| == KPROBE_HOOK_END + 1
  {
    var t := w.hookType;
    var first := s.hooks[t] == [];
    if w in s.hooks[t] then (s, -EEXIST)
    else if first && answer < 0 then (s, answer)
    else (State(s.hooks[t := [w] + s.hooks[t]], if first then s.probes[t := true] else s.probes, s.timers),
          if first then answer else 0)
  }

  function AddTimer(s: State, w: Workflow, memory: bool): (State, int) {
    var k := FindTimer(s.timers, w.interval);
    if k < |s.timers| then
      var t := s.timers[k];
      if w in t.callbacks then (s, -EEXIST)
      else (s.(timers := s.timers[k := Timer(t.interval, [w] + t.callbacks)]), 0)
    else if memory then (s.(timers := [Timer(w.interval, [w])] + s.timers), 0)
    else (s, -ENOMEM)
  }

  /** `insert_callback` on a workflow. */
  function Insert(s: State, w: Workflow, o: Outcome): (State, int)
    requires |s.hooks| == HOOKEND && |s.probes| == KPROBE_HOOK_END + 1
  {
    if IsKprobe(w.hookType) then AddProbe(s, w, o.probe)
    else if IsTracepoint(w.hookType) then (s, if w in s.hooks[w.hookType] then -EEXIST else -1)
    else if w.hookType == SECDETECTOR_TIMER then AddTimer(s, w, o.memory)
    else (s, -EFAULT)
  }

  function DropProbe(s: State, w: Workflow): State
    requires IsKprobe(w.hookType) && |s.hooks| == HOOKEND && |s.probes| == KPROBE_HOOK_END + 1
  {
    var rest := Without(s.hooks[w.hookType], w);
    State(s.hooks[w.hookType := rest], if rest == [] then s.probes[w.hookType := false] else s.probes, s.timers)
  }

  function DropTimer(s: State, w: Workflow): State
    requires FindTimer(s.timers, w.interval) < |s.timers|
  {
    var k := FindTimer(s.timers, w.interval);
    var rest := Without(s.timers[k].callbacks, w);
    if rest == [] then s.(timers := s.timers[..k] + s.timers[k + 1..])
    else s.(timers := s.timers[k := Timer(s.timers[k].interval, rest)])
  }

  /** `delete_callback` on a workflow. */
  function Delete(s: State, w: Workflow): (State, int)
    requires |s.hooks| == HOOKEND && |s.probes| == KPROBE_HOOK_END + 1
  {
    if w !in Lookup(s, PlaceOf(w)) then (s, 0)
    else if IsKprobe(w.hookType) then (DropProbe(s, w), 0)
    else (DropTimer(s, w), 1)
  }

  /* ---- what the operations do to the lists ---------------------------------------------- */

  lemma {:induction false} WithoutMembers(list: seq<Workflow>, w: Workflow)
    requires NoRepeats(list)
    ensures NoRepeats(Without(list, w))
    ensures forall x :: x in Without(list, w) <==> x in list && x != w
    ensures forall p :: AllAt(list, p) ==> AllAt(Without(list, w), p)
  {
    if list != [] && list[0] != w {
      WithoutMembers(list[1..], w);
      assert forall p :: AllAt(list, p) ==> AllAt(list[1..], p);
      assert list == [list[0]] + list[1..];
      assert list[0] !in list[1..];
    }
  }

  lemma {:induction false} WithoutAbsent<T>(list: seq<T>, x: T)
    requires x !in list
    ensures Without(list, x) == list
  {
    if list != [] {
      WithoutAbsent(list[1..], x);
      assert list == [list[0]] + list[1..];
    }
  }

  lemma {:induction false} WithoutFrom<T>(list: seq<T>, x: T, y: T)
    requires y in Without(list, x)
    ensures y in list
  {
    if list[0] != x && y != list[0] {
      WithoutFrom(list[1..], x, y);
    }
  }

  /** Under the invariant a timer's callbacks are what every search by interval finds. */
  lemma CallbacksAt(timers: seq<Timer>, k: nat)
    requires DistinctIntervals(timers) && k < |timers|
    ensures FindTimer(timers, timers[k].interval) == k
  {
  }

  /** A workflow is in no list but the one at its own place. */
  lemma OnlyAtItsPlace(s: State, w: Workflow, p: Place)
    requires WellFormed(s) && w in Lookup(s, p)
    ensures p == PlaceOf(w) && !p.Nowhere?
  {
    var list := Lookup(s, p);
    var k :| 0 <= k < |list| && list[k] == w;
    if p.Every? {
      var t := s.timers[FindTimer(s.timers, p.interval)];
      assert TimerFine(t);
    } else {
      assert HookFine(s.hooks[p.hookType], p.hookType);
    }
  }

  lemma LookupNoRepeats(s: State, p: Place)
    requires WellFormed(s)
    ensures NoRepeats(Lookup(s, p))
  {
    match p
    case Hook(h) => if h < HOOKEND { assert HookFine(s.hooks[h], h); }
    case Every(interval) =>
      var k := FindTimer(s.timers, interval);
      if k < |s.timers| { assert TimerFine(s.timers[k]); }
    case Nowhere =>
  }
}
