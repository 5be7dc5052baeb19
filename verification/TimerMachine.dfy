/**
 * Periodic timers under concurrency: the timer interrupt that re-arms itself and queues a work item,
 * the work item that tries to take the registry mutex and calls the workflows, and the holder of the
 * mutex that links workflows, unlinks them and takes timers down. Every atomic step of the three is
 * an `Action`; a run is any interleaving. `del_timer_sync` and `cancel_work_sync` are steps that
 * become possible once the handler, or the work function, is not running.
 */
module TimerMachine {
  import opened HookTable

  /** The interrupt handler: about to queue the work, about to re-arm, about to return. */
  datatype Handler = Resting | Fired | Queued | Rearmed

  /** The work function: before its trylock, at a list position, inside a workflow. */
  datatype Work = Idle | Started | Walking(next: nat) | Calling(at: nat)

  datatype Clock = Clock(interval: int, callbacks: seq<Workflow>, armed: bool, handler: Handler,
                         pending: bool, work: Work, freed: bool)

  /** Where the registering or unregistering thread, the registrar, stands; the number is a timer's address. */
  datatype Stage =
    | Ready
    | Created(t: nat)
    | Unlinked(t: nat)
    | Deactivate(t: nat)
    | Delist(t: nat)
    | CancelWork(t: nat)
    | Free(t: nat)

  /** Who holds `g_hook_list_array_mutex`. */
  datatype Holder = Nobody | Worker(t: nat) | Registrar(stage: Stage)

  /** What happens to workflows: `Begin` opens a walk over a list, `Pass` leaves a disabled workflow out. */
  datatype Entry =
    | Link(w: Workflow)
    | Unlink(w: Workflow)
    | Begin
    | Start(w: Workflow)
    | Pass(w: Workflow)
    | End(w: Workflow)

  /** `heap` holds every timer ever allocated, `list` is `secDetector_timer_list`. */
  datatype Machine = Machine(heap: seq<Clock>, list: seq<nat>, holder: Holder, log: seq<Entry>)

  const QUIET := Machine([], [], Nobody, [])

  datatype Action =
    | MutexLock | MutexUnlock
    | LinkWorkflow(w: Workflow) | CreateTimer(w: Workflow) | ArmTimer
    | UnlinkWorkflow(w: Workflow) | Synchronize | DelTimerSync | DelistTimer | CancelWorkSync | FreeTimer
    | Fire(t: nat) | QueueWork(t: nat) | Rearm(t: nat) | HandlerReturns(t: nat)
    | StartWork(t: nat) | TryLock(t: nat) | Visit(t: nat, enabled: bool) | CallEnds(t: nat) | WorkEnds(t: nat)

  /** Position in the timer list of the first timer with this interval, or its length. */
  function Find(heap: seq<Clock>, list: seq<nat>, interval: int): (k: nat)
    ensures k <= |list|
    ensures k < |list| ==> list[k] < |heap| && heap[list[k]].interval == interval
    ensures forall j :: 0 <= j < k && list[j] < |heap| ==> heap[list[j]].interval != interval
  {
    if list == [] || (list[0] < |heap| && heap[list[0]].interval == interval) then 0
    else 1 + Find(heap, list[1..], interval)
  }

  predicate AtStage(m: Machine, stage: Stage) {
    m.holder == Registrar(stage)
  }

  /** The timer the registrar is working on. */
  predicate Busy(m: Machine) {
    m.holder.Registrar? && !m.holder.stage.Ready? && m.holder.stage.t < |m.heap|
  }

  predicate Enabled(m: Machine, a: Action) {
    match a
    case MutexLock => m.holder == Nobody
    case MutexUnlock => m.holder == Registrar(Ready)
    case LinkWorkflow(w) =>
      var k := Find(m.heap, m.list, w.interval);
      m.holder == Registrar(Ready) && k < |m.list| && w !in m.heap[m.list[k]].callbacks
    case CreateTimer(w) => m.holder == Registrar(Ready) && Find(m.heap, m.list, w.interval) == |m.list|
    case ArmTimer => Busy(m) && m.holder.stage.Created?
    case UnlinkWorkflow(w) =>
      var k := Find(m.heap, m.list, w.interval);
      m.holder == Registrar(Ready) && k < |m.list| && w in m.heap[m.list[k]].callbacks
    case Synchronize => Busy(m) && m.holder.stage.Unlinked?
    case DelTimerSync => Busy(m) && m.holder.stage.Deactivate? && m.heap[m.holder.stage.t].handler == Resting
    case DelistTimer => Busy(m) && m.holder.stage.Delist?
    case CancelWorkSync => Busy(m) && m.holder.stage.CancelWork? && m.heap[m.holder.stage.t].work == Idle
    case FreeTimer => Busy(m) && m.holder.stage.Free?
    case Fire(t) => t < |m.heap| && m.heap[t].armed && m.heap[t].handler == Resting
    case QueueWork(t) => t < |m.heap| && m.heap[t].handler == Fired
    case Rearm(t) => t < |m.heap| && m.heap[t].handler == Queued
    case HandlerReturns(t) => t < |m.heap| && m.heap[t].handler == Rearmed
    case StartWork(t) => t < |m.heap| && m.heap[t].pending && m.heap[t].work == Idle
    case TryLock(t) => t < |m.heap| && m.heap[t].work == Started
    case Visit(t, enabled) => t < |m.heap| && m.heap[t].work.Walking? && m.heap[t].work.next < |m.heap[t].callbacks|
    case CallEnds(t) => t < |m.heap| && m.heap[t].work.Calling? && m.heap[t].work.at < |m.heap[t].callbacks|
    case WorkEnds(t) => t < |m.heap| && m.heap[t].work.Walking? && m.heap[t].work.next >= |m.heap[t].callbacks|
  }

  function Put(m: Machine, t: nat, c: Clock): Machine
    requires t < |m.heap|
  {
    m.(heap := m.heap[t := c])
  }

  /** The steps of the registrar that holds the mutex. */
  function RegistrarStep(m: Machine, a: Action): Machine
    requires Enabled(m, a)
  {
    match a
    case MutexLock => m.(holder := Registrar(Ready))
    case MutexUnlock => m.(holder := Nobody)
    case LinkWorkflow(w) =>
      var t := m.list[Find(m.heap, m.list, w.interval)];
      Put(m, t, m.heap[t].(callbacks := [w] + m.heap[t].callbacks)).(log := m.log + [Link(w)])
    case CreateTimer(w) =>
      Machine(m.heap + [Clock(w.interval, [w], false, Resting, false, Idle, false)], [|m.heap|] + m.list,
              Registrar(Created(|m.heap|)), m.log + [Link(w)])
    case ArmTimer =>
      Put(m, m.holder.stage.t, m.heap[m.holder.stage.t].(armed := true)).(holder := Registrar(Ready))
    case UnlinkWorkflow(w) =>
      var t := m.list[Find(m.heap, m.list, w.interval)];
      Put(m, t, m.heap[t].(callbacks := Without(m.heap[t].callbacks, w)))
        .(holder := Registrar(Unlinked(t)), log := m.log + [Unlink(w)])
    case Synchronize =>
      var t := m.holder.stage.t;
      m.(holder := Registrar(if m.heap[t].callbacks == [] then Deactivate(t) else Ready))
    case DelTimerSync =>
      var t := m.holder.stage.t;
      Put(m, t, m.heap[t].(armed := false)).(holder := Registrar(Delist(t)))
    case DelistTimer =>
      m.(list := Without(m.list, m.holder.stage.t), holder := Registrar(CancelWork(m.holder.stage.t)))
    case CancelWorkSync =>
      var t := m.holder.stage.t;
      Put(m, t, m.heap[t].(pending := false)).(holder := Registrar(Free(t)))
    case FreeTimer =>
      var t := m.holder.stage.t;
      Put(m, t, m.heap[t].(freed := true)).(holder := Registrar(Ready))
    case _ => m
  }

  /** The steps of a timer's handler and of its work function. */
  function ClockStep(m: Machine, a: Action): Machine
    requires Enabled(m, a)
  {
    match a
    case Fire(t) => Put(m, t, m.heap[t].(armed := false, handler := Fired))
    case QueueWork(t) => Put(m, t, m.heap[t].(pending := true, handler := Queued))
    case Rearm(t) => Put(m, t, m.heap[t].(armed := true, handler := Rearmed))
    case HandlerReturns(t) => Put(m, t, m.heap[t].(handler := Resting))
    case StartWork(t) => Put(m, t, m.heap[t].(pending := false, work := Started))
    case TryLock(t) =>
      if m.holder == Nobody then Put(m, t, m.heap[t].(work := Walking(0))).(holder := Worker(t), log := m.log + [Begin])
      else Put(m, t, m.heap[t].(work := Idle))
    case Visit(t, enabled) =>
      var k := m.heap[t].work.next;
      var w := m.heap[t].callbacks[k];
      if enabled then Put(m, t, m.heap[t].(work := Calling(k))).(log := m.log + [Start(w)])
      else Put(m, t, m.heap[t].(work := Walking(k + 1))).(log := m.log + [Pass(w)])
    case CallEnds(t) =>
      var k := m.heap[t].work.at;
      Put(m, t, m.heap[t].(work := Walking(k + 1))).(log := m.log + [End(m.heap[t].callbacks[k])])
    case WorkEnds(t) => Put(m, t, m.heap[t].(work := Idle)).(holder := Nobody)
    case _ => m
  }

  predicate OfRegistrar(a: Action) {
    || a.MutexLock? || a.MutexUnlock? || a.LinkWorkflow? || a.CreateTimer? || a.ArmTimer? || a.UnlinkWorkflow?
    || a.Synchronize? || a.DelTimerSync? || a.DelistTimer? || a.CancelWorkSync? || a.FreeTimer?
  }

  function Step(m: Machine, a: Action): Machine
    requires Enabled(m, a)
  {
    if OfRegistrar(a) then RegistrarStep(m, a) else ClockStep(m, a)
  }

  /** The state after a sequence of attempted steps, where those that are not possible do nothing. */
  function Exec(actions: seq<Action>): Machine {
    if actions == [] then QUIET
    else
      var m := Exec(actions[..|actions| - 1]);
      var a := actions[|actions| - 1];
      if Enabled(m, a) then Step(m, a) else m
  }

  /* ---- the invariant ------------------------------------------------------------------------ */

  predicate Going(h: Holder, t: nat) {
    h == Registrar(Deactivate(t)) || h == Registrar(Delist(t)) || h == Registrar(CancelWork(t))
      || h == Registrar(Free(t))
  }

  predicate Delisted(h: Holder, t: nat) {
    h == Registrar(CancelWork(t)) || h == Registrar(Free(t))
  }

  /** What holds of one timer, given whether it is listed and who holds the mutex. */
  ghost predicate ClockFine(c: Clock, t: nat, listed: bool, h: Holder) {
    && NoRepeats(c.callbacks)
    && (forall k :: 0 <= k < |c.callbacks| ==> c.callbacks[k].interval == c.interval)
    // a timer is listed until the registrar that takes it down delists it, and then gets freed
    && (listed <==> !c.freed && !Delisted(h, t))
    && (c.freed ==> !Delisted(h, t) && !c.pending && c.work == Idle)
    && (h == Registrar(Created(t)) || h == Registrar(Unlinked(t)) || Going(h, t) ==> !c.freed)
    // it ticks from the end of its creation to its deactivation, and only then
    && (c.armed || c.handler != Resting ==> listed && h != Registrar(Created(t)) && h != Registrar(Delist(t)))
    && (listed && !c.armed && c.handler == Resting ==> h == Registrar(Created(t)) || h == Registrar(Delist(t)))
    && (c.handler == Fired || c.handler == Queued ==> !c.armed)
    && (c.handler == Rearmed ==> c.armed)
    // the work walks the list only with the mutex
    && (c.work.Walking? || c.work.Calling? <==> h == Worker(t))
    && (h == Worker(t) ==> listed)
    && (c.work.Walking? ==> c.work.next <= |c.callbacks|)
    && (c.work.Calling? ==> c.work.at < |c.callbacks|)
    && (c.pending || c.work != Idle ==> h != Registrar(Created(t)) && h != Registrar(Free(t)))
    // it has workflows until its last one is unlinked
    && (c.callbacks == [] <==> !listed || Going(h, t) || (h == Registrar(Unlinked(t)) && c.callbacks == []))
  }

  ghost predicate AllClocksFine(heap: seq<Clock>, list: seq<nat>, h: Holder) {
    forall t: nat :: t < |heap| ==> ClockFine(heap[t], t, t in list, h)
  }

  ghost predicate ListFine(heap: seq<Clock>, list: seq<nat>) {
    && (forall k :: 0 <= k < |list| ==> list[k] < |heap|)
    && (forall j, k :: 0 <= j < k < |list| ==> heap[list[j]].interval != heap[list[k]].interval)
  }

  predicate HolderFine(heap: seq<Clock>, h: Holder) {
    && (h.Worker? ==> h.t < |heap|)
    && (h.Registrar? && !h.stage.Ready? ==> h.stage.t < |heap|)
  }

  ghost predicate Inv(m: Machine) {
    ListFine(m.heap, m.list) && HolderFine(m.heap, m.holder) && AllClocksFine(m.heap, m.list, m.holder)
  }
}
