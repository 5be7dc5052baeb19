/** The registry operations as the kernel module runs them, under `g_hook_list_array_mutex`. */
module HookRegistry {
  import opened HookTable
  import opened HookEffects

  datatype Kind = KprobeRow | TracepointRow | TimerRow

  /** One row of `hook_list_funcs`: a range of hook types and whose functions serve it. */
  datatype Row = Row(typeMin: nat, typeMax: nat, kind: Kind)

  const ROWS: seq<Row> := [
    Row(KPROBE_HOOK_START, KPROBE_HOOK_END, KprobeRow),
    Row(TRACEPOINT_HOOK_START, TRACEPOINT_HOOK_END, TracepointRow),
    Row(SECDETECTOR_TIMER, SECDETECTOR_TIMER, TimerRow)]

  lemma WithoutHead(list: seq<Workflow>, k: nat, w: Workflow)
    requires k < |list| && list[k] != w && w in list[k..]
    ensures list[..k] + Without(list[k..], w) == list[..k + 1] + Without(list[k + 1..], w)
    ensures k + 1 < |list| && w in list[k + 1..]
  {
    var tail := Without(list[k + 1..], w);
    assert list[k..] == [list[k]] + list[k + 1..];
    assert list[..k] + ([list[k]] + tail) == list[..k + 1] + tail;
  }

  class Registry {
    var hooks: seq<seq<Workflow>>
    var probes: seq<bool>
    var timers: seq<Timer>

    ghost function Now(): State
      reads this
    {
      State(hooks, probes, timers)
    }

    ghost predicate Valid()
      reads this
    {
      WellFormed(Now())
    }

    /** `init_secDetector_hook`. */
    constructor ()
      ensures Valid() && Now() == EMPTY
    {
      hooks := [[], [], [], [], []];
      probes := [false, false, false];
      timers := [];
    }

    /** The scan of one list. */
    method Scan(list: seq<Workflow>, workflow: Workflow) returns (found: bool)
      ensures found <==> workflow in list
    {
      for k := 0 to |list|
        invariant workflow !in list[..k]
      {
        if list[k] == workflow {
          return true;
        }
      }
      return false;
    }

    /** `kprobe_exists`; a type outside the kprobe range makes it answer `-1`, that is, true. */
    method KprobeExists(workflow: Workflow?) returns (found: bool)
      requires Valid()
      ensures found <==>
                workflow != null && (!IsKprobe(workflow.hookType) || workflow in Lookup(Now(), PlaceOf(workflow)))
    {
      if workflow == null {
        return false;
      }
      if workflow.hookType < KPROBE_HOOK_START || workflow.hookType > KPROBE_HOOK_END {
        return true;
      }
      found := Scan(hooks[workflow.hookType], workflow);
    }

    /** `tracepoint_exists`: no tracepoint list ever holds a workflow. */
    method TracepointExists(workflow: Workflow?) returns (found: bool)
      requires Valid()
      ensures found <==> workflow != null && !IsTracepoint(workflow.hookType)
    {
      if workflow == null {
        return false;
      }
      if workflow.hookType < TRACEPOINT_HOOK_START || workflow.hookType > TRACEPOINT_HOOK_END {
        return true;
      }
      assert HookFine(hooks[workflow.hookType], workflow.hookType);
      found := Scan(hooks[workflow.hookType], workflow);
    }

    /**
     * `timer_callback_exists`: it stops at the first timer with the workflow's interval, and the
     * answer is nonetheless about the callbacks of every timer.
     */
    method TimerCallbackExists(workflow: Workflow?) returns (found: bool)
      requires Valid()
      ensures found <==> workflow != null && exists k :: 0 <= k < |timers| && workflow in timers[k].callbacks
    {
      if workflow == null {
        return false;
      }
      forall k | 0 <= k < |timers| && workflow in timers[k].callbacks
        ensures timers[k].interval == workflow.interval
      {
        assert TimerFine(timers[k]);
      }
      for k := 0 to |timers|
        invariant forall j :: 0 <= j < k ==> timers[j].interval != workflow.interval
      {
        if workflow.interval != timers[k].interval {
          continue;
        }
        found := Scan(timers[k].callbacks, workflow);
        return;
      }
      return false;
    }

    /** `insert_kprobe_hook`; `answer` is what `register_kprobe` returns if it is called. */
    method InsertKprobeHook(workflow: Workflow?, answer: int) returns (ret: int)
      requires Valid()
      requires workflow != null && IsKprobe(workflow.hookType) ==> workflow !in Lookup(Now(), PlaceOf(workflow))
      modifies this
      ensures workflow == null || !IsKprobe(workflow.hookType) ==> ret == -1 && Now() == old(Now())
      ensures workflow != null && IsKprobe(workflow.hookType) ==> (Now(), ret) == AddProbe(old(Now()), workflow, answer)
    {
      ret := 0;
      if workflow == null {
        return -1;
      }
      if workflow.hookType < KPROBE_HOOK_START || workflow.hookType > KPROBE_HOOK_END {
        return -1;
      }
      var t := workflow.hookType;
      if hooks[t] == [] {
        ret := answer;
        if ret < 0 {
          return ret;
        }
        probes := probes[t := true];
      }
      hooks := hooks[t := [workflow] + hooks[t]];
    }

    /** `delete_kprobe_hook`, on a workflow that is on its list. */
    method DeleteKprobeHook(workflow: Workflow?) returns (ret: int)
      requires Valid()
      requires workflow != null && IsKprobe(workflow.hookType) ==> workflow in Lookup(Now(), PlaceOf(workflow))
      modifies this
      ensures workflow == null || !IsKprobe(workflow.hookType) ==> ret == -1 && Now() == old(Now())
      ensures workflow != null && IsKprobe(workflow.hookType) ==> (Now(), ret) == (DropProbe(old(Now()), workflow), 0)
    {
      if workflow == null {
        return -1;
      }
      if workflow.hookType < KPROBE_HOOK_START || workflow.hookType > KPROBE_HOOK_END {
        return -1;
      }
      var t := workflow.hookType;
      var rest := Unlink(hooks[t], workflow);
      hooks := hooks[t := rest];
      if hooks[t] == [] {
        probes := probes[t := false];
      }
      return 0;
    }

    /** `list_del_rcu`, by the position of the node. */
    method Unlink(list: seq<Workflow>, workflow: Workflow) returns (rest: seq<Workflow>)
      requires workflow in list
      ensures rest == Without(list, workflow)
    {
      var k := 0;
      assert list[0..] == list;
      while list[k] != workflow
        invariant k < |list| && workflow in list[k..]
        invariant Without(list, workflow) == list[..k] + Without(list[k..], workflow)
        decreases |list| - k
      {
        WithoutHead(list, k, workflow);
        k := k + 1;
      }
      assert list[k..][1..] == list[k + 1..];
      rest := list[..k] + list[k + 1..];
    }

    /** `insert_tracepoint_hook`: its table has no functions to register, so it always refuses. */
    method InsertTracepointHook(workflow: Workflow?) returns (ret: int)
      requires Valid()
      ensures ret == -1
    {
      if workflow == null {
        return -1;
      }
      if workflow.hookType < TRACEPOINT_HOOK_START || workflow.hookType > TRACEPOINT_HOOK_END {
        return -1;
      }
      assert HookFine(hooks[workflow.hookType], workflow.hookType);
      return -1;
    }

    /** `insert_timer_callback`; `memory` says whether `kzalloc` succeeds if it is called. */
    method InsertTimerCallback(workflow: Workflow?, memory: bool) returns (ret: int)
      requires Valid()
      requires workflow != null ==> workflow !in Callbacks(timers, workflow.interval)
      modifies this
      ensures workflow == null ==> ret == -1 && Now() == old(Now())
      ensures workflow != null ==> (Now(), ret) == AddTimer(old(Now()), workflow, memory)
    {
      if workflow == null {
        return -1;
      }
      for k := 0 to |timers|
        invariant Now() == old(Now())
        invariant forall j :: 0 <= j < k ==> timers[j].interval != workflow.interval
      {
        if workflow.interval == timers[k].interval {
          FindFirst(timers, workflow.interval, k);
          timers := timers[k := Timer(timers[k].interval, [workflow] + timers[k].callbacks)];
          return 0;
        }
      }
      if !memory {
        return -ENOMEM;
      }
      timers := [Timer(workflow.interval, [workflow])] + timers;
      return 0;
    }

    /** `unlink_timer_callback`, on a workflow that some timer calls. */
    method UnlinkTimerCallback(workflow: Workflow?) returns (ret: int)
      requires Valid()
      requires workflow != null ==> workflow in Callbacks(timers, workflow.interval)
      modifies this
      ensures workflow == null ==> ret == -1 && Now() == old(Now())
      ensures workflow != null ==> (Now(), ret) == (DropTimer(old(Now()), workflow), 1)
    {
      if workflow == null {
        return -1;
      }
      for k := 0 to |timers|
        invariant Now() == old(Now())
        invariant forall j :: 0 <= j < k ==> timers[j].interval != workflow.interval
      {
        if workflow.interval == timers[k].interval {
          FindFirst(timers, workflow.interval, k);
          var rest := Unlink(timers[k].callbacks, workflow);
          if rest == [] {
            timers := timers[..k] + timers[k + 1..];
          } else {
            timers := timers[k := Timer(timers[k].interval, rest)];
          }
          return 1;
        }
      }
      return 0;
    }

    method Exists(kind: Kind, workflow: Workflow) returns (found: bool)
      requires Valid()
      requires kind == KprobeRow ==> IsKprobe(workflow.hookType)
      requires kind == TracepointRow ==> IsTracepoint(workflow.hookType)
      requires kind == TimerRow ==> workflow.hookType == SECDETECTOR_TIMER
      ensures found <==> workflow in Lookup(Now(), PlaceOf(workflow))
    {
      match kind
      case KprobeRow => found := KprobeExists(workflow);
      case TracepointRow => found := TracepointExists(workflow);
      case TimerRow =>
        found := TimerCallbackExists(workflow);
        if found {
          var k :| 0 <= k < |timers| && workflow in timers[k].callbacks;
          assert TimerFine(timers[k]);
          CallbacksAt(timers, k);
        }
    }

    /** `insert_callback`. */
    method InsertCallback(workflow: Workflow?, o: Outcome) returns (ret: int)
      requires Valid()
      modifies this
      ensures Valid()
      ensures workflow == null ==> ret == -EFAULT && Now() == old(Now())
      ensures workflow != null ==> (Now(), ret) == Insert(old(Now()), workflow, o)
    {
      ret := -EFAULT;
      if workflow == null {
        return;
      }
      InsertEffect(Now(), workflow, o);
      for i := 0 to |ROWS|
        invariant Now() == old(Now()) && ret == -EFAULT
        invariant forall j :: 0 <= j < i ==> !(ROWS[j].typeMin <= workflow.hookType <= ROWS[j].typeMax)
      {
        if ROWS[i].typeMin <= workflow.hookType && workflow.hookType <= ROWS[i].typeMax {
          var found := Exists(ROWS[i].kind, workflow);
          if found {
            return -EEXIST;
          }
          match ROWS[i].kind {
            case KprobeRow => ret := InsertKprobeHook(workflow, o.probe);
            case TracepointRow => ret := InsertTracepointHook(workflow);
            case TimerRow => ret := InsertTimerCallback(workflow, o.memory);
          }
          return;
        }
      }
      assert ROWS[0].typeMax == 2 && ROWS[1].typeMin == 4 && ROWS[2].typeMin == 6;
    }

    /** `delete_callback`. */
    method DeleteCallback(workflow: Workflow?) returns (ret: int)
      requires Valid()
      modifies this
      ensures Valid()
      ensures workflow == null ==> ret == -EFAULT && Now() == old(Now())
      ensures workflow != null ==> (Now(), ret) == Delete(old(Now()), workflow)
    {
      ret := -EFAULT;
      if workflow == null {
        return;
      }
      ret := 0;
      DeleteEffect(Now(), workflow);
      for i := 0 to |ROWS|
        invariant Now() == old(Now()) && ret == 0
        invariant forall j :: 0 <= j < i && ROWS[j].typeMin <= workflow.hookType <= ROWS[j].typeMax ==>
                    workflow !in Lookup(Now(), PlaceOf(workflow))
      {
        if ROWS[i].typeMin <= workflow.hookType && workflow.hookType <= ROWS[i].typeMax {
          var found := Exists(ROWS[i].kind, workflow);
          if !found {
            continue;
          }
          match ROWS[i].kind {
            case KprobeRow => ret := DeleteKprobeHook(workflow);
            case TracepointRow => assert false;
            case TimerRow => ret := UnlinkTimerCallback(workflow);
          }
          return;
        }
      }
      assert ROWS[0].typeMax == 2 && ROWS[1].typeMin == 4 && ROWS[2].typeMin == 6;
    }
  }
}
