/** What the registry operations do to the lists, place by place, and that they keep the invariant. */
module HookEffects {
  import opened HookTable

  /* ---- timers --------------------------------------------------------------------------- */

  lemma FindFirst(timers: seq<Timer>, interval: int, k: nat)
    requires k <= |timers|
    requires k < |timers| ==> timers[k].interval == interval
    requires forall j :: 0 <= j < k ==> timers[j].interval != interval
    ensures FindTimer(timers, interval) == k
  {
  }

  /** Replacing one timer's callbacks is seen at its interval and nowhere else. */
  lemma ReplaceCallbacks(timers: seq<Timer>, k: nat, list: seq<Workflow>)
    requires DistinctIntervals(timers) && k < |timers|
    ensures var after := timers[k := Timer(timers[k].interval, list)];
            && DistinctIntervals(after)
            && forall i: int :: Callbacks(after, i) == if i == timers[k].interval then list else Callbacks(timers, i)
  {
    var after := timers[k := Timer(timers[k].interval, list)];
    forall i: int ensures Callbacks(after, i) == if i == timers[k].interval then list else Callbacks(timers, i) {
      FindFirst(after, i, FindTimer(timers, i));
    }
  }

  lemma PrependTimer(timers: seq<Timer>, t: Timer)
    requires DistinctIntervals(timers) && FindTimer(timers, t.interval) == |timers|
    ensures DistinctIntervals([t] + timers)
    ensures forall i: int :: Callbacks([t] + timers, i) == if i == t.interval then t.callbacks else Callbacks(timers, i)
  {
    var after := [t] + timers;
    forall i: int ensures Callbacks(after, i) == if i == t.interval then t.callbacks else Callbacks(timers, i) {
      FindFirst(after, i, if i == t.interval then 0 else 1 + FindTimer(timers, i));
    }
  }

  lemma RemoveTimer(timers: seq<Timer>, k: nat)
    requires DistinctIntervals(timers) && k < |timers|
    ensures var after := timers[..k] + timers[k + 1..];
            && DistinctIntervals(after)
            && forall i: int :: Callbacks(after, i) == if i == timers[k].interval then [] else Callbacks(timers, i)
  {
    var after := timers[..k] + timers[k + 1..];
    forall i: int ensures Callbacks(after, i) == if i == timers[k].interval then [] else Callbacks(timers, i) {
      var f := FindTimer(timers, i);
      FindFirst(after, i, if i == timers[k].interval then |after| else if f < k then f else f - 1);
    }
  }

  /* ---- insertion ------------------------------------------------------------------------ */

  /** When an insertion goes through: it has a place, is not there yet, and opening an empty place works. */
  predicate Admissible(s: State, w: Workflow, o: Outcome) {
    var p := PlaceOf(w);
    && !p.Nowhere?
    && w !in Lookup(s, p)
    && (Lookup(s, p) == [] ==> if p.Hook? then o.probe >= 0 else o.memory)
  }

  lemma PrependFine(list: seq<Workflow>, w: Workflow, p: Place)
    requires NoRepeats(list) && AllAt(list, p) && w !in list && PlaceOf(w) == p
    ensures NoRepeats([w] + list) && AllAt([w] + list, p)
  {
  }

  /**
   * An insertion puts the workflow at the head of the list at its place and changes no other list,
   * or refuses and changes nothing; it keeps the invariant either way.
   */
  lemma InsertEffect(s: State, w: Workflow, o: Outcome)
    requires WellFormed(s)
    ensures var (after, ret) := Insert(s, w, o);
            && WellFormed(after)
            && (ret >= 0 <==> Admissible(s, w, o))
            && (ret < 0 ==> after == s)
            && (ret >= 0 ==>
                  forall p :: Lookup(after, p) == if p == PlaceOf(w) then [w] + Lookup(s, p) else Lookup(s, p))
  {
    var (after, ret) := Insert(s, w, o);
    var p := PlaceOf(w);
    LookupNoRepeats(s, p);
    if IsKprobe(w.hookType) {
      assert HookFine(s.hooks[w.hookType], w.hookType);
      if ret >= 0 {
        PrependFine(s.hooks[w.hookType], w, p);
        assert forall h :: 0 <= h < HOOKEND && h != w.hookType ==>
                 HookFine(s.hooks[h], h) && after.hooks[h] == s.hooks[h];
      }
    } else if w.hookType == SECDETECTOR_TIMER {
      var k := FindTimer(s.timers, w.interval);
      if k < |s.timers| {
        assert TimerFine(s.timers[k]);
        if ret >= 0 {
          PrependFine(s.timers[k].callbacks, w, p);
          ReplaceCallbacks(s.timers, k, [w] + s.timers[k].callbacks);
        }
      } else if ret >= 0 {
        PrependFine([], w, p);
        assert [w] + [] == [w];
        PrependTimer(s.timers, Timer(w.interval, [w]));
      }
    }
  }

  /* ---- deletion ------------------------------------------------------------------------- */

  /**
   * A deletion unlinks the workflow from the list at its place and changes no other list; a workflow
   * that is not in the registry is left alone and the deletion still reports no error.
   */
  lemma DeleteEffect(s: State, w: Workflow)
    requires WellFormed(s)
    ensures var (after, ret) := Delete(s, w);
            && WellFormed(after)
            && ret >= 0
            && (w !in Lookup(s, PlaceOf(w)) ==> after == s)
            && forall p :: Lookup(after, p) == if p == PlaceOf(w) then Without(Lookup(s, p), w) else Lookup(s, p)
  {
    var (after, ret) := Delete(s, w);
    var p := PlaceOf(w);
    LookupNoRepeats(s, p);
    if w !in Lookup(s, p) {
      WithoutAbsent(Lookup(s, p), w);
    } else if IsKprobe(w.hookType) {
      assert HookFine(s.hooks[w.hookType], w.hookType);
      WithoutMembers(s.hooks[w.hookType], w);
      assert forall h :: 0 <= h < HOOKEND && h != w.hookType ==>
               HookFine(s.hooks[h], h) && after.hooks[h] == s.hooks[h];
    } else {
      DeleteTimerEffect(s, w);
    }
  }

  lemma DeleteTimerEffect(s: State, w: Workflow)
    requires WellFormed(s) && PlaceOf(w).Every? && w in Callbacks(s.timers, w.interval)
    ensures WellFormed(DropTimer(s, w))
    ensures forall p :: Lookup(DropTimer(s, w), p) == if p == PlaceOf(w) then Without(Lookup(s, p), w) else Lookup(s, p)
  {
    DropTimerTimers(s.timers, w);
    var after := DropTimer(s, w);
    forall p ensures Lookup(after, p) == if p == PlaceOf(w) then Without(Lookup(s, p), w) else Lookup(s, p) {
      hide Callbacks, WellFormed, DropTimer, Without;
      assert after.hooks == s.hooks;
      if p.Every? {
        assert Lookup(after, p) == Callbacks(after.timers, p.interval);
      }
    }
  }

  lemma DropTimerTimers(timers: seq<Timer>, w: Workflow)
    requires TimersFine(timers) && w in Callbacks(timers, w.interval)
    ensures var after := DropTimer(EMPTY.(timers := timers), w).timers;
            && TimersFine(after)
            && forall i: int ::
                 Callbacks(after, i)
                 == if i == w.interval then Without(Callbacks(timers, i), w) else Callbacks(timers, i)
  {
    var k := FindTimer(timers, w.interval);
    assert TimerFine(timers[k]);
    var rest := Without(timers[k].callbacks, w);
    WithoutMembers(timers[k].callbacks, w);
    if rest == [] {
      RemoveTimer(timers, k);
    } else {
      ReplaceCallbacks(timers, k, rest);
    }
  }
}
