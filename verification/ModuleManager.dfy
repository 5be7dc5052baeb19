/** Registration of detector modules: ids, rollback of a registration that fails, and removal. */
module ModuleManager {
  import opened HookTable
  import opened HookEffects
  import opened HookRegistry
  import opened ModuleList

  /** `ids` is the id allocator's table, `list` the list of registered modules. */
  datatype System = System(hooks: State, ids: map<nat, Module>, list: Listing)

  const NOTHING := System(EMPTY, map[], EMPTY_LIST)

  /* ---- the effect of the two operations -------------------------------------------------- */

  /** Inserting workflows from the `k`th on until one is refused: new state, last answer, where it stopped. */
  ghost function InsertFrom(s: State, ws: seq<Workflow>, k: nat, last: int, env: nat -> Outcome): (r: (State, int, nat))
    requires k <= |ws| && WellFormed(s) && last >= 0
    ensures WellFormed(r.0) && k <= r.2 <= |ws| && (r.1 >= 0 <==> r.2 == |ws|)
    decreases |ws| - k
  {
    if k == |ws| then (s, last, k)
    else
      InsertEffect(s, ws[k], env(k));
      var (next, ret) := Insert(s, ws[k], env(k));
      if ret < 0 then (next, ret, k) else InsertFrom(next, ws, k + 1, ret, env)
  }

  ghost function DeleteAll(s: State, ws: seq<Workflow>): (after: State)
    requires WellFormed(s)
    ensures WellFormed(after)
    decreases |ws|
  {
    if ws == [] then s
    else
      DeleteEffect(s, ws[0]);
      DeleteAll(Delete(s, ws[0]).0, ws[1..])
  }

  /** `secDetector_module_unregister`: only an id the allocator knows gets the workflows unlinked. */
  ghost function Unregistered(sys: System, module_: Module, id: nat): System
    requires WellFormed(sys.hooks)
  {
    System(if id in sys.ids then DeleteAll(sys.hooks, module_.workflows) else sys.hooks,
           sys.ids - {id}, Dropped(sys.list, module_))
  }

  /** What happens during one registration besides the program: the id allocated (or an error), /proc, the kernel. */
  datatype Luck = Luck(slot: int, entry: bool, env: nat -> Outcome)

  /** `secDetector_module_register`: new state, answer, and the module's id afterwards. */
  ghost function Registered(sys: System, module_: Module, id: nat, luck: Luck): (System, int, nat)
    requires WellFormed(sys.hooks)
  {
    if luck.slot < 0 then (sys, luck.slot, id)
    else
      var ids := sys.ids[luck.slot := module_];
      var (hooks, ret, n) := InsertFrom(sys.hooks, module_.workflows, 0, 0, luck.env);
      if ret < 0 then (Unregistered(System(hooks, ids, sys.list), module_, id), ret, id)
      else if module_.parameter && !luck.entry then
        (Unregistered(System(hooks, ids, sys.list), module_, id), -EINVAL, id)
      else (System(hooks, ids, Added(sys.list, module_)), ret, luck.slot)
  }

  /* ---- the operations --------------------------------------------------------------------- */

  class Manager {
    const registry: Registry
    var ids: map<nat, Module>
    var links: Links
    ghost var list: Listing

    ghost function Now(): System
      reads this, registry
    {
      System(registry.Now(), ids, list)
    }

    ghost predicate Valid()
      reads this, registry
    {
      registry.Valid() && Matches(links, list)
    }

    constructor ()
      ensures Valid() && Now() == NOTHING && fresh(registry)
    {
      NothingListed();
      registry := new Registry();
      ids := map[];
      links := NO_MODULES;
      list := EMPTY_LIST;
    }

    /** `secDetector_module_unregister`. */
    method Unregister(module_: Module?)
      requires Valid()
      modifies this, registry
      ensures Valid()
      ensures module_ == null ==> Now() == old(Now())
      ensures module_ != null ==> Now() == Unregistered(old(Now()), module_, old(module_.id))
    {
      if module_ == null {
        return;
      }
      var known := module_.id in ids;
      ids := ids - {module_.id};
      if known {
        assert module_.workflows[0..] == module_.workflows;
        for i := 0 to |module_.workflows|
          invariant Valid() && ids == old(ids) - {module_.id} && links == old(links) && list == old(list)
          invariant DeleteAll(registry.Now(), module_.workflows[i..])
                      == DeleteAll(old(registry.Now()), module_.workflows)
        {
          ghost var was := registry.Now();
          DeleteEffect(was, module_.workflows[i]);
          assert module_.workflows[i..][1..] == module_.workflows[i + 1..];
          var ret := registry.DeleteCallback(module_.workflows[i]);
          if ret < 0 {
            assert false;
            break;
          }
        }
        assert module_.workflows[|module_.workflows|..] == [];
      }
      DroppedMatches(links, list, module_);
      if SeemsLinked(links, module_) {
        links := Unlink(links, module_);
      }
      list := Dropped(list, module_);
    }

    /** `secDetector_module_register`. */
    method Register(module_: Module?, luck: Luck) returns (ret: int)
      requires Valid()
      requires luck.slot >= 0 ==> luck.slot !in ids
      modifies this, registry
      modifies if module_ == null then {} else {module_}
      modifies if module_ == null then {} else set w | w in module_.workflows
      ensures Valid()
      ensures module_ == null ==> ret == -EINVAL && Now() == old(Now())
      ensures module_ != null ==> (Now(), ret, module_.id) == Registered(old(Now()), module_, old(module_.id), luck)
      ensures module_ != null && ret >= 0 && NoRepeats(module_.workflows) ==>
                forall k :: 0 <= k < |module_.workflows| ==>
                  module_.workflows[k].owner == module_ && module_.workflows[k].id == k
    {
      hide WellFormed, Unregistered, Insert, Matches;
      if module_ == null {
        return -EINVAL;
      }
      if luck.slot < 0 {
        return luck.slot;
      }
      ids := ids[luck.slot := module_];
      var workflows := module_.workflows;
      ret := 0;
      var i := 0;
      while i < |workflows|
        invariant i <= |workflows| && Valid() && ret >= 0
        invariant ids == old(ids)[luck.slot := module_] && links == old(links) && list == old(list)
        invariant module_.id == old(module_.id)
        invariant InsertFrom(registry.Now(), workflows, i, ret, luck.env)
                  == InsertFrom(old(registry.Now()), workflows, 0, 0, luck.env)
        invariant NoRepeats(workflows) ==>
                    forall k :: 0 <= k < i ==> workflows[k].owner == module_ && workflows[k].id == k
      {
        workflows[i].owner := module_;
        ret := registry.InsertCallback(workflows[i], luck.env(i));
        if ret < 0 {
          break;
        }
        workflows[i].id := i;
        i := i + 1;
      }
      if ret >= 0 && module_.parameter && !luck.entry {
        ret := -EINVAL;
      }
      if ret < 0 {
        Unregister(module_);
        return;
      }
      module_.id := luck.slot;
      AddedMatches(links, list, module_);
      links := LinkFirst(links, module_);
      list := Added(list, module_);
    }
  }
}
