/**
 * The list of registered modules as the kernel keeps it: two pointers in every module, written by
 * `list_add_rcu` and `list_del_rcu`, and what those pointers amount to while the list is sound.
 */
module ModuleList {
  import opened HookTable

  /* ---- the pointers --------------------------------------------------------------------------- */

  /** What a list pointer holds; a static module starts with zeroed ones. */
  datatype Link = Null | Poison | Head | Node(owner: Module)

  /** The pointers of the list's head and of every module, and whether a write has gone astray. */
  datatype Links = Links(next: map<Link, Link>, prev: map<Link, Link>, fault: bool)

  const NO_MODULES := Links(map[Head := Head], map[Head := Head], false)

  function Next(l: Links, x: Link): Link {
    if x in l.next then l.next[x] else Null
  }

  function Prev(l: Links, x: Link): Link {
    if x in l.prev then l.prev[x] else Null
  }

  predicate Addressable(x: Link) {
    x.Head? || x.Node?
  }

  function SetNext(l: Links, x: Link, y: Link): Links {
    if Addressable(x) then l.(next := l.next[x := y]) else l.(fault := true)
  }

  function SetPrev(l: Links, x: Link, y: Link): Links {
    if Addressable(x) then l.(prev := l.prev[x := y]) else l.(fault := true)
  }

  /** `list_add_rcu` at the head of the list. */
  function LinkFirst(l: Links, m: Module): Links {
    var first := Next(l, Head);
    var own := SetPrev(SetNext(l, Node(m), first), Node(m), Head);
    SetPrev(SetNext(own, Head, Node(m)), first, Node(m))
  }

  /** `list_del_rcu`: the module keeps its `next` and gets a poisoned `prev`. */
  function Unlink(l: Links, m: Module): Links {
    var next, prev := Next(l, Node(m)), Prev(l, Node(m));
    SetPrev(SetNext(SetPrev(l, next, prev), prev, next), Node(m), Poison)
  }

  /** The test `secDetector_module_unregister` makes before it unlinks a module. */
  predicate SeemsLinked(l: Links, m: Module) {
    var next, prev := Next(l, Node(m)), Prev(l, Node(m));
    next != Null && prev != Null && (next != Node(m) || prev != Node(m))
  }

  function UnlinkIfLinked(l: Links, m: Module): Links {
    if SeemsLinked(l, m) then Unlink(l, m) else l
  }

  /* ---- what they amount to -------------------------------------------------------------------- */

  /**
   * `nodes` are the listed modules with the newest in front, `removed` those taken off the list and not
   * put on it again. `damaged` is set by the first write that leaves no list, and never taken back.
   */
  datatype Listing = Listing(nodes: seq<Module>, removed: set<Module>, damaged: bool)

  const EMPTY_LIST := Listing([], {}, false)

  function Added(list: Listing, m: Module): Listing {
    Listing([m] + list.nodes, list.removed - {m}, list.damaged || m in list.nodes)
  }

  function Dropped(list: Listing, m: Module): Listing {
    if m in list.nodes then Listing(Without(list.nodes, m), list.removed + {m}, list.damaged)
    else list.(damaged := list.damaged || m in list.removed)
  }

  function Ring(nodes: seq<Module>): (ring: seq<Link>)
    ensures |ring| == |nodes| + 2
  {
    [Head] + seq(|nodes|, i requires 0 <= i < |nodes| => Node(nodes[i])) + [Head]
  }

  /** Each element points to the one behind it and back. */
  ghost predicate Joined(l: Links, ring: seq<Link>) {
    forall i, j :: 0 <= i && j == i + 1 && j < |ring| ==> Next(l, ring[i]) == ring[j] && Prev(l, ring[j]) == ring[i]
  }

  ghost predicate Distinct(nodes: seq<Module>) {
    forall i, j :: 0 <= i < j < |nodes| ==> nodes[i] != nodes[j]
  }

  /** The pointers form the list `nodes`, and the rest is zeroed or poisoned. */
  ghost predicate Shows(l: Links, nodes: seq<Module>, removed: set<Module>) {
    !l.fault && Distinct(nodes) && Joined(l, Ring(nodes)) && RestFine(l, nodes, removed)
  }

  /** A removed module is poisoned, and no other pointer outside the list was ever written. */
  ghost predicate RestFine(l: Links, nodes: seq<Module>, removed: set<Module>) {
    && (forall m :: m in removed ==> m !in nodes && Prev(l, Node(m)) == Poison && Next(l, Node(m)) != Null)
    && (forall x :: x in l.next ==> Allowed(x, nodes, removed))
    && (forall x :: x in l.prev ==> Allowed(x, nodes, removed))
  }

  predicate Allowed(x: Link, nodes: seq<Module>, removed: set<Module>) {
    x.Head? || (x.Node? && (x.owner in nodes || x.owner in removed))
  }

  lemma NothingListed()
    ensures Shows(NO_MODULES, [], {})
  {
    assert Ring([]) == [Head, Head];
  }

  /** The pointers of a listed module. */
  lemma AtRing(l: Links, nodes: seq<Module>, k: nat)
    requires Distinct(nodes) && Joined(l, Ring(nodes)) && k < |nodes|
    ensures Next(l, Node(nodes[k])) == Ring(nodes)[k + 2] && Prev(l, Node(nodes[k])) == Ring(nodes)[k]
    ensures Ring(nodes)[k + 1] == Node(nodes[k])
    ensures Addressable(Ring(nodes)[k]) && Addressable(Ring(nodes)[k + 2])
    ensures Ring(nodes)[k] != Node(nodes[k]) && Ring(nodes)[k + 2] != Node(nodes[k])
  {
    var ring := Ring(nodes);
    assert ring[k + 1] == Node(nodes[k]);
    assert Next(l, ring[k + 1]) == ring[k + 2] && Prev(l, ring[k + 1]) == ring[k];
  }

  /** The test finds exactly the listed modules and those removed from the list. */
  lemma SeemsLinkedExactly(l: Links, nodes: seq<Module>, removed: set<Module>, m: Module)
    requires Shows(l, nodes, removed)
    ensures SeemsLinked(l, m) <==> m in nodes || m in removed
  {
    if m in nodes {
      var k :| 0 <= k < |nodes| && nodes[k] == m;
      AtRing(l, nodes, k);
    }
  }

  /** Putting a module that is not listed in front leaves the list with it in front. */
  lemma LinkShows(l: Links, nodes: seq<Module>, removed: set<Module>, m: Module)
    requires Shows(l, nodes, removed) && m !in nodes
    ensures Shows(LinkFirst(l, m), [m] + nodes, removed - {m})
  {
    var after, ring, wide := LinkFirst(l, m), Ring(nodes), Ring([m] + nodes);
    assert Next(l, ring[0]) == ring[1];
    assert wide == [Head, Node(m)] + ring[1..];
    forall i, j | 0 <= i && j == i + 1 && j < |wide|
      ensures Next(after, wide[i]) == wide[j] && Prev(after, wide[j]) == wide[i]
    {
      if i > 1 {
        assert wide[i] == ring[i - 1] && wide[j] == ring[i];
        assert Next(l, ring[i - 1]) == ring[i] && Prev(l, ring[i]) == ring[i - 1];
      }
    }
  }

  lemma {:induction false} WithoutAt(nodes: seq<Module>, k: nat)
    requires Distinct(nodes) && k < |nodes|
    ensures Without(nodes, nodes[k]) == nodes[..k] + nodes[k + 1..] && Distinct(Without(nodes, nodes[k]))
    ensures forall m :: m in Without(nodes, nodes[k]) <==> m in nodes && m != nodes[k]
  {
    assert nodes == [nodes[0]] + nodes[1..];
    if k > 0 {
      WithoutAt(nodes[1..], k - 1);
    }
  }

  lemma ShortRing(nodes: seq<Module>, k: nat)
    requires k < |nodes|
    ensures Ring(nodes[..k] + nodes[k + 1..]) == Ring(nodes)[..k + 1] + Ring(nodes)[k + 2..]
  {
  }

  /** Past the gap the neighbours point to each other. */
  lemma UnlinkAt(l: Links, nodes: seq<Module>, k: nat, i: nat)
    requires Distinct(nodes) && Joined(l, Ring(nodes)) && k < |nodes| && i <= |nodes| && i != k + 1
    ensures var after, ring, j := Unlink(l, nodes[k]), Ring(nodes), if i == k then k + 2 else i + 1;
            Next(after, ring[i]) == ring[j] && Prev(after, ring[j]) == ring[i]
  {
    AtRing(l, nodes, k);
    var ring := Ring(nodes);
    assert Next(l, ring[i]) == ring[i + 1] && Prev(l, ring[i + 1]) == ring[i];
    RingApart(nodes, i, k);
    RingApart(nodes, i + 1, k + 2);
    RingApart(nodes, i + 1, k + 1);
    hide Ring, Joined;
  }

  lemma UnlinkJoins(l: Links, nodes: seq<Module>, k: nat)
    requires Distinct(nodes) && Joined(l, Ring(nodes)) && k < |nodes|
    ensures Joined(Unlink(l, nodes[k]), Ring(nodes[..k] + nodes[k + 1..]))
  {
    var after, ring, less := Unlink(l, nodes[k]), Ring(nodes), Ring(nodes[..k] + nodes[k + 1..]);
    ShortRing(nodes, k);
    hide Unlink, Next, Prev, Ring, Joined, Distinct;
    forall i, j | 0 <= i && j == i + 1 && j < |less|
      ensures Next(after, less[i]) == less[j] && Prev(after, less[j]) == less[i]
    {
      UnlinkAt(l, nodes, k, if i <= k then i else i + 1);
    }
    JoinedIs(after, less);
  }

  lemma UnlinkRest(l: Links, nodes: seq<Module>, less: seq<Module>, removed: set<Module>, m: Module)
    requires RestFine(l, nodes, removed) && m in nodes && forall x :: x in less <==> x in nodes && x != m
    requires var next, prev := Next(l, Node(m)), Prev(l, Node(m));
             && (next.Head? || (next.Node? && next.owner in less))
             && (prev.Head? || (prev.Node? && prev.owner in less))
    ensures RestFine(Unlink(l, m), less, removed + {m})
  {
    var after := Unlink(l, m);
    assert forall x :: x in after.next ==> x in l.next || x == Prev(l, Node(m));
    assert forall x :: x in after.prev ==> x in l.prev || x == Next(l, Node(m)) || x == Node(m);
    assert forall x :: x in removed ==>
             x !in less && Next(after, Node(x)) == Next(l, Node(x)) && Prev(after, Node(x)) == Prev(l, Node(x));
  }

  /** Unlinking a listed module closes the gap it leaves. */
  lemma UnlinkShows(l: Links, nodes: seq<Module>, removed: set<Module>, m: Module)
    requires Shows(l, nodes, removed) && m in nodes
    ensures Shows(Unlink(l, m), Without(nodes, m), removed + {m})
  {
    var k :| 0 <= k < |nodes| && nodes[k] == m;
    WithoutAt(nodes, k);
    AtRing(l, nodes, k);
    UnlinkJoins(l, nodes, k);
    assert forall i :: 0 <= i < |nodes| + 2 ==> Ring(nodes)[i].Head? || Ring(nodes)[i] == Node(nodes[i - 1]);
    hide Ring, Joined, Without, Distinct, RestFine;
    UnlinkRest(l, nodes, Without(nodes, m), removed, m);
  }

  lemma JoinedIs(l: Links, ring: seq<Link>)
    requires forall i, j :: 0 <= i && j == i + 1 && j < |ring| ==>
               Next(l, ring[i]) == ring[j] && Prev(l, ring[j]) == ring[i]
    ensures Joined(l, ring)
  {
  }

  /** Two places of the ring, neither both at its ends, are different. */
  lemma RingApart(nodes: seq<Module>, i: nat, j: nat)
    requires Distinct(nodes) && i < |nodes| + 2 && j < |nodes| + 2
    ensures Ring(nodes)[i] == Ring(nodes)[j] ==> i == j || {i, j} == {0, |nodes| + 1}
  {
  }

  /** Unlinking a module that was removed before writes through its poisoned pointer. */
  lemma UnlinkFaults(l: Links, nodes: seq<Module>, removed: set<Module>, m: Module)
    requires Shows(l, nodes, removed) && m in removed
    ensures SeemsLinked(l, m) && Unlink(l, m).fault
  {
  }

  /** Putting a listed module in front leaves pointers that form no list at all. */
  lemma LinkBreaks(l: Links, nodes: seq<Module>, removed: set<Module>, m: Module,
                   others: seq<Module>, gone: set<Module>)
    requires Shows(l, nodes, removed) && m in nodes
    ensures !Shows(LinkFirst(l, m), others, gone)
  {
    var after := LinkFirst(l, m);
    var k :| 0 <= k < |nodes| && nodes[k] == m;
    AtRing(l, nodes, k);
    if Shows(after, others, gone) {
      var ring, odd := Ring(nodes), Ring(others);
      assert Next(l, ring[0]) == ring[1];
      assert Next(after, odd[0]) == odd[1] && odd[1] == Node(m);
      assert Next(after, odd[1]) == odd[2];
      if k > 0 {
        var before := nodes[k - 1];
        AtRing(l, nodes, k - 1);
        assert Next(after, Node(before)) == Node(m) && Prev(after, Node(before)) != Poison;
        assert Allowed(Node(before), others, gone);
        var j :| 0 <= j < |others| && others[j] == before;
        AtRing(after, others, j);
      }
    }
  }

  /** The pointers show the listing, as long as nothing has damaged it. */
  ghost predicate Matches(l: Links, list: Listing) {
    !list.damaged ==> Shows(l, list.nodes, list.removed)
  }

  /**
   * `Dropped` is what the guarded unlinking does to the listing; it sets the mark exactly when the
   * pointers of a sound list go astray.
   */
  lemma DroppedMatches(l: Links, list: Listing, m: Module)
    requires Matches(l, list)
    ensures Matches(UnlinkIfLinked(l, m), Dropped(list, m))
    ensures !list.damaged ==> (Dropped(list, m).damaged <==> UnlinkIfLinked(l, m).fault)
  {
    if !list.damaged {
      SeemsLinkedExactly(l, list.nodes, list.removed, m);
      if m in list.nodes {
        UnlinkShows(l, list.nodes, list.removed, m);
      } else if m in list.removed {
        UnlinkFaults(l, list.nodes, list.removed, m);
      }
    }
  }

  /** `Added` is what putting a module in front does; it sets the mark exactly when no list is left. */
  lemma AddedMatches(l: Links, list: Listing, m: Module)
    requires Matches(l, list)
    ensures Matches(LinkFirst(l, m), Added(list, m))
    ensures !list.damaged ==> (Added(list, m).damaged <==> forall ms, gone :: !Shows(LinkFirst(l, m), ms, gone))
  {
    if !list.damaged {
      if m in list.nodes {
        forall ms, gone ensures !Shows(LinkFirst(l, m), ms, gone) {
          LinkBreaks(l, list.nodes, list.removed, m, ms, gone);
        }
      } else {
        LinkShows(l, list.nodes, list.removed, m);
      }
    }
  }
}
