/** The server under any interleaving of any number of calls. */
module PubSubRuns {
  import opened PubSubServer
  import opened Options

  /** Where a `Subscribe` call stands: about to look at `killed`, in a turn of its loop, or returned. */
  datatype Phase = Checking | Turning | Returned(status: Status)

  datatype Call = Call(name: string, phase: Phase)

  /** The server and every `Subscribe` call so far; a call's number is also the name of its writer. */
  datatype World = World(server: State, calls: seq<Call>)

  const START := World(State(map[], 0, false, []), [])

  datatype Event =
    | Subscribe(name: string, topic: bv32, ok: bool)
    | Check(call: nat)
    | Turn(call: nat, ok: bool)
    | Publish(topic: bv32, data: string, order: seq<string>, works: nat -> bool)
    | UnSubscribe(name: string)
    | Kill

  ghost predicate Possible(w: World, e: Event) {
    match e
    case Check(c) => c < |w.calls| && w.calls[c].phase == Checking
    case Turn(c, _) => c < |w.calls| && w.calls[c].phase == Turning
    case Publish(_, _, order, _) => Walk(order, w.server.subers)
    case _ => true
  }

  function After(status: Option<Status>): Phase {
    if status.None? then Checking else Returned(status.value)
  }

  ghost function Step(w: World, e: Event): World
    requires Possible(w, e)
  {
    match e
    case Subscribe(name, topic, ok) =>
      var (server, status) := Admitted(w.server, name, topic, |w.calls|, ok);
      World(server, w.calls + [Call(name, After(status))])
    case Check(c) =>
      w.(calls := w.calls[c := w.calls[c].(phase := if w.server.killed then Returned(Ok) else Turning)])
    case Turn(c, ok) =>
      var (server, status) := Turned(w.server, w.calls[c].name, c, ok);
      World(server, w.calls[c := w.calls[c].(phase := After(status))])
    case Publish(topic, data, order, works) => w.(server := Published(w.server, order, topic, data, works).0)
    case UnSubscribe(name) => w.(server := Unsubscribed(w.server, name).0)
    case Kill => w.(server := w.server.(killed := true))
  }

  /** The state after a sequence of attempted events, where those that are not possible do nothing. */
  ghost function Exec(events: seq<Event>): World {
    if events == [] then START
    else
      var w := Exec(events[..|events| - 1]);
      var e := events[|events| - 1];
      if Possible(w, e) then Step(w, e) else w
  }

  predicate Live(c: Call) {
    !c.phase.Returned?
  }

  ghost predicate Inv(w: World) {
    && w.server.connectionNum == |w.server.subers|
    && 0 <= w.server.connectionNum <= MAX_CONNECTION
    && (forall name :: name in w.server.subers ==>
          var writer := w.server.subers[name].writer;
          && writer < |w.calls|
          && w.calls[writer].name == name
          && (w.server.killed || Live(w.calls[writer])))
  }

  lemma StepInv(w: World, e: Event)
    requires Inv(w) && Possible(w, e)
    ensures Inv(Step(w, e))
  {
    if e.Turn? && e.call < |w.calls| {
      RemoveOne(w.server.subers, w.calls[e.call].name);
    } else if e.UnSubscribe? {
      RemoveOne(w.server.subers, e.name);
    }
  }

  lemma RemoveOne(m: map<string, Subscriber>, name: string)
    ensures |m - {name}| == if name in m then |m| - 1 else |m|
  {
    if name in m {
      assert m == (m - {name})[name := m[name]];
    } else {
      assert m - {name} == m;
    }
  }

  /**
   * In every reachable state the counter is the number of entries and lies in 0..5, each entry
   * belongs to a `Subscribe` call of that client name, and unless the server was killed that call
   * has not returned, whatever names were reused.
   */
  lemma {:induction false} EntriesAreLiveCalls(events: seq<Event>)
    ensures var w := Exec(events);
            && w.server.connectionNum == |w.server.subers|
            && 0 <= w.server.connectionNum <= MAX_CONNECTION
            && forall name :: name in w.server.subers ==>
                 var writer := w.server.subers[name].writer;
                 && writer < |w.calls|
                 && w.calls[writer].name == name
                 && (w.server.killed || Live(w.calls[writer]))
    decreases |events|
  {
    if events != [] {
      var before := events[..|events| - 1];
      EntriesAreLiveCalls(before);
      assert Inv(Exec(before));
      if Possible(Exec(before), events[|events| - 1]) {
        StepInv(Exec(before), events[|events| - 1]);
      }
    }
  }

  /** Every entry of the table belongs to a call that has not returned. */
  ghost predicate EntriesLive(w: World) {
    forall name :: name in w.server.subers ==>
      w.server.subers[name].writer < |w.calls| && Live(w.calls[w.server.subers[name].writer])
  }

  /**
   * The exact step that breaks this: a call finds the server killed and returns while the entry of
   * its client name is its own. Every other event, killed server or not, keeps it.
   */
  lemma EntriesLiveExactly(events: seq<Event>, e: Event)
    requires Possible(Exec(events), e) && EntriesLive(Exec(events))
    ensures var w := Exec(events);
            EntriesLive(Step(w, e)) <==>
              !(e.Check? && w.server.killed && w.calls[e.call].name in w.server.subers
                && w.server.subers[w.calls[e.call].name].writer == e.call)
  {
    hide Exec;
    EntriesAreLiveCalls(events);
    var w := Exec(events);
    var after := Step(w, e);
    if e.Check? && w.server.killed && EntriesLive(after) && w.calls[e.call].name in w.server.subers {
      assert Live(after.calls[after.server.subers[w.calls[e.call].name].writer]);
    }
  }

  /** One run with such a step. */
  lemma KilledLeavesEntries(name: string, topic: bv32)
    ensures var w := Exec([Subscribe(name, topic, true), Kill, Check(0)]);
            && name in w.server.subers && w.server.subers[name].writer == 0
            && |w.calls| == 1 && !Live(w.calls[0])
  {
    var e0, e1, e2 := Subscribe(name, topic, true), Kill, Check(0);
    assert [e0, e1, e2][..2] == [e0, e1] && [e0, e1][..1] == [e0] && [e0][..0] == [];
    assert Exec([e0]).calls == [Call(name, Checking)];
    assert Exec([e0, e1]).calls == [Call(name, Checking)];
  }

  /* ---- publication ---------------------------------------------------------------------------- */

  function Writes(sent: seq<Sent>, writer: nat): nat {
    if sent == [] then 0 else (if sent[0].writer == writer then 1 else 0) + Writes(sent[1..], writer)
  }

  /** Some entry of the table has this writer and wants this topic. */
  ghost predicate Addressed(subers: map<string, Subscriber>, topic: bv32, writer: nat) {
    exists name :: name in subers && subers[name].writer == writer && Wants(subers[name], topic)
  }

  ghost predicate AddressedIn(subers: map<string, Subscriber>, order: seq<string>, topic: bv32, writer: nat) {
    exists k :: 0 <= k < |order| && order[k] in subers && subers[order[k]].writer == writer
      && Wants(subers[order[k]], topic)
  }

  ghost predicate OwnWriters(subers: map<string, Subscriber>) {
    forall a, b :: a in subers && b in subers && subers[a].writer == subers[b].writer ==> a == b
  }

  lemma {:induction false} DeliveryCounts(subers: map<string, Subscriber>, order: seq<string>, topic: bv32,
                                          data: string, works: nat -> bool, writer: nat)
    requires OwnWriters(subers)
    requires forall k :: 0 <= k < |order| ==> order[k] in subers
    requires forall i, j :: 0 <= i < j < |order| ==> order[i] != order[j]
    ensures var (wrote, status) := Deliveries(subers, order, topic, data, works);
            && (forall k :: 0 <= k < |wrote| ==> wrote[k].text == Data(data))
            && Writes(wrote, writer) <= (if AddressedIn(subers, order, topic, writer) then 1 else 0)
            && (status == Ok ==> Writes(wrote, writer) == if AddressedIn(subers, order, topic, writer) then 1 else 0)
            && (status == Ok <==>
                  forall k :: 0 <= k < |order| && Wants(subers[order[k]], topic) ==> works(subers[order[k]].writer))
    decreases |order|
  {
    if order != [] {
      var s, rest := subers[order[0]], order[1..];
      DeliveryCounts(subers, rest, topic, data, works, writer);
      assert forall k :: 0 <= k < |rest| ==> rest[k] == order[k + 1];
      assert AddressedIn(subers, order, topic, writer)
        <==> (s.writer == writer && Wants(s, topic)) || AddressedIn(subers, rest, topic, writer);
      if s.writer == writer {
        assert !AddressedIn(subers, rest, topic, writer);
      }
    }
  }

  /**
   * In every reachable state a publication writes at most once to any stream, only to streams of
   * subscribers whose mask meets the topic; it answers OK exactly when every such stream takes the
   * write, and then it wrote once to each of them.
   */
  lemma PublicationReaches(events: seq<Event>, topic: bv32, data: string, order: seq<string>, works: nat -> bool,
                           writer: nat)
    requires Walk(order, Exec(events).server.subers)
    ensures var s := Exec(events).server;
            var (after, status) := Published(s, order, topic, data, works);
            && s.sent <= after.sent
            && after == s.(sent := after.sent)
            && Writes(after.sent[|s.sent|..], writer) <= (if Addressed(s.subers, topic, writer) then 1 else 0)
            && (status == Ok ==>
                  Writes(after.sent[|s.sent|..], writer) == if Addressed(s.subers, topic, writer) then 1 else 0)
            && (status == Ok <==>
                  forall name :: name in s.subers && Wants(s.subers[name], topic) ==> works(s.subers[name].writer))
  {
    var s := Exec(events).server;
    EntriesAreLiveCalls(events);
    var (after, status) := Published(s, order, topic, data, works);
    var wrote := Deliveries(s.subers, order, topic, data, works).0;
    assert after.sent[|s.sent|..] == wrote;
    assert OwnWriters(s.subers);
    DeliveryCounts(s.subers, order, topic, data, works, writer);
    WalkCovers(s.subers, order, topic, writer, works);
  }

  lemma WalkCovers(subers: map<string, Subscriber>, order: seq<string>, topic: bv32, writer: nat, works: nat -> bool)
    requires Walk(order, subers)
    ensures Addressed(subers, topic, writer) <==> AddressedIn(subers, order, topic, writer)
    ensures (forall name :: name in subers && Wants(subers[name], topic) ==> works(subers[name].writer))
            <==> (forall k :: 0 <= k < |order| && Wants(subers[order[k]], topic) ==> works(subers[order[k]].writer))
  {
    if Addressed(subers, topic, writer) {
      var name :| name in subers && subers[name].writer == writer && Wants(subers[name], topic);
      assert name in order;
      var k :| 0 <= k < |order| && order[k] == name;
    }
    forall name | name in subers ensures exists k :: 0 <= k < |order| && order[k] == name {
      assert name in order;
    }
  }

  /* ---- reuse of a client name ----------------------------------------------------------------- */

  /**
   * A failed keepalive removes the entry of the call's client name. That is another call's entry
   * exactly when the name was reused; the call that lost its entry then returns at its next turn.
   */
  lemma FailedKeepalive(events: seq<Event>, c: nat)
    requires Possible(Exec(events), Turn(c, false))
    ensures var w := Exec(events);
            var after := Step(w, Turn(c, false));
            var name := w.calls[c].name;
            && after.server.subers == w.server.subers - {name}
            && !Live(after.calls[c])
            && (forall d :: 0 <= d < |w.calls| && d != c ==> after.calls[d] == w.calls[d])
            && (name in w.server.subers && w.server.subers[name].writer != c && !w.server.killed ==>
                  w.server.subers[name].writer < |after.calls| && Live(after.calls[w.server.subers[name].writer]))
            && (forall d, ok ::
                  0 <= d < |w.calls| && d != c && w.calls[d].name == name && w.calls[d].phase == Turning ==>
                    Step(after, Turn(d, ok)).calls[d].phase == Returned(Ok))
  {
    hide Exec;
    EntriesAreLiveCalls(events);
    var w := Exec(events);
    var name := w.calls[c].name;
    if name !in w.server.subers {
      assert w.server.subers - {name} == w.server.subers;
    }
  }

  /** A run in which the entry removed by a failed keepalive is another call's. */
  lemma KeepaliveTakesAnotherEntry(name: string, topic: bv32)
    ensures var events := [Subscribe(name, topic, true), UnSubscribe(name), Subscribe(name, topic, true), Check(0)];
            var w := Exec(events);
            && Possible(w, Turn(0, false)) && |w.calls| == 2 && Live(w.calls[1])
            && w.server.subers == map[name := Subscriber(topic, 1)]
            && Step(w, Turn(0, false)).server.subers == map[]
            && Live(Step(w, Turn(0, false)).calls[1])
  {
    RoundsLeaveCalls(name, topic, 1);
    var e0, e1 := Subscribe(name, topic, true), UnSubscribe(name);
    assert Rounds(name, topic, 0) == [] && Rounds(name, topic, 1) == [] + [e0, e1] == [e0, e1];
    ExecOne([e0, e1], e0);
    ExecOne([e0, e1] + [e0], Check(0));
    assert [e0, e1] + [e0] + [Check(0)] == [e0, e1, e0, Check(0)];
    var w := Exec([e0, e1, e0, Check(0)]);
    assert w.server.subers - {name} == map[];
  }

  /** `n` rounds of subscribing and unsubscribing under one name. */
  function Rounds(name: string, topic: bv32, n: nat): seq<Event> {
    if n == 0 then [] else Rounds(name, topic, n - 1) + [Subscribe(name, topic, true), UnSubscribe(name)]
  }

  lemma {:induction false} RoundsLeaveCalls(name: string, topic: bv32, n: nat)
    ensures var w := Exec(Rounds(name, topic, n));
            && |w.calls| == n && (forall c :: 0 <= c < n ==> w.calls[c] == Call(name, Checking))
            && w.server.subers == map[] && w.server.connectionNum == 0 && !w.server.killed
  {
    if n > 0 {
      var before := Rounds(name, topic, n - 1);
      var e0, e1 := Subscribe(name, topic, true), UnSubscribe(name);
      assert Rounds(name, topic, n) == before + [e0] + [e1];
      hide Exec, Step, Rounds;
      RoundsLeaveCalls(name, topic, n - 1);
      ExecOne(before, e0);
      ExecOne(before + [e0], e1);
      RoundLeavesCall(Exec(before), name, topic);
    }
  }

  lemma ExecOne(before: seq<Event>, e: Event)
    ensures Exec(before + [e]) == if Possible(Exec(before), e) then Step(Exec(before), e) else Exec(before)
  {
    assert (before + [e])[..|before|] == before;
  }

  lemma RoundLeavesCall(w: World, name: string, topic: bv32)
    requires w.server.subers == map[] && w.server.connectionNum == 0
    ensures var after := Step(Step(w, Subscribe(name, topic, true)), UnSubscribe(name));
            && after.calls == w.calls + [Call(name, Checking)]
            && after.server.subers == map[] && after.server.connectionNum == 0 && after.server.killed == w.server.killed
  {
    var mid := Step(w, Subscribe(name, topic, true));
    assert mid.server.subers == map[name := Subscriber(topic, |w.calls|)];
    assert mid.server.subers - {name} == map[];
  }

  /**
   * The limit of five is on entries, not on calls: for every `n` there is a run without any failure
   * after which `n + 1` calls of `Subscribe` are running on a table of one entry, and as long as
   * their keepalives are taken none of them returns.
   */
  lemma CallsAreNotLimited(name: string, topic: bv32, n: nat, c: nat)
    requires c <= n
    ensures var w := Exec(Rounds(name, topic, n) + [Subscribe(name, topic, true)]);
            && |w.calls| == n + 1 && w.server.connectionNum == 1
            && Possible(w, Check(c)) && Possible(Step(w, Check(c)), Turn(c, true))
            && Step(Step(w, Check(c)), Turn(c, true)).calls == w.calls
            && Step(Step(w, Check(c)), Turn(c, true)).server.subers == w.server.subers
  {
    var before, e := Rounds(name, topic, n), Subscribe(name, topic, true);
    RoundsLeaveCalls(name, topic, n);
    assert (before + [e])[..|before|] == before;
    var w := Exec(before + [e]);
    assert w == Step(Exec(before), e);
    var turned := Step(Step(w, Check(c)), Turn(c, true));
    assert turned.calls == w.calls[c := w.calls[c].(phase := Checking)];
  }

  /* ---- when the limit does bound the calls ---------------------------------------------------- */

  /** Every call that has not returned owns the entry of its client name. */
  ghost predicate CallsOwnEntries(w: World) {
    forall c :: 0 <= c < |w.calls| && Live(w.calls[c]) ==>
      w.calls[c].name in w.server.subers && w.server.subers[w.calls[c].name].writer == c
  }

  function LiveCalls(w: World): set<nat> {
    set c: nat | c < |w.calls| && Live(w.calls[c])
  }

  lemma {:induction false} OwnersAreFew(calls: seq<Call>, owners: set<nat>, subers: map<string, Subscriber>)
    requires forall c :: c in owners ==>
               c < |calls| && calls[c].name in subers && subers[calls[c].name].writer == c
    ensures |owners| <= |subers|
  {
    if owners != {} {
      var c :| c in owners;
      var name := calls[c].name;
      RemoveOne(subers, name);
      OwnersAreFew(calls, owners - {c}, subers - {name});
    }
  }

  /** While the live calls own their entries, at most five calls are running. */
  lemma OwnersAreLimited(events: seq<Event>)
    requires CallsOwnEntries(Exec(events))
    ensures |LiveCalls(Exec(events))| <= MAX_CONNECTION
  {
    EntriesAreLiveCalls(events);
    OwnersAreFew(Exec(events).calls, LiveCalls(Exec(events)), Exec(events).server.subers);
  }

  /**
   * The exact step that ends this: an `UnSubscribe` of a name whose entry belongs to a running call,
   * which goes on until its next turn. A failed keepalive cannot, as the call owns what it removes.
   */
  lemma OwnershipExactly(events: seq<Event>, e: Event)
    requires Possible(Exec(events), e) && CallsOwnEntries(Exec(events))
    ensures var w := Exec(events);
            CallsOwnEntries(Step(w, e)) <==>
              !(e.UnSubscribe? && e.name in w.server.subers
                && w.server.subers[e.name].writer < |w.calls| && Live(w.calls[w.server.subers[e.name].writer]))
  {
    EntriesAreLiveCalls(events);
    var w := Exec(events);
    assert Inv(w);
    hide Exec, Inv, CallsOwnEntries;
    if e.UnSubscribe? {
      UnSubscribeOwnership(w, e.name);
    } else {
      OtherOwnership(w, e);
    }
  }

  lemma UnSubscribeOwnership(w: World, name: string)
    requires Inv(w) && CallsOwnEntries(w)
    ensures CallsOwnEntries(Step(w, UnSubscribe(name))) <==>
              !(name in w.server.subers
                && w.server.subers[name].writer < |w.calls| && Live(w.calls[w.server.subers[name].writer]))
  {
    RemoveOne(w.server.subers, name);
    var after := Step(w, UnSubscribe(name));
    if name in w.server.subers {
      assert w.calls[w.server.subers[name].writer].name == name && name !in after.server.subers;
    }
  }

  lemma OtherOwnership(w: World, e: Event)
    requires Inv(w) && CallsOwnEntries(w) && Possible(w, e) && !e.UnSubscribe?
    ensures CallsOwnEntries(Step(w, e))
  {
    hide Deliveries;
    match e
    case Subscribe(name, topic, ok) => assert |Step(w, e).calls| == |w.calls| + 1;
    case Turn(c, ok) => assert Live(w.calls[c]);
    case _ =>
  }

  /** So without `UnSubscribe` the limit bounds the running calls in every run. */
  lemma {:induction false} LimitWithoutUnSubscribe(events: seq<Event>)
    requires forall k :: 0 <= k < |events| ==> !events[k].UnSubscribe?
    ensures CallsOwnEntries(Exec(events)) && |LiveCalls(Exec(events))| <= MAX_CONNECTION
    decreases |events|
  {
    if events != [] {
      var before, e := events[..|events| - 1], events[|events| - 1];
      LimitWithoutUnSubscribe(before);
      if Possible(Exec(before), e) {
        OwnershipExactly(before, e);
      }
    }
    OwnersAreLimited(events);
  }
}
