/**
 * The publish/subscribe server: the table of subscribers behind `sub_mutex`, its counter, and the
 * long-running `Subscribe` calls whose writers the table points to. Each critical section is one
 * operation of `Server`; the functions in front of it say what it does to the state.
 */
module PubSubServer {
  import opened Options

  const MAX_CONNECTION := 5

  datatype Status = Ok | Internal

  datatype Text = TooMany | NameTaken | Welcome(topic: bv32) | Keepalive | Data(data: string)

  /** One call of `Write`: on which call's stream, what, and whether the stream took it. */
  datatype Sent = Sent(writer: nat, text: Text, ok: bool)

  /** An entry of the table; `writer` names the `Subscribe` call that owns the stream. */
  datatype Subscriber = Subscriber(topic: bv32, writer: nat)

  datatype State = State(subers: map<string, Subscriber>, connectionNum: int, killed: bool, sent: seq<Sent>)

  /* ---- what each critical section does ------------------------------------------------------ */

  /** The first critical section of `Subscribe`; no status means that the call goes on to its loop. */
  function Admitted(s: State, name: string, topic: bv32, writer: nat, ok: bool): (State, Option<Status>) {
    if s.connectionNum >= MAX_CONNECTION then (s.(sent := s.sent + [Sent(writer, TooMany, ok)]), Some(Internal))
    else if name in s.subers then (s.(sent := s.sent + [Sent(writer, NameTaken, ok)]), Some(Internal))
    else
      var wrote := s.sent + [Sent(writer, Welcome(topic), ok)];
      if !ok then (s.(sent := wrote), Some(Internal))
      else (State(s.subers[name := Subscriber(topic, writer)], s.connectionNum + 1, s.killed, wrote), None)
  }

  function Deleted(s: State, name: string): State {
    if name in s.subers then s.(subers := s.subers - {name}, connectionNum := s.connectionNum - 1) else s
  }

  /** One turn of the loop of `Subscribe`. */
  function Turned(s: State, name: string, writer: nat, ok: bool): (State, Option<Status>) {
    if name !in s.subers then (s, Some(Ok))
    else
      var wrote := s.(sent := s.sent + [Sent(writer, Keepalive, ok)]);
      if ok then (wrote, None) else (Deleted(wrote, name), Some(Internal))
  }

  function Unsubscribed(s: State, name: string): (State, Status) {
    if s.connectionNum <= 0 || name !in s.subers then (s, Internal) else (Deleted(s, name), Ok)
  }

  predicate Wants(s: Subscriber, topic: bv32) {
    s.topic & topic != 0
  }

  /** The order in which a table may be walked. */
  ghost predicate Walk(order: seq<string>, subers: map<string, Subscriber>) {
    && (forall name :: name in order <==> name in subers)
    && (forall i, j :: 0 <= i < j < |order| ==> order[i] != order[j])
  }

  /** The writes of a publication that walks the table in this order and stops at a failure. */
  function Deliveries(subers: map<string, Subscriber>, order: seq<string>, topic: bv32, data: string,
                      works: nat -> bool): (r: (seq<Sent>, Status))
    requires forall k :: 0 <= k < |order| ==> order[k] in subers
  {
    if order == [] then ([], Ok)
    else
      var s := subers[order[0]];
      if !Wants(s, topic) then Deliveries(subers, order[1..], topic, data, works)
      else if !works(s.writer) then ([Sent(s.writer, Data(data), false)], Internal)
      else
        var (rest, status) := Deliveries(subers, order[1..], topic, data, works);
        ([Sent(s.writer, Data(data), true)] + rest, status)
  }

  function Published(s: State, order: seq<string>, topic: bv32, data: string, works: nat -> bool): (State, Status)
    requires forall k :: 0 <= k < |order| ==> order[k] in s.subers
  {
    var (wrote, status) := Deliveries(s.subers, order, topic, data, works);
    (s.(sent := s.sent + wrote), status)
  }

  /** One step of the walk, with what was written before it. */
  lemma DeliverOne(subers: map<string, Subscriber>, order: seq<string>, k: nat, topic: bv32, data: string,
                   works: nat -> bool, at: seq<Sent>)
    requires k < |order| && forall j :: 0 <= j < |order| ==> order[j] in subers
    ensures var s, here, next := subers[order[k]], Deliveries(subers, order[k..], topic, data, works),
                                 Deliveries(subers, order[k + 1..], topic, data, works);
            var wrote := at + [Sent(s.writer, Data(data), works(s.writer))];
            if !Wants(s, topic) then here == next
            else if !works(s.writer) then at + here.0 == wrote && here.1 == Internal
            else at + here.0 == wrote + next.0 && here.1 == next.1
  {
    var s := subers[order[k]];
    assert order[k..][1..] == order[k + 1..];
    var more := Deliveries(subers, order[k + 1..], topic, data, works).0;
    assert at + ([Sent(s.writer, Data(data), true)] + more) == at + [Sent(s.writer, Data(data), true)] + more;
  }

  lemma DeliverNone(subers: map<string, Subscriber>, topic: bv32, data: string, works: nat -> bool, at: seq<Sent>)
    ensures at + Deliveries(subers, [], topic, data, works).0 == at
    ensures Deliveries(subers, [], topic, data, works).1 == Ok
  {
  }

  /* ---- the server ---------------------------------------------------------------------------- */

  class Server {
    var subers: map<string, Subscriber>
    var connectionNum: int
    var killed: bool
    var sent: seq<Sent>

    ghost function Now(): State
      reads this
    {
      State(subers, connectionNum, killed, sent)
    }

    constructor ()
      ensures Now() == State(map[], 0, false, [])
    {
      subers := map[];
      connectionNum := 0;
      killed := false;
      sent := [];
    }

    method Write(writer: nat, text: Text, ok: bool)
      modifies this`sent
      ensures sent == old(sent) + [Sent(writer, text, ok)]
    {
      sent := sent + [Sent(writer, text, ok)];
    }

    /** `CloseAllConnection`. */
    method CloseAllConnection()
      modifies this
      ensures Now() == old(Now()).(killed := true)
    {
      killed := true;
    }

    /** `Subscribe`, up to its loop. */
    method Subscribe(name: string, topic: bv32, writer: nat, ok: bool) returns (status: Option<Status>)
      modifies this
      ensures (Now(), status) == Admitted(old(Now()), name, topic, writer, ok)
    {
      if connectionNum >= MAX_CONNECTION {
        Write(writer, TooMany, ok);
        return Some(Internal);
      }
      if name in subers {
        Write(writer, NameTaken, ok);
        return Some(Internal);
      }
      Write(writer, Welcome(topic), ok);
      if !ok {
        return Some(Internal);
      }
      subers := subers[name := Subscriber(topic, writer)];
      connectionNum := connectionNum + 1;
      return None;
    }

    /** One turn of the loop of `Subscribe`, after it found `killed` false. */
    method Turn(name: string, writer: nat, ok: bool) returns (status: Option<Status>)
      modifies this
      ensures (Now(), status) == Turned(old(Now()), name, writer, ok)
    {
      if name !in subers {
        return Some(Ok);
      }
      Write(writer, Keepalive, ok);
      if !ok {
        var _ := DeleteSubscriberByCliName(name);
        return Some(Internal);
      }
      return None;
    }

    /** `Publish`, walking the table in the given order. */
    method Publish(topic: bv32, data: string, order: seq<string>, works: nat -> bool) returns (status: Status)
      requires Walk(order, subers)
      modifies this
      ensures (forall k :: 0 <= k < |order| ==> order[k] in old(subers))
              && (Now(), status) == Published(old(Now()), order, topic, data, works)
    {
      assert forall k :: 0 <= k < |order| ==> order[k] in subers;
      hide Deliveries, Walk, Wants;
      assert order[0..] == order;
      ghost var was, all := sent, Deliveries(subers, order, topic, data, works);
      for k := 0 to |order|
        invariant subers == old(subers) && connectionNum == old(connectionNum) && killed == old(killed)
        invariant forall j :: 0 <= j < |order| ==> order[j] in subers
        invariant was + all.0 == sent + Deliveries(subers, order[k..], topic, data, works).0
        invariant all.1 == Deliveries(subers, order[k..], topic, data, works).1
      {
        var subscriber := subers[order[k]];
        DeliverOne(subers, order, k, topic, data, works, sent);
        if Wants(subscriber, topic) {
          Write(subscriber.writer, Data(data), works(subscriber.writer));
          if !works(subscriber.writer) {
            return Internal;
          }
        }
      }
      assert order[|order|..] == [];
      DeliverNone(subers, topic, data, works, sent);
      return Ok;
    }

    /** `UnSubscribe`. */
    method UnSubscribe(name: string) returns (status: Status)
      modifies this
      ensures (Now(), status) == Unsubscribed(old(Now()), name)
    {
      if connectionNum <= 0 {
        return Internal;
      }
      var exist := DeleteSubscriberByCliName(name);
      if !exist {
        return Internal;
      }
      return Ok;
    }

    /** `DeleteSubscriberByCliName`. */
    method DeleteSubscriberByCliName(name: string) returns (exist: bool)
      modifies this
      ensures Now() == Deleted(old(Now()), name)
      ensures exist <==> name in old(subers)
    {
      exist := false;
      if name in subers {
        subers := subers - {name};
        connectionNum := connectionNum - 1;
        exist := true;
      }
    }
  }
}
