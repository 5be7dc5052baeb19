/** What holds of every run of the ring buffer, whatever the interleaving. */
module RingTheorems {
  import opened Bytes
  import opened Framing
  import opened RingMemory
  import opened RingPages
  import opened RingMachine
  import opened RingInvariant
  import opened Options

  ghost predicate Reachable(mem: seq<byte>, base: nat, dataOff: nat, events: seq<Event>, s: Ring, h: History) {
    && Geometry(Init(mem, base, dataOff))
    && Execute(Init(mem, base, dataOff), NOTHING_YET, events) == Some((s, h))
  }

  lemma {:induction false} ExecuteInv(s: Ring, h: History, events: seq<Event>)
    requires Inv(s, h) && Execute(s, h, events).Some?
    ensures Inv(Execute(s, h, events).value.0, Execute(s, h, events).value.1)
    decreases |events|
  {
    hide Inv, Step, Observe;
    if events != [] {
      HasMemory(s, h);
      StepInv(s, h, events[0]);
      ExecuteInv(Step(s, events[0]).value, Observe(s, h, events[0]), events[1..]);
    }
  }

  lemma ReachableInv(mem: seq<byte>, base: nat, dataOff: nat, events: seq<Event>, s: Ring, h: History)
    requires Reachable(mem, base, dataOff, events, s, h)
    ensures Inv(s, h)
  {
    InitInv(mem, base, dataOff);
    hide Inv, Step, Observe;
    ExecuteInv(Init(mem, base, dataOff), NOTHING_YET, events);
  }

  /** Delivery.  In every run, what the callback has been handed is exactly the payloads
      of the committed records among the first so many reservations, in reservation
      order, byte for byte; and once every reservation is finished and released, that
      is all of them. */
  lemma Delivery(mem: seq<byte>, base: nat, dataOff: nat, events: seq<Event>, s: Ring, h: History)
    requires Reachable(mem, base, dataOff, events, s, h)
    ensures Done(s, h) <= |h.recs| && h.delivered == Payloads(h.recs, Done(s, h))
    ensures s.cons == s.prod ==> h.delivered == Payloads(h.recs, |h.recs|)
    ensures forall k :: 0 <= k < Done(s, h) ==> h.recs[k].phase != Busy
  {
    ReachableInv(mem, base, dataOff, events, s, h);
    EmptyWindow(s, h);
    TakenRecords(s, h);
    hide Chain, Records, Producers;
  }

  /** The live window never exceeds the mask, and no two unreleased records share a
      byte of the data area. */
  lemma LiveRecordsDisjoint(mem: seq<byte>, base: nat, dataOff: nat, events: seq<Event>, s: Ring, h: History,
                            j: nat, k: nat, a: nat, b: nat)
    requires Reachable(mem, base, dataOff, events, s, h)
    requires h.stored <= j < |h.recs| && h.stored <= k < |h.recs| && j != k
    requires a < RecordLen(|h.recs[j].data|) && b < RecordLen(|h.recs[k].data|)
    ensures 0 < |s.mem| && 0 <= s.prod - s.cons <= |s.mem| - 1
    ensures Slot(h.recs[j].pos, a, |s.mem|) != Slot(h.recs[k].pos, b, |s.mem|)
  {
    ReachableInv(mem, base, dataOff, events, s, h);
    LiveWindow(s, h, j);
    LiveWindow(s, h, k);
    hide Records, Producers, ConsumerOk, DeliveredOk, WakeOk, RecordLen, Slot;
    ApartBytes(h.recs[j].pos, RecordLen(|h.recs[j].data|), h.recs[k].pos, RecordLen(|h.recs[k].data|), |s.mem|, a, b);
  }

  /** The steps that may write into a record: its own producer's copying and commit. */
  predicate WritesRecord(h: History, e: Event, k: nat) {
    (e.CopyByte? || e.Commit?) && e.t in h.current && h.current[e.t] == k
  }

  /** No other step changes a byte of an unreleased record's header or payload: neither
      another thread's, nor a later call of the same thread, nor a reservation made on a
      stale `consumer_pos`. */
  lemma NoOverwrite(mem: seq<byte>, base: nat, dataOff: nat, events: seq<Event>, s: Ring, h: History,
                    e: Event, k: nat)
    requires Reachable(mem, base, dataOff, events, s, h)
    requires |s.mem| > 0 && Step(s, e).Some? && h.stored <= k < |h.recs| && !WritesRecord(h, e, k)
    ensures Region(Step(s, e).value.mem, h.recs[k]) == Region(s.mem, h.recs[k])
  {
    ReachableInv(mem, base, dataOff, events, s, h);
    NoOverwriteStep(s, h, e, k);
  }

  lemma NoOverwriteStep(s: Ring, h: History, e: Event, k: nat)
    requires Inv(s, h) && Step(s, e).Some? && h.stored <= k < |h.recs| && !WritesRecord(h, e, k)
    ensures Region(Step(s, e).value.mem, h.recs[k]) == Region(s.mem, h.recs[k])
  {
    LiveWindow(s, h, k);
    if e.WriteHeader? {
      WriteHeaderSpares(s, h, e.t, k);
    } else if e.CopyByte? {
      CopySpares(s, h, e.t, k);
    } else if e.Commit? {
      CommitSpares(s, h, e.t, e.discard, k);
    } else {
      hide Inv, Region;
      OnlyWritersWrite(s, e);
    }
  }

  lemma OnlyWritersWrite(s: Ring, e: Event)
    requires |s.mem| > 0 && Step(s, e).Some? && !e.WriteHeader? && !e.CopyByte? && !e.Commit?
    ensures Step(s, e).value.mem == s.mem
  {
  }

  lemma WriteHeaderSpares(s: Ring, h: History, t: nat, k: nat)
    requires Inv(s, h) && Step(s, WriteHeader(t)).Some? && h.stored <= k < |h.recs|
    ensures Region(Step(s, WriteHeader(t)).value.mem, h.recs[k]) == Region(s.mem, h.recs[k])
  {
    LiveWindow(s, h, k);
    hide InMemory, Owned, Step, Chain, LoadWord, Load, Store, HeaderBytes, Region, Payloads, RecordLen, ConsumerOk,
      DeliveredOk, WakeOk;
    assert ProducerOk(s, h, t);
    WriteHeaderOwn(s, h, t);
    var size := |s.ProducerOf(t).data|;
    HeaderApart(s, HeaderBytes(s, s.prod % |s.mem|, size), size, h.recs[k]);
  }

  lemma CopySpares(s: Ring, h: History, t: nat, k: nat)
    requires Inv(s, h) && Step(s, CopyByte(t)).Some? && h.stored <= k < |h.recs|
    requires !(t in h.current && h.current[t] == k)
    ensures Region(Step(s, CopyByte(t)).value.mem, h.recs[k]) == Region(s.mem, h.recs[k])
  {
    hide InMemory, ProducerOk, Owned, Chain, Region, Step, Observe, Store, ConsumerOk, DeliveredOk, WakeOk;
    CopyByteOwn(s, h, t);
    var j := h.current[t];
    var r := h.recs[j];
    LiveWindow(s, h, j);
    StoreInsideRecord(s, h, r.pos + HEADER_SIZE + r.copied, [r.data[r.copied]], j, k);
  }

  lemma CommitSpares(s: Ring, h: History, t: nat, discard: bool, k: nat)
    requires Inv(s, h) && Step(s, Commit(t, discard)).Some? && h.stored <= k < |h.recs|
    requires !(t in h.current && h.current[t] == k)
    ensures Region(Step(s, Commit(t, discard)).value.mem, h.recs[k]) == Region(s.mem, h.recs[k])
  {
    CommitNeedsCopying(s, t, discard);
    hide InMemory, ProducerOk, Owned, Chain, Region, Step, Observe, Store, ConsumerOk, DeliveredOk, WakeOk, CommitWord,
      ToBytes, RecordLen, Payloads, LockOk;
    RecordsFit(s, h);
    CommitOwn(s, h, t, discard);
    var j := h.current[t];
    LiveWindow(s, h, j);
    StoreInsideRecord(s, h, h.recs[j].pos, ToBytes(CommitWord(OrBusy(|h.recs[j].data|), discard)), j, k);
  }

  lemma RecordsFit(s: Ring, h: History)
    requires Inv(s, h)
    ensures forall j :: h.stored <= j < |h.recs| ==> |h.recs[j].data| <= MAX_RECORD_SIZE
  {
    forall j | h.stored <= j < |h.recs|
      ensures |h.recs[j].data| <= MAX_RECORD_SIZE
    {
      LiveWindow(s, h, j);
    }
  }

  /** A commit always recovers its own ring buffer from the record header: the step is
      never stuck. */
  lemma CommitNeverStuck(mem: seq<byte>, base: nat, dataOff: nat, events: seq<Event>, s: Ring, h: History,
                         t: nat, discard: bool)
    requires Reachable(mem, base, dataOff, events, s, h)
    requires s.ProducerOf(t).Copying? && (s.ProducerOf(t).n >= |s.ProducerOf(t).data| || discard)
    ensures |s.mem| > 0 && Step(s, Commit(t, discard)).Some?
  {
    ReachableInv(mem, base, dataOff, events, s, h);
    assert ProducerOk(s, h, t);
    forall j | h.stored <= j < |h.recs|
      ensures |h.recs[j].data| <= MAX_RECORD_SIZE
    {
      LiveWindow(s, h, j);
    }
    hide InMemory, ProducerOk, Owned, Chain, Step, Observe, Store, ConsumerOk, DeliveredOk, WakeOk;
    CommitOwn(s, h, t, discard);
  }

  /** No lost wake-up.  If the consumer sleeps while the record at its position is committed
      and its producer has made the wake-up test, whatever that thread does since, then a
      wake-up is queued or has already reached it, unless the producer asked for none. */
  lemma NoLostWakeup(mem: seq<byte>, base: nat, dataOff: nat, events: seq<Event>, s: Ring, h: History)
    requires Reachable(mem, base, dataOff, events, s, h)
    requires s.consumer.Sleeping? && s.cons < s.prod
    ensures h.stored < |h.recs| && s.cons == h.recs[h.stored].pos
    ensures var r := h.recs[h.stored];
            r.notified && Wakes(r.flags) ==> s.irqQueued || s.consumer.triggered
  {
    ReachableInv(mem, base, dataOff, events, s, h);
    EmptyWindow(s, h);
    hide Chain, InMemory, ProducerOk, DeliveredOk;
    assert Owned(s, h, h.stored);
  }

  /** The wake-up test of the record at the consumer's position succeeds, and that of any
      other unreleased record fails, although only masked positions are compared. */
  lemma WakeTestExact(mem: seq<byte>, base: nat, dataOff: nat, events: seq<Event>, s: Ring, h: History, k: nat)
    requires Reachable(mem, base, dataOff, events, s, h)
    requires h.stored <= k < |h.recs|
    ensures |s.mem| > 0 && (s.cons % |s.mem| == h.recs[k].pos % |s.mem| <==> k == h.stored)
  {
    ReachableInv(mem, base, dataOff, events, s, h);
    LiveWindow(s, h, k);
    LiveWindow(s, h, h.stored);
    hide Records, Producers, ConsumerOk, DeliveredOk, WakeOk, RecordLen;
    FramingAgreement(|h.recs[h.stored].data|, |h.recs[h.stored].data|);
    if s.cons % |s.mem| == h.recs[k].pos % |s.mem| {
      ModUnique(h.recs[k].pos, s.cons, |s.mem|);
    }
  }

  /** Whether the locked space test lets a request through, on a fresh reading of an
      empty buffer: the longest record fits with eight bytes to spare. */
  lemma ReservationSucceedsExactly(mem: seq<byte>, base: nat, dataOff: nat, events: seq<Event>,
                                   s: Ring, h: History, t: nat)
    requires Reachable(mem, base, dataOff, events, s, h)
    requires s.ProducerOf(t).Loaded? && s.lock == None && s.ProducerOf(t).stale == s.cons == s.prod
    ensures |s.mem| > 0 && Step(s, Acquire(t)).Some?
    ensures Step(s, Acquire(t)).value.ProducerOf(t).Locked?
            <==> |s.ProducerOf(t).data| <= |s.mem| - 16
  {
    ReachableInv(mem, base, dataOff, events, s, h);
    assert ProducerOk(s, h, t);
    hide Inv;
    AcquireExactly(s, t);
  }

  lemma AcquireExactly(s: Ring, t: nat)
    requires 0 < |s.mem| && |s.mem| % PAGE_SIZE == 0 && s.lock == None && s.ProducerOf(t).Loaded?
    requires s.ProducerOf(t).stale == s.prod && |s.ProducerOf(t).data| <= MAX_RECORD_SIZE
    ensures Step(s, Acquire(t)).Some?
    ensures Step(s, Acquire(t)).value.ProducerOf(t).Locked?
            <==> |s.ProducerOf(t).data| <= |s.mem| - 16
  {
    RoomFor(|s.ProducerOf(t).data|, |s.mem|);
    hide RecordLen;
  }

  /** In an empty buffer a record fits exactly if its payload leaves room for a header and a free byte. */
  lemma RoomFor(n: nat, size: nat)
    requires 0 < size && size % PAGE_SIZE == 0
    ensures RecordLen(n) <= size - 1 <==> n <= size - 16
  {
    var q, m := size / 8, (n + 15) / 8;
    assert size == 8 * q;
    assert RecordLen(n) == 8 * m;
  }

  /* ---- refinement ---------------------------------------------------------- */

  /** The ring buffer as a queue of payloads: no bytes, no positions, no threads. */
  datatype Entry = Entry(data: seq<byte>, phase: Phase)
  datatype Queue = Queue(entries: seq<Entry>, done: nat, delivered: seq<seq<byte>>)

  ghost predicate QueueStep(q: Queue, q': Queue) {
    || q' == q
    || (exists data :: q' == q.(entries := q.entries + [Entry(data, Busy)]))
    || (exists k, phase | 0 <= k < |q.entries| ::
          q.entries[k].phase == Busy && phase != Busy
          && q' == q.(entries := q.entries[k := Entry(q.entries[k].data, phase)]))
    || (q.done < |q.entries| && q.entries[q.done].phase == Discarded && q' == q.(done := q.done + 1))
    || (q.done < |q.entries| && q.entries[q.done].phase == Committed
        && q' == q.(done := q.done + 1, delivered := q.delivered + [q.entries[q.done].data]))
  }

  function Entries(recs: seq<Rec>): (es: seq<Entry>)
    ensures |es| == |recs|
    ensures forall k :: 0 <= k < |recs| ==> es[k] == Entry(recs[k].data, recs[k].phase)
  {
    seq(|recs|, k requires 0 <= k < |recs| => Entry(recs[k].data, recs[k].phase))
  }

  function AsQueue(s: Ring, h: History): Queue {
    Queue(Entries(h.recs), Done(s, h), h.delivered)
  }

  /** Every step of the ring buffer is a step of the queue, or invisible in it. */
  lemma RefinesQueue(mem: seq<byte>, base: nat, dataOff: nat, events: seq<Event>, s: Ring, h: History, e: Event)
    requires Reachable(mem, base, dataOff, events, s, h)
    requires |s.mem| > 0 && Step(s, e).Some?
    ensures QueueStep(AsQueue(s, h), AsQueue(Step(s, e).value, Observe(s, h, e)))
  {
    ReachableInv(mem, base, dataOff, events, s, h);
    Stutter(AsQueue(s, h));
    hide Inv, Step, Observe, QueueStep, AsQueue;
    match e
    case Publish(t) => PublishRefines(s, h, t);
    case CopyByte(t) => CopyRefines(s, h, t);
    case Commit(t, discard) => CommitRefines(s, h, t, discard);
    case WakeCheck(t) => WakeRefines(s, h, t);
    case Inspect => InspectRefines(s, h);
    case CallbackReturns(failed) => CallbackRefines(s, h, failed);
    case _ => QuietStep(s, h, e);
  }

  lemma Stutter(q: Queue)
    ensures QueueStep(q, q)
  {
  }

  lemma EntriesAmended(recs: seq<Rec>, k: nat, r': Rec)
    requires k < |recs| && r'.data == recs[k].data
    ensures Entries(recs[k := r']) == Entries(recs)[k := Entry(recs[k].data, r'.phase)]
  {
  }

  lemma QuietStep(s: Ring, h: History, e: Event)
    requires |s.mem| > 0 && Step(s, e).Some?
    requires !e.Publish? && !e.CopyByte? && !e.Commit? && !e.WakeCheck? && !e.Inspect? && !e.CallbackReturns?
    ensures AsQueue(Step(s, e).value, Observe(s, h, e)) == AsQueue(s, h)
  {
  }

  lemma PublishRefines(s: Ring, h: History, t: nat)
    requires Inv(s, h) && Step(s, Publish(t)).Some?
    ensures QueueStep(AsQueue(s, h), AsQueue(Step(s, Publish(t)).value, Observe(s, h, Publish(t))))
  {
    hide InMemory, ProducerOk, Owned, Step, Observe, Chain, LoadWord, RecordLen, DeliveredOk, WakeOk, ConsumerOk;
    PublishOwn(s, h, t);
    var h' := Observe(s, h, Publish(t));
    assert Entries(h'.recs) == Entries(h.recs) + [Entry(s.ProducerOf(t).data, Busy)];
  }

  lemma CopyRefines(s: Ring, h: History, t: nat)
    requires Inv(s, h) && Step(s, CopyByte(t)).Some?
    ensures AsQueue(Step(s, CopyByte(t)).value, Observe(s, h, CopyByte(t))) == AsQueue(s, h)
  {
    hide InMemory, ProducerOk, Owned, Step, Observe, Chain, Store, DeliveredOk, WakeOk, ConsumerOk;
    CopyByteOwn(s, h, t);
    var k := h.current[t];
    EntriesAmended(h.recs, k, h.recs[k].(copied := h.recs[k].copied + 1));
  }

  lemma CommitRefines(s: Ring, h: History, t: nat, discard: bool)
    requires Inv(s, h) && Step(s, Commit(t, discard)).Some?
    ensures QueueStep(AsQueue(s, h), AsQueue(Step(s, Commit(t, discard)).value, Observe(s, h, Commit(t, discard))))
  {
    CommitNeedsCopying(s, t, discard);
    hide InMemory, ProducerOk, Owned, Chain, Step, Observe, Store, ConsumerOk, DeliveredOk, WakeOk, CommitWord, ToBytes;
    forall j | h.stored <= j < |h.recs|
      ensures |h.recs[j].data| <= MAX_RECORD_SIZE
    {
      LiveWindow(s, h, j);
    }
    CommitOwn(s, h, t, discard);
    ResolveRefines(s, h, Step(s, Commit(t, discard)).value, h.current[t], if discard then Discarded else Committed);
  }

  lemma ResolveRefines(s: Ring, h: History, s': Ring, k: nat, phase: Phase)
    requires k < |h.recs| && h.recs[k].phase == Busy && phase != Busy && s'.consumer == s.consumer
    ensures QueueStep(AsQueue(s, h), AsQueue(s', h.(recs := h.recs[k := h.recs[k].(phase := phase)])))
  {
    EntriesAmended(h.recs, k, h.recs[k].(phase := phase));
  }

  lemma WakeRefines(s: Ring, h: History, t: nat)
    requires Inv(s, h) && Step(s, WakeCheck(t)).Some?
    ensures AsQueue(Step(s, WakeCheck(t)).value, Observe(s, h, WakeCheck(t))) == AsQueue(s, h)
  {
    hide Inv;
    if t in h.current && h.current[t] < |h.recs| {
      var k := h.current[t];
      EntriesAmended(h.recs, k, h.recs[k].(notified := true));
    }
  }

  lemma InspectRefines(s: Ring, h: History)
    requires Inv(s, h) && Step(s, Inspect).Some?
    ensures QueueStep(AsQueue(s, h), AsQueue(Step(s, Inspect).value, Observe(s, h, Inspect)))
  {
    InInner(s);
    StoredIsTaken(s, h);
    if s.consumer.c < s.consumer.p {
      HeaderAtPosition(s, h);
    }
    hide Inv;
    SkipRefines(s, h);
  }

  lemma SkipRefines(s: Ring, h: History)
    requires |s.mem| > 0 && s.consumer.Inner? && h.stored == h.taken <= |h.recs|
    requires s.consumer.c < s.consumer.p ==>
               h.taken < |h.recs| && HeaderFacts(s, h.recs[h.taken], PosAt(h.recs, s.prod, h.taken + 1))
    ensures Step(s, Inspect).Some?
    ensures QueueStep(AsQueue(s, h), AsQueue(Step(s, Inspect).value, Observe(s, h, Inspect)))
  {
    hide LoadWord, ConsumerLen, IsBusy, IsDiscarded;
  }

  lemma StoredIsTaken(s: Ring, h: History)
    requires Inv(s, h) && s.consumer.Inner?
    ensures h.stored == h.taken <= |h.recs|
  {
  }

  /** The bytes the callback collected are the payload at the head of the queue. */
  lemma CallbackRefines(s: Ring, h: History, failed: bool)
    requires Inv(s, h) && Step(s, CallbackReturns(failed)).Some?
    ensures QueueStep(AsQueue(s, h),
                      AsQueue(Step(s, CallbackReturns(failed)).value, Observe(s, h, CallbackReturns(failed))))
  {
    hide InMemory, ProducerOk, Owned, Chain, LoadWord, WakeOk, DeliveredOk;
    var r := h.recs[h.stored];
    assert s.consumer.buf == r.data[..|r.data|] == r.data;
  }
}
