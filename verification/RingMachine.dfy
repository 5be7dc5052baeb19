/** The ring buffer as a step machine: any number of kernel producers, each running
    `ringbuf_output`, the deferred wake-up, and one user-space consumer running
    `secDetector_ringbuf_poll` over and over.

    Every shared access is a step of its own: loading `consumer_pos` before the lock
    is taken, the locked capacity test, the header write, the publication of
    `producer_pos`, each payload byte, the exchange of the header word, the wake-up
    test; and on the other side each load, each payload byte the callback reads, and
    the store of `consumer_pos`.  An `Event` names one such step; a run is a sequence
    of events in any order.  `x & mask` is written `x % |mem|`, which it equals for
    the power-of-two sizes the driver accepts. */
module RingMachine {
  import opened Bytes
  import opened Framing
  import opened RingMemory
  import opened RingPages
  import opened Options

  datatype Flags = Flags(noWakeup: bool, forceWakeup: bool, unknownBits: bool)

  /** Where one producer thread stands in `ringbuf_output`, with its local variables. */
  datatype Producer =
    | Idle
    | Loaded(data: seq<byte>, flags: Flags, stale: nat)  // consumer_pos read, lock not yet taken
    | Locked(data: seq<byte>, flags: Flags)              // space test passed, lock held
    | Headed(data: seq<byte>, flags: Flags)              // header written, lock held
    | Copying(data: seq<byte>, flags: Flags, off: nat, n: nat)
    | Waking(flags: Flags, recPos: nat)                  // header exchanged, wake-up test to come

  /** Where the consumer stands between and inside calls of `secDetector_ringbuf_poll`. */
  datatype Consumer =
    | Out
    | Polling(triggered: bool)   // on the wait queue, about to look at the positions
    | Sleeping(triggered: bool)
    | Ready                      // poll(2) has returned
    | Outer(c: nat)              // head of the outer loop
    | Inner(c: nat, p: nat, got: bool)
    | Reading(off: nat, w: u32, buf: seq<byte>, c: nat, p: nat)  // inside the callback
    | Storing(c: nat, p: nat, err: bool)

  datatype Ring = Ring(
    mem: seq<byte>,
    base: nat,        // address of struct ringbuf
    dataOff: nat,     // offset of its data area
    prod: nat,
    cons: nat,
    lock: Option<nat>,
    irqQueued: bool,
    producers: map<nat, Producer>,
    consumer: Consumer)
  {
    function ProducerOf(t: nat): Producer {
      if t in producers then producers[t] else Idle
    }
  }

  datatype Event =
    | Output(t: nat, data: seq<byte>, flags: Flags)
    | Acquire(t: nat)
    | TryLockFails(t: nat)
    | WriteHeader(t: nat)
    | Publish(t: nat)
    | CopyByte(t: nat)
    | Commit(t: nat, discard: bool)
    | WakeCheck(t: nat)
    | IrqWork
    | PollWait
    | PollCheck
    | WakeUp
    | LoadConsumer
    | LoadProducer
    | Inspect
    | ReadByte
    | CallbackReturns(failed: bool)
    | StoreConsumer

  /** A data area of whole pages inside a page-aligned structure whose page offsets
      fit the record header. */
  predicate Geometry(s: Ring) {
    && 0 < |s.mem| && |s.mem| % PAGE_SIZE == 0
    && s.base % PAGE_SIZE == 0
    && s.base + s.dataOff + |s.mem| <= U64_MOD
    && s.dataOff + |s.mem| <= U32_MOD * PAGE_SIZE
  }

  function Init(mem: seq<byte>, base: nat, dataOff: nat): Ring {
    Ring(mem, base, dataOff, 0, 0, None, false, map[], Out)
  }

  /** Requests `ringbuf_output` turns down before it looks at any position. */
  predicate Rejected(size: nat, flags: Flags, area: nat) {
    flags.unknownBits || size > MAX_RECORD_SIZE || RecordLen(size) > area
  }

  function HeaderBytes(s: Ring, off: nat, size: nat): (bs: seq<byte>)
    requires size <= MAX_RECORD_SIZE
    ensures |bs| == HEADER_SIZE
  {
    ToBytes(OrBusy(size)) + ToBytes(RecPageOff(s.base, s.base + s.dataOff + off))
  }

  function SetProducer(s: Ring, t: nat, p: Producer): Ring {
    s.(producers := s.producers[t := p])
  }

  function ProducerStep(s: Ring, e: Event): Option<Ring>
    requires |s.mem| > 0
  {
    var size := |s.mem|;
    match e
    case Output(t, data, flags) =>
      if !s.ProducerOf(t).Idle? then None
      else if Rejected(|data|, flags, size) then Some(s)
      else Some(SetProducer(s, t, Loaded(data, flags, s.cons)))
    case Acquire(t) =>
      var p := s.ProducerOf(t);
      if !p.Loaded? || s.lock.Some? then None
      else if s.prod + RecordLen(|p.data|) - p.stale > size - 1 then Some(SetProducer(s, t, Idle))
      else Some(SetProducer(s, t, Locked(p.data, p.flags)).(lock := Some(t)))
    case TryLockFails(t) =>
      if !s.ProducerOf(t).Loaded? || s.lock.None? then None
      else Some(SetProducer(s, t, Idle))
    case WriteHeader(t) =>
      var p := s.ProducerOf(t);
      if !p.Locked? || |p.data| > MAX_RECORD_SIZE then None
      else
        var off := s.prod % size;
        Some(SetProducer(s, t, Headed(p.data, p.flags))
             .(mem := Store(s.mem, off, HeaderBytes(s, off, |p.data|))))
    case Publish(t) =>
      var p := s.ProducerOf(t);
      if !p.Headed? then None
      else Some(SetProducer(s, t, Copying(p.data, p.flags, s.prod % size, 0))
                .(prod := s.prod + RecordLen(|p.data|), lock := None))
    case CopyByte(t) =>
      var p := s.ProducerOf(t);
      if !p.Copying? || p.n >= |p.data| then None
      else Some(SetProducer(s, t, p.(n := p.n + 1))
                .(mem := Store(s.mem, p.off + HEADER_SIZE + p.n, [p.data[p.n]])))
    case Commit(t, discard) =>
      var p := s.ProducerOf(t);
      if !p.Copying? || (p.n < |p.data| && !discard) then None
      else
        var hdr := s.base + s.dataOff + p.off;
        var rb := RestoreFromRec(hdr, LoadWord(s.mem, p.off + 4));
        var w := CommitWord(LoadWord(s.mem, p.off), discard);
        if rb != s.base then None
        else Some(SetProducer(s, t, Waking(p.flags, hdr - (rb + s.dataOff)))
                  .(mem := Store(s.mem, p.off, ToBytes(w))))
    case WakeCheck(t) =>
      var p := s.ProducerOf(t);
      if !p.Waking? then None
      else Some(SetProducer(s, t, Idle).(irqQueued :=
             s.irqQueued || p.flags.forceWakeup || (s.cons % size == p.recPos && !p.flags.noWakeup)))
    case _ => None
  }

  function ConsumerStep(s: Ring, e: Event): Option<Ring>
    requires |s.mem| > 0
  {
    var size := |s.mem|;
    match (e, s.consumer)
    case (PollWait, Out) => Some(s.(consumer := Polling(false)))
    case (PollCheck, Polling(triggered)) =>
      Some(s.(consumer := if s.prod != s.cons then Ready else Sleeping(triggered)))
    case (WakeUp, Sleeping(triggered)) =>
      if triggered then Some(s.(consumer := Polling(false))) else None
    case (LoadConsumer, Ready) => Some(s.(consumer := Outer(s.cons)))
    case (LoadProducer, Outer(c)) => Some(s.(consumer := Inner(c, s.prod, false)))
    case (Inspect, Inner(c, p, got)) =>
      if c >= p then Some(s.(consumer := if got then Outer(c) else Out))
      else
        var w := LoadWord(s.mem, c % size);
        if IsBusy(w) then Some(s.(consumer := Out))
        else if IsDiscarded(w) then Some(s.(consumer := Storing(c + ConsumerLen(w), p, false)))
        else Some(s.(consumer := Reading(c % size, w, [], c + ConsumerLen(w), p)))
    case (ReadByte, Reading(off, w, buf, c, p)) =>
      if |buf| >= w then None
      else Some(s.(consumer := Reading(off, w, buf + [s.mem[Slot(off, HEADER_SIZE + |buf|, size)]], c, p)))
    case (CallbackReturns(failed), Reading(off, w, buf, c, p)) =>
      if |buf| < w then None else Some(s.(consumer := Storing(c, p, failed)))
    case (StoreConsumer, Storing(c, p, err)) =>
      Some(s.(cons := c, consumer := if err then Out else Inner(c, p, true)))
    case _ => None
  }

  /** `ringbuf_notify`: wake everyone on the wait queue. */
  function IrqStep(s: Ring): Option<Ring> {
    if !s.irqQueued then None
    else Some(s.(irqQueued := false,
                 consumer := match s.consumer
                             case Polling(_) => Polling(true)
                             case Sleeping(_) => Sleeping(true)
                             case other => other))
  }

  predicate IsProducerEvent(e: Event) {
    e.Output? || e.Acquire? || e.TryLockFails? || e.WriteHeader? || e.Publish?
    || e.CopyByte? || e.Commit? || e.WakeCheck?
  }

  /** One step; `None` when the event is not enabled. */
  function Step(s: Ring, e: Event): (r: Option<Ring>)
    requires |s.mem| > 0
    ensures r.Some? ==> |r.value.mem| == |s.mem| && r.value.base == s.base && r.value.dataOff == s.dataOff
  {
    if e.IrqWork? then IrqStep(s)
    else if IsProducerEvent(e) then ProducerStep(s, e)
    else ConsumerStep(s, e)
  }

  /* ------------------------------------------------------------------------
   * What an observer of a run writes down.  `Step` never sees any of it.
   * --------------------------------------------------------------------- */

  datatype Phase = Busy | Committed | Discarded

  /** One reservation, in the order the reservations were published. */
  datatype Rec = Rec(tid: nat, pos: nat, data: seq<byte>, flags: Flags,
                     phase: Phase, copied: nat, notified: bool)

  datatype History = History(
    recs: seq<Rec>,
    current: map<nat, nat>,        // the reservation each producer last made
    taken: nat,                    // records the consumer has looked past
    stored: nat,                   // records released through consumer_pos
    delivered: seq<seq<byte>>)     // payloads handed to the callback

  const NOTHING_YET: History := History([], map[], 0, 0, [])

  function Amend(h: History, t: nat, f: Rec -> Rec): History {
    if t in h.current && h.current[t] < |h.recs| then
      h.(recs := h.recs[h.current[t] := f(h.recs[h.current[t]])])
    else h
  }

  function Observe(s: Ring, h: History, e: Event): History {
    match e
    case Publish(t) =>
      var p := s.ProducerOf(t);
      if !p.Headed? then h
      else h.(recs := h.recs + [Rec(t, s.prod, p.data, p.flags, Busy, 0, false)],
              current := h.current[t := |h.recs|])
    case CopyByte(t) => Amend(h, t, (r: Rec) => r.(copied := r.copied + 1))
    case Commit(t, discard) =>
      Amend(h, t, (r: Rec) => r.(phase := if discard then Discarded else Committed))
    case WakeCheck(t) => Amend(h, t, (r: Rec) => r.(notified := true))
    case Inspect =>
      if |s.mem| > 0 && s.consumer.Inner? && s.consumer.c < s.consumer.p
         && !IsBusy(LoadWord(s.mem, s.consumer.c % |s.mem|))
      then h.(taken := h.taken + 1) else h
    case CallbackReturns(_) =>
      if s.consumer.Reading? then h.(delivered := h.delivered + [s.consumer.buf]) else h
    case StoreConsumer => h.(stored := h.taken)
    case _ => h
  }

  /** The state and history after a sequence of enabled events. */
  function Execute(s: Ring, h: History, events: seq<Event>): Option<(Ring, History)>
    requires |s.mem| > 0
    decreases |events|
  {
    if events == [] then Some((s, h))
    else
      var e := events[0];
      match Step(s, e)
      case None => None
      case Some(s') => Execute(s', Observe(s, h, e), events[1..])
  }
}
