/** The ring buffer in memory: the driver's shared structure with its data area, the
    atomic actions of the kernel producers on it, and the consumer's polling loop. */
module Ringbuf {
  import opened Bytes
  import opened Framing
  import opened RingMemory
  import opened RingPages
  import opened RingMachine
  import opened RingInvariant
  import opened Options

  class RingBuffer {
    const base: nat
    const dataOff: nat
    const data: array<byte>
    var producerPos: nat
    var consumerPos: nat
    var lock: Option<nat>
    var irqQueued: bool
    var producers: map<nat, Producer>  // the local variables of the producer threads
    ghost var consumer: Consumer       // where the consumer stands; its locals are Poll's
    ghost var history: History

    ghost function State(): Ring
      reads this, data
    {
      Ring(data[..], base, dataOff, producerPos, consumerPos, lock, irqQueued, producers, consumer)
    }

    ghost predicate Valid()
      reads this, data
    {
      Inv(State(), history) && data.Length > 0
    }

    /** `ringbuf_alloc` with a data area of `size` zeroed bytes. */
    constructor (size: nat, base: nat, dataOff: nat)
      requires Geometry(Init(seq(size, _ => 0), base, dataOff))
      ensures Valid() && fresh(data)
      ensures State() == Init(seq(size, _ => 0), base, dataOff) && history == NOTHING_YET
    {
      this.base, this.dataOff := base, dataOff;
      data := new byte[size](_ => 0);
      producerPos, consumerPos, lock, irqQueued := 0, 0, None, false;
      producers, consumer, history := map[], Out, NOTHING_YET;
      new;
      assert data[..] == seq(size, _ => 0);
      InitInv(data[..], base, dataOff);
    }

    method StoreBytes(p: nat, bs: seq<byte>)
      requires data.Length > 0
      modifies data
      ensures data[..] == Store(old(data[..]), p, bs)
    {
      var k := 0;
      while k < |bs|
        invariant k <= |bs|
        invariant data[..] == Store(old(data[..]), p, bs[..k])
      {
        data[(p + k) % data.Length] := bs[k];
        assert bs[..k + 1][..k] == bs[..k];
        k := k + 1;
      }
      assert bs[..k] == bs;
    }

    method LoadBytes(p: nat, n: nat) returns (bs: seq<byte>)
      requires data.Length > 0
      ensures bs == Load(data[..], p, n)
    {
      bs := [];
      while |bs| < n
        invariant |bs| <= n && bs == Load(data[..], p, |bs|)
      {
        bs := bs + [data[(p + |bs|) % data.Length]];
      }
    }

    /** One atomic action of a kernel producer, or of the deferred wake-up, if enabled. */
    method Perform(e: Event) returns (ok: bool)
      requires Valid() && (IsProducerEvent(e) || e.IrqWork?)
      modifies this, data
      ensures Valid()
      ensures ok == Step(old(State()), e).Some?
      ensures ok ==> State() == Step(old(State()), e).value && history == Observe(old(State()), old(history), e)
      ensures !ok ==> State() == old(State()) && history == old(history)
    {
      hide Inv, Step, Observe;
      ghost var s := State();
      ghost var h := history;
      ok := Act(e);
      if ok {
        StepInv(s, h, e);
        HasMemory(State(), Observe(s, h, e));
        history := Observe(s, h, e);
      }
    }

    method Act(e: Event) returns (ok: bool)
      requires data.Length > 0 && (IsProducerEvent(e) || e.IrqWork?)
      modifies this, data
      ensures ok == Step(old(State()), e).Some?
      ensures State() == (if ok then Step(old(State()), e).value else old(State()))
      ensures history == old(history)
    {
      hide Step;
      match e
      case Output(t, d, flags) => ok := BeginOutput(t, d, flags);
      case Acquire(t) => ok := AcquireSpace(t);
      case TryLockFails(t) => ok := GiveUp(t);
      case WriteHeader(t) => ok := PutHeader(t);
      case Publish(t) => ok := Reserve(t);
      case CopyByte(t) => ok := PutByte(t);
      case Commit(t, discard) => ok := ExchangeHeader(t, discard);
      case WakeCheck(t) => ok := NotifyIfCaughtUp(t);
      case IrqWork => ok := Notify();
    }

    function Local(t: nat): Producer
      reads this
    {
      if t in producers then producers[t] else Idle
    }

    /** The early returns of `ringbuf_output` and `__ringbuf_reserve`, then the load of
        `consumer_pos` ahead of the lock. */
    method BeginOutput(t: nat, d: seq<byte>, flags: Flags) returns (ok: bool)
      requires data.Length > 0
      modifies this`producers
      ensures ok == Step(old(State()), Output(t, d, flags)).Some?
      ensures State() == if ok then Step(old(State()), Output(t, d, flags)).value else old(State())
    {
      ok := Local(t).Idle?;
      if ok && !Rejected(|d|, flags, data.Length) {
        producers := producers[t := Loaded(d, flags, consumerPos)];
      }
    }

    /** Take the lock and test for space; on failure drop it again at once. */
    method AcquireSpace(t: nat) returns (ok: bool)
      requires data.Length > 0
      modifies this`producers, this`lock
      ensures ok == Step(old(State()), Acquire(t)).Some?
      ensures State() == if ok then Step(old(State()), Acquire(t)).value else old(State())
    {
      var p := Local(t);
      ok := p.Loaded? && lock.None?;
      if ok {
        var newProd := producerPos + RecordLen(|p.data|);
        if newProd - p.stale > data.Length - 1 {
          producers := producers[t := Idle];
        } else {
          lock := Some(t);
          producers := producers[t := Locked(p.data, p.flags)];
        }
      }
    }

    /** A try-lock in NMI context that finds the lock held. */
    method GiveUp(t: nat) returns (ok: bool)
      requires data.Length > 0
      modifies this`producers
      ensures ok == Step(old(State()), TryLockFails(t)).Some?
      ensures State() == if ok then Step(old(State()), TryLockFails(t)).value else old(State())
    {
      ok := Local(t).Loaded? && lock.Some?;
      if ok {
        producers := producers[t := Idle];
      }
    }

    method PutHeader(t: nat) returns (ok: bool)
      requires data.Length > 0
      modifies this`producers, data
      ensures ok == Step(old(State()), WriteHeader(t)).Some?
      ensures State() == if ok then Step(old(State()), WriteHeader(t)).value else old(State())
    {
      var p := Local(t);
      ok := p.Locked? && |p.data| <= MAX_RECORD_SIZE;
      if ok {
        var off := producerPos % data.Length;
        var pgOff := RecPageOff(base, base + dataOff + off);
        StoreBytes(off, ToBytes(OrBusy(|p.data|)) + ToBytes(pgOff));
        producers := producers[t := Headed(p.data, p.flags)];
      }
    }

    /** Publish the new `producer_pos` and drop the lock. */
    method Reserve(t: nat) returns (ok: bool)
      requires data.Length > 0
      modifies this`producers, this`producerPos, this`lock
      ensures ok == Step(old(State()), Publish(t)).Some?
      ensures State() == if ok then Step(old(State()), Publish(t)).value else old(State())
    {
      var p := Local(t);
      ok := p.Headed?;
      if ok {
        producers := producers[t := Copying(p.data, p.flags, producerPos % data.Length, 0)];
        producerPos := producerPos + RecordLen(|p.data|);
        lock := None;
      }
    }

    method PutByte(t: nat) returns (ok: bool)
      requires data.Length > 0
      modifies this`producers, data
      ensures ok == Step(old(State()), CopyByte(t)).Some?
      ensures State() == if ok then Step(old(State()), CopyByte(t)).value else old(State())
    {
      hide Store;
      var p := Local(t);
      ok := p.Copying? && p.n < |p.data|;
      if ok {
        StoreBytes(p.off + HEADER_SIZE + p.n, [p.data[p.n]]);
        producers := producers[t := p.(n := p.n + 1)];
      }
    }

    /** `ringbuf_commit` up to the exchange of the header word. */
    method ExchangeHeader(t: nat, discard: bool) returns (ok: bool)
      requires data.Length > 0
      modifies this`producers, data
      ensures ok == Step(old(State()), Commit(t, discard)).Some?
      ensures State() == if ok then Step(old(State()), Commit(t, discard)).value else old(State())
    {
      hide Load, Store, FromBytes, ToBytes, CommitWord, RestoreFromRec;
      var p := Local(t);
      ok := p.Copying? && (p.n >= |p.data| || discard);
      if ok {
        var hdr := base + dataOff + p.off;
        var bs := LoadBytes(p.off + 4, 4);
        var rb := RestoreFromRec(hdr, FromBytes(bs));
        ok := rb == base;
        if ok {
          bs := LoadBytes(p.off, 4);
          StoreBytes(p.off, ToBytes(CommitWord(FromBytes(bs), discard)));
          producers := producers[t := Waking(p.flags, hdr - (rb + dataOff))];
        }
      }
    }

    method NotifyIfCaughtUp(t: nat) returns (ok: bool)
      requires data.Length > 0
      modifies this`producers, this`irqQueued
      ensures ok == Step(old(State()), WakeCheck(t)).Some?
      ensures State() == if ok then Step(old(State()), WakeCheck(t)).value else old(State())
    {
      var p := Local(t);
      ok := p.Waking?;
      if ok {
        if p.flags.forceWakeup {
          irqQueued := true;
        } else if consumerPos % data.Length == p.recPos && !p.flags.noWakeup {
          irqQueued := true;
        }
        producers := producers[t := Idle];
      }
    }

    method Notify() returns (ok: bool)
      requires data.Length > 0
      modifies this`irqQueued, this`consumer
      ensures ok == Step(old(State()), IrqWork).Some?
      ensures State() == if ok then Step(old(State()), IrqWork).value else old(State())
    {
      ok := irqQueued;
      if ok {
        irqQueued := false;
        consumer := match consumer
                    case Polling(_) => Polling(true)
                    case Sleeping(_) => Sleeping(true)
                    case other => other;
      }
    }

    /* ---- a whole producer call ---------------------------------------------- */

    /** Room for a record of `size` payload bytes between the two positions. */
    ghost predicate Fits(size: nat)
      reads this
    {
      size <= MAX_RECORD_SIZE && producerPos + RecordLen(size) - consumerPos < data.Length
    }

    /** `__ringbuf_reserve` by a thread no one disturbs. */
    method ReserveRecord(t: nat, d: seq<byte>, flags: Flags) returns (ok: bool)
      requires Valid() && Local(t).Idle? && lock == None && !flags.unknownBits
      modifies this, data
      ensures Valid() && lock == None && ok == old(Fits(|d|))
      ensures consumerPos == old(consumerPos) && consumer == old(consumer) && irqQueued == old(irqQueued)
      ensures !ok ==> Local(t).Idle? && producerPos == old(producerPos) && history == old(history)
      ensures ok ==>
                && Local(t) == Copying(d, flags, old(producerPos) % data.Length, 0)
                && history.recs == old(history.recs) + [Rec(t, old(producerPos), d, flags, Busy, 0, false)]
                && t in history.current && history.current[t] == |old(history.recs)|
    {
      hide Inv, RecordLen, Store, HeaderBytes;
      if |d| <= MAX_RECORD_SIZE { FramingAgreement(|d|, |d|); }
      InWindow(State(), history);
      ok := Perform(Output(t, d, flags));
      if Local(t).Idle? { return false; }
      ok := Perform(Acquire(t));
      if Local(t).Idle? { return false; }
      ok := Perform(WriteHeader(t));
      ok := Perform(Publish(t));
    }

    /** `memcpy` into the reserved record. */
    method CopyPayload(t: nat)
      requires Valid() && Local(t).Copying? && Local(t).n == 0 && t in history.current
      modifies this, data
      ensures Valid() && lock == old(lock) && irqQueued == old(irqQueued)
      ensures consumerPos == old(consumerPos) && consumer == old(consumer)
      ensures Local(t) == old(Local(t)).(n := |old(Local(t)).data|)
      ensures history.current == old(history.current)
      ensures var k := history.current[t];
              && k < |old(history.recs)| && old(history.recs)[k].copied == 0
              && history.recs == old(history.recs)[k := old(history.recs)[k].(copied := |old(Local(t)).data|)]
    {
      hide Inv, Store;
      ghost var k := history.current[t];
      CurrentRecord(State(), history, t);
      while Local(t).n < |Local(t).data|
        invariant Valid() && lock == old(lock) && irqQueued == old(irqQueued)
        invariant consumerPos == old(consumerPos) && consumer == old(consumer)
        invariant Local(t).Copying? && Local(t).n <= |Local(t).data|
        invariant Local(t) == old(Local(t)).(n := Local(t).n)
        invariant history.current == old(history.current) && k < |old(history.recs)|
        invariant history.recs == old(history.recs)[k := old(history.recs)[k].(copied := Local(t).n)]
        decreases |Local(t).data| - Local(t).n
      {
        var ok := Perform(CopyByte(t));
      }
    }

    /** `ringbuf_commit` of a whole record by a thread no one disturbs. */
    method CommitRecord(t: nat)
      requires Valid() && Local(t).Copying? && Local(t).n == |Local(t).data|
      modifies this, data
      ensures Valid() && Local(t).Idle? && lock == old(lock)
      ensures consumerPos == old(consumerPos) && consumer == old(consumer)
      ensures history.current == old(history.current) && t in history.current
      ensures var k := history.current[t];
              && k < |old(history.recs)|
              && history.recs == old(history.recs)[k := old(history.recs)[k].(phase := Committed, notified := true)]
              && irqQueued == (old(irqQueued) || old(Local(t).flags.forceWakeup)
                               || (consumerPos % data.Length == history.recs[k].pos % data.Length
                                   && !old(Local(t).flags.noWakeup)))
    {
      hide Inv, Store, Load, LoadWord, CommitWord, ToBytes, RestoreFromRec;
      CommitEnabled(State(), history, t);
      var ok := Perform(Commit(t, false));
      ok := Perform(WakeCheck(t));
    }

    /** `ringbuf_output` by a thread no one disturbs: `-EINVAL`, `-EAGAIN`, or one more
        committed record, with a wake-up exactly when it is due. */
    method RingbufOutput(t: nat, d: seq<byte>, flags: Flags) returns (ret: int)
      requires Valid() && Local(t).Idle? && lock == None
      modifies this, data
      ensures Valid() && Local(t).Idle? && lock == None
      ensures consumerPos == old(consumerPos) && consumer == old(consumer)
      ensures ret == if flags.unknownBits then -22 else if old(Fits(|d|)) then 0 else -11
      ensures ret != 0 ==> history == old(history) && irqQueued == old(irqQueued)
      ensures ret == 0 ==>
                && history.recs == old(history.recs) + [Rec(t, old(producerPos), d, flags, Committed, |d|, true)]
                && irqQueued == (old(irqQueued) || flags.forceWakeup
                                 || (old(producerPos) == consumerPos && !flags.noWakeup))
    {
      hide Inv, RecordLen;
      if flags.unknownBits {
        return -22;
      }
      InWindow(State(), history);
      var ok := ReserveRecord(t, d, flags);
      if !ok {
        return -11;
      }
      CopyPayload(t);
      CommitRecord(t);
      SameSlot(old(producerPos), consumerPos, data.Length);
      ret := 0;
    }

    /* ---- the consumer ------------------------------------------------------ */

    /** Actions of the other threads between two accesses of the consumer; an event that
        is not enabled when its turn comes has no effect. */
    method Interfere(events: seq<Event>)
      requires Valid() && !consumer.Polling? && !consumer.Sleeping?
      requires forall e :: e in events ==> IsProducerEvent(e) || e.IrqWork?
      modifies this, data
      ensures Valid() && consumer == old(consumer) && consumerPos == old(consumerPos)
      ensures SameProgress(old(history), history)
      ensures events == [] ==> State() == old(State()) && history == old(history)
    {
      hide Inv, Step, Observe;
      var i := 0;
      while i < |events|
        invariant i <= |events|
        invariant Valid() && consumer == old(consumer) && consumerPos == old(consumerPos)
        invariant SameProgress(old(history), history)
        invariant i == 0 ==> State() == old(State()) && history == old(history)
      {
        ghost var s, h := State(), history;
        HasMemory(s, h);
        var ok := Perform(events[i]);
        if ok {
          LeavesConsumer(s, h, events[i]);
        }
        i := i + 1;
      }
    }

    /** The events of schedule slot `k`, if there is one. */
    method Others(env: seq<seq<Event>>, k: nat) returns (next: nat)
      requires Valid() && !consumer.Polling? && !consumer.Sleeping?
      requires k <= |env| && ByOthers(env)
      modifies this, data
      ensures Valid() && consumer == old(consumer) && consumerPos == old(consumerPos)
      ensures SameProgress(old(history), history)
      ensures k <= next <= |env|
      ensures next == k ==> k == |env| && State() == old(State()) && history == old(history)
    {
      next := k;
      if k < |env| {
        Interfere(env[k]);
        next := k + 1;
      }
    }

    /** A consumer step that leaves shared memory alone. */
    ghost method Move(e: Event)
      requires Valid() && Step(State(), e).Some? && !IsProducerEvent(e) && !e.IrqWork? && !e.StoreConsumer?
      modifies this`consumer, this`history
      ensures Valid()
      ensures State() == Step(old(State()), e).value && history == Observe(old(State()), old(history), e)
    {
      hide Inv, Observe;
      ghost var s, h := State(), history;
      StepInv(s, h, e);
      consumer, history := Step(s, e).value.consumer, Observe(s, h, e);
    }

    method LoadConsumerPos() returns (c: nat)
      requires Valid() && consumer.Ready?
      modifies this`consumer, this`history
      ensures Valid() && history == old(history)
      ensures c == consumerPos && consumer == Outer(c)
    {
      hide Inv;
      HasMemory(State(), history);
      c := consumerPos;
      Move(LoadConsumer);
    }

    method LoadProducerPos(env: seq<seq<Event>>, k: nat) returns (p: nat, next: nat)
      requires Valid() && consumer.Outer? && k <= |env| && ByOthers(env)
      modifies this, data
      ensures Valid() && history.delivered == old(history.delivered) && consumerPos == old(consumerPos)
      ensures p == producerPos && consumer == Inner(old(consumer.c), p, false)
      ensures Waited(env, k, next, old(history), history, old(producerPos), producerPos)
    {
      hide Inv;
      next := Others(env, k);
      HasMemory(State(), history);
      p := producerPos;
      Move(LoadProducer);
    }

    /** Load the header word at the consumer's position and step past a finished record. */
    method LoadHeader(env: seq<seq<Event>>, k: nat, cons: nat, prod: nat) returns (w: u32, next: nat)
      requires Valid() && consumer.Inner? && consumer.c == cons < prod == consumer.p
      requires k <= |env| && ByOthers(env)
      modifies this, data
      ensures Valid() && data.Length > 0 && consumerPos == old(consumerPos)
      ensures consumer == if IsBusy(w) then Out
                          else if IsDiscarded(w) then Storing(cons + ConsumerLen(w), prod, false)
                          else Reading(cons % data.Length, w, [], cons + ConsumerLen(w), prod)
      ensures history.delivered == old(history.delivered)
      ensures IsBusy(w) ==>
                history.stored < |history.recs| && history.recs[history.stored].phase == Busy
      ensures Waited(env, k, next, old(history), history, old(producerPos), producerPos)
    {
      hide Inv, LoadWord, ConsumerLen, IsBusy, IsDiscarded;
      next := Others(env, k);
      HasMemory(State(), history);
      HeaderAtPosition(State(), history);
      w := LoadWordAt(cons % data.Length);
      Move(Inspect);
    }

    method LoadWordAt(off: nat) returns (w: u32)
      requires data.Length > 0
      ensures w == LoadWord(data[..], off)
    {
      var bs := LoadBytes(off, 4);
      w := FromBytes(bs);
    }

    /** The inner loop's test fails: leave it, and the outer loop too if nothing was taken. */
    ghost method LeaveInner(cons: nat)
      requires Valid() && consumer.Inner? && consumer.c == cons >= consumer.p
      modifies this`consumer, this`history
      ensures Valid() && history == old(history)
      ensures consumer == if old(consumer.got) then Outer(cons) else Out
    {
      hide Inv;
      HasMemory(State(), history);
      Move(Inspect);
    }

    /** The callback reads the sample, one byte at a time, and reports. */
    method Callback(fails: seq<byte> -> bool, env: seq<seq<Event>>, k: nat, off: nat, w: u32,
                    ghost c: nat, ghost p: nat)
      returns (err: bool, sample: seq<byte>, next: nat)
      requires Valid() && consumer == Reading(off, w, [], c, p) && k <= |env| && ByOthers(env)
      modifies this, data
      ensures Valid() && consumer == Storing(c, p, err) && err == fails(sample)
      ensures consumerPos == old(consumerPos) && k <= next <= |env|
      ensures history.delivered == old(history.delivered) + [sample]
      ensures Waited(env, k, next, old(history), history, old(producerPos), producerPos)
    {
      hide Inv, Slot;
      HasMemory(State(), history);
      sample, next := [], k;
      while |sample| < w
        invariant Valid() && data.Length > 0
        invariant consumer == Reading(off, w, sample, c, p)
        invariant |sample| <= w && consumerPos == old(consumerPos) && k <= next <= |env|
        invariant SameProgress(old(history), history)
        invariant next == k ==> history.recs == old(history.recs) && producerPos == old(producerPos)
      {
        next := Others(env, next);
        sample := sample + [data[Slot(off, HEADER_SIZE + |sample|, data.Length)]];
        Move(ReadByte);
      }
      next := Others(env, next);
      err := fails(sample);
      Move(CallbackReturns(err));
    }

    method StorePosition(env: seq<seq<Event>>, k: nat, c: nat) returns (next: nat)
      requires Valid() && consumer.Storing? && consumer.c == c && k <= |env| && ByOthers(env)
      modifies this, data
      ensures Valid() && consumerPos == c && history.delivered == old(history.delivered)
      ensures consumer == if old(consumer.err) then Out else Inner(c, old(consumer.p), true)
      ensures Waited(env, k, next, old(history), history, old(producerPos), producerPos)
    {
      hide Inv;
      next := Others(env, k);
      ghost var s, h := State(), history;
      HasMemory(s, h);
      StepInv(s, h, StoreConsumer);
      consumerPos := c;
      consumer := if consumer.err then Out else Inner(c, consumer.p, true);
      history := history.(stored := history.taken);
      assert State() == Step(s, StoreConsumer).value;
    }

    /** `secDetector_ringbuf_poll` after poll(2) has returned, with the other threads'
        actions interleaved as `env` says: slot `k` runs before the consumer's `k`-th
        access.  `fails` decides which payloads make the callback return an error.

        It stops at the first failure, and otherwise only when it has met a busy record
        or run out of records; `handed` is what the callback was given. */
    method Poll(fails: seq<byte> -> bool, env: seq<seq<Event>>) returns (ret: int, handed: seq<seq<byte>>)
      requires Valid() && consumer.Ready? && ByOthers(env)
      modifies this, data
      ensures Valid() && consumer.Out?
      ensures history.delivered == old(history.delivered) + handed
      ensures if ret == 0 then NoneFails(fails, handed)
              else ret == -1 && handed != [] && fails(handed[|handed| - 1]) && NoneFails(fails, handed[..|handed| - 1])
      ensures env == [] ==> history.recs == old(history.recs)
      ensures env == [] && ret == 0 ==>
                history.stored == |history.recs| || history.recs[history.stored].phase == Busy
    {
      hide Inv, LoadWord, IsBusy, IsDiscarded, ConsumerLen, ByOthers, SameProgress, NoneFails;
      NoneYet(fails);
      handed, ret := [], 0;
      var k := 0;
      var cons: nat := LoadConsumerPos();
      var got := true;
      while got
        invariant Valid() && k <= |env|
        invariant consumer == (if got then Outer(cons) else Out) && cons == consumerPos
        invariant history.delivered == old(history.delivered) + handed
        invariant NoneFails(fails, handed)
        invariant env == [] ==> history.recs == old(history.recs) && producerPos == old(producerPos)
        invariant env == [] && !got ==> consumerPos >= producerPos
        decreases |env| - k, producerPos - consumerPos, got
      {
        got := false;
        ghost var k0, prod0, cons0 := k, producerPos, cons;
        var prod;
        prod, k := LoadProducerPos(env, k);
        while cons < prod
          invariant Valid() && k0 <= k <= |env|
          invariant consumer == Inner(cons, prod, got) && cons == consumerPos
          invariant history.delivered == old(history.delivered) + handed
          invariant NoneFails(fails, handed)
          invariant env == [] ==> history.recs == old(history.recs) && producerPos == old(producerPos) == prod
          invariant k == k0 ==> k == |env| && producerPos == prod0
          invariant if got then cons0 < cons else cons0 == cons
        {
          var w;
          w, k := LoadHeader(env, k, cons, prod);
          if IsBusy(w) {
            return;
          }
          got := true;
          AtLeastHeader(w);
          var off := cons % data.Length;
          cons := cons + ConsumerLen(w);
          if !IsDiscarded(w) {
            var err, sample;
            err, sample, k := Callback(fails, env, k, off, w, cons, prod);
            OneMore(fails, handed, sample);
            handed := handed + [sample];
            if err {
              k := StorePosition(env, k, cons);
              ret := -1;
              return;
            }
          }
          k := StorePosition(env, k, cons);
        }
        LeaveInner(cons);
        InWindow(State(), history);
      }
      EmptyWindow(State(), history);
      InWindow(State(), history);
    }
  }

  ghost predicate NoneFails(fails: seq<byte> -> bool, handed: seq<seq<byte>>) {
    forall i :: 0 <= i < |handed| ==> !fails(handed[i])
  }

  lemma NoneYet(fails: seq<byte> -> bool)
    ensures NoneFails(fails, [])
  {
  }

  lemma OneMore(fails: seq<byte> -> bool, handed: seq<seq<byte>>, sample: seq<byte>)
    requires NoneFails(fails, handed)
    ensures !fails(sample) ==> NoneFails(fails, handed + [sample])
    ensures NoneFails(fails, (handed + [sample])[..|handed|])
  {
    assert (handed + [sample])[..|handed|] == handed;
  }

  ghost predicate ByOthers(env: seq<seq<Event>>) {
    forall slot, e :: slot in env && e in slot ==> IsProducerEvent(e) || e.IrqWork?
  }

  /** Other threads had their say before the access, unless the schedule was over. */
  ghost predicate Waited(env: seq<seq<Event>>, k: nat, next: nat, h: History, h': History, prod: nat, prod': nat) {
    k <= next <= |env| && (next == k ==> k == |env| && h'.recs == h.recs && prod' == prod)
  }

  /** The consumer's part of the history is untouched. */
  ghost predicate SameProgress(h: History, h': History) {
    h'.taken == h.taken && h'.stored == h.stored && h'.delivered == h.delivered
  }

  lemma LeavesConsumer(s: Ring, h: History, e: Event)
    requires |s.mem| > 0 && Step(s, e).Some? && (IsProducerEvent(e) || e.IrqWork?)
    requires !s.consumer.Polling? && !s.consumer.Sleeping?
    ensures Step(s, e).value.consumer == s.consumer && Step(s, e).value.cons == s.cons
    ensures SameProgress(h, Observe(s, h, e))
  {
  }

  lemma InWindow(s: Ring, h: History)
    requires Inv(s, h)
    ensures s.cons <= s.prod < s.cons + |s.mem|
  {
  }

  lemma SameSlot(a: nat, b: nat, n: nat)
    requires b <= a < b + n
    ensures a % n == b % n <==> a == b
  {
    if a % n == b % n {
      ModUnique(a, b, n);
    }
  }

  lemma CurrentRecord(s: Ring, h: History, t: nat)
    requires Inv(s, h) && s.ProducerOf(t).Copying?
    ensures t in h.current && h.current[t] < |h.recs| && h.recs[h.current[t]].copied == s.ProducerOf(t).n
  {
    assert ProducerOk(s, h, t);
  }

  /** A producer whose payload is in place can commit, and knows its own position. */
  lemma CommitEnabled(s: Ring, h: History, t: nat)
    requires Inv(s, h) && s.ProducerOf(t).Copying? && s.ProducerOf(t).n == |s.ProducerOf(t).data|
    ensures |s.mem| > 0 && Step(s, Commit(t, false)).Some? && t in h.current && h.current[t] < |h.recs|
    ensures Step(s, Commit(t, false)).value.ProducerOf(t)
            == Waking(s.ProducerOf(t).flags, h.recs[h.current[t]].pos % |s.mem|)
  {
    assert ProducerOk(s, h, t);
    forall j | h.stored <= j < |h.recs|
      ensures |h.recs[j].data| <= MAX_RECORD_SIZE
    {
      LiveWindow(s, h, j);
    }
    hide InMemory, ProducerOk, Owned, Chain, Step, Observe, Store, ConsumerOk, DeliveredOk, WakeOk;
    CommitOwn(s, h, t, false);
  }

  lemma AtLeastHeader(w: u32)
    ensures ConsumerLen(w) >= HEADER_SIZE
  {
  }
}
