/** The invariant of the ring buffer machine and its preservation by every step. */
module RingInvariant {
  import opened Bytes
  import opened Framing
  import opened RingMemory
  import opened RingPages
  import opened RingMachine
  import opened Options

  function End(r: Rec): nat {
    r.pos + RecordLen(|r.data|)
  }

  /** Position of reservation `k`; of the next one to come when `k` is their number. */
  function PosAt(recs: seq<Rec>, prod: nat, k: nat): nat {
    if k < |recs| then recs[k].pos else prod
  }

  /** Reservations are laid end to end, eight-byte aligned, in publication order. */
  ghost predicate Chain(recs: seq<Rec>, prod: nat) {
    && prod % 8 == 0
    && (if recs == [] then prod == 0 else recs[0].pos == 0 && prod == End(recs[|recs| - 1]))
    && (forall k :: 0 <= k < |recs| ==> |recs[k].data| <= MAX_RECORD_SIZE && recs[k].pos % 8 == 0)
    && (forall i, j :: 0 <= i < j < |recs| ==> End(recs[i]) <= recs[j].pos)
    && (forall i, j :: 0 <= i < |recs| && j == i + 1 < |recs| ==> recs[j].pos == End(recs[i]))
  }

  /** The header word of a reservation in each phase. */
  function WordOf(r: Rec): nat {
    match r.phase
    case Busy => |r.data| + BUSY_BIT
    case Committed => |r.data|
    case Discarded => |r.data| + DISCARD_BIT
  }

  /** The bytes of a record that mean something: header and payload. */
  function Region(mem: seq<byte>, r: Rec): (bs: seq<byte>)
    requires |mem| > 0
  {
    Load(mem, r.pos, HEADER_SIZE + |r.data|)
  }

  function PageOffAt(s: Ring, pos: nat): u32
    requires |s.mem| > 0
  {
    RecPageOff(s.base, s.base + s.dataOff + pos % |s.mem|)
  }

  /** What an unreleased record has in memory. */
  ghost predicate InMemory(s: Ring, r: Rec)
    requires |s.mem| > 0
  {
    && LoadWord(s.mem, r.pos) == WordOf(r)
    && LoadWord(s.mem, r.pos + 4) == PageOffAt(s, r.pos)
    && r.copied <= |r.data|
    && Load(s.mem, r.pos + HEADER_SIZE, r.copied) == r.data[..r.copied]
    && (r.phase == Committed ==> r.copied == |r.data|)
  }

  ghost predicate Positions(s: Ring, h: History) {
    && h.stored <= h.taken <= |h.recs|
    && s.cons == PosAt(h.recs, s.prod, h.stored)
    && s.cons <= s.prod
    && s.prod - s.cons < |s.mem|
  }

  ghost predicate OwnsRecord(h: History, t: nat, flags: Flags) {
    && t in h.current && h.current[t] < |h.recs|
    && h.recs[h.current[t]].tid == t
    && h.recs[h.current[t]].flags == flags
    && !h.recs[h.current[t]].notified
  }

  ghost predicate ProducerOk(s: Ring, h: History, t: nat)
    requires |s.mem| > 0
  {
    match s.ProducerOf(t)
    case Idle => true
    case Loaded(data, flags, stale) =>
      !Rejected(|data|, flags, |s.mem|) && stale <= s.cons
    case Locked(data, flags) =>
      && !Rejected(|data|, flags, |s.mem|) && s.lock == Some(t)
      && s.prod + RecordLen(|data|) - s.cons < |s.mem|
    case Headed(data, flags) =>
      && !Rejected(|data|, flags, |s.mem|) && s.lock == Some(t)
      && s.prod + RecordLen(|data|) - s.cons < |s.mem|
      && LoadWord(s.mem, s.prod) == |data| + BUSY_BIT
      && LoadWord(s.mem, s.prod + 4) == PageOffAt(s, s.prod)
    case Copying(data, flags, off, n) =>
      && OwnsRecord(h, t, flags)
      && var r := h.recs[h.current[t]];
      && r.data == data && r.phase == Busy && r.copied == n <= |data|
      && off == r.pos % |s.mem|
    case Waking(flags, recPos) =>
      && OwnsRecord(h, t, flags)
      && var r := h.recs[h.current[t]];
      && r.phase != Busy
      && recPos == r.pos % |s.mem|
  }

  ghost predicate LockOk(s: Ring) {
    s.lock.Some? ==> s.ProducerOf(s.lock.value).Locked? || s.ProducerOf(s.lock.value).Headed?
  }

  /** A record whose producer has not finished is still that producer's current one. */
  ghost predicate Owned(s: Ring, h: History, k: nat)
    requires k < |h.recs|
  {
    var r := h.recs[k];
    && (r.phase == Busy ==> !r.notified)
    && (!r.notified ==>
         && r.tid in h.current && h.current[r.tid] == k
         && (if r.phase == Busy then s.ProducerOf(r.tid).Copying? else s.ProducerOf(r.tid).Waking?))
  }

  /** Payloads of the records among the first `k` that were not discarded. */
  function Payloads(recs: seq<Rec>, k: nat): seq<seq<byte>>
    requires k <= |recs|
  {
    if k == 0 then []
    else
      Payloads(recs, k - 1) + (if recs[k - 1].phase == Committed then [recs[k - 1].data] else [])
  }

  ghost predicate ConsumerOk(s: Ring, h: History)
    requires |s.mem| > 0
  {
    match s.consumer
    case Outer(c) => h.stored == h.taken && c == s.cons
    case Inner(c, p, _) => h.stored == h.taken && c == s.cons && p <= s.prod
    case Reading(off, w, buf, c, p) =>
      && h.taken == h.stored + 1 <= |h.recs| && p <= s.prod
      && c == PosAt(h.recs, s.prod, h.taken)
      && var r := h.recs[h.stored];
      && r.phase == Committed && w == |r.data| && off == r.pos % |s.mem|
      && |buf| <= |r.data| && buf == r.data[..|buf|]
    case Storing(c, p, _) =>
      && h.taken == h.stored + 1 && p <= s.prod
      && c == PosAt(h.recs, s.prod, h.taken)
    case _ => h.stored == h.taken
  }

  /** How many of the taken records the callback has returned from or skipped. */
  function Done(s: Ring, h: History): nat {
    if s.consumer.Reading? && h.taken > 0 then h.taken - 1 else h.taken
  }

  ghost predicate DeliveredOk(s: Ring, h: History) {
    h.taken <= |h.recs| && h.delivered == Payloads(h.recs, Done(s, h))
  }

  predicate Wakes(flags: Flags) {
    flags.forceWakeup || !flags.noWakeup
  }

  /** A consumer asleep with no wake-up on its way has no finished record at its position. */
  ghost predicate WakeOk(s: Ring, h: History) {
    s.consumer == Sleeping(false) && !s.irqQueued && h.stored < |h.recs| && h.recs[h.stored].notified
    ==> !Wakes(h.recs[h.stored].flags)
  }

  ghost predicate Records(s: Ring, h: History)
    requires |s.mem| > 0
  {
    && (forall k :: h.stored <= k < |h.recs| ==> InMemory(s, h.recs[k]))
    && (forall k :: 0 <= k < |h.recs| ==> Owned(s, h, k))
    && (forall k :: 0 <= k < h.taken <= |h.recs| ==> h.recs[k].phase != Busy)
  }

  ghost predicate Producers(s: Ring, h: History)
    requires |s.mem| > 0
  {
    LockOk(s) && forall t: nat :: ProducerOk(s, h, t)
  }

  ghost predicate Inv(s: Ring, h: History) {
    && Geometry(s)
    && Chain(h.recs, s.prod)
    && Positions(s, h)
    && Records(s, h)
    && Producers(s, h)
    && ConsumerOk(s, h)
    && DeliveredOk(s, h)
    && WakeOk(s, h)
  }

  lemma InitInv(mem: seq<byte>, base: nat, dataOff: nat)
    requires Geometry(Init(mem, base, dataOff))
    ensures Inv(Init(mem, base, dataOff), NOTHING_YET)
  {
  }

  lemma HasMemory(s: Ring, h: History)
    requires Inv(s, h)
    ensures |s.mem| > 0
  {
  }

  /* ---- memory ---------------------------------------------------------- */

  /** A record is as well kept in any memory that agrees on its header and payload. */
  lemma SameRegion(s: Ring, s': Ring, r: Rec)
    requires 0 < |s.mem| == |s'.mem| && s.base == s'.base && s.dataOff == s'.dataOff
    requires Region(s'.mem, r) == Region(s.mem, r) && InMemory(s, r)
    ensures InMemory(s', r)
  {
    var n := HEADER_SIZE + |r.data|;
    LoadPart(s.mem, r.pos, n, 0, 4);
    LoadPart(s'.mem, r.pos, n, 0, 4);
    LoadPart(s.mem, r.pos, n, 4, 4);
    LoadPart(s'.mem, r.pos, n, 4, 4);
    LoadPart(s.mem, r.pos, n, HEADER_SIZE, r.copied);
    LoadPart(s'.mem, r.pos, n, HEADER_SIZE, r.copied);
  }

  lemma SameMemory(s: Ring, s': Ring, r: Rec)
    requires 0 < |s.mem| && s.mem == s'.mem && s.base == s'.base && s.dataOff == s'.dataOff
    ensures InMemory(s, r) == InMemory(s', r)
  {
  }

  /** Writing inside one record of the live window leaves the others' bytes alone. */
  lemma StoreInsideRecord(s: Ring, h: History, p: nat, bs: seq<byte>, k: nat, j: nat)
    requires Inv(s, h)
    requires h.stored <= k < |h.recs| && h.stored <= j < |h.recs| && j != k
    requires h.recs[k].pos <= p && p + |bs| <= End(h.recs[k])
    ensures Region(Store(s.mem, p, bs), h.recs[j]) == Region(s.mem, h.recs[j])
  {
    var r := h.recs[j];
    LiveWindow(s, h, k);
    LiveWindow(s, h, j);
    assert Apart(p, |bs|, r.pos, HEADER_SIZE + |r.data|, |s.mem|);
    StoreApart(s.mem, p, bs, r.pos, HEADER_SIZE + |r.data|);
  }

  /** Unreleased records lie between `cons` and `prod`. */
  lemma LiveWindow(s: Ring, h: History, k: nat)
    requires Inv(s, h) && h.stored <= k < |h.recs|
    ensures s.cons <= h.recs[k].pos && |h.recs[k].data| <= MAX_RECORD_SIZE
    ensures h.recs[k].pos + HEADER_SIZE + |h.recs[k].data| <= End(h.recs[k]) <= s.prod
  {
    hide InMemory, ProducerOk, Owned, ConsumerOk, DeliveredOk, WakeOk, LockOk, Payloads, Done;
    FramingAgreement(|h.recs[k].data|, |h.recs[k].data|);
    if h.stored < k {
      assert End(h.recs[h.stored]) <= h.recs[k].pos;
    }
  }

  /* ---- what a step of one thread leaves alone -------------------------- */

  lemma OwnedKept(s: Ring, s': Ring, h: History, h': History, k: nat)
    requires k < |h.recs| && k < |h'.recs| && h'.recs[k] == h.recs[k]
    requires Owned(s, h, k)
    requires var t := h.recs[k].tid;
             && s'.ProducerOf(t) == s.ProducerOf(t)
             && (t in h.current ==> t in h'.current && h'.current[t] == h.current[t])
    ensures Owned(s', h', k)
  {
  }

  /** The header being prepared at `prod` while the lock is held. */
  ghost predicate HeaderKept(s: Ring, s': Ring)
    requires |s.mem| > 0 && |s'.mem| > 0
  {
    && s'.lock == s.lock && s'.prod == s.prod
    && LoadWord(s'.mem, s.prod) == LoadWord(s.mem, s.prod)
    && LoadWord(s'.mem, s.prod + 4) == LoadWord(s.mem, s.prod + 4)
  }

  lemma ProducerKept(s: Ring, s': Ring, h: History, h': History, t: nat)
    requires 0 < |s.mem| == |s'.mem| && s.base == s'.base && s.dataOff == s'.dataOff
    requires ProducerOk(s, h, t) && s'.ProducerOf(t) == s.ProducerOf(t)
    requires s.cons <= s'.cons && (s.lock == Some(t) ==> HeaderKept(s, s'))
    requires t in h.current && h.current[t] < |h.recs| && h.recs[h.current[t]].tid == t ==>
               && t in h'.current && h'.current[t] == h.current[t] < |h'.recs|
               && h'.recs[h.current[t]] == h.recs[h.current[t]]
    ensures ProducerOk(s', h', t)
  {
  }

  /** A producer with no reservation under way owns no unfinished record. */
  lemma FinishedRecord(s: Ring, h: History, k: nat)
    requires k < |h.recs| && Owned(s, h, k)
    requires !s.ProducerOf(h.recs[k].tid).Copying? && !s.ProducerOf(h.recs[k].tid).Waking?
    ensures h.recs[k].notified && h.recs[k].phase != Busy
  {
  }

  lemma FinishedRecordKept(s: Ring, h: History, k: nat)
    requires k < |h.recs| && h.recs[k].notified && h.recs[k].phase != Busy
    ensures Owned(s, h, k)
  {
  }

  /* ---- producer steps --------------------------------------------------- */

  lemma BeforeReservationOwn(s: Ring, h: History, e: Event)
    requires Geometry(s) && Positions(s, h) && LockOk(s)
    requires (e.Output? || e.Acquire? || e.TryLockFails?) && ProducerOk(s, h, e.t)
    requires Step(s, e).Some?
    ensures ProducerOk(Step(s, e).value, h, e.t) && LockOk(Step(s, e).value)
    ensures var p := s.ProducerOf(e.t); p.Idle? || p.Loaded?
    ensures var s' := Step(s, e).value;
            s' == s.(lock := s'.lock, producers := s'.producers)
            && (s'.lock == s.lock || s.lock == None)
            && forall u :: u != e.t ==> s'.ProducerOf(u) == s.ProducerOf(u)
  {
  }

  /** Steps before a reservation is published change only the producer's own state
      and the lock. */
  lemma BeforeReservation(s: Ring, h: History, e: Event)
    requires Inv(s, h) && (e.Output? || e.Acquire? || e.TryLockFails?)
    requires Step(s, e).Some?
    ensures Inv(Step(s, e).value, Observe(s, h, e))
  {
    hide InMemory, ProducerOk, Owned, LockOk, Step, Chain, LoadWord;
    var s' := Step(s, e).value;
    BeforeReservationOwn(s, h, e);
    forall k | 0 <= k < |h.recs|
      ensures Owned(s', h, k)
    {
      if h.recs[k].tid == e.t {
        FinishedRecord(s, h, k);
        FinishedRecordKept(s', h, k);
      } else {
        OwnedKept(s, s', h, h, k);
      }
    }
    forall k | h.stored <= k < |h.recs|
      ensures InMemory(s', h.recs[k])
    {
      SameMemory(s, s', h.recs[k]);
    }
    forall u: nat
      ensures ProducerOk(s', h, u)
    {
      if u != e.t {
        ProducerKept(s, s', h, h, u);
      }
    }
  }

  lemma HeaderStored(s: Ring, size: nat)
    requires Geometry(s) && size <= MAX_RECORD_SIZE
    ensures var mem' := Store(s.mem, s.prod % |s.mem|, HeaderBytes(s, s.prod % |s.mem|, size));
            && mem' == Store(s.mem, s.prod, HeaderBytes(s, s.prod % |s.mem|, size))
            && LoadWord(mem', s.prod) == size + BUSY_BIT
            && LoadWord(mem', s.prod + 4) == PageOffAt(s, s.prod)
  {
    var bs := HeaderBytes(s, s.prod % |s.mem|, size);
    CommitWordMeaning(size, false);
    StoreMasked(s.mem, s.prod, bs);
    StoreThenLoad(s.mem, s.prod, bs);
    LoadPart(Store(s.mem, s.prod, bs), s.prod, 8, 0, 4);
    LoadPart(Store(s.mem, s.prod, bs), s.prod, 8, 4, 4);
    WordRoundTrip(OrBusy(size));
    WordRoundTrip(PageOffAt(s, s.prod));
  }

  lemma WriteHeaderOwn(s: Ring, h: History, t: nat)
    requires Geometry(s) && Positions(s, h) && LockOk(s) && ProducerOk(s, h, t)
    requires Step(s, WriteHeader(t)).Some?
    ensures var s' := Step(s, WriteHeader(t)).value;
            var p := s.ProducerOf(t);
            && ProducerOk(s', h, t) && LockOk(s')
            && p.Locked? && |p.data| <= MAX_RECORD_SIZE && s.lock == Some(t)
            && s.prod + RecordLen(|p.data|) - s.cons < |s.mem|
            && s' == s.(mem := Store(s.mem, s.prod, HeaderBytes(s, s.prod % |s.mem|, |p.data|)),
                        producers := s'.producers)
            && forall u :: u != t ==> s'.ProducerOf(u) == s.ProducerOf(u)
  {
    hide Load, Store, LoadWord, HeaderBytes, RecPageOff, RecordLen;
    HeaderStored(s, |s.producers[t].data|);
  }

  /** The header of a reservation being made falls outside every unreleased record. */
  lemma WriteHeaderInv(s: Ring, h: History, t: nat)
    requires Inv(s, h) && Step(s, WriteHeader(t)).Some?
    ensures Inv(Step(s, WriteHeader(t)).value, h)
  {
    hide InMemory, ProducerOk, Owned, LockOk, Step, Chain, LoadWord, Load, Store, HeaderBytes, Region, Payloads,
      RecordLen;
    var s' := Step(s, WriteHeader(t)).value;
    WriteHeaderOwn(s, h, t);
    var size := |s.ProducerOf(t).data|;
    var bs := HeaderBytes(s, s.prod % |s.mem|, size);
    forall k | h.stored <= k < |h.recs|
      ensures InMemory(s', h.recs[k])
    {
      LiveWindow(s, h, k);
      HeaderApart(s, bs, size, h.recs[k]);
      SameRegion(s, s', h.recs[k]);
    }
    forall k | 0 <= k < |h.recs|
      ensures Owned(s', h, k)
    {
      if h.recs[k].tid == t {
        FinishedRecord(s, h, k);
        FinishedRecordKept(s', h, k);
      } else {
        OwnedKept(s, s', h, h, k);
      }
    }
    forall u: nat
      ensures ProducerOk(s', h, u)
    {
      if u != t {
        ProducerKept(s, s', h, h, u);
      }
    }
  }

  lemma HeaderApart(s: Ring, bs: seq<byte>, size: nat, r: Rec)
    requires |s.mem| > 0 && |bs| == HEADER_SIZE && size <= MAX_RECORD_SIZE
    requires s.prod + RecordLen(size) - s.cons < |s.mem|
    requires s.cons <= r.pos && r.pos + HEADER_SIZE + |r.data| <= s.prod
    ensures Region(Store(s.mem, s.prod, bs), r) == Region(s.mem, r)
  {
    hide Load, Store, RecordLen;
    FramingAgreement(size, size);
    StoreApart(s.mem, s.prod, bs, r.pos, HEADER_SIZE + |r.data|);
  }

  lemma {:induction false} PayloadsFrame(recs: seq<Rec>, recs': seq<Rec>, k: nat)
    requires k <= |recs| && k <= |recs'|
    requires forall i :: 0 <= i < k ==> recs[i].phase == recs'[i].phase && recs[i].data == recs'[i].data
    ensures Payloads(recs, k) == Payloads(recs', k)
  {
    if k > 0 {
      PayloadsFrame(recs, recs', k - 1);
    }
  }

  lemma ChainExtended(recs: seq<Rec>, prod: nat, r: Rec)
    requires Chain(recs, prod) && r.pos == prod && |r.data| <= MAX_RECORD_SIZE
    ensures Chain(recs + [r], End(r))
  {
    hide RecordLen;
    FramingAgreement(|r.data|, |r.data|);
    var recs' := recs + [r];
    forall i, j | 0 <= i < j < |recs'|
      ensures End(recs'[i]) <= recs'[j].pos
    {
      if j == |recs| && i < j - 1 {
        assert End(recs[i]) <= recs[j - 1].pos;
      }
    }
  }

  /** Publication makes the new record the youngest unreleased one. */
  lemma PublishOwn(s: Ring, h: History, t: nat)
    requires Geometry(s) && Chain(h.recs, s.prod) && Positions(s, h) && LockOk(s) && ProducerOk(s, h, t)
    requires Step(s, Publish(t)).Some?
    ensures var s' := Step(s, Publish(t)).value;
            var h' := Observe(s, h, Publish(t));
            var p := s.ProducerOf(t);
            && p.Headed? && s.lock == Some(t)
            && s' == s.(prod := s.prod + RecordLen(|p.data|), lock := None, producers := s'.producers)
            && h' == h.(recs := h.recs + [Rec(t, s.prod, p.data, p.flags, Busy, 0, false)],
                        current := h.current[t := |h.recs|])
            && s.prod <= s'.prod && |p.data| <= MAX_RECORD_SIZE
            && s'.ProducerOf(t) == Copying(p.data, p.flags, s.prod % |s.mem|, 0)
            && Positions(s', h') && LockOk(s')
            && LoadWord(s.mem, s.prod) == |p.data| + BUSY_BIT
            && LoadWord(s.mem, s.prod + 4) == PageOffAt(s, s.prod)
            && forall u :: u != t ==> s'.ProducerOf(u) == s.ProducerOf(u)
  {
    hide Chain, Load, LoadWord, PageOffAt, RecordLen;
    var p := s.ProducerOf(t);
    FramingAgreement(|p.data|, |p.data|);
  }

  lemma NewRecordOwned(s: Ring, h: History, t: nat, k: nat)
    requires |s.mem| > 0 && k < |h.recs| && t in h.current && h.current[t] == k
    requires h.recs[k].tid == t && h.recs[k].phase == Busy && h.recs[k].copied == 0 && !h.recs[k].notified
    requires s.ProducerOf(t) == Copying(h.recs[k].data, h.recs[k].flags, h.recs[k].pos % |s.mem|, 0)
    requires LoadWord(s.mem, h.recs[k].pos) == |h.recs[k].data| + BUSY_BIT
    requires LoadWord(s.mem, h.recs[k].pos + 4) == PageOffAt(s, h.recs[k].pos)
    ensures ProducerOk(s, h, t) && Owned(s, h, k) && InMemory(s, h.recs[k])
  {
    assert Load(s.mem, h.recs[k].pos + HEADER_SIZE, 0) == [] == h.recs[k].data[..0];
  }

  lemma PublishInv(s: Ring, h: History, t: nat)
    requires Inv(s, h) && Step(s, Publish(t)).Some?
    ensures Inv(Step(s, Publish(t)).value, Observe(s, h, Publish(t)))
  {
    hide InMemory, ProducerOk, Owned, LockOk, Step, Observe, Chain, LoadWord, RecordLen;
    var s' := Step(s, Publish(t)).value;
    var h' := Observe(s, h, Publish(t));
    PublishOwn(s, h, t);
    ChainExtended(h.recs, s.prod, h'.recs[|h.recs|]);
    NewRecordOwned(s', h', t, |h.recs|);
    PayloadsFrame(h.recs, h'.recs, Done(s, h));
    forall k | h'.stored <= k < |h'.recs|
      ensures InMemory(s', h'.recs[k])
    {
      if k < |h.recs| {
        SameMemory(s, s', h.recs[k]);
      }
    }
    forall k | 0 <= k < |h'.recs|
      ensures Owned(s', h', k)
    {
      if k < |h.recs| {
        if h.recs[k].tid == t {
          FinishedRecord(s, h, k);
          FinishedRecordKept(s', h', k);
        } else {
          OwnedKept(s, s', h, h', k);
        }
      }
    }
    forall u: nat
      ensures ProducerOk(s', h', u)
    {
      if u != t {
        ProducerKept(s, s', h, h', u);
      }
    }
  }

  /* ---- steps that work on a record ---------------------------------------- */

  ghost predicate SameReservation(r: Rec, r': Rec) {
    r'.tid == r.tid && r'.pos == r.pos && r'.data == r.data && r'.flags == r.flags
  }

  lemma ChainAmended(recs: seq<Rec>, prod: nat, k: nat, r': Rec)
    requires k < |recs| && SameReservation(recs[k], r') && Chain(recs, prod)
    ensures Chain(recs[k := r'], prod)
    ensures forall i: nat :: PosAt(recs[k := r'], prod, i) == PosAt(recs, prod, i)
  {
    hide RecordLen;
  }

  /** Everything about the rest of the system survives a step of producer `t` that
      touches only its own record `k`, its own state and the pending wake-up. */
  lemma OwnRecordStep(s: Ring, s': Ring, h: History, t: nat, k: nat, r': Rec)
    requires Inv(s, h) && k < |h.recs| && SameReservation(h.recs[k], r')
    requires OwnsRecord(h, t, h.recs[k].flags) && h.current[t] == k
    requires s' == s.(mem := s'.mem, producers := s'.producers, irqQueued := s'.irqQueued)
    requires |s'.mem| == |s.mem|
    requires forall u :: u != t ==> s'.ProducerOf(u) == s.ProducerOf(u)
    requires s.lock.Some? ==> s.lock.value != t && HeaderKept(s, s')
    requires k < h.taken ==> r'.phase == h.recs[k].phase
    requires forall j :: h.stored <= j < |h.recs| && j != k ==> Region(s'.mem, h.recs[j]) == Region(s.mem, h.recs[j])
    requires h.stored <= k ==> InMemory(s', r')
    requires var h' := h.(recs := h.recs[k := r']);
             ProducerOk(s', h', t) && Owned(s', h', k) && WakeOk(s', h')
    ensures Inv(s', h.(recs := h.recs[k := r']))
  {
    hide InMemory, ProducerOk, Owned, Chain, Region, LoadWord, HeaderKept, WakeOk;
    var h' := h.(recs := h.recs[k := r']);
    ChainAmended(h.recs, s.prod, k, r');
    PayloadsFrame(h.recs, h'.recs, Done(s, h));
    forall j | h.stored <= j < |h'.recs|
      ensures InMemory(s', h'.recs[j])
    {
      if j != k {
        SameRegion(s, s', h.recs[j]);
      }
    }
    forall j | 0 <= j < |h'.recs|
      ensures Owned(s', h', j)
    {
      if j != k {
        if h.recs[j].tid == t {
          OtherRecordsFinished(s, h, t, j);
          FinishedRecordKept(s', h', j);
        } else {
          OwnedKept(s, s', h, h', j);
        }
      }
    }
    forall u: nat
      ensures ProducerOk(s', h', u)
    {
      if u != t {
        ProducerKept(s, s', h, h', u);
      }
    }
  }

  lemma OtherRecordsFinished(s: Ring, h: History, t: nat, j: nat)
    requires j < |h.recs| && Owned(s, h, j) && h.recs[j].tid == t
    requires t in h.current && h.current[t] != j
    ensures h.recs[j].notified && h.recs[j].phase != Busy
  {
  }

  lemma CopyByteOwn(s: Ring, h: History, t: nat)
    requires Geometry(s) && Positions(s, h) && Chain(h.recs, s.prod) && ProducerOk(s, h, t)
    requires forall k :: 0 <= k < h.taken ==> h.recs[k].phase != Busy
    requires Step(s, CopyByte(t)).Some?
    ensures var p := s.ProducerOf(t);
            && p.Copying? && OwnsRecord(h, t, p.flags)
            && var k := h.current[t];
               var r := h.recs[k];
               var s' := Step(s, CopyByte(t)).value;
               && h.taken <= k && r.copied < |r.data| && r.phase == Busy && r.flags == p.flags
               && p.data == r.data && p.n == r.copied
               && s' == s.(mem := Store(s.mem, r.pos + HEADER_SIZE + r.copied, [r.data[r.copied]]),
                           producers := s'.producers)
               && s'.ProducerOf(t) == p.(n := r.copied + 1)
               && Observe(s, h, CopyByte(t)) == h.(recs := h.recs[k := r.(copied := r.copied + 1)])
               && (forall u :: u != t ==> s'.ProducerOf(u) == s.ProducerOf(u))
  {
    hide Load, Store, LoadWord, RecordLen, Chain;
    var r := h.recs[h.current[t]];
    StoreAtOffset(s.mem, r.pos, HEADER_SIZE + r.copied, [r.data[r.copied]]);
  }

  lemma ByteCopied(s: Ring, r: Rec)
    requires Geometry(s) && InMemory(s, r) && r.copied < |r.data| && r.phase == Busy
    requires HEADER_SIZE + |r.data| <= |s.mem|
    ensures InMemory(s.(mem := Store(s.mem, r.pos + HEADER_SIZE + r.copied, [r.data[r.copied]])),
                     r.(copied := r.copied + 1))
  {
    hide Store;
    var p := r.pos + HEADER_SIZE;
    var b := [r.data[r.copied]];
    var mem' := Store(s.mem, p + r.copied, b);
    StoreApart(s.mem, p + r.copied, b, r.pos, 4);
    StoreApart(s.mem, p + r.copied, b, r.pos + 4, 4);
    StoreApart(s.mem, p + r.copied, b, p, r.copied);
    StoreThenLoad(s.mem, p + r.copied, b);
    var got := Load(mem', p, r.copied + 1);
    LoadPart(mem', p, r.copied + 1, 0, r.copied);
    LoadPart(mem', p, r.copied + 1, r.copied, 1);
    assert got == got[0..r.copied] + got[r.copied..r.copied + 1];
    assert r.data[..r.copied + 1] == r.data[..r.copied] + b;
  }

  /** The lock holder's header lies outside the record another thread works on. */
  lemma PendingHeaderKept(s: Ring, s': Ring, h: History, k: nat, p: nat, bs: seq<byte>)
    requires Inv(s, h) && h.stored <= k < |h.recs|
    requires h.recs[k].pos <= p && p + |bs| <= End(h.recs[k])
    requires s'.mem == Store(s.mem, p, bs) && s'.lock == s.lock && s'.prod == s.prod
    requires s.lock.Some?
    ensures |s'.mem| > 0 && HeaderKept(s, s')
  {
    hide Chain, Load, Store, RecordLen, Owned, InMemory;
    LiveWindow(s, h, k);
    var t := s.lock.value;
    assert ProducerOk(s, h, t);
    FramingAgreement(|s.ProducerOf(t).data|, |s.ProducerOf(t).data|);
    StoreApart(s.mem, p, bs, s.prod, 4);
    StoreApart(s.mem, p, bs, s.prod + 4, 4);
  }

  /** A store inside live record `k` spares the other records and the pending header. */
  lemma OwnStore(s: Ring, s': Ring, h: History, k: nat, p: nat, bs: seq<byte>)
    requires Inv(s, h) && h.stored <= k < |h.recs|
    requires h.recs[k].pos <= p && p + |bs| <= End(h.recs[k])
    requires s'.mem == Store(s.mem, p, bs) && s'.lock == s.lock && s'.prod == s.prod
    ensures |s'.mem| == |s.mem| > 0
    ensures s.lock.Some? ==> HeaderKept(s, s')
    ensures forall j :: h.stored <= j < |h.recs| && j != k ==> Region(s'.mem, h.recs[j]) == Region(s.mem, h.recs[j])
  {
    hide Chain, Records, Producers, ConsumerOk, DeliveredOk, WakeOk, Region, Store, HeaderKept, RecordLen;
    forall j | h.stored <= j < |h.recs| && j != k
      ensures Region(s'.mem, h.recs[j]) == Region(s.mem, h.recs[j])
    {
      StoreInsideRecord(s, h, p, bs, k, j);
    }
    if s.lock.Some? {
      PendingHeaderKept(s, s', h, k, p, bs);
    }
  }

  lemma CopyByteInv(s: Ring, h: History, t: nat)
    requires Inv(s, h) && Step(s, CopyByte(t)).Some?
    ensures Inv(Step(s, CopyByte(t)).value, Observe(s, h, CopyByte(t)))
  {
    hide InMemory, ProducerOk, Owned, Chain, Region, Step, Observe, Store, HeaderKept;
    CopyByteOwn(s, h, t);
    var k := h.current[t];
    var r := h.recs[k];
    var r' := r.(copied := r.copied + 1);
    var s' := Step(s, CopyByte(t)).value;
    var bs := [r.data[r.copied]];
    LiveWindow(s, h, k);
    ByteCopied(s, r);
    SameMemory(s.(mem := s'.mem), s', r');
    OwnStore(s, s', h, k, r.pos + HEADER_SIZE + r.copied, bs);
    OwnAfterCopy(s, s', h, t);
    OwnRecordStep(s, s', h, t, k, r');
  }

  lemma OwnAfterCopy(s: Ring, s': Ring, h: History, t: nat)
    requires 0 < |s.mem| == |s'.mem| && ProducerOk(s, h, t)
    requires s.ProducerOf(t).Copying? && s.ProducerOf(t).n < |s.ProducerOf(t).data|
    requires s'.ProducerOf(t) == s.ProducerOf(t).(n := s.ProducerOf(t).n + 1)
    requires OwnsRecord(h, t, s.ProducerOf(t).flags) && Owned(s, h, h.current[t])
    ensures var k := h.current[t];
            var h' := h.(recs := h.recs[k := h.recs[k].(copied := h.recs[k].copied + 1)]);
            ProducerOk(s', h', t) && Owned(s', h', k)
  {
  }

  /** A commit finds its ring buffer from the record header, and its own size in it. */
  lemma CommitReads(s: Ring, r: Rec, off: nat)
    requires Geometry(s) && InMemory(s, r) && r.phase == Busy && |r.data| <= MAX_RECORD_SIZE
    requires off == r.pos % |s.mem|
    ensures LoadWord(s.mem, off) == OrBusy(|r.data|)
    ensures RestoreFromRec(s.base + s.dataOff + off, LoadWord(s.mem, off + 4)) == s.base
  {
    hide Load;
    LoadAtOffset(s.mem, r.pos, 0, 4);
    LoadAtOffset(s.mem, r.pos, 4, 4);
    RestoreInvertsPageOff(s.base, s.base + s.dataOff + off);
  }

  lemma CommitOwn(s: Ring, h: History, t: nat, discard: bool)
    requires Geometry(s) && Positions(s, h) && ProducerOk(s, h, t)
    requires forall k :: 0 <= k < h.taken ==> h.recs[k].phase != Busy
    requires forall k :: h.stored <= k < |h.recs| ==> InMemory(s, h.recs[k]) && |h.recs[k].data| <= MAX_RECORD_SIZE
    requires s.ProducerOf(t).Copying? && (s.ProducerOf(t).n >= |s.ProducerOf(t).data| || discard)
    ensures var p := s.ProducerOf(t);
            && OwnsRecord(h, t, p.flags) && Step(s, Commit(t, discard)).Some?
            && var k := h.current[t];
               var r := h.recs[k];
               var s' := Step(s, Commit(t, discard)).value;
               var r' := r.(phase := if discard then Discarded else Committed);
               && h.taken <= k && r.phase == Busy && r.flags == p.flags
               && (!discard ==> r.copied == |r.data|)
               && s' == s.(mem := Store(s.mem, r.pos, ToBytes(CommitWord(OrBusy(|r.data|), discard))),
                           producers := s'.producers)
               && s'.ProducerOf(t) == Waking(p.flags, r.pos % |s.mem|)
               && Observe(s, h, Commit(t, discard)) == h.(recs := h.recs[k := r'])
               && (forall u :: u != t ==> s'.ProducerOf(u) == s.ProducerOf(u))
  {
    hide Load, Store, RecordLen, LoadWord, InMemory, RestoreFromRec, CommitWord, OrBusy, ToBytes, Geometry;
    var p := s.ProducerOf(t);
    var r := h.recs[h.current[t]];
    CommitReads(s, r, p.off);
    StoreMasked(s.mem, r.pos, ToBytes(CommitWord(OrBusy(|r.data|), discard)));
  }

  lemma WordCommitted(s: Ring, r: Rec, discard: bool)
    requires Geometry(s) && InMemory(s, r) && r.phase == Busy
    requires (r.copied == |r.data| || discard) && |r.data| <= MAX_RECORD_SIZE
    requires HEADER_SIZE + |r.data| <= |s.mem|
    ensures InMemory(s.(mem := Store(s.mem, r.pos, ToBytes(CommitWord(OrBusy(|r.data|), discard)))),
                     r.(phase := if discard then Discarded else Committed))
  {
    hide Store;
    var w := CommitWord(OrBusy(|r.data|), discard);
    CommitWordMeaning(|r.data|, discard);
    WordRoundTrip(w);
    StoreThenLoad(s.mem, r.pos, ToBytes(w));
    StoreApart(s.mem, r.pos, ToBytes(w), r.pos + 4, 4);
    StoreApart(s.mem, r.pos, ToBytes(w), r.pos + HEADER_SIZE, r.copied);
  }

  lemma OwnAfterCommit(s: Ring, s': Ring, h: History, t: nat, discard: bool)
    requires 0 < |s.mem| == |s'.mem| && ProducerOk(s, h, t) && s.ProducerOf(t).Copying?
    requires OwnsRecord(h, t, s.ProducerOf(t).flags) && Owned(s, h, h.current[t])
    requires s'.ProducerOf(t) == Waking(s.ProducerOf(t).flags, h.recs[h.current[t]].pos % |s.mem|)
    ensures var k := h.current[t];
            var h' := h.(recs := h.recs[k := h.recs[k].(phase := if discard then Discarded else Committed)]);
            ProducerOk(s', h', t) && Owned(s', h', k)
  {
  }

  lemma CommitInv(s: Ring, h: History, t: nat, discard: bool)
    requires Inv(s, h) && Step(s, Commit(t, discard)).Some?
    ensures Inv(Step(s, Commit(t, discard)).value, Observe(s, h, Commit(t, discard)))
  {
    hide InMemory, ProducerOk, Owned, Chain, Region, Step, Observe, Store, HeaderKept, ConsumerOk, DeliveredOk, WordOf,
      CommitWord, ToBytes, LoadWord, Payloads, Done;
    CommitNeedsCopying(s, t, discard);
    assert ProducerOk(s, h, t);
    forall j | h.stored <= j < |h.recs|
      ensures |h.recs[j].data| <= MAX_RECORD_SIZE
    {
      LiveWindow(s, h, j);
    }
    CommitOwn(s, h, t, discard);
    var k := h.current[t];
    var r := h.recs[k];
    var r' := r.(phase := if discard then Discarded else Committed);
    var s' := Step(s, Commit(t, discard)).value;
    var bs := ToBytes(CommitWord(OrBusy(|r.data|), discard));
    LiveWindow(s, h, k);
    WordCommitted(s, r, discard);
    SameMemory(s.(mem := s'.mem), s', r');
    OwnStore(s, s', h, k, r.pos, bs);
    OwnAfterCommit(s, s', h, t, discard);
    OwnRecordStep(s, s', h, t, k, r');
  }

  lemma CommitNeedsCopying(s: Ring, t: nat, discard: bool)
    requires |s.mem| > 0 && Step(s, Commit(t, discard)).Some?
    ensures s.ProducerOf(t).Copying? && (s.ProducerOf(t).n >= |s.ProducerOf(t).data| || discard)
  {
  }

  /** The wake-up test compares masked positions; inside the live window these are
      equal only for equal positions. */
  lemma WakeCheckInv(s: Ring, h: History, t: nat)
    requires Inv(s, h) && Step(s, WakeCheck(t)).Some?
    ensures Inv(Step(s, WakeCheck(t)).value, Observe(s, h, WakeCheck(t)))
  {
    hide InMemory, Chain, Region, Store, Load, LoadWord, RecordLen, Owned;
    assert ProducerOk(s, h, t);
    var k := h.current[t];
    var r' := h.recs[k].(notified := true);
    var s' := Step(s, WakeCheck(t)).value;
    assert Observe(s, h, WakeCheck(t)) == h.(recs := h.recs[k := r']);
    FinishedRecordKept(s', h.(recs := h.recs[k := r']), k);
    if h.stored <= k {
      NotifiedInMemory(s, s', h.recs[k]);
    }
    hide ProducerOk, Step, Observe;
    OwnRecordStep(s, s', h, t, k, r');
  }

  lemma NotifiedInMemory(s: Ring, s': Ring, r: Rec)
    requires 0 < |s.mem| && s.mem == s'.mem && s.base == s'.base && s.dataOff == s'.dataOff
    requires InMemory(s, r)
    ensures InMemory(s', r.(notified := true))
  {
  }

  /* ---- consumer steps ------------------------------------------------------ */

  /** The consumer writes nothing but `consumer_pos` and its own state. */
  lemma ConsumerSide(s: Ring, s': Ring, h: History, h': History)
    requires Inv(s, h)
    requires s' == s.(cons := s'.cons, consumer := s'.consumer, irqQueued := s'.irqQueued)
    requires h' == h.(taken := h'.taken, stored := h'.stored, delivered := h'.delivered)
    requires s.cons <= s'.cons && h.stored <= h'.stored
    requires forall k :: 0 <= k < h'.taken <= |h.recs| ==> h.recs[k].phase != Busy
    requires Positions(s', h') && ConsumerOk(s', h') && DeliveredOk(s', h') && WakeOk(s', h')
    ensures Inv(s', h')
  {
    hide InMemory, ProducerOk, Owned, Chain, LoadWord, WakeOk, ConsumerOk, DeliveredOk;
    forall k | h'.stored <= k < |h.recs|
      ensures InMemory(s', h.recs[k])
    {
      SameMemory(s, s', h.recs[k]);
    }
    forall k | 0 <= k < |h.recs|
      ensures Owned(s', h', k)
    {
      OwnedKept(s, s', h, h', k);
    }
    forall u: nat
      ensures ProducerOk(s', h', u)
    {
      ProducerKept(s, s', h, h', u);
    }
  }

  lemma IrqInv(s: Ring, h: History)
    requires Inv(s, h) && Step(s, IrqWork).Some?
    ensures Inv(Step(s, IrqWork).value, h)
  {
    hide InMemory, ProducerOk, Owned, Chain;
    ConsumerSide(s, Step(s, IrqWork).value, h, h);
  }

  /** Nothing is unreleased exactly when the positions meet. */
  lemma EmptyWindow(s: Ring, h: History)
    requires Inv(s, h)
    ensures s.prod == s.cons <==> h.stored == |h.recs|
  {
    if h.stored < |h.recs| {
      LiveWindow(s, h, h.stored);
    }
  }

  /** Every consumer step that neither looks at a header nor moves `consumer_pos`. */
  lemma WaitingOwn(s: Ring, h: History, e: Event)
    requires |s.mem| > 0 && Step(s, e).Some?
    requires Positions(s, h) && ConsumerOk(s, h) && DeliveredOk(s, h) && WakeOk(s, h)
    requires s.prod == s.cons <==> h.stored == |h.recs|
    requires e.PollWait? || e.PollCheck? || e.WakeUp? || e.LoadConsumer? || e.LoadProducer?
    ensures var s' := Step(s, e).value;
            && s' == s.(consumer := s'.consumer)
            && Positions(s', h) && ConsumerOk(s', h) && DeliveredOk(s', h) && WakeOk(s', h)
    ensures Observe(s, h, e) == h
  {
    hide Payloads;
  }

  lemma WaitingInv(s: Ring, h: History, e: Event)
    requires Inv(s, h) && Step(s, e).Some?
    requires e.PollWait? || e.PollCheck? || e.WakeUp? || e.LoadConsumer? || e.LoadProducer?
    ensures Inv(Step(s, e).value, Observe(s, h, e))
  {
    hide Step, Observe, Chain, Records, Producers, ConsumerOk, Positions, DeliveredOk, WakeOk;
    EmptyWindow(s, h);
    WaitingOwn(s, h, e);
    TakenRecords(s, h);
    ConsumerSide(s, Step(s, e).value, h, h);
  }

  lemma TakenRecords(s: Ring, h: History)
    requires Inv(s, h)
    ensures h.taken <= |h.recs| && forall k :: 0 <= k < h.taken ==> h.recs[k].phase != Busy
  {
  }

  /** What the consumer finds at its position: the header of the first record it has
      not taken, and in it the way to the next one. */
  lemma HeaderAtPosition(s: Ring, h: History)
    requires Inv(s, h) && s.consumer.Inner? && s.consumer.c < s.consumer.p
    ensures h.taken < |h.recs| && h.taken == h.stored
    ensures HeaderFacts(s, h.recs[h.taken], PosAt(h.recs, s.prod, h.taken + 1))
  {
    EmptyWindow(s, h);
    LiveWindow(s, h, h.taken);
    NextPosition(h.recs, s.prod, h.taken);
    hide Chain, Producers;
    HeaderRead(s, h.recs[h.taken]);
  }

  ghost predicate HeaderFacts(s: Ring, r: Rec, next: nat)
    requires |s.mem| > 0 && s.consumer.Inner?
  {
    && s.consumer.c == r.pos
    && LoadWord(s.mem, s.consumer.c % |s.mem|) == WordOf(r)
    && r.pos + ConsumerLen(WordOf(r)) == next
    && (IsBusy(WordOf(r)) <==> r.phase == Busy)
    && (r.phase != Busy ==> (IsDiscarded(WordOf(r)) <==> r.phase == Discarded))
  }

  lemma NextPosition(recs: seq<Rec>, prod: nat, k: nat)
    requires Chain(recs, prod) && k < |recs|
    ensures PosAt(recs, prod, k + 1) == End(recs[k])
  {
    hide RecordLen;
  }

  lemma HeaderRead(s: Ring, r: Rec)
    requires |s.mem| > 0 && InMemory(s, r) && |r.data| <= MAX_RECORD_SIZE
    requires s.consumer.Inner? && s.consumer.c == r.pos
    ensures HeaderFacts(s, r, End(r))
  {
    hide Load, RecordLen, ConsumerLen;
    FramingAgreement(|r.data|, WordOf(r));
    LoadAtOffset(s.mem, r.pos, 0, 4);
  }

  lemma InspectOwn(s: Ring, h: History)
    requires |s.mem| > 0 && Step(s, Inspect).Some?
    requires Positions(s, h) && ConsumerOk(s, h) && DeliveredOk(s, h)
    requires s.consumer.c < s.consumer.p ==>
               h.taken < |h.recs| && HeaderFacts(s, h.recs[h.taken], PosAt(h.recs, s.prod, h.taken + 1))
    ensures var s' := Step(s, Inspect).value;
            var h' := Observe(s, h, Inspect);
            && s' == s.(consumer := s'.consumer) && h' == h.(taken := h'.taken)
            && Positions(s', h') && ConsumerOk(s', h') && DeliveredOk(s', h') && WakeOk(s', h')
            && (h'.taken == h.taken
                || (h'.taken == h.taken + 1 <= |h.recs| && h.recs[h.taken].phase != Busy))
  {
    hide LoadWord, ConsumerLen, IsBusy, IsDiscarded;
  }

  lemma InspectInv(s: Ring, h: History)
    requires Inv(s, h) && Step(s, Inspect).Some?
    ensures Inv(Step(s, Inspect).value, Observe(s, h, Inspect))
  {
    hide Step, Observe, Chain, Records, Producers, ConsumerOk, Positions, DeliveredOk, WakeOk, HeaderFacts;
    InInner(s);
    if s.consumer.c < s.consumer.p {
      HeaderAtPosition(s, h);
    }
    InspectOwn(s, h);
    TakenRecords(s, h);
    ConsumerSide(s, Step(s, Inspect).value, h, Observe(s, h, Inspect));
  }

  lemma InInner(s: Ring)
    requires |s.mem| > 0 && Step(s, Inspect).Some?
    ensures s.consumer.Inner?
  {
  }

  /** The callback, whenever it looks, reads the record's own payload. */
  lemma ReadByteOwn(s: Ring, h: History)
    requires |s.mem| > 0 && Step(s, ReadByte).Some?
    requires Positions(s, h) && ConsumerOk(s, h) && DeliveredOk(s, h)
    requires h.stored < |h.recs| ==> InMemory(s, h.recs[h.stored])
    ensures var s' := Step(s, ReadByte).value;
            && s' == s.(consumer := s'.consumer)
            && Positions(s', h) && ConsumerOk(s', h) && DeliveredOk(s', h) && WakeOk(s', h)
    ensures Observe(s, h, ReadByte) == h
  {
    hide LoadWord, Payloads, RecPageOff;
    var r := h.recs[h.stored];
    var n := |s.consumer.buf|;
    assert Load(s.mem, r.pos + HEADER_SIZE, r.copied)[n] == r.data[n];
    assert s.mem[Slot(s.consumer.off, HEADER_SIZE + n, |s.mem|)] == r.data[n] by {
      MaskedOffset(r.pos, HEADER_SIZE + n, |s.mem|);
    }
    assert r.data[..n + 1] == r.data[..n] + [r.data[n]];
  }

  lemma ReadByteInv(s: Ring, h: History)
    requires Inv(s, h) && Step(s, ReadByte).Some?
    ensures Inv(Step(s, ReadByte).value, Observe(s, h, ReadByte))
  {
    hide Step, Observe, Chain, InMemory, Owned, Producers, ConsumerOk, Positions, DeliveredOk, WakeOk;
    ReadByteOwn(s, h);
    TakenRecords(s, h);
    ConsumerSide(s, Step(s, ReadByte).value, h, h);
  }

  lemma CallbackOwn(s: Ring, h: History, failed: bool)
    requires |s.mem| > 0 && Step(s, CallbackReturns(failed)).Some?
    requires Positions(s, h) && ConsumerOk(s, h) && DeliveredOk(s, h)
    ensures var s' := Step(s, CallbackReturns(failed)).value;
            var h' := Observe(s, h, CallbackReturns(failed));
            && s' == s.(consumer := s'.consumer) && h' == h.(delivered := h'.delivered)
            && Positions(s', h') && ConsumerOk(s', h') && DeliveredOk(s', h') && WakeOk(s', h')
  {
    var r := h.recs[h.stored];
    assert s.consumer.buf == r.data[..|r.data|] == r.data;
  }

  lemma CallbackInv(s: Ring, h: History, failed: bool)
    requires Inv(s, h) && Step(s, CallbackReturns(failed)).Some?
    ensures Inv(Step(s, CallbackReturns(failed)).value, Observe(s, h, CallbackReturns(failed)))
  {
    hide Step, Observe, Chain, Records, Producers, ConsumerOk, Positions, DeliveredOk, WakeOk;
    CallbackOwn(s, h, failed);
    TakenRecords(s, h);
    ConsumerSide(s, Step(s, CallbackReturns(failed)).value, h, Observe(s, h, CallbackReturns(failed)));
  }

  lemma StoreConsumerOwn(s: Ring, h: History)
    requires |s.mem| > 0 && Step(s, StoreConsumer).Some?
    requires Positions(s, h) && ConsumerOk(s, h) && DeliveredOk(s, h)
    requires s.cons <= PosAt(h.recs, s.prod, h.taken) <= s.prod
    ensures var s' := Step(s, StoreConsumer).value;
            var h' := Observe(s, h, StoreConsumer);
            && s' == s.(cons := s'.cons, consumer := s'.consumer) && h' == h.(stored := h'.stored)
            && s.cons <= s'.cons && h.stored <= h'.stored
            && Positions(s', h') && ConsumerOk(s', h') && DeliveredOk(s', h') && WakeOk(s', h')
  {
    hide Payloads;
  }

  lemma StoreConsumerInv(s: Ring, h: History)
    requires Inv(s, h) && Step(s, StoreConsumer).Some?
    ensures Inv(Step(s, StoreConsumer).value, Observe(s, h, StoreConsumer))
  {
    hide Step, Observe, Chain, Records, Producers, ConsumerOk, DeliveredOk, WakeOk;
    if h.taken < |h.recs| {
      LiveWindow(s, h, h.taken);
    }
    StoreConsumerOwn(s, h);
    TakenRecords(s, h);
    ConsumerSide(s, Step(s, StoreConsumer).value, h, Observe(s, h, StoreConsumer));
  }

  /** Every enabled step of every thread keeps the invariant. */
  lemma StepInv(s: Ring, h: History, e: Event)
    requires Inv(s, h) && Step(s, e).Some?
    ensures Inv(Step(s, e).value, Observe(s, h, e))
  {
    hide Inv, Step;
    match e
    case Output(_, _, _) => BeforeReservation(s, h, e);
    case Acquire(_) => BeforeReservation(s, h, e);
    case TryLockFails(_) => BeforeReservation(s, h, e);
    case WriteHeader(t) => WriteHeaderInv(s, h, t);
    case Publish(t) => PublishInv(s, h, t);
    case CopyByte(t) => CopyByteInv(s, h, t);
    case Commit(t, discard) => CommitInv(s, h, t, discard);
    case WakeCheck(t) => WakeCheckInv(s, h, t);
    case IrqWork => IrqInv(s, h);
    case Inspect => InspectInv(s, h);
    case ReadByte => ReadByteInv(s, h);
    case CallbackReturns(failed) => CallbackInv(s, h, failed);
    case StoreConsumer => StoreConsumerInv(s, h);
    case _ => WaitingInv(s, h, e);
  }
}
