/** Record framing of the kernel-to-user ring buffer.

    A record is an eight-byte header (`u32 len`, `u32 pg_off`) followed by the
    payload, padded to a multiple of eight.  The producer computes the padded
    length from the payload size; the consumer recomputes it from the header
    word, whose two top bits are the busy and discard flags.  Bit operations on
    32-bit words are written as the arithmetic they perform. */
module Framing {
  const HEADER_SIZE: nat := 8
  const U32_MOD: nat := 0x1_0000_0000
  const U64_MOD: nat := 0x1_0000_0000_0000_0000
  const BUSY_BIT: nat := 0x8000_0000
  const DISCARD_BIT: nat := 0x4000_0000
  const MAX_RECORD_SIZE: nat := 0xFFFF_FFFF / 4

  type u32 = w: int | 0 <= w < U32_MOD

  function RoundUp8(n: nat): nat {
    (n + 7) / 8 * 8
  }

  /** The producer's record length: `round_up(size + BPF_RINGBUF_HDR_SZ, 8)`. */
  function RecordLen(size: nat): nat {
    RoundUp8(size + HEADER_SIZE)
  }

  predicate IsBusy(w: u32) {
    w >= BUSY_BIT
  }

  predicate IsDiscarded(w: u32) {
    w / DISCARD_BIT % 2 == 1
  }

  /** `w | BPF_RINGBUF_BUSY_BIT`. */
  function OrBusy(w: u32): u32 {
    if IsBusy(w) then w else w + BUSY_BIT
  }

  /** `w ^ BPF_RINGBUF_BUSY_BIT`. */
  function XorBusy(w: u32): u32 {
    if IsBusy(w) then w - BUSY_BIT else w + BUSY_BIT
  }

  /** `w | BPF_RINGBUF_DISCARD_BIT`. */
  function OrDiscard(w: u32): u32 {
    if IsDiscarded(w) then w else w + DISCARD_BIT
  }

  /** The consumer's `roundup_len`: shift the two flag bits out and back in 32-bit
      arithmetic, add the header and round up. */
  function ConsumerLen(w: u32): nat {
    var shifted := w * 4 % U32_MOD / 4;
    var withHeader := (shifted + HEADER_SIZE) % U32_MOD;
    (withHeader + 7) % U32_MOD / 8 * 8
  }

  /** The header word `ringbuf_commit` writes over the word it finds. */
  function CommitWord(w: u32, discard: bool): u32 {
    if discard then OrDiscard(XorBusy(w)) else XorBusy(w)
  }

  /** Producer and consumer agree on the length of every record the producer may
      reserve, in each state of the two flag bits. */
  lemma FramingAgreement(size: nat, w: u32)
    requires size <= MAX_RECORD_SIZE
    requires w in {size, size + BUSY_BIT, size + DISCARD_BIT, size + BUSY_BIT + DISCARD_BIT}
    ensures ConsumerLen(w) == RecordLen(size)
    ensures size + HEADER_SIZE <= RecordLen(size) < size + HEADER_SIZE + 8
    ensures RecordLen(size) % 8 == 0 && RecordLen(size) < U32_MOD
  {
    ShiftDropsFlags(size, w);
    assert (size + HEADER_SIZE) % U32_MOD == size + HEADER_SIZE;
    assert (size + HEADER_SIZE + 7) % U32_MOD == size + HEADER_SIZE + 7;
  }

  lemma ShiftDropsFlags(size: nat, w: u32)
    requires size <= MAX_RECORD_SIZE
    requires w in {size, size + BUSY_BIT, size + DISCARD_BIT, size + BUSY_BIT + DISCARD_BIT}
    ensures w * 4 % U32_MOD / 4 == size
  {
    assert w * 4 in {size * 4, size * 4 + U32_MOD, size * 4 + 2 * U32_MOD, size * 4 + 3 * U32_MOD};
  }

  /** A commit turns a freshly reserved header into one that is not busy, carries
      exactly the payload size, and has the discard bit only when asked for. */
  lemma CommitWordMeaning(size: nat, discard: bool)
    requires size <= MAX_RECORD_SIZE
    ensures IsBusy(OrBusy(size)) && OrBusy(size) == size + BUSY_BIT
    ensures !IsBusy(CommitWord(OrBusy(size), discard))
    ensures IsDiscarded(CommitWord(OrBusy(size), discard)) == discard
    ensures !discard ==> CommitWord(OrBusy(size), discard) == size
    ensures discard ==> CommitWord(OrBusy(size), discard) == size + DISCARD_BIT
  {
  }

  /** 64-bit unsigned subtraction. */
  function Sub64(a: nat, b: nat): nat {
    (a - b) % U64_MOD
  }

  lemma ProductBound(k: int, n: int)
    requires n > 0
    ensures k >= 1 ==> k * n >= n
    ensures k <= -1 ==> k * n <= -n
  {
    if k >= 1 {
      assert (k - 1) * n >= 0;
    } else if k <= -1 {
      assert (-1 - k) * n >= 0;
    }
  }

  lemma ModIsRemainder(a: int, q: int, r: int, n: int)
    requires n > 0 && 0 <= r < n && a == q * n + r
    ensures a / n == q && a % n == r
  {
    var dq := a / n - q;
    assert dq * n == r - a % n by {
      assert a == a / n * n + a % n;
      assert dq * n == a / n * n - q * n;
    }
    ProductBound(dq, n);
  }

  lemma ModOfShift(a: int, k: int, n: int)
    requires n > 0
    ensures (a + k * n) % n == a % n
  {
    assert a + k * n == (a / n + k) * n + a % n by {
      assert (a / n + k) * n == a / n * n + k * n;
    }
    ModIsRemainder(a + k * n, a / n + k, a % n, n);
  }

  /** The producer's space test, done on wrapped 64-bit positions, is the test on the
      true positions, however often the counters have wrapped. */
  lemma SpaceTestSurvivesWrap(newProd: nat, cons: nat)
    requires cons <= newProd < cons + U64_MOD
    ensures Sub64(newProd % U64_MOD, cons % U64_MOD) == newProd - cons
  {
    var d := (newProd % U64_MOD) - (cons % U64_MOD);
    var k := newProd / U64_MOD - cons / U64_MOD;
    assert newProd - cons == d + k * U64_MOD;
    ModOfShift(d, k, U64_MOD);
    assert (newProd - cons) % U64_MOD == newProd - cons;
  }

  /** The consumer's test `cons_pos < prod_pos` on wrapped positions sees the
      available records exactly when the live window does not straddle a wrap. */
  lemma AvailabilityTestExact(cons: nat, prod: nat)
    requires cons <= prod < cons + U64_MOD
    ensures (cons % U64_MOD < prod % U64_MOD) <==>
            (cons < prod && cons / U64_MOD == prod / U64_MOD)
  {
    var dq := prod / U64_MOD - cons / U64_MOD;
    assert prod - cons == dq * U64_MOD + (prod % U64_MOD - cons % U64_MOD);
  }
}
