/** Page layout of the ring buffer area: the page table that maps every data page
    twice, and the page offset by which a record finds its ring buffer. */
module RingPages {
  import opened Framing

  const PAGE_SIZE: nat := 4096

  /** `ringbuf_rec_pg_off`, stored in the header's 32-bit `pg_off` field. */
  function RecPageOff(rb: nat, hdr: nat): u32
    requires rb <= hdr
  {
    (hdr - rb) / PAGE_SIZE % U32_MOD
  }

  /** `ringbuf_restore_from_rec`, in 64-bit address arithmetic. */
  function RestoreFromRec(hdr: nat, pgOff: u32): nat {
    (hdr / PAGE_SIZE * PAGE_SIZE - pgOff * PAGE_SIZE) % U64_MOD
  }

  /** Restoring from a record header yields the ring buffer it was reserved in exactly
      when the header's page offset fits the 32-bit field. */
  lemma RestoreInvertsPageOff(rb: nat, hdr: nat)
    requires rb % PAGE_SIZE == 0 && rb <= hdr < U64_MOD
    ensures RestoreFromRec(hdr, RecPageOff(rb, hdr)) == rb
            <==> (hdr - rb) / PAGE_SIZE < U32_MOD
  {
    var pages := (hdr - rb) / PAGE_SIZE;
    assert hdr / PAGE_SIZE * PAGE_SIZE == rb + pages * PAGE_SIZE;
    var lost := pages / U32_MOD;
    assert hdr / PAGE_SIZE * PAGE_SIZE - RecPageOff(rb, hdr) * PAGE_SIZE
        == rb + lost * (U32_MOD * PAGE_SIZE);
    assert rb + lost * (U32_MOD * PAGE_SIZE) <= hdr < U64_MOD;
  }
}
