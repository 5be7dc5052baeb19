/** Allocation of the ring buffer area: the page table in which every data page appears
    twice, and the release of every page exactly once. */
module RingArea {
  import opened Bytes
  import opened Framing
  import opened RingMemory
  import opened RingPages

  /** The page allocator, as far as the driver can tell: an allocation either yields a
      page that is not in use or fails, and only a page in use can be freed.  `budget`
      says after how many pages it fails. */
  class PageAllocator {
    ghost var inUse: set<nat>
    var next: nat
    var budget: nat

    ghost predicate Valid()
      reads this
    {
      forall p :: p in inUse ==> p < next
    }

    constructor (budget: nat)
      ensures Valid() && inUse == {} && this.budget == budget
    {
      inUse, next, this.budget := {}, 0, budget;
    }

    method Alloc() returns (ok: bool, page: nat)
      requires Valid()
      modifies this
      ensures Valid() && ok == (old(budget) > 0)
      ensures ok ==> page !in old(inUse) && inUse == old(inUse) + {page} && budget == old(budget) - 1
      ensures !ok ==> inUse == old(inUse) && budget == 0
    {
      ok, page := budget > 0, next;
      if ok {
        inUse, next, budget := inUse + {next}, next + 1, budget - 1;
      }
    }

    ghost method Free(page: nat)
      requires Valid() && page in inUse
      modifies this`inUse
      ensures Valid() && inUse == old(inUse) - {page}
    {
      inUse := inUse - {page};
    }
  }

  ghost function Elements(pages: seq<nat>): set<nat> {
    set p | p in pages
  }

  ghost function Pages(pages: seq<nat>, n: nat): set<nat>
    requires n <= |pages|
  {
    Elements(pages[..n])
  }

  ghost predicate Distinct(pages: seq<nat>, n: nat)
    requires n <= |pages|
  {
    forall i, j :: 0 <= i < j < n ==> pages[i] != pages[j]
  }

  /** Meta pages once, then every data page twice. */
  ghost predicate DoublyMapped(pages: seq<nat>, meta: nat, n: nat) {
    && |pages| == meta + 2 * n
    && Distinct(pages, meta + n)
    && forall i :: meta <= i < meta + n ==> pages[i + n] == pages[i]
  }

  /** The pages already in the table are exactly those taken from the allocator. */
  ghost predicate Filled(pages: seq<nat>, meta: nat, n: nat, i: nat, before: set<nat>, inUse: set<nat>) {
    && |pages| == meta + 2 * n && i <= meta + n
    && Distinct(pages, i)
    && Pages(pages, i) !! before
    && inUse == before + Pages(pages, i)
    && forall j :: meta <= j < i ==> pages[j + n] == pages[j]
  }

  lemma FillOne(pages: seq<nat>, pages': seq<nat>, meta: nat, n: nat, i: nat, page: nat,
                before: set<nat>, inUse: set<nat>)
    requires Filled(pages, meta, n, i, before, inUse) && i < meta + n && page !in inUse
    requires pages' == if i >= meta then pages[i := page][n + i := page] else pages[i := page]
    ensures Filled(pages', meta, n, i + 1, before, inUse + {page})
  {
    assert forall j :: 0 <= j < i ==> pages'[j] == pages[j];
    assert pages'[..i + 1] == pages[..i] + [page];
    assert Pages(pages', i + 1) == Pages(pages, i) + {page};
    forall j | 0 <= j < i
      ensures pages'[j] != page
    {
      assert pages[j] in pages[..i];
    }
    forall j | meta <= j < i + 1
      ensures pages'[j + n] == pages'[j]
    {
      if j < i {
        assert pages[j + n] == pages[j];
      }
    }
  }

  /** One of the pages still to be freed, and what is left. */
  lemma FreeOne(pages: seq<nat>, i: nat, n: nat, inUse: set<nat>, rest: set<nat>)
    requires i < n <= |pages| && Distinct(pages, n) && Pages(pages, n) !! rest
    requires inUse == rest + Elements(pages[i..n])
    ensures pages[i] in inUse
    ensures inUse - {pages[i]} == rest + Elements(pages[i + 1..n])
  {
    assert pages[i..n] == [pages[i]] + pages[i + 1..n];
    assert pages[i] in pages[..n];
    assert forall j :: i < j < n ==> pages[j] != pages[i];
    assert pages[i] !in pages[i + 1..n];
  }

  /** `__free_page` over the first `n` entries of the table: each of those pages is
      released once. */
  method FreePages(pa: PageAllocator, pages: array<nat>, n: nat, ghost rest: set<nat>)
    requires pa.Valid() && n <= pages.Length && Distinct(pages[..], n)
    requires Pages(pages[..], n) !! rest && pa.inUse == rest + Pages(pages[..], n)
    modifies pa
    ensures pa.Valid() && pa.inUse == rest
  {
    var i := 0;
    assert pages[..][0..n] == pages[..][..n];
    while i < n
      invariant i <= n && pa.Valid()
      invariant pa.inUse == rest + Elements(pages[..][i..n])
    {
      FreeOne(pages[..], i, n, pa.inUse, rest);
      pa.Free(pages[i]);
      i := i + 1;
    }
    assert pages[..][n..n] == [];
  }

  /** `ringbuf_area_alloc`: on success a doubly mapped table over freshly taken pages;
      when a page or the mapping cannot be had, everything is given back. */
  method AreaAlloc(pa: PageAllocator, meta: nat, n: nat, mapped: bool) returns (ok: bool, pages: array<nat>)
    requires pa.Valid()
    modifies pa
    ensures pa.Valid() && fresh(pages)
    ensures ok == (mapped && old(pa.budget) >= meta + n)
    ensures !ok ==> pa.inUse == old(pa.inUse)
    ensures ok ==> DoublyMapped(pages[..], meta, n)
    ensures ok ==> Pages(pages[..], meta + n) !! old(pa.inUse)
                   && pa.inUse == old(pa.inUse) + Pages(pages[..], meta + n)
  {
    pages := new nat[meta + 2 * n];
    ghost var before := pa.inUse;
    var i := 0;
    assert pages[..][..0] == [];
    while i < meta + n
      invariant i <= meta + n && pages.Length == meta + 2 * n && fresh(pages) && pa.Valid()
      invariant Filled(pages[..], meta, n, i, before, pa.inUse)
      invariant pa.budget == old(pa.budget) - i
    {
      var got, page := pa.Alloc();
      if !got {
        FreePages(pa, pages, i, before);
        return false, pages;
      }
      ghost var was := pages[..];
      pages[i] := page;
      if i >= meta {
        pages[n + i] := page;
      }
      FillOne(was, pages[..], meta, n, i, page, before, pa.inUse - {page});
      assert pa.inUse - {page} + {page} == pa.inUse;
      i := i + 1;
    }
    ok := mapped;
    if !mapped {
      FreePages(pa, pages, meta + n, before);
    }
  }

  /** `ringbuf_free` after a successful allocation restores the allocator. */
  method AllocThenFree(pa: PageAllocator, meta: nat, n: nat, mapped: bool)
    requires pa.Valid()
    modifies pa
    ensures pa.Valid() && pa.inUse == old(pa.inUse)
  {
    var ok, pages := AreaAlloc(pa, meta, n, mapped);
    if ok {
      FreePages(pa, pages, meta + n, old(pa.inUse));
    }
  }

  /* ---- what the double mapping is for -------------------------------------- */

  /** Page frames hold one page of bytes each. */
  ghost predicate Frames(frames: map<nat, seq<byte>>, pages: seq<nat>) {
    forall i :: 0 <= i < |pages| ==> pages[i] in frames && |frames[pages[i]]| == PAGE_SIZE
  }

  /** The byte at offset `off` of the mapped area. */
  ghost function MappedByte(frames: map<nat, seq<byte>>, pages: seq<nat>, off: nat): byte
    requires Frames(frames, pages) && off < |pages| * PAGE_SIZE
  {
    frames[pages[off / PAGE_SIZE]][off % PAGE_SIZE]
  }

  /** The data area, read through its first mapping. */
  ghost function DataArea(frames: map<nat, seq<byte>>, pages: seq<nat>, meta: nat, n: nat): seq<byte>
    requires Frames(frames, pages) && |pages| == meta + 2 * n
  {
    seq<byte>(n * PAGE_SIZE, i requires 0 <= i < n * PAGE_SIZE && Frames(frames, pages) && |pages| == meta + 2 * n =>
                MappedByte(frames, pages, meta * PAGE_SIZE + i))
  }

  lemma SecondMapping(frames: map<nat, seq<byte>>, pages: seq<nat>, meta: nat, n: nat, a: nat)
    requires Frames(frames, pages) && DoublyMapped(pages, meta, n) && a < n * PAGE_SIZE
    ensures MappedByte(frames, pages, (meta + n) * PAGE_SIZE + a) == MappedByte(frames, pages, meta * PAGE_SIZE + a)
  {
    var k := a / PAGE_SIZE;
    assert ((meta + n) * PAGE_SIZE + a) / PAGE_SIZE == meta + k + n;
    assert (meta * PAGE_SIZE + a) / PAGE_SIZE == meta + k;
    assert pages[meta + k + n] == pages[meta + k];
  }

  /** A record read straight through from its masked position, across the end of the
      first mapping if need be, is the record read modulo the size of the data area. */
  lemma StraightReadIsRingRead(frames: map<nat, seq<byte>>, pages: seq<nat>, meta: nat, n: nat, p: nat, i: nat)
    requires Frames(frames, pages) && DoublyMapped(pages, meta, n) && n > 0
    requires i < n * PAGE_SIZE
    ensures var area := DataArea(frames, pages, meta, n);
            |area| == n * PAGE_SIZE
            && MappedByte(frames, pages, meta * PAGE_SIZE + p % |area| + i) == area[Slot(p, i, |area|)]
  {
    var size := n * PAGE_SIZE;
    var a := p % size + i;
    SlotMasked(p, i, size);
    if a < size {
      ModIsRemainder(a, 0, a, size);
    } else {
      ModIsRemainder(a, 1, a - size, size);
      SecondMapping(frames, pages, meta, n, a - size);
    }
  }
}
