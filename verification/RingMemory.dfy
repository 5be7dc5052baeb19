/** The data area of the ring buffer: `N` bytes addressed modulo `N`.

    Positions are the ever-growing byte counters of producer and consumer; the
    byte of position `p` lives at index `p % N` (`p & mask` for the power-of-two
    sizes the driver accepts). */
module RingMemory {
  import opened Bytes
  import opened Framing

  /** Index of the byte `k` places after position `p`. */
  function Slot(p: nat, k: nat, size: nat): (i: nat)
    requires size > 0
    ensures i < size
  {
    (p + k) % size
  }

  function Load(mem: seq<byte>, p: nat, n: nat): (bs: seq<byte>)
    requires |mem| > 0
    ensures |bs| == n
    ensures forall i :: 0 <= i < n ==> bs[i] == mem[Slot(p, i, |mem|)]
  {
    seq(n, i requires 0 <= i < n => mem[Slot(p, i, |mem|)])
  }

  function Store(mem: seq<byte>, p: nat, bs: seq<byte>): (mem': seq<byte>)
    requires |mem| > 0
    ensures |mem'| == |mem|
    decreases |bs|
  {
    if bs == [] then mem
    else
      var k := |bs| - 1;
      Store(mem, p, bs[..k])[Slot(p, k, |mem|) := bs[k]]
  }

  /** Little-endian 32-bit words, as both sides read and write them. */
  function ToBytes(w: u32): (bs: seq<byte>)
    ensures |bs| == 4
  {
    [w % 256, w / 256 % 256, w / 0x1_0000 % 256, w / 0x100_0000]
  }

  function FromBytes(bs: seq<byte>): u32
    requires |bs| == 4
  {
    bs[0] as int + 256 * (bs[1] as int) + 0x1_0000 * (bs[2] as int) + 0x100_0000 * (bs[3] as int)
  }

  lemma WordRoundTrip(w: u32)
    ensures FromBytes(ToBytes(w)) == w
  {
    assert w / 256 / 256 == w / 0x1_0000;
    assert w / 0x1_0000 / 256 == w / 0x100_0000;
    assert w == w / 256 * 256 + w % 256;
  }

  function LoadWord(mem: seq<byte>, p: nat): u32
    requires |mem| > 0
  {
    FromBytes(Load(mem, p, 4))
  }

  /** Two positions closer than the buffer size share a byte only if they are equal. */
  lemma ModUnique(a: int, b: int, n: int)
    requires n > 0 && a % n == b % n && -n < a - b < n
    ensures a == b
  {
    assert (a / n - b / n) * n == a - b by {
      assert a == a / n * n + a % n;
      assert b == b / n * n + b % n;
      assert (a / n - b / n) * n == a / n * n - b / n * n;
    }
    ProductBound(a / n - b / n, n);
  }

  /** Offsetting from the masked position reaches the same byte as offsetting from
      the position itself. */
  lemma MaskedOffset(p: int, k: int, n: int)
    requires n > 0
    ensures (p % n + k) % n == (p + k) % n
  {
    assert p + k == (p % n + k) + (p / n) * n;
    ModOfShift(p % n + k, p / n, n);
  }

  lemma SlotMasked(p: nat, k: nat, size: nat)
    requires size > 0
    ensures Slot(p % size, k, size) == Slot(p, k, size)
  {
    MaskedOffset(p, k, size);
  }

  lemma LoadMasked(mem: seq<byte>, p: nat, n: nat)
    requires |mem| > 0
    ensures Load(mem, p % |mem|, n) == Load(mem, p, n)
  {
    hide Slot;
    forall i | 0 <= i < n
      ensures Load(mem, p % |mem|, n)[i] == Load(mem, p, n)[i]
    {
      SlotMasked(p, i, |mem|);
    }
  }

  lemma {:induction false} StoreMasked(mem: seq<byte>, p: nat, bs: seq<byte>)
    requires |mem| > 0
    ensures Store(mem, p % |mem|, bs) == Store(mem, p, bs)
    decreases |bs|
  {
    if bs != [] {
      StoreMasked(mem, p, bs[..|bs| - 1]);
      SlotMasked(p, |bs| - 1, |mem|);
    }
  }

  /** A store leaves every byte outside its own positions alone. */
  lemma {:induction false} StoreElsewhere(mem: seq<byte>, p: nat, bs: seq<byte>, a: nat)
    requires 0 < |mem| && a < |mem|
    requires forall k :: 0 <= k < |bs| ==> Slot(p, k, |mem|) != a
    ensures Store(mem, p, bs)[a] == mem[a]
    decreases |bs|
  {
    if bs != [] {
      StoreElsewhere(mem, p, bs[..|bs| - 1], a);
    }
  }

  /** What is stored is what is loaded, for anything no longer than the buffer. */
  lemma {:induction false} StoreThenLoad(mem: seq<byte>, p: nat, bs: seq<byte>)
    requires 0 < |mem| && |bs| <= |mem|
    ensures Load(Store(mem, p, bs), p, |bs|) == bs
    decreases |bs|
  {
    if bs != [] {
      var k := |bs| - 1;
      StoreThenLoad(mem, p, bs[..k]);
      var before := Store(mem, p, bs[..k]);
      forall i | 0 <= i < |bs|
        ensures Store(mem, p, bs)[Slot(p, i, |mem|)] == bs[i]
      {
        if i < k {
          if Slot(p, i, |mem|) == Slot(p, k, |mem|) {
            ModUnique(p + i, p + k, |mem|);
          }
          assert Load(before, p, k)[i] == bs[i];
        }
      }
    }
  }

  /** Two position ranges that do not meet and fit in one buffer length. */
  predicate Apart(p: nat, m: nat, q: nat, n: nat, size: nat) {
    (p + m <= q && q + n <= p + size) || (q + n <= p && p + m <= q + size)
  }

  lemma ApartBytes(p: nat, m: nat, q: nat, n: nat, size: nat, i: nat, j: nat)
    requires size > 0 && Apart(p, m, q, n, size) && i < m && j < n
    ensures Slot(p, i, size) != Slot(q, j, size)
  {
    if Slot(p, i, size) == Slot(q, j, size) {
      ModUnique(p + i, q + j, size);
    }
  }

  /** A store to one range does not change what is loaded from a range apart from it. */
  lemma StoreApart(mem: seq<byte>, p: nat, bs: seq<byte>, q: nat, n: nat)
    requires |mem| > 0 && Apart(p, |bs|, q, n, |mem|)
    ensures Load(Store(mem, p, bs), q, n) == Load(mem, q, n)
  {
    forall j | 0 <= j < n
      ensures Store(mem, p, bs)[Slot(q, j, |mem|)] == mem[Slot(q, j, |mem|)]
    {
      forall k | 0 <= k < |bs|
        ensures Slot(p, k, |mem|) != Slot(q, j, |mem|)
      {
        ApartBytes(p, |bs|, q, n, |mem|, k, j);
      }
      StoreElsewhere(mem, p, bs, Slot(q, j, |mem|));
    }
  }

  /** Loads and stores at an offset from a masked position. */
  lemma LoadAtOffset(mem: seq<byte>, p: nat, k: nat, n: nat)
    requires |mem| > 0
    ensures Load(mem, p % |mem| + k, n) == Load(mem, p + k, n)
  {
    MaskedOffset(p, k, |mem|);
    LoadMasked(mem, p % |mem| + k, n);
    LoadMasked(mem, p + k, n);
  }

  lemma StoreAtOffset(mem: seq<byte>, p: nat, k: nat, bs: seq<byte>)
    requires |mem| > 0
    ensures Store(mem, p % |mem| + k, bs) == Store(mem, p + k, bs)
  {
    MaskedOffset(p, k, |mem|);
    StoreMasked(mem, p % |mem| + k, bs);
    StoreMasked(mem, p + k, bs);
  }

  /** A load contains the loads of its parts. */
  lemma LoadPart(mem: seq<byte>, p: nat, n: nat, a: nat, m: nat)
    requires |mem| > 0 && a + m <= n
    ensures Load(mem, p, n)[a..a + m] == Load(mem, p + a, m)
  {
    var whole, part := Load(mem, p, n), Load(mem, p + a, m);
    forall i {:trigger part[i]} | 0 <= i < m
      ensures whole[a..a + m][i] == part[i]
    {
      assert Slot(p, a + i, |mem|) == Slot(p + a, i, |mem|);
    }
  }
}
