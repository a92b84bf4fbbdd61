/** What the sniffer has seen after a channel's transfers: the checksum is that
    of the bytes of the buffer, in order, so the size of the transfers that read
    it does not show. */
module DmaSniffRuns {
  import opened Words
  import opened WordLemmas
  import opened MemoryBus
  import opened DmaTransfer
  import opened DmaCopy
  import opened DmaSniffer
  import opened DmaModel

  /** `n` transfers of channel `ch` by the controller. */
  function Transfers(d: Dma, ch: nat, n: nat): (e: Dma)
    requires d.Valid() && ch < CHANNELS
    ensures e.Valid()
    decreases n
  {
    if n == 0 then d else TransferOne(Transfers(d, ch, n - 1), ch).0
  }

  /** The bytes that the first `n` elements of a channel read, in order. */
  function ReadBytes(m: Mem, c: Channel, n: nat): seq<Byte>
    requires m.Valid()
    decreases n
  {
    if n == 0 then [] else ReadBytes(m, c, n - 1) + MemoryBytes(m, ReadAt(c, n - 1), Step(c.ctrl))
  }

  /** The sniffer takes a CRC of channel `ch`, and nothing swaps bytes. */
  predicate Watching(d: Dma, ch: nat)
    requires d.Valid() && ch < CHANNELS
  {
    var ctrl := d.chan[ch].ctrl;
    && d.sniff.en && d.sniff.channel == ch && ctrl.sniffEn && d.sniff.mode <= CRC_16_REFLECTED
    && !d.sniff.bswap && !ctrl.bswap
  }

  /** The channel's first `n` transfers meet no bus error, and none reads what an earlier one wrote. */
  predicate ReadsBuffer(c: Channel, n: nat) {
    ErrorFree(c, n) && forall k :: 0 <= k < n ==> Untouched(c, k)
  }

  /** One element folded in. */
  lemma ElementSniffed(m: Mem, c: Channel, k: nat, s: Sniff, ch: nat, d0: Word)
    requires m.Valid() && ErrorFree(c, k) && Untouched(c, k) && !c.ctrl.bswap
    requires s.en && s.channel == ch && !s.bswap && s.mode <= CRC_16_REFLECTED
    requires s.data == Feed(s.mode, d0, ReadBytes(m, c, k))
    ensures SniffFeed(s, ch, true, ElementAt(Copied(m, c, k), c, k), Step(c.ctrl))
         == s.(data := Feed(s.mode, d0, ReadBytes(m, c, k + 1)))
  {
    hide Feed, BytesOf, Copied, ValueAt, Step, After;
    var n := Step(c.ctrl);
    ReadsOriginal(m, c, k);
    ValueBytes(m, ReadAt(c, k), n);
    assert After(c, k).ctrl == c.ctrl;
    assert ElementAt(m, c, k) == ValueAt(m, ReadAt(c, k), n);
    assert ReadBytes(m, c, k + 1) == ReadBytes(m, c, k) + MemoryBytes(m, ReadAt(c, k), n);
    FeedAppend(s.mode, d0, ReadBytes(m, c, k), MemoryBytes(m, ReadAt(c, k), n));
  }

  /** The checksum of `n` transfers is the checksum of the bytes they read. */
  lemma {:induction false} TransfersSniff(d: Dma, ch: nat, n: nat)
    requires d.Valid() && ch < CHANNELS && Watching(d, ch) && ReadsBuffer(d.chan[ch], n)
    ensures var e := Transfers(d, ch, n);
            && e.mem == Copied(d.mem, d.chan[ch], n) && e.chan[ch] == After(d.chan[ch], n)
            && e.sniff == d.sniff.(data := Feed(d.sniff.mode, d.sniff.data, ReadBytes(d.mem, d.chan[ch], n)))
    decreases n
  {
    hide Transfer, SniffFeed, Feed, ReadBytes, Copied, ElementAt, Untouched, ErrorFree;
    var c := d.chan[ch];
    if n == 0 {
      NothingRead(d.mem, c);
      FeedNothing(d.sniff.mode, d.sniff.data);
    } else {
      Fewer(c, n, n - 1);
      TransfersSniff(d, ch, n - 1);
      var e := Transfers(d, ch, n - 1);
      TransferCopies(d.mem, c, n - 1);
      ElementSniffed(d.mem, c, n - 1, e.sniff, ch, d.sniff.data);
    }
  }

  lemma NothingRead(m: Mem, c: Channel)
    requires m.Valid()
    ensures ReadBytes(m, c, 0) == [] && Copied(m, c, 0) == m && After(c, 0) == c
  {
  }

  // -------------------------------------------------------------- transfer sizes

  /** The controller with DATA_SIZE of channel `ch` changed. */
  function Sized(d: Dma, ch: nat, size: nat): (e: Dma)
    requires d.Valid() && ch < CHANNELS
    ensures e.Valid()
  {
    d.(chan := d.chan[ch := Resized(d.chan[ch], size)])
  }

  function Resized(c: Channel, size: nat): Channel { c.(ctrl := c.ctrl.(dataSize := size)) }

  /** The channel reads a buffer upwards; a ring is at least one element long. */
  predicate Upwards(c: Channel, size: nat) {
    c.ctrl.incrRead && c.ctrl.ringSize <= 15 && (ReadRing(c.ctrl) == 0 || ReadRing(c.ctrl) >= size)
  }

  /** A short step that does not leave the ring. */
  lemma Nudge(y: nat, r: nat, j: nat)
    requires r >= 1 && y % r + j < r
    ensures (y + j) % r == y % r + j
  {
    DivMod(y, r);
    DivUnique(y + j, r, y / r, y % r + j);
  }

  /** There is room for an element of `s` bytes at every multiple of `s` in a ring of `q` elements. */
  lemma RoomInRing(x: nat, q: nat, s: nat, r: nat)
    requires q >= 1 && s >= 1 && r == q * s
    ensures r >= 1 && x * s >= 0 && x * s % r == x % q * s <= r - s
  {
    ModScale(x, q, s);
    DivMod(x, q);
    MulMono(s, x % q + 1, q);
    Distrib(s, x % q, 1);
  }

  /** The bytes of the element at a multiple of `s`, inside a ring of `q` elements. */
  lemma RingBytes(a: nat, k: nat, s: nat, q: nat, r: nat, j: nat)
    requires s >= 1 && q >= 1 && r == q * s && j < s && a % s == 0
    ensures r >= 1 && k * s >= 0 && Slot(a, k * s + j, r) == Slot(a, k * s, r) + j
  {
    var b := a / s;
    DivMod(a, s);
    RoomInRing(b, q, s, r);
    var x := b % q + k;
    RoomInRing(x, q, s, r);
    Distrib(s, b % q, k);
    hide Slot;
    assert a == b * s && a % r + k * s == x * s;
    Nudge(x * s, r, j);
    SlotIs(a, k * s, r);
    SlotIs(a, k * s + j, r);
  }

  /** A readable element is aligned and does not wrap around the address space. */
  lemma ReadInside(c: Channel, k: nat)
    requires ElementOk(c, k)
    ensures ReadAt(c, k) % Step(c.ctrl) == 0 && ReadAt(c, k) + Step(c.ctrl) <= WORD_SIZE
  {
    hide ReadAt, WriteAt, WriteStatus;
  }

  lemma StraightBytes(a: nat, i: nat, j: nat, s: nat)
    requires Wrap(a + i) + s <= WORD_SIZE && j < s
    ensures Wrap(a + (i + j)) == Wrap(a + i) + j
  {
  }

  /** Byte `j` of element `k` is element `s * k + j` of the byte channel. */
  lemma ByteAddress(c: Channel, size: nat, k: nat, j: nat)
    requires 1 <= size <= 2 && Upwards(c, size) && ErrorFree(Resized(c, size), k + 1) && j < 2 * size
    ensures 2 * size * k >= 0
    ensures ReadAt(Resized(c, 0), 2 * size * k + j) == ReadAt(Resized(c, size), k) + j
  {
    var (s, w, b) := (2 * size, Resized(c, size), Resized(c, 0));
    var i := k * s;
    assert ElementOk(w, k) && ElementOk(w, 0);
    AddressesAreClosed(w, k);
    AddressesAreClosed(b, i + j);
    ReadInside(w, k);
    ReadInside(w, 0);
    assert ReadAt(w, 0) == c.readAddr;
    hide Slot, Pow2, ElementOk, ReadAt, Wrap;
    ClosedBytes(c.readAddr, ReadRing(c.ctrl), size, k, j);
    assert i == 2 * size * k;
  }

  lemma ClosedBytes(a: Word, ring: nat, size: nat, k: nat, j: nat)
    requires 1 <= size <= 2 && ring <= 15 && (ring == 0 || ring >= size) && j < 2 * size && a % (2 * size) == 0
    requires Address(a, true, 2 * size, ring, k) + 2 * size <= WORD_SIZE
    ensures k * (2 * size) >= 0
    ensures Address(a, true, 1, ring, k * (2 * size) + j) == Address(a, true, 2 * size, ring, k) + j
  {
    hide Slot, Pow2, Wrap;
    var s := 2 * size;
    if ring == 0 {
      StraightBytes(a, k * s, j, s);
    } else {
      Pow2Sum(size, ring - size);
      SmallPowers();
      RingBytes(a, k, s, Pow2(ring - size), Pow2(ring), j);
    }
  }

  lemma SmallPowers()
    ensures Pow2(0) == 1 && Pow2(1) == 2 && Pow2(2) == 4
  {
  }

  /** Larger elements and bytes read the same buffer. */
  lemma {:induction false} SameBytes(m: Mem, c: Channel, size: nat, n: nat)
    requires m.Valid() && 1 <= size <= 2 && Upwards(c, size) && ErrorFree(Resized(c, size), n)
    ensures 2 * size * n >= 0
    ensures ReadBytes(m, Resized(c, size), n) == ReadBytes(m, Resized(c, 0), 2 * size * n)
    decreases n
  {
    hide ReadAt, ByteAt, ElementOk;
    var (s, w, b) := (2 * size, Resized(c, size), Resized(c, 0));
    if n > 0 {
      SameBytes(m, c, size, n - 1);
      var first := s * (n - 1);
      forall i | first <= i < first + s
        ensures ReadAt(b, i) == ReadAt(w, n - 1) + (i - first)
      {
        ByteAddress(c, size, n - 1, i - first);
      }
      BytesOneByOne(m, b, first, s, ReadAt(w, n - 1));
    }
  }

  /** `s` consecutive byte elements are the bytes of the span they read. */
  lemma {:induction false} BytesOneByOne(m: Mem, b: Channel, first: nat, s: nat, a: nat)
    requires m.Valid() && Step(b.ctrl) == 1 && forall i :: first <= i < first + s ==> ReadAt(b, i) == a + (i - first)
    ensures ReadBytes(m, b, first + s) == ReadBytes(m, b, first) + MemoryBytes(m, a, s)
    decreases s
  {
    hide ReadAt, ByteAt;
    if s > 0 {
      BytesOneByOne(m, b, first, s - 1, a);
      assert ReadAt(b, first + s - 1) == a + (s - 1);
      assert MemoryBytes(m, a, s) == MemoryBytes(m, a, s - 1) + MemoryBytes(m, a + (s - 1), 1);
    } else {
      assert MemoryBytes(m, a, 0) == [];
    }
  }

  /** Without a byte swap the controller's checksum of a buffer does not show the
      size of the transfers: halfwords or words give what bytes give. */
  lemma WordsLikeBytes(d: Dma, ch: nat, size: nat, n: nat)
    requires d.Valid() && ch < CHANNELS && Watching(d, ch) && 1 <= size <= 2 && Upwards(d.chan[ch], size)
    requires 2 * size * n >= 0
    requires ReadsBuffer(Resized(d.chan[ch], size), n) && ReadsBuffer(Resized(d.chan[ch], 0), 2 * size * n)
    ensures Transfers(Sized(d, ch, size), ch, n).sniff == Transfers(Sized(d, ch, 0), ch, 2 * size * n).sniff
  {
    TransfersSniff(Sized(d, ch, size), ch, n);
    TransfersSniff(Sized(d, ch, 0), ch, 2 * size * n);
    SameBytes(d.mem, d.chan[ch], size, n);
    hide Feed, ReadBytes, Transfers;
  }
}
