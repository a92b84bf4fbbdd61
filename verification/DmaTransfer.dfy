/** One DMA channel moving elements: its control fields, the element as it is
    read and written, and the addresses of a run of transfers in closed form,
    straight or in a ring. */
module DmaTransfer {
  import opened Words
  import opened WordLemmas
  import opened MemoryBus

  /** CTRL, field by field; `dataSize` and the others are the raw field values. */
  datatype Ctrl = Ctrl(
    en: bool,
    dataSize: nat,
    incrRead: bool,
    incrWrite: bool,
    ringSize: nat,
    ringOnWrite: bool,
    chainTo: nat,
    treqSel: nat,
    quiet: bool,
    bswap: bool,
    sniffEn: bool,
    busy: bool,
    writeError: bool,
    readError: bool)

  datatype Channel = Channel(
    readAddr: Word,
    writeAddr: Word,
    transCount: Word,
    ctrl: Ctrl,
    remaining: Word,
    paceAccum: nat)

  /** Bytes per element; eight-byte transfers are modelled as words. */
  function Step(ctrl: Ctrl): (n: nat)
    ensures n in {1, 2, 4}
  {
    if ctrl.dataSize == 0 then 1 else if ctrl.dataSize == 1 then 2 else 4
  }

  function ByteSwap(v: Word, size: nat): Word {
    if size == 2 then v % 256 * 256 + v / 256 % 256
    else if size == 4 then v % 256 * 0x100_0000 + v / 256 % 256 * 0x1_0000 + v / 0x1_0000 % 256 * 256 + v / 0x100_0000
    else v
  }

  /** The element as it is written. */
  function Shaped(ctrl: Ctrl, v: Word): Word { if ctrl.bswap then ByteSwap(v, Step(ctrl)) else v }

  /** `addr + step`; in a ring only the low bits move. */
  function NextAddress(addr: Word, step: nat, ring: nat): Word
    requires step <= 4
  {
    if ring == 0 then Wrap(addr + step)
    else Wrap(InRing(addr, step, Pow2(ring)))
  }

  /** `(addr & ~mask) | ((addr + step) & mask)` for the mask `r - 1` */
  function InRing(addr: nat, step: nat, r: nat): nat
    requires r >= 1
  {
    ModLe(addr, r);
    ModLe(addr + step, r);
    addr - addr % r + (addr + step) % r
  }

  function ReadRing(ctrl: Ctrl): nat { if ctrl.ringOnWrite then 0 else ctrl.ringSize }

  function WriteRing(ctrl: Ctrl): nat { if ctrl.ringOnWrite then ctrl.ringSize else 0 }

  function Advanced(c: Channel): Channel {
    c.(readAddr := if c.ctrl.incrRead then NextAddress(c.readAddr, Step(c.ctrl), ReadRing(c.ctrl)) else c.readAddr,
       writeAddr := if c.ctrl.incrWrite then NextAddress(c.writeAddr, Step(c.ctrl), WriteRing(c.ctrl)) else c.writeAddr)
  }

  function Loaded(m: Mem, c: Channel): Word
    requires m.Valid()
  {
    var n := Step(c.ctrl);
    ValueBound(m, c.readAddr, n);
    PowersOf256();
    ValueAt(m, c.readAddr, n)
  }

  lemma PowersOf256()
    ensures Power256(1) == 0x100 && Power256(2) == 0x1_0000 && Power256(4) == WORD_SIZE
  {
    assert Power256(0) == 1;
    assert Power256(3) == 0x100_0000;
  }

  /** What one transfer leaves: `value` is the element as written. */
  datatype Moved = Moved(mem: Mem, channel: Channel, ok: bool, value: Word)

  function Transfer(m: Mem, c: Channel): (r: Moved)
    requires m.Valid()
    ensures r.mem.Valid()
  {
    var n := Step(c.ctrl);
    if ReadStatus(c.readAddr, n) != Ok then Moved(m, c.(ctrl := c.ctrl.(readError := true)), false, 0)
    else
      var v := Shaped(c.ctrl, Loaded(m, c));
      if WriteStatus(c.writeAddr, n) != Ok then Moved(m, c.(ctrl := c.ctrl.(writeError := true)), false, v)
      else Moved(Store(m, c.writeAddr, v, n), Advanced(c), true, v)
  }

  // --------------------------------------------------------------- addresses

  /** The channel after `k` elements: only its two addresses have moved. */
  function After(c: Channel, k: nat): (r: Channel)
    ensures r.ctrl == c.ctrl && r.remaining == c.remaining && r.transCount == c.transCount && r.paceAccum == c.paceAccum
    decreases k
  {
    if k == 0 then c else Advanced(After(c, k - 1))
  }

  function ReadAt(c: Channel, k: nat): Word { After(c, k).readAddr }

  function WriteAt(c: Channel, k: nat): Word { After(c, k).writeAddr }

  /** Where the `k`-th element lies, in closed form. */
  function Address(start: Word, incr: bool, step: nat, ring: nat, k: nat): Word
    requires ring <= 15
  {
    if !incr then start
    else if ring == 0 then Wrap(start + k * step)
    else
      RingFits(start, ring, k * step);
      Slot(start, k * step, Pow2(ring))
  }

  /** `moved` bytes on in the aligned window of `r` bytes around `start`. */
  function Slot(start: nat, moved: nat, r: nat): nat
    requires r >= 1
  {
    ModLe(start, r);
    ModLe(start % r + moved, r);
    start - start % r + (start % r + moved) % r
  }

  /** An aligned window of 2^ring bytes lies inside the address space. */
  lemma RingFits(start: Word, ring: nat, moved: nat)
    requires ring <= 15
    ensures var r := Pow2(ring);
            0 <= start - start % r <= Slot(start, moved, r) < start - start % r + r <= WORD_SIZE
  {
    hide Pow2;
    var (r, k) := (Pow2(ring), Pow2(32 - ring));
    Pow2Sum(ring, 32 - ring);
    Pow2Of32();
    DivMod(start, r);
    DivMod(start % r + moved, r);
    var q := start / r;
    assert q < k by {
      if q >= k {
        MulMono(r, k, q);
      }
    }
    MulMono(r, q + 1, k);
    Distrib(r, q, 1);
  }

  lemma NextIsClosed(start: Word, step: nat, ring: nat, k: nat)
    requires ring <= 15 && step <= 4
    ensures NextAddress(Address(start, true, step, ring, k), step, ring) == Address(start, true, step, ring, k + 1)
  {
    hide Pow2;
    Distrib(step, k, 1);
    if ring == 0 {
      WrapSum(start + k * step, step);
    } else {
      RingMoves(start, step, ring, k * step);
    }
  }

  lemma RingMoves(start: Word, step: nat, ring: nat, moved: nat)
    requires 0 < ring <= 15 && step <= 4
    ensures Slot(start, moved, Pow2(ring)) < WORD_SIZE
    ensures NextAddress(Slot(start, moved, Pow2(ring)), step, ring) == Slot(start, moved + step, Pow2(ring))
  {
    hide Pow2, Slot, InRing;
    RingFits(start, ring, moved);
    RingFits(start, ring, moved + step);
    SlotMoves(start, step, Pow2(ring), moved);
  }

  lemma SlotMoves(start: nat, step: nat, r: nat, moved: nat)
    requires r >= 1
    ensures InRing(Slot(start, moved, r), step, r) == Slot(start, moved + step, r)
  {
    hide InRing, Slot;
    SlotIs(start, moved, r);
    SlotIs(start, moved + step, r);
    DivMod(start, r);
    RingStep(start / r, r, start % r + moved, step);
  }

  lemma SlotIs(start: nat, moved: nat, r: nat)
    requires r >= 1
    ensures start / r >= 0 && start % r >= 0 && Slot(start, moved, r) == r * (start / r) + (start % r + moved) % r
  {
    DivMod(start, r);
  }

  /** One step inside the ring that starts at `r * q`. */
  lemma RingStep(q: nat, r: nat, total: nat, step: nat)
    requires r >= 1
    ensures r * q + total % r >= 0 && InRing(r * q + total % r, step, r) == r * q + (total + step) % r
  {
    var x := total % r;
    DivMod(total, r);
    MultipleMod(q, r, x);
    MultipleMod(q, r, x + step);
    MultipleMod(total / r, r, x + step);
    DivUnique(x, r, 0, x);
  }

  lemma WrapSum(a: nat, b: nat)
    ensures Wrap(Wrap(a) + b) == Wrap(a + b)
  {
  }

  /** A multiple of `r` does not change a remainder. */
  lemma MultipleMod(q: nat, r: nat, x: nat)
    requires r >= 1
    ensures r * q + x >= 0 && (r * q + x) % r == x % r
  {
    DivMod(x, r);
    Distrib(r, q, x / r);
    DivUnique(r * q + x, r, q + x / r, x % r);
  }

  /** The source's step-by-step addresses are the closed form: a straight run
      modulo 2^32, or a walk that never leaves its aligned ring. */
  lemma {:induction false} AddressesAreClosed(c: Channel, k: nat)
    requires c.ctrl.ringSize <= 15
    ensures ReadAt(c, k) == Address(c.readAddr, c.ctrl.incrRead, Step(c.ctrl), ReadRing(c.ctrl), k)
    ensures WriteAt(c, k) == Address(c.writeAddr, c.ctrl.incrWrite, Step(c.ctrl), WriteRing(c.ctrl), k)
    decreases k
  {
    if k == 0 {
      ClosedAtZero(c.readAddr, c.ctrl.incrRead, Step(c.ctrl), ReadRing(c.ctrl));
      ClosedAtZero(c.writeAddr, c.ctrl.incrWrite, Step(c.ctrl), WriteRing(c.ctrl));
    } else {
      hide Address, NextAddress;
      AddressesAreClosed(c, k - 1);
      NextIsClosed(c.readAddr, Step(c.ctrl), ReadRing(c.ctrl), k - 1);
      NextIsClosed(c.writeAddr, Step(c.ctrl), WriteRing(c.ctrl), k - 1);
      Stays(c.readAddr, Step(c.ctrl), ReadRing(c.ctrl), k);
      Stays(c.writeAddr, Step(c.ctrl), WriteRing(c.ctrl), k);
    }
  }

  lemma Stays(start: Word, step: nat, ring: nat, k: nat)
    requires ring <= 15 && k > 0
    ensures Address(start, false, step, ring, k) == Address(start, false, step, ring, k - 1)
  {
  }

  lemma ClosedAtZero(start: Word, incr: bool, step: nat, ring: nat)
    requires ring <= 15
    ensures Address(start, incr, step, ring, 0) == start
  {
    DivMod(start, Pow2(ring));
    DivUnique(start % Pow2(ring), Pow2(ring), 0, start % Pow2(ring));
  }
}
