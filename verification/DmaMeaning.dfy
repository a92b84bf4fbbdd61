/** The DMA controller in terms of bytes, addresses and clocks. */
module DmaMeaning {
  // The run laws speak of elements, of a channel's places and of a rate.  Here these
  // are bytes of memory, plain addresses and numbers of clocks.
  import opened Words
  import opened WordLemmas
  import opened MemoryBus
  import opened DmaTransfer
  import opened DmaCopy
  import opened DmaModel
  import opened DmaRuns
  import opened DmaRate
  import opened DmaOutcome

  // --------------------------------------------------------------------- bytes

  /** A little-endian value is made of the bytes it was read from. */
  lemma {:induction false} ValueDigits(m: Mem, a: nat, n: nat, j: nat)
    requires m.Valid() && j < n
    ensures ByteOf(ValueAt(m, a, n), j) == ByteAt(m, a + j)
    decreases n
  {
    hide ByteAt;
    var rest := ValueAt(m, a + 1, n - 1);
    LowByte(ByteAt(m, a), rest);
    if j > 0 {
      ValueDigits(m, a + 1, n - 1, j - 1);
    }
  }

  lemma LowByte(b: Byte, rest: nat)
    ensures (b + 256 * rest) % 256 == b && (b + 256 * rest) / 256 == rest
  {
  }

  /** BSWAP turns the bytes of an element round. */
  lemma SwappedDigits(v: Word, size: nat, j: nat)
    requires size in {1, 2, 4} && v < Power256(size) && j < size
    ensures ByteOf(ByteSwap(v, size), j) == ByteOf(v, size - 1 - j)
  {
    hide ByteSwap, ByteOf;
    PowersOf256();
    if size == 4 {
      var b0, b1, b2, b3 := SplitFour(v);
      SwapFour(b0, b1, b2, b3);
      FourBytes(b0, b1, b2, b3);
      FourBytes(b3, b2, b1, b0);
    } else if size == 2 {
      var (b0, b1) := (v % 256, v / 256);
      SwapTwo(b0, b1);
      TwoBytes(b0, b1);
      TwoBytes(b1, b0);
    } else {
      SwapOne(v);
    }
  }

  lemma SwapOne(v: Word)
    ensures ByteSwap(v, 1) == v
  {
  }

  lemma SwapTwo(b0: Byte, b1: Byte)
    ensures ByteSwap(b0 + 256 * b1, 2) == b1 + 256 * b0
  {
    LowByte(b0, b1);
  }

  lemma SplitFour(v: Word) returns (b0: Byte, b1: Byte, b2: Byte, b3: Byte)
    ensures v == b0 + 256 * b1 + 0x1_0000 * b2 + 0x100_0000 * b3
  {
    b0, b1, b2, b3 := v % 256, v / 256 % 256, v / 256 / 256 % 256, v / 256 / 256 / 256;
  }

  lemma SwapFour(b0: Byte, b1: Byte, b2: Byte, b3: Byte)
    ensures ByteSwap(b0 + 256 * b1 + 0x1_0000 * b2 + 0x100_0000 * b3, 4)
         == b3 + 256 * b2 + 0x1_0000 * b1 + 0x100_0000 * b0
  {
    var v := b0 + 256 * b1 + 0x1_0000 * b2 + 0x100_0000 * b3;
    DivUnique(v, 0x100_0000, b3, b0 + 256 * b1 + 0x1_0000 * b2);
    DivUnique(v, 0x1_0000, b2 + 256 * b3, b0 + 256 * b1);
    LowByte(b0, b1 + 256 * b2 + 0x1_0000 * b3);
    LowByte(b1, b2 + 256 * b3);
    LowByte(b2, b3);
  }

  lemma TwoBytes(b0: Byte, b1: Byte)
    ensures var v := b0 + 256 * b1; ByteOf(v, 0) == b0 && ByteOf(v, 1) == b1
  {
    LowByte(b0, b1);
  }

  lemma FourBytes(b0: Byte, b1: Byte, b2: Byte, b3: Byte)
    ensures var v := b0 + 256 * b1 + 0x1_0000 * b2 + 0x100_0000 * b3;
            ByteOf(v, 0) == b0 && ByteOf(v, 1) == b1 && ByteOf(v, 2) == b2 && ByteOf(v, 3) == b3
  {
    LowByte(b0, b1 + 256 * b2 + 0x1_0000 * b3);
    LowByte(b1, b2 + 256 * b3);
    LowByte(b2, b3);
    assert ByteOf(b3, 0) == b3;
    assert ByteOf(b2 + 256 * b3, 1) == b3;
    assert ByteOf(b1 + 256 * b2 + 0x1_0000 * b3, 2) == b3;
  }

  /** Byte `j` of an element of `s` bytes comes from this byte of its source. */
  function Within(bswap: bool, s: nat, j: nat): nat
    requires j < s
  {
    if bswap then s - 1 - j else j
  }

  /** The number of bytes that DATA_SIZE asks for; 3 is treated as 2. */
  function SizeOf(dataSize: nat): nat {
    match dataSize
    case 0 => 1
    case 1 => 2
    case _ => 4
  }

  lemma ElementBytes(m: Mem, c: Channel, a: Word, j: nat)
    requires m.Valid() && j < SizeOf(c.ctrl.dataSize)
    ensures ByteOf(Element(m, c, a), j) == ByteAt(m, a + Within(c.ctrl.bswap, SizeOf(c.ctrl.dataSize), j))
  {
    hide ByteAt, ByteOf, ByteSwap, ValueAt;
    var s := Step(c.ctrl);
    ValueBound(m, a, s);
    PowersOf256();
    var v := ValueAt(m, a, s);
    assert Loaded(m, c.(readAddr := a)) == v;
    ValueDigits(m, a, s, Within(c.ctrl.bswap, s, j));
    if c.ctrl.bswap {
      SwappedDigits(v, s, j);
    }
  }

  /** The copy, byte by byte: in any run in which the others leave the channel alone,
      byte `j` of an element it has moved and not written over lies at the `j`-th
      byte of its target and is what memory held at the start at the `j`-th byte of
      its source, counted from the element's other end with BSWAP. */
  lemma RunCopiesBytes(d: Dma, trace: seq<Answers>, i: nat, k: nat, j: nat)
    requires d.Valid() && i < CHANNELS && d.chan[i].ctrl.ringSize <= 15 && Unharmed(d, trace, i)
    requires var n := Turns(NewLog(d, Clocks(d, trace)), i);
             k < n && Kept(d.chan[i], n, k) && Unspoilt(d.chan[i], k)
    requires j < SizeOf(d.chan[i].ctrl.dataSize)
    ensures var (c, s) := (d.chan[i], SizeOf(d.chan[i].ctrl.dataSize));
            ByteAt(Clocks(d, trace).mem, TargetOf(c, k) + j)
            == ByteAt(d.mem, SourceOf(c, k) + if c.ctrl.bswap then s - 1 - j else j)
  {
    hide Clocks, ByteAt, ByteOf, ValueAt, Element, SourceOf, TargetOf, Kept, Unspoilt, Unharmed, Turns;
    var c := d.chan[i];
    RunCopies(d, trace, i, k);
    ValueDigits(Clocks(d, trace).mem, TargetOf(c, k), Step(c.ctrl), j);
    ElementBytes(d.mem, c, SourceOf(c, k), j);
  }

  /** The places in plain numbers: a fixed address, a straight run modulo 2^32, or a
      walk inside the aligned ring, which is on the side RING_SEL names. */
  lemma PlacesAre(c: Channel, k: nat)
    requires c.ctrl.ringSize <= 15
    ensures SourceOf(c, k) == Place(c.readAddr, c.ctrl.incrRead, SizeOf(c.ctrl.dataSize),
                                    c.ctrl.ringSize, !c.ctrl.ringOnWrite, k)
    ensures TargetOf(c, k) == Place(c.writeAddr, c.ctrl.incrWrite, SizeOf(c.ctrl.dataSize),
                                    c.ctrl.ringSize, c.ctrl.ringOnWrite, k)
  {
    hide Pow2;
  }

  function Place(start: Word, incr: bool, s: nat, ringSize: nat, ringHere: bool, k: nat): int {
    if !incr then start
    else if ringSize == 0 || !ringHere then (start + k * s) % 0x1_0000_0000
    else
      var r := Pow2(ringSize);
      start - start % r + (start % r + k * s) % r
  }

  // --------------------------------------------------------------------- rates

  /** How far a channel that clocks pace has come, T clocks after its trigger: one
      element a clock with TREQ_SEL 0x3F; X elements in Y clocks with 0x3B to 0x3E
      and X and Y the two halves of that pacing timer, nothing if one of them is 0;
      one in `divisor` clocks for a DREQ nobody drives.  It never passes its count. */
  lemma PacedClocks(d: Dma, trace: seq<Answers>, x: nat, live: set<nat>)
    requires d.Valid() && x < CHANNELS && Started(d, x, live) && Unregistered(trace, x) && d.chan[x].paceAccum == 0
    ensures var (c, sel, t) := (d.chan[x], d.chan[x].ctrl.treqSel, |trace|);
            var done := c.remaining - Clocks(d, trace).chan[x].remaining;
            && (sel == 0x3F ==> Moves(done, c.remaining, t, 1, 1))
            && (0x3B <= sel <= 0x3E ==>
                  var (num, den) := d.timers[sel - 0x3B];
                  if num == 0 || den == 0 then done == 0 else Moves(done, c.remaining, t, num, den))
            && (sel < 0x3B || 0x3F < sel ==> Moves(done, c.remaining, t, 1, d.divisor))
  {
    hide Clocks, Started, Earned, Unregistered, Moves, Least;
    var (num, den) := Rate(d, d.chan[x].ctrl.treqSel);
    StartedPaced(d, trace, x, live);
    EarnedMoves(d.chan[x].remaining, |trace|, num, den);
  }

  /** `done` of `count` elements: `num` in `den` clocks, rounded down. */
  predicate Moves(done: int, count: nat, t: nat, num: nat, den: nat) {
    && 0 <= done <= count && done * den <= t * num && (done == count || t * num < (done + 1) * den)
  }

  lemma StartedPaced(d: Dma, trace: seq<Answers>, x: nat, live: set<nat>)
    requires d.Valid() && x < CHANNELS && Started(d, x, live) && Unregistered(trace, x) && d.chan[x].paceAccum == 0
    ensures var (num, den) := Rate(d, d.chan[x].ctrl.treqSel);
            Clocks(d, trace).chan[x].remaining
              == d.chan[x].remaining - Least(d.chan[x].remaining, Earned(|trace|, num, den))
  {
    PacedRemaining(d, trace, x, live);
    hide *;
  }

  lemma EarnedMoves(count: nat, t: nat, num: nat, den: nat)
    requires den >= 1
    ensures Moves(Least(count, Earned(t, num, den)), count, t, num, den)
    ensures num == 0 ==> Least(count, Earned(t, num, den)) == 0
  {
    var v := t * num;
    var n := v / den;
    var k := Least(count, n);
    DivMod(v, den);
    EarnedIs(t, num, den, v);
    MulMono(den, k, n);
    Distrib(den, k, 1);
    if num == 0 {
      DivUnique(0, den, 0, 0);
    }
  }

  // ---------------------------------------------------------------- interrupts

  /** Channel `x` has raised its interrupt if it is through and not quiet. */
  predicate Told(was: bool, quiet: bool, d: Dma, x: nat)
    requires d.Valid() && x < CHANNELS
  {
    d.chan[x].ctrl.quiet == quiet && (x in d.intr <==> was || (d.chan[x].remaining == 0 && !quiet))
  }

  lemma {:induction false} TriggerTells(d: Dma, ch: nat, x: nat, live: set<nat>)
    requires d.Valid() && Unchained(d, x, live) && ch != x
    requires ch < CHANNELS && d.chan[ch].ctrl.en ==> ch in live
    ensures x in Trigger(d, ch).intr <==> x in d.intr
    decreases CHANNELS + 1 - d.depth, 1
  {
    hide Unchained, Complete;
    if ch < CHANNELS && d.chan[ch].ctrl.en {
      ArmSpares(d, ch, x, live);
      var armed := Arm(d, ch).(depth := d.depth + 1);
      if armed.chan[ch].remaining == 0 && d.depth <= CHANNELS {
        CompleteTells(armed, ch, false, x, live);
      }
    }
  }

  /** Completing a channel raises its own interrupt, unless it is quiet or stopped at a bus error. */
  lemma {:induction false} CompleteTells(d: Dma, ch: nat, error: bool, x: nat, live: set<nat>)
    requires d.Valid() && Unchained(d, x, live) && ch < CHANNELS && ch in live
    ensures x in Complete(d, ch, error).intr <==> x in d.intr || (ch == x && !error && !d.chan[x].ctrl.quiet)
    decreases CHANNELS + 1 - d.depth, 2
  {
    var done := Done(d, ch, error);
    var next := done.chan[ch].ctrl.chainTo;
    assert LinksInside(d, ch, x, live);
    if !error && next != ch && next < CHANNELS {
      KeepsLinks(d, done, x, live);
      TriggerTells(done, next, x, live);
    }
  }

  lemma MoveTells(d: Dma, ch: nat, x: nat, live: set<nat>, was: bool, quiet: bool)
    requires d.Valid() && Unchained(d, x, live) && ch < CHANNELS && ch in live && d.chan[ch].remaining > 0
    requires Told(was, quiet, d, x) && (ch == x ==> ElementOk(d.chan[x], 0))
    ensures Told(was, quiet, MoveOne(d, ch).0, x)
  {
    hide TransferOne, Complete, SameRoutes, Unchained, SameBut, Advanced, ElementOk, After;
    MoveSpares(d, ch, x, live);
    var (t, ok) := TransferOne(d, ch);
    TransferRoutes(d, ch, live);
    RoutesUnchained(d, t, x, live);
    TransferKeepsCounters(d, ch);
    TransferSilent(d, ch);
    if ch == x {
      OwnTransfer(d, x);
    }
    if !ok {
      CompleteTells(t, ch, true, x, live);
    } else {
      var left := t.(chan := t.chan[ch := t.chan[ch].(remaining := t.chan[ch].remaining - 1)]);
      RoutesCounter(t, ch, left.chan[ch], live);
      RoutesUnchained(t, left, x, live);
      if left.chan[ch].remaining == 0 {
        CompleteTells(left, ch, false, x, live);
      }
    }
  }

  lemma TransferSilent(d: Dma, ch: nat)
    requires d.Valid() && ch < CHANNELS
    ensures TransferOne(d, ch).0.intr == d.intr
  {
    hide Transfer, SniffFeed;
  }

  lemma {:induction false} BurstTells(d: Dma, ch: nat, budget: nat, x: nat, live: set<nat>, was: bool, quiet: bool)
    requires d.Valid() && Unchained(d, x, live) && ch < CHANNELS && ch in live
    requires Told(was, quiet, d, x) && (ch == x ==> ErrorFree(d.chan[x], Least(budget, d.chan[x].remaining)))
    ensures Told(was, quiet, Burst(d, ch, budget), x)
    decreases budget
  {
    hide MoveOne, SameRoutes, Unchained, After, ErrorFree, Told, Finished, ElementOk;
    var c := d.chan[ch];
    if budget > 0 && c.remaining > 0 {
      if ch == x {
        FirstOk(c, Least(budget, c.remaining));
      }
      MoveTells(d, ch, x, live, was, quiet);
      MoveSpares(d, ch, x, live);
      var (next, more) := MoveOne(d, ch);
      RoutesUnchained(d, next, x, live);
      if more {
        if ch == x {
          ErrorFreeShift(c, Least(budget, c.remaining), c.remaining - 1);
        }
        BurstTells(next, ch, budget - 1, x, live, was, quiet);
      }
    }
  }

  lemma ClockTells(d: Dma, ch: nat, ready: Ready, x: nat, live: set<nat>, was: bool, quiet: bool)
    requires d.Valid() && Unchained(d, x, live) && ch < CHANNELS && x < CHANNELS
    requires Told(was, quiet, d, x) && (ch == x ==> ErrorFree(d.chan[x], d.chan[x].remaining))
    ensures Told(was, quiet, ClockChannel(d, ch, ready), x)
  {
    hide MoveOne, Burst, Rate, Unchained, SameRoutes, ErrorFree, Told, ElementOk;
    var c := d.chan[ch];
    if c.ctrl.busy && c.remaining != 0 {
      BusyIsLive(d, x, live, ch);
      if c.ctrl.treqSel < DREQS && ready.Source? {
        if ch == x {
          FirstOk(c, c.remaining);
        }
        MoveTells(d, ch, x, live, was, quiet);
      } else {
        var (num, den) := Rate(d, c.ctrl.treqSel);
        if num != 0 {
          DivMod(c.paceAccum + num, den);
          var (budget, pace) := ((c.paceAccum + num) / den, (c.paceAccum + num) % den);
          var paced := d.(chan := d.chan[ch := c.(paceAccum := pace)]);
          PacedTold(d, ch, pace, x, was, quiet);
          RoutesCounter(d, ch, c.(paceAccum := pace), live);
          RoutesUnchained(d, paced, x, live);
          if ch == x {
            Fewer(c, c.remaining, Least(budget, c.remaining));
            ErrorFreePaced(c, Least(budget, c.remaining), pace);
          }
          BurstTells(paced, ch, budget, x, live, was, quiet);
        }
      }
    }
  }

  lemma PacedTold(d: Dma, ch: nat, pace: nat, x: nat, was: bool, quiet: bool)
    requires d.Valid() && ch < CHANNELS && x < CHANNELS && Told(was, quiet, d, x)
    ensures Told(was, quiet, d.(chan := d.chan[ch := d.chan[ch].(paceAccum := pace)]), x)
  {
  }

  lemma {:induction false} ClockFromTells(d: Dma, answers: Answers, from: nat, x: nat, live: set<nat>, was: bool,
                                          quiet: bool)
    requires d.Valid() && Unchained(d, x, live) && x < CHANNELS && Told(was, quiet, d, x)
    requires from <= x ==> ErrorFree(d.chan[x], d.chan[x].remaining)
    ensures Told(was, quiet, ClockFrom(d, answers, from), x)
    decreases CHANNELS - from
  {
    hide ClockChannel, Unchained, SameRoutes, ErrorFree, Told;
    if from < CHANNELS {
      ClockTells(d, from, answers[from], x, live, was, quiet);
      var e := ClockChannel(d, from, answers[from]);
      if from == x {
        OwnClock(d, x, answers[x], live);
      } else {
        OthersClock(d, from, answers[from], x, live);
      }
      RoutesUnchained(d, e, x, live);
      ClockFromTells(e, answers, from + 1, x, live, was, quiet);
    }
  }

  /** The interrupt of a started channel, after every run and whatever the others do:
      it is pending exactly if it was before, or the channel has moved all its
      elements and IRQ_QUIET is clear. */
  lemma {:induction false} RunTells(d: Dma, trace: seq<Answers>, x: nat, live: set<nat>)
    requires d.Valid() && x < CHANNELS && Started(d, x, live)
    ensures var e := Clocks(d, trace);
            x in e.intr <==> x in d.intr || (e.chan[x].remaining == 0 && !d.chan[x].ctrl.quiet)
    ensures Told(x in d.intr, d.chan[x].ctrl.quiet, Clocks(d, trace), x)
    decreases |trace|
  {
    hide ClockFrom, SameRoutes, Unchained, ErrorFree, Stands;
    if trace != [] {
      var (prefix, last) := (trace[..|trace| - 1], trace[|trace| - 1]);
      RunTells(d, prefix, x, live);
      var moved, pace := StandsSomewhere(d, prefix, x, live);
      var e := Clocks(d, prefix);
      RoutesUnchained(d, e, x, live);
      ErrorFreeStands(e.chan[x], d.chan[x], moved, pace);
      ClockFromTells(e, last, 0, x, live, x in d.intr, d.chan[x].ctrl.quiet);
    }
  }

  /** Such a channel stays busy exactly until its last element. */
  lemma BusyUntilDone(d: Dma, trace: seq<Answers>, x: nat, live: set<nat>)
    requires d.Valid() && x < CHANNELS && Started(d, x, live)
    ensures Clocks(d, trace).chan[x].ctrl.busy <==> Clocks(d, trace).chan[x].remaining > 0
  {
    hide Clocks, ErrorFree, Unchained, Advanced;
    var moved, pace := StandsSomewhere(d, trace, x, live);
  }

  /** A completed channel that nothing it chains to starts again is idle, and its
      count reads 0. */
  lemma CompleteStops(d: Dma, ch: nat, error: bool, live: set<nat>)
    requires d.Valid() && ch < CHANNELS && Unchained(d, ch, live) && ch in live
    ensures var (c, e) := (d.chan[ch], Complete(d, ch, error));
            e.chan[ch] == c.(remaining := 0, transCount := 0, ctrl := c.ctrl.(busy := false))
  {
    CompleteSpares(d, ch, error, ch, live);
    hide Complete, Unchained;
  }

  /** A trigger arms an enabled channel with its whole count, no pace and no error
      flags; a disabled channel, or one that does not exist, is not started. */
  lemma TriggerArms(d: Dma, ch: nat)
    requires d.Valid()
    ensures ch >= 12 || !d.chan[ch].ctrl.en ==> Trigger(d, ch) == d
    ensures ch < 12 && d.chan[ch].ctrl.en && d.chan[ch].transCount > 0 ==>
              var (c, e) := (d.chan[ch], Trigger(d, ch));
              && e.chan[ch].remaining == e.chan[ch].transCount == c.transCount && e.chan[ch].paceAccum == 0
              && e.chan[ch].ctrl.busy && !e.chan[ch].ctrl.readError && !e.chan[ch].ctrl.writeError
              && e.chan[ch].readAddr == c.readAddr && e.chan[ch].writeAddr == c.writeAddr
              && Config(e.chan[ch].ctrl) == Config(c.ctrl)
              && e.intr == d.intr && e.mem == d.mem
              && (forall i :: 0 <= i < 12 && i != ch ==> e.chan[i] == d.chan[i])
  {
  }

  // ---------------------------------------------------------------- bus errors

  /** A channel stopped by a bus error: one flag more, idle, both counters 0. */
  predicate Stopped(c: Channel, e: Channel, read: bool) {
    e == c.(remaining := 0, transCount := 0,
            ctrl := c.ctrl.(busy := false, readError := c.ctrl.readError || read,
                            writeError := c.ctrl.writeError || !read))
  }

  /** An element whose source cannot be read, or whose target cannot be written, stops its
      channel with the flag that tells which, raises no interrupt, starts no other
      channel and leaves memory and checksum alone. */
  lemma ErrorStops(d: Dma, ch: nat)
    requires d.Valid() && ch < CHANNELS && d.chan[ch].remaining > 0
    ensures var (c, e, s) := (d.chan[ch], MoveOne(d, ch).0, SizeOf(d.chan[ch].ctrl.dataSize));
            var (readable, writable) := (ReadStatus(c.readAddr, s) == Ok, WriteStatus(c.writeAddr, s) == Ok);
            if readable && writable then e.log == d.log + [ch]
            else
              && e == d.(chan := e.chan) && |e.chan| == CHANNELS
              && (forall i :: 0 <= i < CHANNELS && i != ch ==> e.chan[i] == d.chan[i])
              && Stopped(c, e.chan[ch], !readable)
  {
    hide ReadStatus, WriteStatus, Store, Shaped, Loaded, SniffFeed, Advanced;
    MoveLogs(d, ch);
    var moved := Transfer(d.mem, d.chan[ch]);
    if !moved.ok {
      var t := TransferOne(d, ch).0;
      assert MoveOne(d, ch).0 == Done(t, ch, true);
    }
  }
}
