/** The DMA controller as an object over a memory object: channels in a fixed
    array, clocked in nested loops. */
module DmaObject {
  import opened Words
  import opened WordLemmas
  import opened MemoryBus
  import opened MemoryObject
  import opened DmaTransfer
  import opened DmaSniffer
  import opened DmaModel
  import DmaRuns

  class DmaController {
    const mem: Memory
    const chan: array<Channel>
    const timers: array<(nat, nat)>
    var intr: set<nat>
    var sniff: Sniff
    var divisor: nat
    var chainDepth: nat
    ghost var log: seq<nat>

    ghost predicate Valid()
      reads this, mem
    {
      mem.Valid() && chan.Length == CHANNELS && timers.Length == 4 && divisor >= 1
    }

    ghost function View(): (d: Dma)
      requires Valid()
      reads this, chan, timers, mem, mem.rom, mem.flash, mem.sram
      ensures d.Valid()
    {
      Dma(mem.View(), chan[..], intr, sniff, timers[..], divisor, chainDepth, log)
    }

    constructor (mem: Memory)
      requires mem.Valid()
      ensures Valid() && this.mem == mem && fresh(chan) && fresh(timers)
      ensures intr == {} && divisor == 2 && chainDepth == 0 && log == []
      ensures forall i :: 0 <= i < CHANNELS ==> chan[i] == RESET_CHANNEL
    {
      this.mem := mem;
      chan := new Channel[CHANNELS](_ => RESET_CHANNEL);
      timers := new (nat, nat)[4](_ => (0, 0));
      intr, divisor, chainDepth, log := {}, 2, 0, [];
      sniff := Sniff(false, 0, 0, false, 0);
    }

    /** The CRC of one byte, a shift at a time. */
    method FoldByte(s: Word, b: Byte) returns (r: Word)
      ensures r == FeedByte(sniff.mode, s, b)
    {
      hide NormalShift, ReflectedShift, WordXor;
      r := s;
      match sniff.mode
      case 0 =>
        r := WordXor(r, b * 0x100_0000);
        for k := 0 to 8
          invariant r == NormalShifts(WordXor(s, b * 0x100_0000), 32, POLY_32, k)
        {
          r := NormalShift(r, 32, POLY_32);
        }
      case 1 =>
        r := WordXor(r, b);
        for k := 0 to 8
          invariant r == ReflectedShifts(WordXor(s, b), POLY_32_REFLECTED, k)
        {
          r := ReflectedShift(r, POLY_32_REFLECTED);
        }
      case 2 =>
        var c := WordXor(r % 0x1_0000, b * 0x100);
        for k := 0 to 8
          invariant c == NormalShifts(WordXor(s % 0x1_0000, b * 0x100), 16, POLY_16, k)
        {
          c := NormalShift(c, 16, POLY_16);
        }
        r := c % 0x1_0000;
      case 3 =>
        var c := WordXor(r % 0x1_0000, b);
        for k := 0 to 8
          invariant c == ReflectedShifts(WordXor(s % 0x1_0000, b), POLY_16_REFLECTED, k)
        {
          c := ReflectedShift(c, POLY_16_REFLECTED);
        }
        r := c % 0x1_0000;
      case _ =>
    }

    /** One transferred element folded into the checksum, lowest byte first. */
    method FeedSniffer(ch: nat, watched: bool, value: Word, size: nat)
      modifies this`sniff
      ensures sniff == SniffFeed(old(sniff), ch, watched, value, size)
    {
      hide FeedByte, ByteSwap, WordXor;
      if !sniff.en || sniff.channel != ch || !watched {
        return;
      }
      var v := if sniff.bswap then ByteSwap(value, size) else value;
      if sniff.mode == SUM_ALL {
        sniff := sniff.(data := Wrap(sniff.data + v));
        return;
      }
      if sniff.mode == XOR_ALL {
        sniff := sniff.(data := WordXor(sniff.data, v));
        return;
      }
      var rest: nat := v;
      for i := 0 to size
        invariant sniff == old(sniff).(data := sniff.data)
        invariant Feed(sniff.mode, sniff.data, BytesOf(rest, size - i))
            == Feed(sniff.mode, old(sniff).data, BytesOf(v, size))
      {
        ghost var bytes := BytesOf(rest, size - i);
        assert bytes[0] == rest % 256 && bytes[1..] == BytesOf(rest / 256, size - i - 1);
        var folded := FoldByte(sniff.data, rest % 256);
        sniff := sniff.(data := folded);
        rest := rest / 256;
      }
    }

    /** The two bus accesses of an element. */
    method MoveBytes(c: Channel) returns (value: Word, rs: BusStatus, ws: BusStatus)
      requires Valid()
      modifies mem.sram
      ensures rs == ReadStatus(c.readAddr, Step(c.ctrl))
      ensures rs != Ok ==> mem.View() == old(mem.View())
      ensures rs == Ok ==> value == Shaped(c.ctrl, Loaded(old(mem.View()), c))
      ensures rs == Ok ==> ws == WriteStatus(c.writeAddr, Step(c.ctrl))
      ensures rs == Ok ==> mem.View() == Write(old(mem.View()), c.writeAddr, value, Step(c.ctrl))
    {
      hide ValueAt, ByteSwap, Write, WriteStatus;
      var step := Step(c.ctrl);
      ghost var before := mem.View();
      var v, status := mem.ReadScalar(c.readAddr, step);
      value, rs, ws := 0, status, Ok;
      if rs != Ok {
        return;
      }
      ValueBound(before, c.readAddr, step);
      PowersOf256();
      value := v;
      if c.ctrl.bswap {
        value := ByteSwap(value, step);
      }
      ws := mem.WriteScalar(c.writeAddr, value, step);
    }

    /** Move one element; false on a bus error, with its flag set. */
    method MoveElement(ch: nat) returns (ok: bool)
      requires Valid() && ch < CHANNELS
      modifies this`sniff, this`log, chan, mem.sram
      ensures Valid() && (View(), ok) == TransferOne(old(View()), ch)
    {
      hide SniffFeed, Store, NextAddress, ReadStatus, WriteStatus, Loaded, Shaped, Step;
      var c := chan[ch];
      ghost var moved := Transfer(mem.View(), c);
      var value, rs, ws := MoveBytes(c);
      if rs != Ok {
        chan[ch] := c.(ctrl := c.ctrl.(readError := true));
        assert moved == Moved(mem.View(), chan[ch], false, 0);
        return false;
      }
      if ws != Ok {
        chan[ch] := c.(ctrl := c.ctrl.(writeError := true));
        assert moved == Moved(mem.View(), chan[ch], false, value);
        return false;
      }
      var step := Step(c.ctrl);
      FeedSniffer(ch, c.ctrl.sniffEn, value, step);
      var readAddr, writeAddr := c.readAddr, c.writeAddr;
      if c.ctrl.incrRead {
        readAddr := NextAddress(readAddr, step, ReadRing(c.ctrl));
      }
      if c.ctrl.incrWrite {
        writeAddr := NextAddress(writeAddr, step, WriteRing(c.ctrl));
      }
      chan[ch] := c.(readAddr := readAddr, writeAddr := writeAddr);
      log := log + [ch];
      assert moved == Moved(mem.View(), chan[ch], true, value);
      ok := true;
    }

    method Trigger(ch: nat)
      requires Valid()
      modifies this`intr, this`chainDepth, chan
      ensures Valid() && View() == DmaModel.Trigger(old(View()), ch)
      decreases CHANNELS + 1 - chainDepth, 1
    {
      if ch >= CHANNELS || !chan[ch].ctrl.en {
        return;
      }
      chan[ch] := Armed(chan[ch]);
      ghost var armed := View();
      if chan[ch].remaining == 0 {
        if chainDepth <= CHANNELS {
          chainDepth := chainDepth + 1;
          Complete(ch, false);
          chainDepth := chainDepth - 1;
        }
      }
    }

    method Complete(ch: nat, error: bool)
      requires Valid() && ch < CHANNELS
      modifies this`intr, this`chainDepth, chan
      ensures Valid() && View() == DmaModel.Complete(old(View()), ch, error)
      decreases CHANNELS + 1 - chainDepth, 2
    {
      chan[ch] := Finished(chan[ch]);
      if !error && !chan[ch].ctrl.quiet {
        intr := intr + {ch};
      }
      if error {
        return;
      }
      var next := chan[ch].ctrl.chainTo;
      if next != ch && next < CHANNELS {
        Trigger(next);
      }
    }

    /** A transfer with its bookkeeping; `more` says whether this channel's run goes on. */
    method Advance(ch: nat) returns (more: bool)
      requires Valid() && ch < CHANNELS && chan[ch].remaining > 0
      modifies this`intr, this`chainDepth, this`sniff, this`log, chan, mem.sram
      ensures Valid() && (View(), more) == MoveOne(old(View()), ch)
    {
      hide TransferOne, DmaModel.Complete;
      DmaRuns.TransferKeepsCounters(View(), ch);
      var ok := MoveElement(ch);
      if !ok {
        Complete(ch, true);
        return false;
      }
      chan[ch] := chan[ch].(remaining := chan[ch].remaining - 1);
      if chan[ch].remaining == 0 {
        Complete(ch, false);
        return false;
      }
      return true;
    }

    /** Elements of channel `ch` for one clock, while budget and count last. */
    method Drain(ch: nat, budget: nat)
      requires Valid() && ch < CHANNELS
      modifies this`intr, this`chainDepth, this`sniff, this`log, chan, mem.sram
      ensures Valid() && View() == Burst(old(View()), ch, budget)
    {
      hide MoveOne;
      var left := budget;
      while left > 0 && chan[ch].remaining > 0
        invariant Valid() && Burst(View(), ch, left) == Burst(old(View()), ch, budget)
        decreases left
      {
        var more := Advance(ch);
        left := left - 1;
        if !more {
          break;
        }
      }
    }

    /** One channel's share of a clock. */
    method ClockOne(ch: nat, ready: Ready)
      requires Valid() && ch < CHANNELS
      modifies this`intr, this`chainDepth, this`sniff, this`log, chan, mem.sram
      ensures Valid() && View() == ClockChannel(old(View()), ch, ready)
    {
      hide MoveOne, Burst;
      var c := chan[ch];
      if !c.ctrl.busy || c.remaining == 0 {
        return;
      }
      if c.ctrl.treqSel < DREQS && ready != NoSource {
        if ready == Source(true) {
          var more := Advance(ch);
        }
        return;
      }
      var num, den := RateFor(c.ctrl.treqSel);
      if num == 0 {
        return;
      }
      DivMod(c.paceAccum + num, den);
      var budget := (c.paceAccum + num) / den;
      chan[ch] := c.(paceAccum := (c.paceAccum + num) % den);
      Drain(ch, budget);
    }

    method RateFor(sel: nat) returns (num: nat, den: nat)
      requires Valid()
      ensures (num, den) == Rate(View(), sel) && den >= 1
    {
      if sel == TREQ_PERMANENT {
        return 1, 1;
      }
      if TREQ_TIMER0 <= sel < TREQ_PERMANENT {
        var (x, y) := timers[sel - TREQ_TIMER0];
        if x == 0 || y == 0 {
          return 0, 1;
        }
        return x, y;
      }
      return 1, divisor;
    }

    /** Every armed channel advanced by one system clock per entry of the trace. */
    method OnCycles(trace: seq<Answers>)
      requires Valid()
      modifies this`intr, this`chainDepth, this`sniff, this`log, chan, mem.sram
      ensures Valid() && View() == Clocks(old(View()), trace)
    {
      hide ClockChannel;
      assert trace[..0] == [];
      for t := 0 to |trace|
        invariant Valid() && View() == Clocks(old(View()), trace[..t])
      {
        ghost var before := View();
        var answers := trace[t];
        for ch := 0 to CHANNELS
          invariant Valid() && ClockFrom(View(), answers, ch) == Clock(before, answers)
        {
          ClockOne(ch, answers[ch]);
        }
        assert trace[..t + 1][..t] == trace[..t];
      }
      assert trace[..|trace|] == trace;
    }
  }
}
