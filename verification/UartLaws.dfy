/** What every run of the UART keeps, and its rates. */
module UartLaws {
  // No byte is lost, doubled or reordered on the way out, every fed character is
  // accounted for, frames take their length in bit ticks, and clocking does not
  // depend on how cycles are batched.
  import opened MemoryBus
  import opened Words
  import opened WordLemmas
  import opened UartModel

  // ------------------------------------------------------------- conservation

  function SentBytes(s: seq<Sent>): seq<Byte> { seq(|s|, i requires 0 <= i < |s| => s[i].data) }

  function Arrived(a: seq<Arrival>): seq<Entry> { seq(|a|, i requires 0 <= i < |a| => a[i].entry) }

  function Kept(a: seq<Arrival>): seq<Entry> {
    if a == [] then []
    else Kept(a[..|a| - 1]) + if a[|a| - 1].kept then [a[|a| - 1].entry] else []
  }

  /** Accepted bytes are the ones drained, logged, in flight and queued, in that
      order, and every sent byte took its frame length. */
  predicate TxConserved(t: Tx, now: nat) {
    && t.accepted == SentBytes(t.sent) + (if t.left > 0 then [t.shift] else []) + t.fifo
    && SentBytes(t.sent) == t.drained + t.log
    && |t.fifo| <= FIFO_DEPTH
    && (forall i :: 0 <= i < |t.sent| ==> t.sent[i].end == t.sent[i].start + t.sent[i].bits)
    && (t.left > 0 ==> t.loaded + t.bits == now + t.left && t.left <= t.bits)
  }

  /** Fed characters are the ones that arrived, the one in flight and the ones
      on the wire, in that order; the ones the FIFO took are those read and
      those still queued; one is lost exactly when it meets a full FIFO. */
  predicate RxConserved(r: Rx, now: nat) {
    && r.fed == Arrived(r.arrivals) + (if r.left > 0 then [r.shift] else []) + r.wire
    && Kept(r.arrivals) == r.read + r.fifo
    && |r.fifo| <= FIFO_DEPTH
    && (forall i :: 0 <= i < |r.arrivals| ==>
          && r.arrivals[i].end == r.arrivals[i].start + r.arrivals[i].bits
          && r.arrivals[i].kept == (r.arrivals[i].depth < FIFO_DEPTH))
    && (r.left > 0 ==> r.loaded + r.bits == now + r.left && r.left <= r.bits)
  }

  /** OE stands exactly if a character was lost since it was last cleared. */
  predicate OverrunKnown(e: Errors, a: seq<Arrival>) {
    e.clearedAt <= |a| && (e.oe <==> exists i :: e.clearedAt <= i < |a| && !a[i].kept)
  }

  predicate Conserved(u: Uart) {
    TxConserved(u.tx, u.ticks) && RxConserved(u.rx, u.ticks) && OverrunKnown(u.errors, u.rx.arrivals)
  }

  lemma TxTick(t: Tx, l: Line, enabled: bool, now: nat)
    requires TxConserved(t, now)
    ensures TxConserved(TickTx(t, l, enabled, now + 1), now + 1)
  {
    var t' := TickTx(t, l, enabled, now + 1);
    if t.left == 1 {
      assert SentBytes(t'.sent) == SentBytes(t.sent) + [t.shift];
    } else if t.left == 0 && t'.left > 0 {
      assert t.fifo == [t.fifo[0]] + t.fifo[1..];
    }
  }

  lemma RxTick(r: Rx, l: Line, enabled: bool, now: nat)
    requires RxConserved(r, now)
    ensures RxConserved(TickRx(r, l, enabled, now + 1), now + 1)
  {
    var r' := TickRx(r, l, enabled, now + 1);
    if r.left == 1 {
      assert Arrived(r'.arrivals) == Arrived(r.arrivals) + [r.shift];
      assert r'.arrivals[..|r'.arrivals| - 1] == r.arrivals;
    } else if r.left == 0 && r'.left > 0 {
      assert r.wire == [r.wire[0]] + r.wire[1..];
    }
  }

  lemma ErrorsTick(e: Errors, r: Rx, l: Line, enabled: bool, now: nat)
    requires OverrunKnown(e, r.arrivals)
    ensures OverrunKnown(TickErrors(e, r), TickRx(r, l, enabled, now).arrivals)
  {
    var (a, a') := (r.arrivals, TickRx(r, l, enabled, now).arrivals);
    if r.left == 1 {
      assert forall i :: 0 <= i < |a| ==> a'[i] == a[i];
      if |r.fifo| >= FIFO_DEPTH {
        assert !a'[|a|].kept;
      }
    }
  }

  lemma TickConserves(u: Uart)
    requires Conserved(u)
    ensures Conserved(TickBit(u))
  {
    hide TxConserved, RxConserved, OverrunKnown, TickTx, TickRx, TickErrors;
    TxTick(u.tx, u.line, u.enables.tx, u.ticks);
    RxTick(u.rx, u.line, u.enables.rx, u.ticks);
    ErrorsTick(u.errors, u.rx, u.line, u.enables.rx, u.ticks + 1);
  }

  lemma {:induction false} TicksConserve(u: Uart, n: nat)
    requires Conserved(u)
    ensures Conserved(TickBits(u, n))
    decreases n
  {
    hide Conserved, TickBit;
    if n > 0 {
      TicksConserve(u, n - 1);
      TickConserves(TickBits(u, n - 1));
    }
  }

  lemma {:induction false} ClocksConserve(u: Uart, n: nat)
    requires Conserved(u)
    ensures Conserved(UartClocks(u, n))
    decreases n
  {
    hide TxConserved, RxConserved, OverrunKnown;
    if n > 0 {
      ClocksConserve(u, n - 1);
      var v := UartClocks(u, n - 1);
      var period := BitPeriod(v.line);
      if period != 0 {
        DivMod(v.rates.bitAccum + 64, period);
        TicksConserve(v.(rates := v.rates.(bitAccum := (v.rates.bitAccum + 64) % period)),
          (v.rates.bitAccum + 64) / period);
      }
    }
  }

  lemma EventConserves(u: Uart, e: Event)
    requires u.Valid() && Conserved(u)
    ensures Conserved(Apply(u, e))
  {
    match e
    case WriteData(b) =>
    case ReadData =>
      if u.rx.fifo != [] {
        assert u.rx.fifo == [u.rx.fifo[0]] + u.rx.fifo[1..];
      }
    case ClearErrors =>
    case ClearFlags(flags) =>
    case SetLine(line) =>
    case SetEnables(enables) =>
    case SetClock(uartHz, sysHz) =>
    case FeedWire(entry) =>
    case TakeOutput =>
    case Cycles(n) =>
      hide TxConserved, RxConserved, OverrunKnown;
      if u.enables.uart {
        var due := Due(u.rates, n);
        DivMod(due, u.rates.sysHz);
        ClocksConserve(u.(rates := u.rates.(clkAccum := due % u.rates.sysHz)), due / u.rates.sysHz);
      }
  }

  /** Conservation holds after every interleaving of register accesses, fed characters and cycles. */
  lemma {:induction false} RunConserves(u: Uart, events: seq<Event>)
    requires u.Valid() && Conserved(u)
    ensures Conserved(Run(u, events))
    decreases |events|
  {
    hide Conserved, Apply;
    if events != [] {
      RunConserves(u, events[..|events| - 1]);
      EventConserves(Run(u, events[..|events| - 1]), events[|events| - 1]);
    }
  }

  /** The reset state, with any clock rates. */
  function Reset(uartHz: nat, sysHz: nat): Uart {
    Uart(Tx([], 0, 0, [], [], [], [], 0, 0), Rx([], [], 0, Entry(0, 0), [], [], [], 0, 0),
         Line(0, false, false, false, 0, 0), Enables(false, true, true), Errors(false, 0, {}, 0),
         Rates(uartHz, sysHz, 0, 0), 0)
  }

  /** From reset: the bytes that left are a prefix of the bytes accepted, in
      order, and the bytes read are those fed less those lost to a full FIFO. */
  lemma RunsDeliverInOrder(uartHz: nat, sysHz: nat, events: seq<Event>)
    requires sysHz >= 1
    ensures var u := Run(Reset(uartHz, sysHz), events);
            && Conserved(u)
            && u.tx.drained + u.tx.log <= u.tx.accepted
            && u.rx.read <= Kept(u.rx.arrivals)
            && Arrived(u.rx.arrivals) <= u.rx.fed
  {
    hide Run;
    var u := Reset(uartHz, sysHz);
    assert Conserved(u);
    RunConserves(u, events);
  }

  // ------------------------------------------------------------------- rates

  /** Bit ticks of `n` UARTCLK cycles: one every `period / 64`, the remainder carried. */
  lemma {:induction false} ClocksTick(u: Uart, n: nat)
    requires BitPeriod(u.line) > 0
    ensures var (r, period, x) := (UartClocks(u, n), BitPeriod(u.line), u.rates.bitAccum + 64 * n);
            && x / period >= 0 && x % period >= 0
            && (n > 0 ==> r.ticks == u.ticks + x / period && r.rates.bitAccum == x % period)
            && (n == 0 ==> r == u)
    decreases n
  {
    hide TickBits;
    var (period, x) := (BitPeriod(u.line), u.rates.bitAccum + 64 * n);
    DivMod(x, period);
    if n > 0 {
      ClocksTick(u, n - 1);
      ClocksKeep(u, n - 1);
      var v := UartClocks(u, n - 1);
      DivMod(v.rates.bitAccum + 64, period);
      TicksKeep(v.(rates := v.rates.(bitAccum := (v.rates.bitAccum + 64) % period)), (v.rates.bitAccum + 64) / period);
      Carried(u.rates.bitAccum + 64 * (n - 1), 64, period);
    }
  }

  /** Without a divisor there are no bit ticks. */
  lemma {:induction false} NoDivisor(u: Uart, n: nat)
    requires BitPeriod(u.line) == 0
    ensures UartClocks(u, n) == u
    decreases n
  {
    if n > 0 {
      NoDivisor(u, n - 1);
    }
  }

  /** The nested rate law: with both accumulators counted in, `cycles` system
      clocks bring exactly the floor of the floor in bit ticks.  An accumulator
      left above a period that was made shorter is worked off at the next UARTCLK. */
  lemma CyclesTick(u: Uart, cycles: nat)
    requires u.Valid() && u.enables.uart
    ensures var (clocks, period) := (Due(u.rates, cycles) / u.rates.sysHz, BitPeriod(u.line));
            clocks >= 0 &&
            if period == 0 || clocks == 0
            then OnCycles(u, cycles).ticks == u.ticks && OnCycles(u, cycles).rates.bitAccum == u.rates.bitAccum
            else
              var x := u.rates.bitAccum + 64 * clocks;
              && x / period >= 0
              && OnCycles(u, cycles).ticks == u.ticks + x / period
              && OnCycles(u, cycles).rates.bitAccum == x % period
  {
    var due := Due(u.rates, cycles);
    DivMod(due, u.rates.sysHz);
    var v := u.(rates := u.rates.(clkAccum := due % u.rates.sysHz));
    if BitPeriod(u.line) == 0 {
      NoDivisor(v, due / u.rates.sysHz);
    } else {
      ClocksTick(v, due / u.rates.sysHz);
    }
  }

  // ----------------------------------------------------------------- batching

  lemma {:induction false} TicksIgnoreClock(u: Uart, k: nat, n: nat)
    ensures TickBits(u.(rates := u.rates.(clkAccum := k)), n)
         == TickBits(u, n).(rates := TickBits(u, n).rates.(clkAccum := k))
    decreases n
  {
    hide TickTx, TickRx, TickErrors;
    if n > 0 {
      TicksIgnoreClock(u, k, n - 1);
    }
  }

  lemma {:induction false} ClocksIgnoreClock(u: Uart, k: nat, n: nat)
    ensures UartClocks(u.(rates := u.rates.(clkAccum := k)), n)
         == UartClocks(u, n).(rates := UartClocks(u, n).rates.(clkAccum := k))
    decreases n
  {
    hide TickBits;
    if n > 0 {
      ClocksIgnoreClock(u, k, n - 1);
      var v := UartClocks(u, n - 1);
      var period := BitPeriod(v.line);
      if period != 0 {
        DivMod(v.rates.bitAccum + 64, period);
        TicksIgnoreClock(v.(rates := v.rates.(bitAccum := (v.rates.bitAccum + 64) % period)), k,
          (v.rates.bitAccum + 64) / period);
      }
    }
  }

  lemma {:induction false} ClocksAdd(u: Uart, m: nat, n: nat)
    ensures UartClocks(UartClocks(u, m), n) == UartClocks(u, m + n)
    decreases n
  {
    hide UartClock;
    if n > 0 {
      ClocksAdd(u, m, n - 1);
    }
  }

  /** Clocking a and then b system cycles is clocking a + b of them. */
  lemma CyclesAdd(u: Uart, a: nat, b: nat)
    requires u.Valid()
    ensures OnCycles(u, a).Valid() && OnCycles(OnCycles(u, a), b) == OnCycles(u, a + b)
  {
    CyclesKeep(u, a);
    if u.enables.uart {
      hide UartClocks;
      var (s, hz) := (u.rates.sysHz, u.rates.uartHz);
      var due := Due(u.rates, a);
      DivMod(due, s);
      var (m, k) := (due / s, due % s);
      var v := u.(rates := u.rates.(clkAccum := k));
      ClocksKeep(v, m);
      var after := UartClocks(v, m);
      assert OnCycles(u, a) == after;
      Carried(due, b * hz, s);
      Distrib(hz, a, b);
      assert Due(u.rates, a + b) == due + b * hz;
      var due' := Due(after.rates, b);
      DivMod(due', s);
      var (n, k') := (due' / s, due' % s);
      ClocksIgnoreClock(u, k, m);
      ClocksIgnoreClock(UartClocks(u, m), k', n);
      ClocksIgnoreClock(u, k', m + n);
      ClocksAdd(u, m, n);
    }
  }
}
