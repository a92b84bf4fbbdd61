/** The UART as an object: shift registers and accumulators changed in place. */
module UartObject {
  import opened MemoryBus
  import opened Words
  import opened WordLemmas
  import M = UartModel
  import opened UartModel
  import L = UartLaws

  class Uart {
    var rxFifo: seq<Entry>
    var rxWire: seq<Entry>
    var txFifo: seq<Byte>
    var txLog: seq<Byte>
    var line: Line
    var enables: Enables
    var sticky: set<Flag>
    var lastRxErr: nat
    var overrun: bool
    var uartHz: nat
    var sysHz: nat
    var clkAccum: nat
    var bitAccum: nat
    var txBitsLeft: nat
    var txShift: Byte
    var rxBitsLeft: nat
    var rxShift: Entry

    // history
    ghost var accepted: seq<Byte>
    ghost var drained: seq<Byte>
    ghost var sent: seq<Sent>
    ghost var txLoaded: nat
    ghost var txBits: nat
    ghost var fed: seq<Entry>
    ghost var taken: seq<Entry>
    ghost var arrivals: seq<Arrival>
    ghost var rxLoaded: nat
    ghost var rxBits: nat
    ghost var clearedAt: nat
    ghost var ticks: nat

    ghost function TxView(): Tx
      reads this`txFifo, this`txBitsLeft, this`txShift, this`txLog, this`accepted, this`drained, this`sent,
            this`txLoaded, this`txBits
    {
      Tx(txFifo, txBitsLeft, txShift, txLog, accepted, drained, sent, txLoaded, txBits)
    }

    ghost function RxView(): Rx
      reads this`rxFifo, this`rxWire, this`rxBitsLeft, this`rxShift, this`fed, this`taken, this`arrivals,
            this`rxLoaded, this`rxBits
    {
      Rx(rxFifo, rxWire, rxBitsLeft, rxShift, fed, taken, arrivals, rxLoaded, rxBits)
    }

    ghost function ErrorsView(): Errors
      reads this`overrun, this`lastRxErr, this`sticky, this`clearedAt
    {
      Errors(overrun, lastRxErr, sticky, clearedAt)
    }

    ghost function View(): M.Uart
      reads this
    {
      M.Uart(TxView(), RxView(), line, enables, ErrorsView(), Rates(uartHz, sysHz, clkAccum, bitAccum), ticks)
    }

    constructor (uartHz: nat, sysHz: nat)
      ensures View() == M.Uart(Tx([], 0, 0, [], [], [], [], 0, 0), Rx([], [], 0, Entry(0, 0), [], [], [], 0, 0),
                               Line(0, false, false, false, 0, 0), Enables(false, true, true), Errors(false, 0, {}, 0),
                               Rates(uartHz, sysHz, 0, 0), 0)
    {
      rxFifo, rxWire, txFifo, txLog := [], [], [], [];
      line, enables := Line(0, false, false, false, 0, 0), Enables(false, true, true);
      sticky, lastRxErr, overrun := {}, 0, false;
      this.uartHz, this.sysHz, clkAccum, bitAccum := uartHz, sysHz, 0, 0;
      txBitsLeft, txShift, rxBitsLeft, rxShift := 0, 0, 0, Entry(0, 0);
      accepted, drained, sent, txLoaded, txBits := [], [], [], 0, 0;
      fed, taken, arrivals, rxLoaded, rxBits := [], [], [], 0, 0;
      clearedAt, ticks := 0, 0;
    }

    method FeedWire(entry: Entry)
      modifies this`rxWire, this`fed
      ensures RxView() == old(RxView()).(wire := old(rxWire) + [entry], fed := old(fed) + [entry])
    {
      rxWire := rxWire + [entry];
      fed := fed + [entry];
    }

    method WriteData(b: Byte)
      modifies this`txFifo, this`accepted
      ensures View() == WriteDr(old(View()), b)
    {
      hide RxView, ErrorsView;
      if |txFifo| < FIFO_DEPTH {
        txFifo := txFifo + [b];
        accepted := accepted + [b];
      }
    }

    method ReadData() returns (value: nat)
      modifies this`rxFifo, this`taken, this`lastRxErr
      ensures (View(), value) == ReadDr(old(View()))
    {
      hide TxView;
      value := 0;
      if rxFifo != [] {
        var e := rxFifo[0];
        value := e.data + 256 * e.err + if overrun then 2048 else 0;
        ghost var rx := RxView();
        rxFifo := rxFifo[1..];
        taken := taken + [e];
        assert RxView() == rx.(fifo := rx.fifo[1..], read := rx.read + [e]);
        lastRxErr := e.err;
      }
    }

    method ClearErrors()
      modifies this`lastRxErr, this`overrun, this`sticky, this`clearedAt
      ensures ErrorsView() == Errors(false, 0, old(sticky) - {FE, PE, BE, OE}, |arrivals|)
    {
      lastRxErr, overrun := 0, false;
      sticky := sticky - {FE, PE, BE, OE};
      clearedAt := |arrivals|;
    }

    method TakeOutput() returns (bytes: seq<Byte>)
      modifies this`txLog, this`drained
      ensures bytes == old(txLog) && TxView() == old(TxView()).(log := [], drained := old(drained) + bytes)
    {
      bytes := txLog;
      txLog := [];
      drained := drained + bytes;
    }

    method TickTxBit()
      modifies this`txBitsLeft, this`txLog, this`txShift, this`txFifo, this`sent, this`txLoaded, this`txBits
      ensures TxView() == TickTx(old(TxView()), line, enables.tx, ticks + 1)
    {
      if txBitsLeft > 0 {
        txBitsLeft := txBitsLeft - 1;
        if txBitsLeft == 0 {
          txLog := txLog + [txShift];
          sent := sent + [Sent(txShift, txLoaded, ticks + 1, txBits)];
        }
        return;
      }
      if !enables.tx || line.sendBreak || txFifo == [] {
        return;
      }
      txShift := txFifo[0];
      txFifo := txFifo[1..];
      txBitsLeft := BitsPerFrame(line);
      txLoaded, txBits := ticks + 1, txBitsLeft;
    }

    /** The last bit of a character is in: the FIFO takes it, or it is lost. */
    method Arrive()
      modifies this`rxFifo, this`sticky, this`overrun, this`arrivals
      ensures var (r, kept) := (old(RxView()), |old(rxFifo)| < FIFO_DEPTH);
              RxView() == r.(fifo := if kept then r.fifo + [r.shift] else r.fifo,
                             arrivals := r.arrivals + [Arrival(r.shift, kept, |r.fifo|, r.loaded, ticks + 1, r.bits)])
      ensures ErrorsView() == if |old(rxFifo)| < FIFO_DEPTH
                              then old(ErrorsView()).(sticky := old(sticky) + ErrorFlags(rxShift.err))
                              else old(ErrorsView()).(oe := true, sticky := old(sticky) + {OE})
    {
      hide ErrorFlags;
      arrivals := arrivals + [Arrival(rxShift, |rxFifo| < FIFO_DEPTH, |rxFifo|, rxLoaded, ticks + 1, rxBits)];
      if |rxFifo| < FIFO_DEPTH {
        rxFifo := rxFifo + [rxShift];
        sticky := sticky + ErrorFlags(rxShift.err);
      } else {
        overrun := true;
        sticky := sticky + {OE};
      }
    }

    method TickRxBit()
      modifies this`rxBitsLeft, this`rxFifo, this`rxShift, this`rxWire, this`sticky, this`overrun,
               this`arrivals, this`rxLoaded, this`rxBits
      ensures RxView() == TickRx(old(RxView()), line, enables.rx, ticks + 1)
      ensures ErrorsView() == TickErrors(old(ErrorsView()), old(RxView()))
    {
      hide ErrorFlags;
      if rxBitsLeft > 0 {
        rxBitsLeft := rxBitsLeft - 1;
        if rxBitsLeft == 0 {
          Arrive();
        }
        return;
      }
      if !enables.rx || rxWire == [] {
        return;
      }
      rxShift := rxWire[0];
      rxWire := rxWire[1..];
      rxBitsLeft := BitsPerFrame(line);
      rxLoaded, rxBits := ticks + 1, rxBitsLeft;
    }

    method Tick()
      modifies this`txBitsLeft, this`txLog, this`txShift, this`txFifo, this`sent, this`txLoaded, this`txBits,
               this`rxBitsLeft, this`rxFifo, this`rxShift, this`rxWire, this`sticky, this`overrun,
               this`arrivals, this`rxLoaded, this`rxBits, this`ticks
      ensures View() == TickBit(old(View()))
    {
      hide TickTx, TickRx, TickErrors, TxView, RxView, ErrorsView;
      TickTxBit();
      TickRxBit();
      ticks := ticks + 1;
    }

    /** One UARTCLK cycle of the baud rate generator. */
    method ClockOnce()
      modifies this`txBitsLeft, this`txLog, this`txShift, this`txFifo, this`sent, this`txLoaded, this`txBits,
               this`rxBitsLeft, this`rxFifo, this`rxShift, this`rxWire, this`sticky, this`overrun,
               this`arrivals, this`rxLoaded, this`rxBits, this`ticks, this`bitAccum
      ensures View() == UartClock(old(View()))
    {
      hide TickBit, TxView, RxView, ErrorsView;
      var period := BitPeriod(line);
      if period == 0 {
        return;
      }
      ghost var start := View();
      ghost var due := bitAccum + 64;
      bitAccum := bitAccum + 64;
      ghost var n := 0;
      assert View() == WithBits(start, bitAccum);
      while bitAccum >= period
        invariant due == Times(period, n) + bitAccum
        invariant View() == TickBits(WithBits(start, bitAccum), n)
        decreases bitAccum
      {
        BitsMove(start, bitAccum, bitAccum - period, n);
        OneMore(period, n);
        TakeBit(period);
        n := n + 1;
      }
      Shared(due, period, n, bitAccum);
      assert UartClock(start) == TickBits(WithBits(start, bitAccum), n);
    }

    /** One bit period off the accumulator, and its tick. */
    method TakeBit(period: nat)
      requires bitAccum >= period
      modifies this`txBitsLeft, this`txLog, this`txShift, this`txFifo, this`sent, this`txLoaded, this`txBits,
               this`rxBitsLeft, this`rxFifo, this`rxShift, this`rxWire, this`sticky, this`overrun,
               this`arrivals, this`rxLoaded, this`rxBits, this`ticks, this`bitAccum
      ensures bitAccum == old(bitAccum) - period
      ensures View() == TickBit(WithBits(old(View()), old(bitAccum) - period))
    {
      hide TickBit, TxView, RxView, ErrorsView;
      bitAccum := bitAccum - period;
      Tick();
    }

    /** One UARTCLK cycle off the accumulator. */
    method TakeClock()
      requires clkAccum >= sysHz
      modifies this`txBitsLeft, this`txLog, this`txShift, this`txFifo, this`sent, this`txLoaded, this`txBits,
               this`rxBitsLeft, this`rxFifo, this`rxShift, this`rxWire, this`sticky, this`overrun,
               this`arrivals, this`rxLoaded, this`rxBits, this`ticks, this`bitAccum, this`clkAccum
      ensures clkAccum == old(clkAccum) - sysHz
      ensures View() == UartClock(WithClock(old(View()), old(clkAccum) - sysHz))
    {
      hide UartClock, TxView, RxView, ErrorsView;
      clkAccum := clkAccum - sysHz;
      ClockOnce();
    }

    /** Advance by `cycles` system clocks. */
    method OnCycles(cycles: nat)
      requires sysHz >= 1
      modifies this`txBitsLeft, this`txLog, this`txShift, this`txFifo, this`sent, this`txLoaded, this`txBits,
               this`rxBitsLeft, this`rxFifo, this`rxShift, this`rxWire, this`sticky, this`overrun,
               this`arrivals, this`rxLoaded, this`rxBits, this`ticks, this`bitAccum, this`clkAccum
      ensures View() == M.OnCycles(old(View()), cycles)
    {
      hide UartClock, TxView, RxView, ErrorsView;
      if !enables.uart {
        return;
      }
      ghost var start := View();
      clkAccum := clkAccum + cycles * uartHz;
      ghost var due := clkAccum;
      ghost var n := 0;
      assert View() == WithClock(start, clkAccum);
      while clkAccum >= sysHz
        invariant due == Times(sysHz, n) + clkAccum
        invariant View() == UartClocks(WithClock(start, clkAccum), n)
        decreases clkAccum
      {
        ClockMoves(start, clkAccum, clkAccum - sysHz, n);
        OneMore(sysHz, n);
        TakeClock();
        n := n + 1;
      }
      Shared(due, sysHz, n, clkAccum);
      assert M.OnCycles(start, cycles) == UartClocks(WithClock(start, clkAccum), n);
    }
  }

  ghost function WithBits(u: M.Uart, bits: nat): M.Uart { u.(rates := u.rates.(bitAccum := bits)) }

  ghost function WithClock(u: M.Uart, clk: nat): M.Uart { u.(rates := u.rates.(clkAccum := clk)) }

  lemma OneMore(p: nat, n: nat)
    ensures Times(p, n + 1) == Times(p, n) + p
  {
    Distrib(p, n, 1);
  }

  /** The loop has taken `p` off `n` times and cannot again. */
  lemma Shared(due: nat, p: nat, n: nat, left: nat)
    requires due == Times(p, n) + left && left < p
    ensures due / p == n && due % p == left
  {
    DivUnique(due, p, n, left);
  }

  /** The bit accumulator is not read by the ticks it brings. */
  lemma {:induction false} BitsMove(u: M.Uart, from: nat, bits: nat, n: nat)
    ensures TickBits(WithBits(u, bits), n) == WithBits(TickBits(WithBits(u, from), n), bits)
    decreases n
  {
    hide TickTx, TickRx, TickErrors;
    if n > 0 {
      BitsMove(u, from, bits, n - 1);
    }
  }

  lemma ClockMoves(u: M.Uart, from: nat, clk: nat, n: nat)
    ensures UartClocks(WithClock(u, clk), n) == WithClock(UartClocks(WithClock(u, from), n), clk)
  {
    L.ClocksIgnoreClock(WithClock(u, from), clk, n);
  }
}
