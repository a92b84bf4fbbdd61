/** The UART's baud rate, frames and data register, in the register fields. */
module UartMeaning {
  import opened WordLemmas
  import opened MemoryBus
  import opened UartModel
  import opened UartLaws

  // ----------------------------------------------------------------- baud rate

  /** `m` UARTCLK cycles on top of a fraction of a bit make `t` bits of
      16 (IBRD + FBRD / 64) cycles each, rounded down. */
  predicate Bits(line: Line, fraction: nat, m: nat, t: int) {
    var d := 64 * line.ibrd + line.fbrd;
    t >= 0 && 16 * (t * d) <= fraction + 64 * m < 16 * ((t + 1) * d)
  }

  lemma PeriodIs(line: Line, d: nat)
    requires d == 64 * line.ibrd + line.fbrd
    ensures BitPeriod(line) == 16 * d
  {
  }

  lemma BitsDivide(line: Line, x: nat, d: nat, t: nat)
    requires d == 64 * line.ibrd + line.fbrd && d > 0 && t == x / (16 * d)
    ensures 16 * (t * d) <= x < 16 * ((t + 1) * d)
  {
    var p := 16 * d;
    DivMod(x, p);
    Distrib(d, t, 1);
    assert p * t == 16 * (t * d);
  }

  /** The bit ticks of `m` UARTCLK cycles.  With nothing left over from before that is
      t * (64 IBRD + FBRD) <= 4 m < (t + 1) * (64 IBRD + FBRD). */
  lemma ClockBits(u: Uart, m: nat)
    requires u.line.ibrd > 0 || u.line.fbrd > 0
    ensures var t := UartClocks(u, m).ticks - u.ticks;
            && (m > 0 ==> Bits(u.line, u.rates.bitAccum, m, t))
            && (m == 0 ==> t == 0)
            && (u.rates.bitAccum == 0 ==>
                  var d := 64 * u.line.ibrd + u.line.fbrd;
                  t >= 0 && t * d <= 4 * m < (t + 1) * d)
  {
    hide UartClocks, BitPeriod;
    var d := 64 * u.line.ibrd + u.line.fbrd;
    PeriodIs(u.line, d);
    ClocksTick(u, m);
    var x := u.rates.bitAccum + 64 * m;
    DivMod(x, 16 * d);
    BitsDivide(u.line, x, d, x / (16 * d));
  }

  /** The two clocks as they are set, a 0 standing for 1; what has gathered stays. */
  lemma ClocksMean(u: Uart, uartHz: nat, sysHz: nat)
    requires u.Valid()
    ensures var v := Apply(u, SetClock(uartHz, sysHz));
            && (uartHz > 0 ==> v.rates.uartHz == uartHz) && (sysHz > 0 ==> v.rates.sysHz == sysHz)
            && (uartHz == 0 ==> v.rates.uartHz == 1) && (sysHz == 0 ==> v.rates.sysHz == 1)
            && v.rates.clkAccum == u.rates.clkAccum && v.rates.bitAccum == u.rates.bitAccum
  {
  }

  /** `a` times out of `b`, rounded down */
  predicate FloorOf(a: nat, b: nat, q: int) { q >= 0 && q * b <= a < (q + 1) * b }

  lemma FloorIs(a: nat, b: nat)
    requires b > 0
    ensures FloorOf(a, b, a / b)
  {
    DivMod(a, b);
    Distrib(b, a / b, 1);
  }

  /** From system clocks to bits: `cycles` of them are `m` cycles of the UART clock,
      and those the bits that the divisor makes of them; with UARTEN clear or no
      divisor no bit passes. */
  lemma BaudRate(u: Uart, cycles: nat) returns (m: nat)
    requires u.Valid()
    ensures FloorOf(u.rates.clkAccum + cycles * u.rates.uartHz, u.rates.sysHz, m)
    ensures var t := OnCycles(u, cycles).ticks - u.ticks;
            && (!u.enables.uart || (u.line.ibrd == 0 && u.line.fbrd == 0) ==> t == 0)
            && (u.enables.uart && (u.line.ibrd > 0 || u.line.fbrd > 0) ==>
                  && (m == 0 ==> t == 0)
                  && (m > 0 ==> Bits(u.line, u.rates.bitAccum, m, t))
                  && (u.rates.bitAccum == 0 ==>
                        var d := 64 * u.line.ibrd + u.line.fbrd;
                        t >= 0 && t * d <= 4 * m < (t + 1) * d))
  {
    hide UartClocks, Bits, FloorOf, BitPeriod;
    var due := u.rates.clkAccum + cycles * u.rates.uartHz;
    FloorIs(due, u.rates.sysHz);
    DivMod(due, u.rates.sysHz);
    m := due / u.rates.sysHz;
    if u.enables.uart {
      var v := u.(rates := u.rates.(clkAccum := due % u.rates.sysHz));
      assert OnCycles(u, cycles) == UartClocks(v, m);
      if u.line.ibrd > 0 || u.line.fbrd > 0 {
        ClockBits(v, m);
      } else {
        PeriodIs(u.line, 0);
        NoDivisor(v, m);
      }
    }
  }

  // -------------------------------------------------------------------- frames

  /** The bits of a frame: start, 5 to 8 data bits, parity, one or two stop bits. */
  function FrameBits(l: Line): nat {
    match (l.parity, l.twoStops)
    case (false, false) => l.wordLength + 7
    case (true, false) => l.wordLength + 8
    case (false, true) => l.wordLength + 8
    case (true, true) => l.wordLength + 9
  }

  /** A byte on its way out: it leaves the FIFO at the first tick, and one frame
      later, not before, it is sent. */
  lemma {:induction false} ByteTakesFrame(u: Uart, k: nat)
    requires u.tx.left == 0 && u.enables.tx && !u.line.sendBreak && u.tx.fifo != [] && 1 <= k <= FrameBits(u.line) + 1
    ensures var t := TickBits(u, k).tx;
            && t.fifo == u.tx.fifo[1..]
            && t.left == FrameBits(u.line) + 1 - k
            && t.log == if k <= FrameBits(u.line) then u.tx.log else u.tx.log + [u.tx.fifo[0]]
    ensures TickBits(u, k).tx.shift == u.tx.fifo[0]
    decreases k
  {
    hide TickRx, TickErrors;
    TicksKeep(u, k - 1);
    if k > 1 {
      ByteTakesFrame(u, k - 1);
    } else {
      assert TickBits(u, 0) == u;
    }
  }

  /** Nothing leaves while the transmitter is off, sends a break or has no byte. */
  lemma {:induction false} NothingSent(u: Uart, k: nat)
    requires u.tx.left == 0 && (!u.enables.tx || u.line.sendBreak || u.tx.fifo == [])
    ensures TickBits(u, k).tx == u.tx
    decreases k
  {
    hide TickRx, TickErrors;
    if k > 0 {
      TicksKeep(u, k - 1);
      NothingSent(u, k - 1);
    }
  }

  /** A character on its way in: one frame after its first tick it is in the FIFO, with
      the flags of its error tag raised, or lost to a full FIFO, with OE raised. */
  lemma {:induction false} CharacterTakesFrame(u: Uart, k: nat)
    requires u.rx.left == 0 && u.enables.rx && u.rx.wire != [] && 1 <= k <= FrameBits(u.line) + 1
    ensures var (r, e, c) := (TickBits(u, k).rx, TickBits(u, k).errors, u.rx.wire[0]);
            && r.wire == u.rx.wire[1..] && r.left == FrameBits(u.line) + 1 - k && r.shift == c
            && if k <= FrameBits(u.line) then r.fifo == u.rx.fifo && e == u.errors
               else if |u.rx.fifo| < 32 then r.fifo == u.rx.fifo + [c] && Raised(u.errors, e, c.err)
               else r.fifo == u.rx.fifo && e == u.errors.(oe := true, sticky := u.errors.sticky + {OE})
    decreases k
  {
    hide TickTx, ErrorFlags, Raised;
    TicksKeep(u, k - 1);
    FlagsRaise(u.errors, u.rx.wire[0].err);
    if k > 1 {
      CharacterTakesFrame(u, k - 1);
    } else {
      assert TickBits(u, 0) == u;
    }
  }

  lemma FlagsRaise(e: Errors, tag: nat)
    ensures Raised(e, e.(sticky := e.sticky + ErrorFlags(tag)), tag)
  {
  }

  /** Tag 1 raises FE, 2 PE, 4 BE; the other flags stay. */
  predicate Raised(e: Errors, f: Errors, tag: nat) {
    && f.oe == e.oe && f.last == e.last
    && (FE in f.sticky <==> FE in e.sticky || tag % 2 == 1)
    && (PE in f.sticky <==> PE in e.sticky || tag % 4 in {2, 3})
    && (BE in f.sticky <==> BE in e.sticky || tag % 8 in {4, 5, 6, 7})
    && (OE in f.sticky <==> OE in e.sticky) && (RT in f.sticky <==> RT in e.sticky)
  }

  // ------------------------------------------------------------- data register

  /** A read of the data register: the oldest character in bits 7 to 0, its tag in bits
      10 to 8, OE in bit 11, and the tag kept for the status register; 0 if none came. */
  lemma ReadWord(u: Uart)
    requires u.rx.fifo != [] ==> u.rx.fifo[0].err < 8
    ensures var (v, w) := ReadDr(u);
            if u.rx.fifo == [] then v == u && w == 0
            else
              && w % 256 == u.rx.fifo[0].data && w / 256 % 8 == u.rx.fifo[0].err
              && w / 2048 == (if u.errors.oe then 1 else 0)
              && v.rx.fifo == u.rx.fifo[1..] && v.errors == u.errors.(last := u.rx.fifo[0].err) && v.tx == u.tx
  {
  }

  /** A write takes the place behind the other bytes, and is dropped exactly when 32 wait. */
  lemma WriteQueues(u: Uart, b: Byte)
    ensures WriteDr(u, b).tx.fifo == if |u.tx.fifo| >= 32 then u.tx.fifo else u.tx.fifo + [b]
    ensures WriteDr(u, b).rx == u.rx && WriteDr(u, b).errors == u.errors && WriteDr(u, b).ticks == u.ticks
  {
  }

  /** A write to the error register leaves only the receive timeout standing and no
      error to read; a write to the clear register clears the flags it names. */
  lemma ClearingMeans(u: Uart, flags: set<Flag>)
    requires u.Valid()
    ensures var e := Apply(u, ClearErrors).errors;
            !e.oe && e.last == 0 && forall f :: f in e.sticky <==> f == RT && RT in u.errors.sticky
    ensures var e := Apply(u, ClearFlags(flags)).errors;
            e.oe == u.errors.oe && e.last == u.errors.last
            && forall f :: f in e.sticky <==> f in u.errors.sticky && f !in flags
  {
  }
}
