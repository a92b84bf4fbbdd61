/** The UART as a value: FIFOs and shift registers paced by two nested rate
    accumulators, with a history of what was accepted, sent, fed and read. */
module UartModel {
  import opened MemoryBus
  import opened Words
  import opened WordLemmas

  const FIFO_DEPTH: nat := 32

  /** A received character with its error tag (FE 1, PE 2, BE 4). */
  datatype Entry = Entry(data: Byte, err: nat)

  datatype Flag = FE | PE | BE | OE | RT

  /** Bits 3 to 6 of LCR_H, the break bit, and the baud rate divisor. */
  datatype Line = Line(wordLength: nat, parity: bool, twoStops: bool, sendBreak: bool, ibrd: nat, fbrd: nat)

  /** UARTEN, TXE and RXE. */
  datatype Enables = Enables(uart: bool, tx: bool, rx: bool)

  /** History: a byte that left the shift register, the bit tick it was loaded
      at, the tick it was done at, and the frame length at its loading. */
  datatype Sent = Sent(data: Byte, start: nat, end: nat, bits: nat)

  /** History: a character that arrived, likewise, how full the FIFO was and whether it took it. */
  datatype Arrival = Arrival(entry: Entry, kept: bool, depth: nat, start: nat, end: nat, bits: nat)

  /** `accepted`, `drained`, `sent` and `loaded` are history. */
  datatype Tx = Tx(fifo: seq<Byte>, left: nat, shift: Byte, log: seq<Byte>,
                   accepted: seq<Byte>, drained: seq<Byte>, sent: seq<Sent>, loaded: nat, bits: nat)

  /** `fed`, `read`, `arrivals` and `loaded` are history. */
  datatype Rx = Rx(fifo: seq<Entry>, wire: seq<Entry>, left: nat, shift: Entry,
                   fed: seq<Entry>, read: seq<Entry>, arrivals: seq<Arrival>, loaded: nat, bits: nat)

  /** `clearedAt` is history: the arrivals before the last clearing of OE. */
  datatype Errors = Errors(oe: bool, last: nat, sticky: set<Flag>, clearedAt: nat)

  datatype Rates = Rates(uartHz: nat, sysHz: nat, clkAccum: nat, bitAccum: nat)

  /** `ticks` counts the bit periods that have passed. */
  datatype Uart = Uart(tx: Tx, rx: Rx, line: Line, enables: Enables, errors: Errors, rates: Rates, ticks: nat) {
    predicate Valid() { rates.sysHz >= 1 }
  }

  function BitsPerFrame(l: Line): (n: nat)
    ensures n >= 7
  {
    1 + (5 + l.wordLength) + (if l.parity then 1 else 0) + if l.twoStops then 2 else 1
  }

  /** UARTCLK cycles per bit, times 64 */
  function BitPeriod(l: Line): nat { 1024 * l.ibrd + 16 * l.fbrd }

  // ---------------------------------------------------------------- bit ticks

  /** The transmitter's share of a bit tick, which is tick number `now`. */
  function TickTx(t: Tx, l: Line, enabled: bool, now: nat): Tx {
    if t.left > 0 then
      if t.left == 1
      then t.(left := 0, log := t.log + [t.shift], sent := t.sent + [Sent(t.shift, t.loaded, now, t.bits)])
      else t.(left := t.left - 1)
    else if !enabled || l.sendBreak || t.fifo == [] then t
    else t.(shift := t.fifo[0], fifo := t.fifo[1..], left := BitsPerFrame(l), loaded := now, bits := BitsPerFrame(l))
  }

  function ErrorFlags(err: nat): set<Flag> {
    (if err % 2 == 1 then {FE} else {}) + (if err / 2 % 2 == 1 then {PE} else {})
    + (if err / 4 % 2 == 1 then {BE} else {})
  }

  function TickRx(r: Rx, l: Line, enabled: bool, now: nat): Rx {
    if r.left > 0 then
      if r.left == 1 then
        var kept := |r.fifo| < FIFO_DEPTH;
        r.(left := 0, fifo := if kept then r.fifo + [r.shift] else r.fifo,
           arrivals := r.arrivals + [Arrival(r.shift, kept, |r.fifo|, r.loaded, now, r.bits)])
      else r.(left := r.left - 1)
    else if !enabled || r.wire == [] then r
    else r.(shift := r.wire[0], wire := r.wire[1..], left := BitsPerFrame(l), loaded := now, bits := BitsPerFrame(l))
  }

  /** A character that arrives at a full FIFO is lost and raises OE. */
  function TickErrors(e: Errors, r: Rx): Errors {
    if r.left != 1 then e
    else if |r.fifo| < FIFO_DEPTH then e.(sticky := e.sticky + ErrorFlags(r.shift.err))
    else e.(oe := true, sticky := e.sticky + {OE})
  }

  function TickBit(u: Uart): Uart {
    u.(tx := TickTx(u.tx, u.line, u.enables.tx, u.ticks + 1),
       rx := TickRx(u.rx, u.line, u.enables.rx, u.ticks + 1),
       errors := TickErrors(u.errors, u.rx),
       ticks := u.ticks + 1)
  }

  function TickBits(u: Uart, n: nat): Uart
    decreases n
  {
    if n == 0 then u else TickBit(TickBits(u, n - 1))
  }

  // ----------------------------------------------------------------- clocking

  /** One UARTCLK cycle. */
  function UartClock(u: Uart): Uart {
    var period := BitPeriod(u.line);
    if period == 0 then u
    else
      DivMod(u.rates.bitAccum + 64, period);
      TickBits(u.(rates := u.rates.(bitAccum := (u.rates.bitAccum + 64) % period)), (u.rates.bitAccum + 64) / period)
  }

  function UartClocks(u: Uart, n: nat): Uart
    decreases n
  {
    if n == 0 then u else UartClock(UartClocks(u, n - 1))
  }

  /** UARTCLK cycles due after `cycles` more system clocks. */
  function Due(r: Rates, cycles: nat): nat
  {
    r.clkAccum + cycles * r.uartHz
  }

  function OnCycles(u: Uart, cycles: nat): Uart
    requires u.Valid()
  {
    if !u.enables.uart then u
    else
      var due := Due(u.rates, cycles);
      DivMod(due, u.rates.sysHz);
      UartClocks(u.(rates := u.rates.(clkAccum := due % u.rates.sysHz)), due / u.rates.sysHz)
  }

  // --------------------------------------------------------- register accesses

  datatype Event =
    | WriteData(b: Byte)
    | ReadData
    | ClearErrors
    | ClearFlags(flags: set<Flag>)
    | SetLine(line: Line)
    | SetEnables(enables: Enables)
    | SetClock(uartHz: nat, sysHz: nat)
    | FeedWire(entry: Entry)
    | TakeOutput
    | Cycles(n: nat)

  function WriteDr(u: Uart, b: Byte): Uart {
    if |u.tx.fifo| < FIFO_DEPTH then u.(tx := u.tx.(fifo := u.tx.fifo + [b], accepted := u.tx.accepted + [b])) else u
  }

  function ReadDr(u: Uart): (Uart, nat) {
    if u.rx.fifo == [] then (u, 0)
    else
      var e := u.rx.fifo[0];
      (u.(rx := u.rx.(fifo := u.rx.fifo[1..], read := u.rx.read + [e]), errors := u.errors.(last := e.err)),
       e.data + 256 * e.err + if u.errors.oe then 2048 else 0)
  }

  function Apply(u: Uart, e: Event): (r: Uart)
    requires u.Valid()
    ensures r.Valid()
  {
    match e
    case WriteData(b) => WriteDr(u, b)
    case ReadData => ReadDr(u).0
    case ClearErrors => u.(errors := Errors(false, 0, u.errors.sticky - {FE, PE, BE, OE}, |u.rx.arrivals|))
    case ClearFlags(flags) => u.(errors := u.errors.(sticky := u.errors.sticky - flags))
    case SetLine(line) => u.(line := line)
    case SetEnables(enables) => u.(enables := enables)
    case SetClock(uartHz, sysHz) =>
      u.(rates := u.rates.(uartHz := if uartHz == 0 then 1 else uartHz, sysHz := if sysHz == 0 then 1 else sysHz))
    case FeedWire(entry) => u.(rx := u.rx.(wire := u.rx.wire + [entry], fed := u.rx.fed + [entry]))
    case TakeOutput => u.(tx := u.tx.(log := [], drained := u.tx.drained + u.tx.log))
    case Cycles(n) =>
      CyclesKeep(u, n);
      OnCycles(u, n)
  }

  function Run(u: Uart, events: seq<Event>): (r: Uart)
    requires u.Valid()
    ensures r.Valid()
    decreases |events|
  {
    if events == [] then u else Apply(Run(u, events[..|events| - 1]), events[|events| - 1])
  }

  lemma {:induction false} TicksKeep(u: Uart, n: nat)
    ensures var r := TickBits(u, n);
            r.rates == u.rates && r.line == u.line && r.enables == u.enables && r.ticks == u.ticks + n
    decreases n
  {
    if n > 0 {
      TicksKeep(u, n - 1);
    }
  }

  lemma {:induction false} ClocksKeep(u: Uart, n: nat)
    ensures var r := UartClocks(u, n);
            r.rates == u.rates.(bitAccum := r.rates.bitAccum) && r.line == u.line && r.enables == u.enables
    decreases n
  {
    if n > 0 {
      ClocksKeep(u, n - 1);
      var v := UartClocks(u, n - 1);
      var period := BitPeriod(v.line);
      if period != 0 {
        DivMod(v.rates.bitAccum + 64, period);
        TicksKeep(v.(rates := v.rates.(bitAccum := (v.rates.bitAccum + 64) % period)),
          (v.rates.bitAccum + 64) / period);
      }
    }
  }

  lemma CyclesKeep(u: Uart, cycles: nat)
    requires u.Valid()
    ensures OnCycles(u, cycles).Valid()
  {
    if u.enables.uart {
      var due := Due(u.rates, cycles);
      DivMod(due, u.rates.sysHz);
      ClocksKeep(u.(rates := u.rates.(clkAccum := due % u.rates.sysHz)), due / u.rates.sysHz);
    }
  }
}
