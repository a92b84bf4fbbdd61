/** The DMA controller as a value: triggering, completion and chaining, pacing,
    and the clock that gives each of the twelve channels its turn. */
module DmaModel {
  import opened Words
  import opened WordLemmas
  import opened MemoryBus
  import opened DmaTransfer
  import opened DmaSniffer

  const CHANNELS: nat := 12
  const TREQ_PERMANENT: nat := 0x3F
  const TREQ_TIMER0: nat := 0x3B
  const DREQS: nat := 40

  /** A channel after reset: all registers 0, so its CHAIN_TO names channel 0. */
  const RESET_CHANNEL :=
    Channel(0, 0, 0, Ctrl(false, 0, false, false, 0, false, 0, 0, false, false, false, false, false, false), 0, 0)

  datatype Sniff = Sniff(en: bool, channel: nat, mode: nat, bswap: bool, data: Word)

  /** `log` is a history: the channels in the order of their completed transfers. */
  datatype Dma = Dma(
    mem: Mem,
    chan: seq<Channel>,
    intr: set<nat>,
    sniff: Sniff,
    timers: seq<(nat, nat)>,
    divisor: nat,
    depth: nat,
    log: seq<nat>)
  {
    predicate Valid() { mem.Valid() && |chan| == CHANNELS && |timers| == 4 && divisor >= 1 }
  }

  // ------------------------------------------------------------- the sniffer

  /** One element folded into the checksum, if the sniffer watches this channel. */
  function SniffFeed(s: Sniff, ch: nat, watched: bool, value: Word, size: nat): Sniff {
    if !s.en || s.channel != ch || !watched then s
    else
      var v := if s.bswap then ByteSwap(value, size) else value;
      if s.mode == SUM_ALL then s.(data := Wrap(s.data + v))
      else if s.mode == XOR_ALL then s.(data := WordXor(s.data, v))
      else s.(data := Feed(s.mode, s.data, BytesOf(v, size)))
  }

  // ----------------------------------------------------- trigger and complete

  function Armed(c: Channel): Channel {
    c.(remaining := c.transCount, paceAccum := 0,
       ctrl := c.ctrl.(busy := true, readError := false, writeError := false))
  }

  function Finished(c: Channel): Channel {
    c.(remaining := 0, transCount := 0, ctrl := c.ctrl.(busy := false))
  }

  /** Channel `ch` completed, before any chaining. */
  function Done(d: Dma, ch: nat, error: bool): (r: Dma)
    requires d.Valid() && ch < CHANNELS
    ensures r.Valid() && r.depth == d.depth
  {
    var c := Finished(d.chan[ch]);
    d.(chan := d.chan[ch := c], intr := if !error && !c.ctrl.quiet then d.intr + {ch} else d.intr)
  }

  function Arm(d: Dma, ch: nat): (r: Dma)
    requires d.Valid() && ch < CHANNELS
    ensures r.Valid() && r.depth == d.depth && r.chan[ch].remaining == d.chan[ch].transCount
  {
    d.(chan := d.chan[ch := Armed(d.chan[ch])])
  }

  /** Start channel `ch`.  A transfer of nothing completes at once, and may
      start the next channel, up to thirteen completions deep. */
  function Trigger(d: Dma, ch: nat): (r: Dma)
    requires d.Valid()
    ensures r.Valid() && r.depth == d.depth
    decreases CHANNELS + 1 - d.depth, 1
  {
    if ch >= CHANNELS || !d.chan[ch].ctrl.en then d
    else
      var armed := Arm(d, ch);
      if armed.chan[ch].remaining != 0 || d.depth > CHANNELS then armed
      else
        var r := Complete(armed.(depth := d.depth + 1), ch, false);
        r.(depth := r.depth - 1)
  }

  function Complete(d: Dma, ch: nat, error: bool): (r: Dma)
    requires d.Valid() && ch < CHANNELS
    ensures r.Valid() && r.depth == d.depth
    decreases CHANNELS + 1 - d.depth, 2
  {
    var done := Done(d, ch, error);
    var next := done.chan[ch].ctrl.chainTo;
    if error || next == ch || next >= CHANNELS then done else Trigger(done, next)
  }

  /** The recursion as a loop with fuel: walk along CHAIN_TO, finishing each
      enabled channel that has nothing to transfer. */
  function Walk(d: Dma, ch: nat, fuel: nat): (r: Dma)
    requires d.Valid()
    ensures r.Valid()
    decreases fuel
  {
    if ch >= CHANNELS || !d.chan[ch].ctrl.en then d
    else
      var armed := Arm(d, ch);
      if armed.chan[ch].remaining != 0 || fuel == 0 then armed
      else
        var done := Done(armed, ch, false);
        var next := done.chan[ch].ctrl.chainTo;
        if next == ch then done else Walk(done, next, fuel - 1)
  }

  // ---------------------------------------------------------------- transfers

  function TransferOne(d: Dma, ch: nat): (r: (Dma, bool))
    requires d.Valid() && ch < CHANNELS
    ensures r.0.Valid() && r.0.depth == d.depth
  {
    var c := d.chan[ch];
    var moved := Transfer(d.mem, c);
    var after := d.(mem := moved.mem, chan := d.chan[ch := moved.channel]);
    if !moved.ok then (after, false)
    else (after.(sniff := SniffFeed(d.sniff, ch, c.ctrl.sniffEn, moved.value, Step(c.ctrl)), log := d.log + [ch]), true)
  }

  /** One transfer and its bookkeeping; the flag says whether the run of `ch` goes on. */
  function MoveOne(d: Dma, ch: nat): (r: (Dma, bool))
    requires d.Valid() && ch < CHANNELS && d.chan[ch].remaining > 0
    ensures r.0.Valid() && r.0.depth == d.depth
    ensures r.1 ==> r.0.chan[ch].remaining == d.chan[ch].remaining - 1 > 0
  {
    var (t, ok) := TransferOne(d, ch);
    if !ok then (Complete(t, ch, true), false)
    else
      var left := t.(chan := t.chan[ch := t.chan[ch].(remaining := t.chan[ch].remaining - 1)]);
      if left.chan[ch].remaining == 0 then (Complete(left, ch, false), false) else (left, true)
  }

  function Burst(d: Dma, ch: nat, budget: nat): (r: Dma)
    requires d.Valid() && ch < CHANNELS
    ensures r.Valid() && r.depth == d.depth
    decreases budget
  {
    if budget == 0 || d.chan[ch].remaining == 0 then d
    else
      var (next, more) := MoveOne(d, ch);
      if more then Burst(next, ch, budget - 1) else next
  }

  // ------------------------------------------------------------------- pacing

  /** Elements per clock, as a fraction; a stopped timer gives 0/1. */
  function Rate(d: Dma, sel: nat): (r: (nat, nat))
    requires d.Valid()
    ensures r.1 >= 1
  {
    if sel == TREQ_PERMANENT then (1, 1)
    else if TREQ_TIMER0 <= sel < TREQ_PERMANENT then
      var (x, y) := d.timers[sel - TREQ_TIMER0];
      if x == 0 || y == 0 then (0, 1) else (x, y)
    else (1, d.divisor)
  }

  /** What a registered DREQ source answers a channel in a clock; `None` if its
      DREQ has no source. */
  datatype Ready = NoSource | Source(ready: bool)

  function ClockChannel(d: Dma, ch: nat, ready: Ready): (r: Dma)
    requires d.Valid() && ch < CHANNELS
    ensures r.Valid() && r.depth == d.depth
  {
    var c := d.chan[ch];
    if !c.ctrl.busy || c.remaining == 0 then d
    else if c.ctrl.treqSel < DREQS && ready.Source? then
      if ready.ready then MoveOne(d, ch).0 else d
    else
      var (num, den) := Rate(d, c.ctrl.treqSel);
      if num == 0 then d
      else
        DivMod(c.paceAccum + num, den);
        var paced := d.(chan := d.chan[ch := c.(paceAccum := (c.paceAccum + num) % den)]);
        Burst(paced, ch, (c.paceAccum + num) / den)
  }

  /** One answer per channel. */
  type Answers = s: seq<Ready> | |s| == CHANNELS witness seq(CHANNELS, _ => NoSource)

  /** Channels `from` to 11, in order. */
  function ClockFrom(d: Dma, answers: Answers, from: nat): (r: Dma)
    requires d.Valid()
    ensures r.Valid() && r.depth == d.depth
    decreases CHANNELS - from
  {
    if from >= CHANNELS then d else ClockFrom(ClockChannel(d, from, answers[from]), answers, from + 1)
  }

  function Clock(d: Dma, answers: Answers): (r: Dma)
    requires d.Valid()
    ensures r.Valid() && r.depth == d.depth
  {
    ClockFrom(d, answers, 0)
  }

  /** `on_cycles`: one clock per entry of the trace. */
  function Clocks(d: Dma, trace: seq<Answers>): (r: Dma)
    requires d.Valid()
    ensures r.Valid() && r.depth == d.depth
    decreases |trace|
  {
    if trace == [] then d else Clock(Clocks(d, trace[..|trace| - 1]), trace[|trace| - 1])
  }
}
