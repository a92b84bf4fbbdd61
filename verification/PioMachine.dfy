/** One PIO state machine as a value, and the function `Tick` that advances it by
    one post-divider clock.  The class in PioStateMachine.dfy is proved equal to
    this function; PioReference.dfy proves what it means. */
module PioMachine {
  import opened PioIsa
  import opened Words

  // ---------------------------------------------------------------- state

  datatype Config = Config(
    outRight: bool,
    inRight: bool,
    autopull: bool,
    autopush: bool,
    pullThreshold: nat,
    pushThreshold: nat,
    wrapTop: nat,
    wrapBottom: nat,
    sidesetCount: nat,
    sidesetOpt: bool,
    statusSelRx: bool,
    statusN: nat)

  /** The datapath registers: everything a program can compute with. */
  datatype Core = Core(
    pc: nat, x: Word, y: Word, osr: Word, isr: Word, osrCount: nat, isrCount: nat)

  datatype Fifo = Fifo(items: seq<Word>, depth: nat) {
    predicate Full() { |items| == depth }
  }

  datatype Stall = NoStall | InstrStall | AutoPushStall | AutoPullStall

  datatype Sm = Sm(
    cfg: Config,
    program: seq<Half>,
    id: nat,
    core: Core,
    tx: Fifo,
    rx: Fifo,
    enabled: bool,
    delayLeft: nat,
    stall: Stall,
    irqWaitRaised: bool,
    cur: PioInstr)

  /** What the pins show during one tick: the 32 levels an IN or MOV from PINS
      reads, the JMP PIN level, and the level of each GPIO for WAIT. */
  datatype Env = Env(inPins: Word, jmpPin: bool, gpio: nat -> bool, waitPin: nat -> bool)

  datatype Outcome = Outcome(executed: bool, stalled: bool, delayed: bool, rxStall: bool, txStall: bool)

  const IDLE := Outcome(false, false, false, false, false)
  const DELAYED := Outcome(false, false, true, false, false)
  const RETIRED := Outcome(true, false, false, false, false)

  /** Result of one instruction: the new machine, the block's IRQ flags, and
      whether the instruction completed. */
  datatype Result = Result(sm: Sm, irq: set<nat>, ok: bool)

  datatype TickResult = TickResult(sm: Sm, irq: set<nat>, outcome: Outcome)

  // ------------------------------------------------------------- datapath

  function PullThresh(cfg: Config): nat { if cfg.pullThreshold == 0 then 32 else cfg.pullThreshold }

  function PushThresh(cfg: Config): nat { if cfg.pushThreshold == 0 then 32 else cfg.pushThreshold }

  /** Delay cycles after an instruction: the low bits side-set leaves free. */
  function DelayOf(cfg: Config, i: PioInstr): nat {
    match cfg.sidesetCount + (if cfg.sidesetOpt then 1 else 0)
    case 0 => i.delaySideset % 32
    case 1 => i.delaySideset % 16
    case 2 => i.delaySideset % 8
    case 3 => i.delaySideset % 4
    case 4 => i.delaySideset % 2
    case _ => 0
  }

  function Advance(cfg: Config, c: Core): Core {
    c.(pc := if c.pc == cfg.wrapTop then cfg.wrapBottom else (c.pc + 1) % 32)
  }

  function AddCount(count: nat, n: nat): nat {
    if count + n > 32 then 32 else count + n
  }

  /** IN: shift the low `n` bits of `src` into the ISR.  The two halves of an
      `|` never overlap, so it is a sum. */
  function ShiftIn(cfg: Config, c: Core, src: Word, n: nat): Core {
    var bits := if n >= 32 then src else LowBits(src, n);
    var isr :=
      if n >= 32 then bits
      else if cfg.inRight then Wrap(Shr(c.isr, n) + Shl(bits, 32 - n))
      else Wrap(Shl(c.isr, n) + bits);
    c.(isr := isr, isrCount := AddCount(c.isrCount, n))
  }

  /** OUT: the `n` bits that leave the OSR. */
  function OutValue(cfg: Config, osr: Word, n: nat): Word {
    if n >= 32 then osr
    else if cfg.outRight then LowBits(osr, n)
    else Shr(osr, 32 - n)
  }

  function ShiftOut(cfg: Config, c: Core, n: nat): Core {
    var osr :=
      if n >= 32 then 0
      else if cfg.outRight then Shr(c.osr, n) else Shl(c.osr, n);
    c.(osr := osr, osrCount := AddCount(c.osrCount, n))
  }

  function ExecJmp(cfg: Config, c: Core, i: PioInstr, pin: bool): Core {
    var take :=
      match i.condition
      case 0 => true
      case 1 => c.x == 0
      case 2 => c.x != 0
      case 3 => c.y == 0
      case 4 => c.y != 0
      case 5 => c.x != c.y
      case 6 => pin
      case 7 => c.osrCount < PullThresh(cfg)
      case _ => false;
    var c' :=
      if i.condition == JMP_X_DEC then c.(x := Wrap(c.x - 1))
      else if i.condition == JMP_Y_DEC then c.(y := Wrap(c.y - 1))
      else c;
    if take then c'.(pc := i.address % 32) else Advance(cfg, c')
  }

  function ExecSet(cfg: Config, c: Core, i: PioInstr): Core {
    var d := i.data % 32;
    Advance(cfg, if i.destination == X then c.(x := d) else if i.destination == Y then c.(y := d) else c)
  }

  /** The value a MOV or IN source selects; `status` is what MOV STATUS reads. */
  function Source(c: Core, i: PioInstr, pins: Word, status: Word): Word {
    match i.source
    case 0 => pins
    case 1 => c.x
    case 2 => c.y
    case 5 => if i.op == MOV then status else 0
    case 6 => c.isr
    case 7 => c.osr
    case _ => 0
  }

  function ApplyMovOp(i: PioInstr, v: Word): Word {
    if i.movOp == MOV_INVERT then Not(v) else if i.movOp == MOV_BITREV then BitReverse(v) else v
  }

  function ExecMov(cfg: Config, c: Core, i: PioInstr, pins: Word, status: Word): Core {
    var v := ApplyMovOp(i, Source(c, i, pins, status));
    match i.destination
    case 1 => Advance(cfg, c.(x := v))
    case 2 => Advance(cfg, c.(y := v))
    case 5 => c.(pc := v % 32)
    case 6 => Advance(cfg, c.(isr := v, isrCount := 0))
    case 7 => Advance(cfg, c.(osr := v, osrCount := 0))
    case _ => Advance(cfg, c)
  }

  /** OUT, once the OSR holds data. */
  function OutShifted(cfg: Config, c: Core, i: PioInstr): Core {
    var n := i.bitCount;
    var v := OutValue(cfg, c.osr, n);
    var c' := ShiftOut(cfg, c, n);
    match i.destination
    case 1 => Advance(cfg, c'.(x := v))
    case 2 => Advance(cfg, c'.(y := v))
    case 5 => c'.(pc := v % 32)
    case 6 => Advance(cfg, c'.(isr := v, isrCount := n))
    case _ => Advance(cfg, c')
  }

  function Status(s: Sm): Word {
    if |(if s.cfg.statusSelRx then s.rx else s.tx).items| < s.cfg.statusN then 0xFFFF_FFFF else 0
  }

  // ---------------------------------------------------------------- FIFOs

  predicate CanPop(f: Fifo) { f.items != [] }

  /** Refill the OSR with the oldest TX word. */
  function Refill(s: Sm): Sm
    requires CanPop(s.tx)
  {
    s.(core := s.core.(osr := s.tx.items[0], osrCount := 0), tx := s.tx.(items := s.tx.items[1..]))
  }

  /** Hand the ISR to the RX FIFO and empty it. */
  function Drain(s: Sm): Sm {
    s.(core := s.core.(isr := 0, isrCount := 0), rx := s.rx.(items := s.rx.items + [s.core.isr]))
  }

  // --------------------------------------------------------- instructions

  function ExecIn(s: Sm, i: PioInstr, env: Env): (Sm, bool) {
    FinishIn(s.(core := ShiftIn(s.cfg, s.core, Source(s.core, i, env.inPins, 0), i.bitCount)))
  }

  /** The end of an IN: at the threshold autopush takes the ISR, or the machine stalls. */
  function FinishIn(s: Sm): (Sm, bool) {
    if !s.cfg.autopush || s.core.isrCount < PushThresh(s.cfg) then
      (s.(core := Advance(s.cfg, s.core)), true)
    else if s.rx.Full() then
      (s.(stall := AutoPushStall), false)
    else
      var d := Drain(s);
      (d.(core := Advance(s.cfg, d.core)), true)
  }

  function ExecOut(s: Sm, i: PioInstr): (Sm, bool) {
    if !s.cfg.autopull || s.core.osrCount < PullThresh(s.cfg) then
      (s.(core := OutShifted(s.cfg, s.core, i)), true)
    else if !CanPop(s.tx) then
      (s.(stall := AutoPullStall), false)
    else
      var s' := Refill(s);
      (s'.(core := OutShifted(s.cfg, s'.core, i)), true)
  }

  function ExecPush(s: Sm, i: PioInstr): (Sm, bool) {
    var cleared := s.core.(isr := 0, isrCount := 0);
    if i.ifFull && s.core.isrCount < PushThresh(s.cfg) then
      (s.(core := Advance(s.cfg, s.core)), true)
    else if !s.rx.Full() then
      var d := Drain(s);
      (d.(core := Advance(s.cfg, d.core)), true)
    else if i.block then (s, false)
    else (s.(core := Advance(s.cfg, cleared)), true)
  }

  function ExecPull(s: Sm, i: PioInstr): (Sm, bool) {
    if i.ifEmpty && s.core.osrCount < PullThresh(s.cfg) then
      (s.(core := Advance(s.cfg, s.core)), true)
    else if CanPop(s.tx) then
      var s' := Refill(s);
      (s'.(core := Advance(s.cfg, s'.core)), true)
    else if i.block then (s, false)
    else (s.(core := Advance(s.cfg, s.core.(osr := s.core.x, osrCount := 0))), true)
  }

  /** The flag an IRQ or WAIT IRQ index names: bit 4 adds the machine's number
      modulo 4 within the group of four. */
  function ResolveIrq(index: nat, id: nat): nat {
    if index / 16 % 2 == 1 then index / 4 % 2 * 4 + (index % 4 + id) % 4 else index % 8
  }

  predicate WaitSatisfied(s: Sm, i: PioInstr, irq: set<nat>, env: Env) {
    match i.source
    case 0 => env.gpio(i.index) == i.polarity
    case 1 => env.waitPin(i.index) == i.polarity
    case 2 => (ResolveIrq(i.index, s.id) in irq) == i.polarity
    case _ => true
  }

  function ExecWait(s: Sm, i: PioInstr, irq: set<nat>, env: Env): Result {
    if !WaitSatisfied(s, i, irq, env) then Result(s, irq, false)
    else
      var irq' := if i.source == WAIT_IRQ && i.polarity then irq - {ResolveIrq(i.index, s.id)} else irq;
      Result(s.(core := Advance(s.cfg, s.core)), irq', true)
  }

  function ExecIrq(s: Sm, i: PioInstr, irq: set<nat>): Result {
    var n := ResolveIrq(i.index, s.id);
    if i.clear then
      Result(s.(core := Advance(s.cfg, s.core)), irq - {n}, true)
    else
      var irq' := if s.irqWaitRaised then irq else irq + {n};
      var raised := s.irqWaitRaised || i.wait;
      if i.wait && n in irq' then Result(s.(irqWaitRaised := raised), irq', false)
      else Result(s.(irqWaitRaised := false, core := Advance(s.cfg, s.core)), irq', true)
  }

  function Exec(s: Sm, i: PioInstr, irq: set<nat>, env: Env): Result {
    match i.op
    case JMP => Result(s.(core := ExecJmp(s.cfg, s.core, i, env.jmpPin)), irq, true)
    case SET => Result(s.(core := ExecSet(s.cfg, s.core, i)), irq, true)
    case MOV => Result(s.(core := ExecMov(s.cfg, s.core, i, env.inPins, Status(s))), irq, true)
    case IN => var (s', ok) := ExecIn(s, i, env); Result(s', irq, ok)
    case OUT => var (s', ok) := ExecOut(s, i); Result(s', irq, ok)
    case PUSH => var (s', ok) := ExecPush(s, i); Result(s', irq, ok)
    case PULL => var (s', ok) := ExecPull(s, i); Result(s', irq, ok)
    case WAIT => ExecWait(s, i, irq, env)
    case IRQ => ExecIrq(s, i, irq)
  }

  // ----------------------------------------------------------------- tick

  function Fetch(s: Sm): PioInstr
    requires |s.program| == 32
  {
    Decode(s.program[s.core.pc % 32])
  }

  /** The stalled outcome of the machine `s` whose instruction did not complete. */
  function StallOutcome(s: Sm): Outcome {
    Outcome(false, true, false,
            s.stall == AutoPushStall || (s.stall == InstrStall && s.cur.op == PUSH),
            s.stall == AutoPullStall || (s.stall == InstrStall && s.cur.op == PULL))
  }

  /** An autopull stall resumes once a word is there: the OUT then runs again. */
  function ResumePull(s: Sm): Sm {
    if s.stall == AutoPullStall && CanPop(s.tx) then Refill(s).(stall := InstrStall) else s
  }

  /** Between instructions an empty OSR is refilled ahead of the next OUT. */
  function Prefetch(s: Sm): Sm {
    if s.stall != InstrStall && s.cfg.autopull && s.core.osrCount >= PullThresh(s.cfg) && CanPop(s.tx)
    then Refill(s) else s
  }

  function Select(s: Sm): PioInstr
    requires |s.program| == 32
  {
    if s.stall == InstrStall then s.cur else Fetch(s)
  }

  /** Run the selected instruction, which the machine remembers in `cur`. */
  function RunInstr(s: Sm, irq: set<nat>, env: Env): TickResult {
    var r := Exec(s, s.cur, irq, env);
    if !r.ok then
      var s' := if r.sm.stall == NoStall then r.sm.(stall := InstrStall) else r.sm;
      TickResult(s', r.irq, StallOutcome(s'))
    else
      TickResult(r.sm.(stall := NoStall, delayLeft := DelayOf(s.cfg, s.cur)), r.irq, RETIRED)
  }

  /** Finish an IN whose autopush found the RX FIFO full. */
  function ResumePush(s: Sm): Sm {
    var d := Drain(s);
    d.(stall := NoStall, core := Advance(s.cfg, d.core), delayLeft := DelayOf(s.cfg, s.cur))
  }

  /** One post-divider clock. */
  function Tick(s: Sm, irq: set<nat>, env: Env): TickResult
    requires |s.program| == 32
  {
    if !s.enabled then TickResult(s, irq, IDLE)
    else if s.delayLeft > 0 then TickResult(s.(delayLeft := s.delayLeft - 1), irq, DELAYED)
    else if s.stall == AutoPushStall then
      if s.rx.Full() then TickResult(s, irq, StallOutcome(s))
      else TickResult(ResumePush(s), irq, RETIRED)
    else if s.stall == AutoPullStall && !CanPop(s.tx) then TickResult(s, irq, StallOutcome(s))
    else
      var s' := Prefetch(ResumePull(s));
      RunInstr(s'.(cur := Select(s')), irq, env)
  }
}
