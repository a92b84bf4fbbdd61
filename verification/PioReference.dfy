/** The reference machine: a PIO program reading an unbounded stream of TX words
    and writing an unbounded sequence of RX words, with no FIFOs, no stalls, no
    delays and no prefetch.  Every run of the real machine, whatever the FIFO
    depths and whenever the CPU writes and reads, is shown to stutter or to
    follow it, so back-pressure never changes data. */
module PioReference {
  import opened PioIsa
  import opened Words
  import opened PioMachine
  import opened PioPaths

  type Stream = nat -> Word

  datatype Ref = Ref(core: Core, taken: nat, out: seq<Word>)

  // ---------------------------------------------------- reference machine

  /** With autopull on, an exhausted OSR holds nothing a program may look at. */
  function Settle(cfg: Config, c: Core): Core {
    if cfg.autopull && (c.osrCount == 0 || c.osrCount >= PullThresh(cfg))
    then c.(osr := 0, osrCount := PullThresh(cfg)) else c
  }

  function Emit(cfg: Config, r: Ref): Ref {
    Ref(Advance(cfg, r.core.(isr := 0, isrCount := 0)), r.taken, r.out + [r.core.isr])
  }

  function RefIn(cfg: Config, i: PioInstr, r: Ref): Ref {
    var c := ShiftIn(cfg, r.core, Source(r.core, i, 0, 0), i.bitCount);
    if cfg.autopush && c.isrCount >= PushThresh(cfg) then Emit(cfg, r.(core := c))
    else r.(core := Advance(cfg, c))
  }

  function RefTake(tx: Stream, r: Ref): Ref {
    r.(core := r.core.(osr := tx(r.taken), osrCount := 0), taken := r.taken + 1)
  }

  function RefOut(cfg: Config, i: PioInstr, tx: Stream, r: Ref): Ref {
    var r' := if cfg.autopull && r.core.osrCount >= PullThresh(cfg) then RefTake(tx, r) else r;
    r'.(core := Settle(cfg, OutShifted(cfg, r'.core, i)))
  }

  function RefPush(cfg: Config, i: PioInstr, r: Ref): Ref {
    if i.ifFull && r.core.isrCount < PushThresh(cfg) then r.(core := Advance(cfg, r.core))
    else Emit(cfg, r)
  }

  function RefPull(cfg: Config, i: PioInstr, tx: Stream, r: Ref): Ref {
    var r' := if i.ifEmpty && r.core.osrCount < PullThresh(cfg) then r else RefTake(tx, r);
    r'.(core := Advance(cfg, r'.core))
  }

  /** One instruction of the reference machine.  WAIT and IRQ only take time. */
  function RefExec(cfg: Config, i: PioInstr, tx: Stream, r: Ref): Ref {
    match i.op
    case JMP => r.(core := ExecJmp(cfg, r.core, i, false))
    case SET => r.(core := ExecSet(cfg, r.core, i))
    case MOV => r.(core := ExecMov(cfg, r.core, i, 0, 0))
    case IN => RefIn(cfg, i, r)
    case OUT => RefOut(cfg, i, tx, r)
    case PUSH => RefPush(cfg, i, r)
    case PULL => RefPull(cfg, i, tx, r)
    case WAIT => r.(core := Advance(cfg, r.core))
    case IRQ => r.(core := Advance(cfg, r.core))
  }

  function RefStep(cfg: Config, program: seq<Half>, tx: Stream, r: Ref): Ref
    requires |program| == 32
  {
    RefExec(cfg, Decode(program[r.core.pc % 32]), tx, r)
  }

  function RefRun(cfg: Config, program: seq<Half>, tx: Stream, r: Ref, k: nat): Ref
    requires |program| == 32
  {
    if k == 0 then r else RefStep(cfg, program, tx, RefRun(cfg, program, tx, r, k - 1))
  }

  // ------------------------------------------------- programs in the claim

  /** Instructions whose data do not depend on when things happen: nothing reads
      pins or FIFO levels, PUSH and PULL block, and with autopull on nothing but
      OUT looks at the OSR. */
  predicate Admissible(cfg: Config, i: PioInstr) {
    && !Injects(i)
    && (i.op == JMP ==> i.condition != JMP_PIN)
    && (i.op == IN || i.op == MOV ==> i.source != PINS)
    && (i.op == MOV ==> i.source != MOV_STATUS)
    && (i.op == PUSH || i.op == PULL ==> i.block)
    && (cfg.autopull ==> !TouchesOsr(i))
  }

  predicate TouchesOsr(i: PioInstr) {
    || (i.op == JMP && i.condition == JMP_NOT_OSRE)
    || ((i.op == IN || i.op == MOV) && i.source == OSR)
    || (i.op == MOV && i.destination == OSR)
    || i.op == PULL
  }

  function AdmissibleIn(cfg: Config): PioInstr -> bool { i => Admissible(cfg, i) }

  /** Everything a machine at `pc` can come to execute is admissible. */
  ghost predicate AdmissibleFrom(cfg: Config, program: seq<Half>, pc: nat) {
    Always(cfg, program, pc, AdmissibleIn(cfg))
  }

  // ------------------------------------------------------------ real runs

  /** A machine with its history: the words the CPU has put in the TX FIFO and
      the words the machine has put in the RX FIFO, since the start. */
  datatype World = World(sm: Sm, written: seq<Word>, pushed: seq<Word>)

  /** What can happen to a machine.  A tick sees arbitrary pins and IRQ flags. */
  datatype Event =
    | Clock(env: Env, irq: set<nat>)
    | Write(word: Word)
    | Read
    | Enable(on: bool)

  function Happen(w: World, e: Event): World
    requires |w.sm.program| == 32
  {
    match e
    case Clock(env, irq) =>
      var s' := Tick(w.sm, irq, env).sm;
      w.(sm := s', pushed := w.pushed + Grown(w.sm.rx.items, s'.rx.items))
    case Write(word) =>
      if w.sm.tx.Full() then w
      else w.(sm := w.sm.(tx := w.sm.tx.(items := w.sm.tx.items + [word])), written := w.written + [word])
    case Read =>
      if w.sm.rx.items == [] then w
      else w.(sm := w.sm.(rx := w.sm.rx.(items := w.sm.rx.items[1..])))
    case Enable(on) => w.(sm := w.sm.(enabled := on))
  }

  /** What a tick appended to the RX FIFO. */
  function Grown(before: seq<Word>, after: seq<Word>): seq<Word> {
    if |before| <= |after| then after[|before|..] else []
  }

  ghost predicate FollowsStream(w: World, tx: Stream) {
    forall j :: 0 <= j < |w.written| ==> w.written[j] == tx(j)
  }

  function Popped(w: World): int { |w.written| - |w.sm.tx.items| }

  predicate Suffix(s: seq<Word>, t: seq<Word>) {
    |s| <= |t| && s == t[|t| - |s|..]
  }

  /** What every reachable state satisfies, but for the path it is on. */
  predicate Inv(w: World) {
    var s := w.sm;
    && |s.program| == 32
    && Suffix(s.tx.items, w.written)
    && Suffix(s.rx.items, w.pushed)
    && (s.stall != NoStall ==> s.cur == Fetch(s))
    && (s.stall == InstrStall ==> s.cur.op in {PUSH, PULL, WAIT, IRQ})
    && (s.stall == AutoPushStall ==>
          s.cur.op == IN && s.cfg.autopush && s.core.isrCount >= PushThresh(s.cfg))
    && (s.stall == AutoPullStall ==>
          s.cur.op == OUT && s.cfg.autopull && s.core.osrCount >= PullThresh(s.cfg))
    && (s.cfg.autopull && s.core.osrCount == 0 ==>
          Popped(w) > 0 && s.core.osr == w.written[Popped(w) - 1])
  }

  /** A state that an admissible program can reach. */
  ghost predicate Legal(w: World) { Inv(w) && AdmissibleFrom(w.sm.cfg, w.sm.program, w.sm.core.pc) }

  /** The reference state a real state stands for.  A word prefetched into the
      OSR counts as not yet taken; an IN waiting for room counts as done. */
  function Abs(w: World): Ref
    requires Inv(w)
  {
    var s := w.sm;
    var ahead := s.cfg.autopull && s.core.osrCount == 0;
    var r := Ref(Settle(s.cfg, s.core), Popped(w) - (if ahead then 1 else 0), w.pushed);
    if s.stall == AutoPushStall then Emit(s.cfg, r) else r
  }
}
