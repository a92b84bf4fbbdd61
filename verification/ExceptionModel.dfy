/** ARMv6-M exception entry, return and priorities on a CPU value: the eight-word
    frame and its alignment, the choice of stack, EXC_RETURN, and the exception
    that is taken next.  CpuCore.dfy has the class that does this in place. */
module ExceptionModel {
  import opened Words
  import opened MemoryBus
  import opened RegisterModel

  const HARD_FAULT: nat := 3
  const NMI: nat := 2
  const SVCALL: nat := 11
  const EXTERNAL0: nat := 16
  const MAX_EXCEPTION: nat := 41

  const RETURN_HANDLER_MSP: Word := 0xFFFF_FFF1
  const RETURN_THREAD_MSP: Word := 0xFFFF_FFF9
  const RETURN_THREAD_PSP: Word := 0xFFFF_FFFD

  const FRAME_WORDS: nat := 8
  const FRAME_BYTES: nat := 32
  const ENTRY_CYCLES: nat := 15

  datatype Cpu = Cpu(
    regs: Regs, mem: Mem, vtor: Word,
    pending: set<nat>, irqEnabled: set<nat>, priority: seq<Byte>,
    cycles: nat, asleep: bool, sleepIsWfe: bool, event: bool, sleepOnExit: bool)
  {
    predicate Valid() { regs.Valid() && mem.Valid() && |priority| == MAX_EXCEPTION + 1 }
  }

  datatype ExecStatus = StatusOk | ExceptionTaken | Lockup

  // ------------------------------------------------------------ priorities

  /** The top two bits of a priority byte: 0 (urgent) to 3. */
  function EffectivePriority(raw: Byte): (p: nat)
    ensures p < 4
  {
    raw / 64
  }

  function PriorityOf(priority: seq<Byte>, exc: nat): (p: int)
    ensures -2 <= p <= 3
  {
    if exc == NMI then -2
    else if exc == HARD_FAULT then -1
    else if exc < |priority| then EffectivePriority(priority[exc]) else 0
  }

  const NO_PRIORITY: int := 256

  /** Urgency of the running code, from IPSR and PRIMASK alone. */
  function CurrentPriority(c: Cpu): int {
    var p := if c.regs.exc != 0 then PriorityOf(c.priority, c.regs.exc) else NO_PRIORITY;
    if c.regs.primask && p > 0 then 0 else p
  }

  /** A pending exception that is enabled and not masked. */
  predicate Eligible(c: Cpu, e: nat) {
    && e in c.pending
    && (e >= EXTERNAL0 ==> e - EXTERNAL0 in c.irqEnabled)
    && !(c.regs.primask && PriorityOf(c.priority, e) >= 0)
  }

  /** The scan over exceptions 2 .. `e - 1`: the best so far and its priority. */
  function Scan(c: Cpu, e: nat): (int, nat)
    requires 2 <= e
  {
    if e == 2 then (CurrentPriority(c), 0)
    else
      var (bestPrio, best) := Scan(c, e - 1);
      if Eligible(c, e - 1) && PriorityOf(c.priority, e - 1) < bestPrio
      then (PriorityOf(c.priority, e - 1), e - 1) else (bestPrio, best)
  }

  /** The exception to take now, 0 if none. */
  function HighestPending(c: Cpu): nat { Scan(c, MAX_EXCEPTION + 1).1 }

  // ----------------------------------------------------------------- frames

  /** Store words upwards from `a`; stops at the first the bus refuses. */
  function StoreWords(m: Mem, a: Word, ws: seq<Word>): (r: (Mem, bool))
    requires m.Valid()
    ensures r.0.Valid()
    decreases |ws|
  {
    if ws == [] then (m, true)
    else if !WordWritable(a) then (m, false)
    else StoreWords(StoreWord(m, a, ws[0]), Wrap(a + 4), ws[1..])
  }

  /** All of `n` words upwards from `a` are readable. */
  predicate WordsReadable(a: Word, n: nat)
    decreases n
  {
    n == 0 || (WordReadable(a) && WordsReadable(Wrap(a + 4), n - 1))
  }

  function LoadWords(m: Mem, a: Word, n: nat): (ws: seq<Word>)
    requires m.Valid()
    ensures |ws| == n
    decreases n
  {
    if n == 0 then [] else [WordAt(m, a)] + LoadWords(m, Wrap(a + 4), n - 1)
  }

  /** Where the frame goes: 32 bytes down, rounded down to 8. */
  function FramePtr(sp: Word): (f: Word)
    ensures f % 8 == 0
  {
    var a := Wrap(sp - FRAME_BYTES);
    a - a % 8
  }

  predicate Realigned(sp: Word) { sp / 4 % 2 == 1 }

  function Frame(g: Regs, returnAddress: Word): (f: seq<Word>)
    requires g.Valid()
    ensures |f| == FRAME_WORDS
  {
    [g.r[0], g.r[1], g.r[2], g.r[3], g.r[12], g.lr, returnAddress, WithBit9(Xpsr(g), Realigned(g.Sp()))]
  }

  function ExcReturn(g: Regs): Word {
    if g.HandlerMode() then RETURN_HANDLER_MSP
    else if g.spsel then RETURN_THREAD_PSP else RETURN_THREAD_MSP
  }

  // ------------------------------------------------------------------ entry

  /** Registers once the frame lies at `fp`: the frame's stack pointer, the
      return code in LR, and Handler mode. */
  function HandlerRegs(g: Regs, fp: Word, exc: nat): (g': Regs)
    ensures g.Valid() ==> g'.Valid()
  {
    SetSp(g, fp).(lr := ExcReturn(g), exc := exc % 512)
  }

  /** Branch to a handler address with its Thumb bit. */
  function Vectored(g: Regs, v: Word): (g': Regs)
    ensures g.Valid() ==> g'.Valid()
  {
    g.(t := v % 2 == 1, pc := Even(v))
  }

  /** Exception entry, once HardFault escalation has been ruled out. */
  function Enter(c: Cpu, exc: nat, returnAddress: Word): (r: (Cpu, ExecStatus))
    requires c.Valid()
    ensures r.0.Valid()
  {
    var awake := c.(event := true, asleep := false);
    var fp := FramePtr(c.regs.Sp());
    var (m, stacked) := StoreWords(c.mem, fp, Frame(c.regs, returnAddress));
    if !stacked then (awake.(mem := m), Lockup)
    else
      var g := HandlerRegs(c.regs, fp, exc);
      var vector := Wrap(c.vtor + 4 * exc);
      if !WordReadable(vector) then (awake.(mem := m, regs := g), Lockup)
      else
        (awake.(mem := m, regs := Vectored(g, WordAt(m, vector)), cycles := c.cycles + ENTRY_CYCLES), ExceptionTaken)
  }

  function TakeException(c: Cpu, exc: nat, returnAddress: Word): (r: (Cpu, ExecStatus))
    requires c.Valid()
    ensures r.0.Valid()
  {
    if exc == HARD_FAULT && CurrentPriority(c) <= -1 then (c, Lockup)
    else Enter(c, exc, returnAddress)
  }

  // ----------------------------------------------------------------- return

  /** General registers and stack pointer from the frame `w` that lay at `fp`. */
  function PopFrame(g: Regs, w: seq<Word>, fp: Word, fromPsp: bool): (g': Regs)
    requires g.Valid() && |w| == FRAME_WORDS
    ensures g'.Valid()
  {
    var r := g.r[0 := w[0]][1 := w[1]][2 := w[2]][3 := w[3]][12 := w[4]];
    var sp := Align4(Wrap(fp + FRAME_BYTES + if HasBit(w[7], BIT9) then 4 else 0));
    if fromPsp then g.(r := r, lr := w[5], psp := sp) else g.(r := r, lr := w[5], msp := sp)
  }

  /** Back in Thread mode the stack selection follows the frame; then branch. */
  function Resume(g: Regs, pc: Word, fromPsp: bool): Regs {
    (if g.HandlerMode() then g else g.(spsel := fromPsp)).(pc := Even(pc))
  }

  /** Everything an exception return restores. */
  function Unstack(g: Regs, w: seq<Word>, fp: Word, fromPsp: bool): (g': Regs)
    requires g.Valid() && |w| == FRAME_WORDS
    ensures g'.Valid()
  {
    Resume(SetXpsr(PopFrame(g, w, fp, fromPsp), w[7]), w[6], fromPsp)
  }

  function ExceptionReturn(c: Cpu, excReturn: Word): (r: (Cpu, ExecStatus))
    requires c.Valid()
    ensures r.0.Valid()
  {
    var kind := excReturn % 16;
    if kind !in {1, 9, 13} then (c, Lockup)
    else
      var fp := if kind == 13 then c.regs.psp else c.regs.msp;
      if !WordsReadable(fp, FRAME_WORDS) then (c, Lockup)
      else
        var g := Unstack(c.regs, LoadWords(c.mem, fp, FRAME_WORDS), fp, kind == 13);
        var c' := c.(regs := g);
        (if c.sleepOnExit && !g.HandlerMode() then c'.(asleep := true, sleepIsWfe := false) else c', StatusOk)
  }
}
