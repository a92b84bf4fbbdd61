/** What a clock does to a state machine that is held up, in plain terms. */
module PioStallMeaning {
  import opened PioIsa
  import opened Words
  import opened PioMachine
  import opened PioPaths
  import opened PioFlowMeaning

  /** Enabled and through with its delay, the machine is still at its last instruction. */
  predicate HeldUp(s: Sm, stall: Stall) {
    |s.program| == 32 && s.enabled && s.delayLeft == 0 && s.stall == stall != NoStall
  }

  /** Nothing changes, and the debug flags say which FIFO is waited for. */
  predicate Waits(s: Sm, irq: set<nat>, t: TickResult, rx: bool, tx: bool) {
    t.sm == s && t.irq == irq && t.outcome == Outcome(false, true, false, rx, tx)
  }

  /** The delay bits of the instruction, side-set taken off. */
  predicate Delays(s: Sm, t: TickResult) {
    var n := s.cfg.sidesetCount + if s.cfg.sidesetOpt then 1 else 0;
    t.sm.delayLeft == if n <= 5 then s.cur.delaySideset % Pow2(5 - n) else 0
  }

  lemma DelayIs(cfg: Config, i: PioInstr)
    requires i.delaySideset < 32
    ensures var n := cfg.sidesetCount + if cfg.sidesetOpt then 1 else 0;
            DelayOf(cfg, i) == if n <= 5 then i.delaySideset % Pow2(5 - n) else 0
  {
    assert Pow2(0) == 1 && Pow2(1) == 2 && Pow2(2) == 4;
    assert Pow2(3) == 8 && Pow2(4) == 16 && Pow2(5) == 32;
  }

  /** A disabled machine does nothing. */
  lemma OffMeans(s: Sm, irq: set<nat>, env: Env)
    requires |s.program| == 32 && !s.enabled
    ensures Tick(s, irq, env) == TickResult(s, irq, Outcome(false, false, false, false, false))
  {
  }

  /** Autopush waits for room; once there is some the ISR goes to the RX FIFO and the IN
      is through, delay included. */
  lemma AutoPushMeans(s: Sm, irq: set<nat>, env: Env)
    requires HeldUp(s, AutoPushStall) && s.cur.delaySideset < 32
    ensures var t := Tick(s, irq, env);
            if |s.rx.items| == s.rx.depth then Waits(s, irq, t, true, false)
            else
              && Goes(s, t) && Delays(s, t) && t.irq == irq && t.sm.tx == s.tx
              && t.sm.rx == s.rx.(items := s.rx.items + [s.core.isr])
              && t.sm.core.isr == 0 && t.sm.core.isrCount == 0
              && t.sm.core.osr == s.core.osr && t.sm.core.osrCount == s.core.osrCount
  {
    DelayIs(s.cfg, s.cur);
    hide DelayOf, Pow2;
  }

  /** Autopull waits for a word; once there is one the OUT runs on it. */
  lemma AutoPullMeans(s: Sm, d: nat, n: nat, irq: set<nat>, env: Env)
    requires HeldUp(s, AutoPullStall) && s.cur.op == OUT && s.cur.destination == d && s.cur.bitCount == n
    requires d < 7 && 1 <= n <= 32 && s.cfg.autopull
    ensures var t := Tick(s, irq, env);
            if s.tx.items == [] then Waits(s, irq, t, false, true)
            else
              && t.irq == irq && t.sm.tx.items == s.tx.items[1..]
              && var osr := s.tx.items[0];
                 && t.outcome.executed && t.sm.stall == NoStall && t.sm.rx == s.rx
                 && t.sm.core.osr == Rest(osr, n, s.cfg.outRight) && t.sm.core.osrCount == n
                 && t.sm.core.pc == (if d == 5 then Left(osr, n, s.cfg.outRight) % 32 else NextPc(s.cfg, s.core.pc))
                 && t.sm.core.x == (if d == 1 then Left(osr, n, s.cfg.outRight) else s.core.x)
                 && t.sm.core.y == (if d == 2 then Left(osr, n, s.cfg.outRight) else s.core.y)
                 && t.sm.core.isr == (if d == 6 then Left(osr, n, s.cfg.outRight) else s.core.isr)
  {
    hide DelayOf, OutValue, ShiftOut, Left, Rest;
    if s.tx.items != [] {
      var r := Refill(s).(stall := InstrStall);
      assert Tick(s, irq, env) == RunInstr(r, irq, env);
      LeavesIs(r.cfg, r.core, n);
      assert Exec(r, r.cur, irq, env) == Result(r.(core := OutShifted(r.cfg, r.core, r.cur)), irq, true);
      hide Tick, Exec;
    }
  }

  /** A machine held up by an instruction runs it again and nothing else. */
  lemma Again(s: Sm, irq: set<nat>, env: Env)
    requires HeldUp(s, InstrStall)
    ensures Tick(s, irq, env) == RunInstr(s, irq, env)
  {
    hide RunInstr;
    assert s.(cur := s.cur) == s;
  }

  /** A blocking PUSH waits for room, and then pushes. */
  lemma PushAgain(s: Sm, irq: set<nat>, env: Env)
    requires HeldUp(s, InstrStall) && s.cur.op == PUSH && s.cur.block && !s.cur.ifFull
    ensures var t := Tick(s, irq, env);
            if |s.rx.items| == s.rx.depth then Waits(s, irq, t, true, false)
            else
              && Goes(s, t) && t.irq == irq && t.sm.tx == s.tx
              && t.sm.rx == s.rx.(items := s.rx.items + [s.core.isr])
              && t.sm.core.isr == 0 && t.sm.core.isrCount == 0
  {
    Again(s, irq, env);
    hide Tick, DelayOf;
    var (r, ok) := ExecPush(s, s.cur);
    assert Exec(s, s.cur, irq, env) == Result(r, irq, ok);
    hide Exec;
  }

  /** A blocking PULL waits for a word, and then takes it. */
  lemma PullAgain(s: Sm, irq: set<nat>, env: Env)
    requires HeldUp(s, InstrStall) && s.cur.op == PULL && s.cur.block && !s.cur.ifEmpty
    ensures var t := Tick(s, irq, env);
            if s.tx.items == [] then Waits(s, irq, t, false, true)
            else
              && Goes(s, t) && t.irq == irq && t.sm.rx == s.rx
              && t.sm.tx == s.tx.(items := s.tx.items[1..])
              && t.sm.core.osr == s.tx.items[0] && t.sm.core.osrCount == 0
  {
    Again(s, irq, env);
    hide Tick, DelayOf;
    var (r, ok) := ExecPull(s, s.cur);
    assert Exec(s, s.cur, irq, env) == Result(r, irq, ok);
    hide Exec;
  }

  /** `wait` goes on in the first clock that sees its level. */
  lemma WaitAgain(s: Sm, flag: nat, irq: set<nat>, env: Env)
    requires HeldUp(s, InstrStall) && s.cur.op == WAIT && s.cur.source < 3 && s.cur.index < 32
    requires Names(s.cur.index, s.id, flag)
    ensures var t := Tick(s, irq, env);
            if Level(s.cur.source, s.cur.index, flag, irq, env) == s.cur.polarity
            then Goes(s, t) && t.irq == (if s.cur.source == 2 && s.cur.polarity then irq - {flag} else irq)
            else Waits(s, irq, t, false, false)
  {
    FlagNamed(s.cur.index, s.id, flag);
    Again(s, irq, env);
    hide Tick, DelayOf, ResolveIrq, Names;
    assert Exec(s, s.cur, irq, env) == ExecWait(s, s.cur, irq, env);
    hide Exec;
  }

  /** `irq wait` has raised its flag: it waits, without raising it again, until the flag is down. */
  lemma IrqAgain(s: Sm, flag: nat, irq: set<nat>, env: Env)
    requires HeldUp(s, InstrStall) && s.cur.op == IRQ && s.cur.wait && !s.cur.clear && s.cur.index < 32
    requires s.irqWaitRaised && Names(s.cur.index, s.id, flag)
    ensures var t := Tick(s, irq, env);
            if flag in irq then Waits(s, irq, t, false, false)
            else Goes(s, t) && t.irq == irq && !t.sm.irqWaitRaised
  {
    FlagNamed(s.cur.index, s.id, flag);
    Again(s, irq, env);
    hide Tick, DelayOf, ResolveIrq, Names;
    assert Exec(s, s.cur, irq, env) == ExecIrq(s, s.cur, irq);
    hide Exec;
  }
}
