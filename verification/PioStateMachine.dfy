/** The state machine as the simulator runs it: an object whose registers, FIFOs
    and stall state change in place.  `Tick` is proved to be the function
    PioMachine.Tick on the object's value. */
module PioStateMachine {
  import opened PioIsa
  import opened Words
  import opened PioMachine
  import opened PioFifos

  /** The IRQ flags that the machines of one block share. */
  class IrqFlags {
    var flags: set<nat>

    constructor ()
      ensures flags == {}
    {
      flags := {};
    }
  }

  class StateMachine {
    const program: array<Half>
    const irq: IrqFlags
    const id: nat
    const tx: PioFifo
    const rx: PioFifo
    var cfg: Config
    var pc: nat
    var x: Word
    var y: Word
    var osr: Word
    var isr: Word
    var osrCount: nat
    var isrCount: nat
    var enabled: bool
    var delayLeft: nat
    var stall: Stall
    var irqWaitRaised: bool
    var cur: PioInstr

    /** What only this machine may change. */
    ghost function Own(): set<object> {
      {this, tx, tx.buf, rx, rx.buf}
    }

    ghost predicate Valid()
      reads this, tx, tx.buf, rx, rx.buf
    {
      && program.Length == 32
      && tx != rx && tx.buf != rx.buf
      && program != tx.buf as object && program != rx.buf as object
      && tx.Valid() && rx.Valid()
    }

    ghost function CoreView(): Core
      reads this
    {
      Core(pc, x, y, osr, isr, osrCount, isrCount)
    }

    ghost function View(): (s: Sm)
      requires Valid()
      reads this, tx, tx.buf, rx, rx.buf, program
      ensures |s.program| == 32
    {
      Sm(cfg, program[..], id, CoreView(), tx.View(), rx.View(), enabled, delayLeft, stall, irqWaitRaised, cur)
    }

    constructor (program: array<Half>, irq: IrqFlags, id: nat)
      requires program.Length == 32
      ensures Valid() && fresh(Own()) && this.program == program && this.irq == irq
      ensures View() == Sm(cfg, program[..], id, Core(0, 0, 0, 0, 0, 32, 0), Fifo([], 4), Fifo([], 4),
                           false, 0, NoStall, false, BLANK)
      ensures cfg == Config(true, true, false, false, 32, 32, 31, 0, 0, false, false, 0)
    {
      this.program, this.irq, this.id := program, irq, id;
      tx := new PioFifo();
      rx := new PioFifo();
      cfg := Config(true, true, false, false, 32, 32, 31, 0, 0, false, false, 0);
      pc, x, y, osr, isr, osrCount, isrCount := 0, 0, 0, 0, 0, 32, 0;
      enabled, delayLeft, stall, irqWaitRaised, cur := false, 0, NoStall, false, BLANK;
    }

    /** CTRL.SM_RESTART: scratch registers, FIFOs and configuration stay. */
    method Restart()
      modifies this`pc, this`osr, this`isr, this`osrCount, this`isrCount,
               this`delayLeft, this`stall, this`irqWaitRaised
      ensures CoreView() == Core(cfg.wrapBottom, x, y, 0, 0, 32, 0)
      ensures delayLeft == 0 && stall == NoStall && !irqWaitRaised
    {
      pc := cfg.wrapBottom;
      osr, isr := 0, 0;
      osrCount := 32;
      isrCount := 0;
      delayLeft := 0;
      stall := NoStall;
      irqWaitRaised := false;
    }

    method AdvancePc()
      modifies this`pc
      ensures CoreView() == Advance(cfg, old(CoreView()))
    {
      if pc == cfg.wrapTop {
        pc := cfg.wrapBottom;
      } else {
        pc := (pc + 1) % 32;
      }
    }

    /** Move the oldest TX word into the OSR, if there is one. */
    method Pull() returns (ok: bool)
      requires Valid()
      modifies this`osr, this`osrCount, tx, tx.buf
      ensures Valid()
      ensures ok == CanPop(old(View()).tx)
      ensures View() == if ok then Refill(old(View())) else old(View())
    {
      var v;
      ok, v := tx.Pop();
      if ok {
        osr := v;
        osrCount := 0;
      }
    }

    /** Move the ISR into the RX FIFO, if there is room. */
    method Push() returns (ok: bool)
      requires Valid()
      modifies this`isr, this`isrCount, rx, rx.buf
      ensures Valid()
      ensures ok == !old(View()).rx.Full()
      ensures View() == if ok then Drain(old(View())) else old(View())
    {
      ok := rx.Push(isr);
      if ok {
        isr := 0;
        isrCount := 0;
      }
    }

    // ---------------------------------------------------------- instructions

    method DoJmp(i: PioInstr, env: Env)
      requires i.op == JMP
      modifies this`pc, this`x, this`y
      ensures CoreView() == ExecJmp(cfg, old(CoreView()), i, env.jmpPin)
    {
      var take := false;
      match i.condition {
        case 0 => take := true;
        case 1 => take := x == 0;
        case 2 => take := x != 0; x := Wrap(x - 1);
        case 3 => take := y == 0;
        case 4 => take := y != 0; y := Wrap(y - 1);
        case 5 => take := x != y;
        case 6 => take := env.jmpPin;
        case 7 => take := osrCount < PullThresh(cfg);
        case _ =>
      }
      if take {
        pc := i.address % 32;
      } else {
        AdvancePc();
      }
    }

    method DoSet(i: PioInstr)
      requires i.op == SET
      modifies this`pc, this`x, this`y
      ensures CoreView() == ExecSet(cfg, old(CoreView()), i)
    {
      if i.destination == X {
        x := i.data % 32;
      } else if i.destination == Y {
        y := i.data % 32;
      }
      AdvancePc();
    }

    /** What MOV STATUS reads: whether the selected FIFO is below its threshold. */
    method ReadStatus() returns (v: Word)
      requires Valid()
      ensures v == Status(View())
    {
      var level := if cfg.statusSelRx then rx.count else tx.count;
      v := if level < cfg.statusN then 0xFFFF_FFFF else 0;
    }

    method DoMov(i: PioInstr, env: Env, status: Word)
      requires i.op == MOV && !Injects(i)
      modifies this`pc, this`x, this`y, this`osr, this`isr, this`osrCount, this`isrCount
      ensures CoreView() == ExecMov(cfg, old(CoreView()), i, env.inPins, status)
    {
      hide BitReverse;
      var src: Word := 0;
      match i.source {
        case 0 => src := env.inPins;
        case 1 => src := x;
        case 2 => src := y;
        case 5 => src := status;
        case 6 => src := isr;
        case 7 => src := osr;
        case _ =>
      }
      assert src == Source(CoreView(), i, env.inPins, status);
      if i.movOp == MOV_INVERT {
        src := Not(src);
      } else if i.movOp == MOV_BITREV {
        src := BitReverse(src);
      }
      assert src == ApplyMovOp(i, Source(CoreView(), i, env.inPins, status));
      match i.destination {
        case 1 => x := src;
        case 2 => y := src;
        case 5 => pc := src % 32; return;
        case 6 => isr, isrCount := src, 0;
        case 7 => osr, osrCount := src, 0;
        case _ =>
      }
      AdvancePc();
    }

    /** Shift the low `n` bits of `v` into the ISR. */
    method ShiftIntoIsr(v: Word, n: nat)
      modifies this`isr, this`isrCount
      ensures CoreView() == ShiftIn(cfg, old(CoreView()), v, n)
    {
      hide Shr, Shl, LowBits;
      if n >= 32 {
        isr := v;
      } else if cfg.inRight {
        isr := Wrap(Shr(isr, n) + Shl(LowBits(v, n), 32 - n));
      } else {
        isr := Wrap(Shl(isr, n) + LowBits(v, n));
      }
      isrCount := isrCount + n;
      if isrCount > 32 {
        isrCount := 32;
      }
    }

    /** Shift `n` bits out of the OSR. */
    method ShiftOutOfOsr(n: nat) returns (v: Word)
      modifies this`osr, this`osrCount
      ensures v == OutValue(cfg, old(osr), n) && CoreView() == ShiftOut(cfg, old(CoreView()), n)
    {
      hide Shr, Shl, LowBits;
      if cfg.outRight {
        v := if n >= 32 then osr else LowBits(osr, n);
        osr := if n >= 32 then 0 else Shr(osr, n);
      } else {
        v := if n >= 32 then osr else Shr(osr, 32 - n);
        osr := if n >= 32 then 0 else Shl(osr, n);
      }
      osrCount := osrCount + n;
      if osrCount > 32 {
        osrCount := 32;
      }
    }

    /** OUT once the OSR holds data. */
    method DoOutShift(i: PioInstr)
      requires i.op == OUT && !Injects(i)
      modifies this`pc, this`x, this`y, this`osr, this`osrCount, this`isr, this`isrCount
      ensures CoreView() == OutShifted(cfg, old(CoreView()), i)
    {
      hide OutValue, ShiftOut;
      var n := i.bitCount;
      var v := ShiftOutOfOsr(n);
      match i.destination {
        case 1 => x := v;
        case 2 => y := v;
        case 5 => pc := v % 32; return;
        case 6 => isr, isrCount := v, n;
        case _ =>
      }
      AdvancePc();
    }

    method InSource(i: PioInstr, env: Env) returns (src: Word)
      requires i.op == IN
      ensures src == Source(CoreView(), i, env.inPins, 0)
    {
      src := 0;
      match i.source {
        case 0 => src := env.inPins;
        case 1 => src := x;
        case 2 => src := y;
        case 6 => src := isr;
        case 7 => src := osr;
        case _ =>
      }
    }

    method DoIn(i: PioInstr, env: Env) returns (ok: bool)
      requires Valid() && i.op == IN
      modifies this`pc, this`isr, this`isrCount, this`stall, rx, rx.buf
      ensures Valid() && (View(), ok) == ExecIn(old(View()), i, env)
    {
      hide Source, ShiftIn, FinishIn;
      var src := InSource(i, env);
      ShiftIntoIsr(src, i.bitCount);
      assert View() == old(View()).(core := CoreView());
      ok := EndIn();
    }

    /** The end of an IN: autopush at the threshold. */
    method EndIn() returns (ok: bool)
      requires Valid()
      modifies this`pc, this`isr, this`isrCount, this`stall, rx, rx.buf
      ensures Valid() && (View(), ok) == FinishIn(old(View()))
    {
      if cfg.autopush && isrCount >= PushThresh(cfg) {
        ok := Push();
        if !ok {
          stall := AutoPushStall;
          return false;
        }
      }
      AdvancePc();
      return true;
    }

    method DoOut(i: PioInstr) returns (ok: bool)
      requires Valid() && i.op == OUT && !Injects(i)
      modifies this`pc, this`x, this`y, this`osr, this`osrCount, this`isr, this`isrCount, this`stall, tx, tx.buf
      ensures Valid() && (View(), ok) == ExecOut(old(View()), i)
    {
      hide OutShifted;
      if cfg.autopull && osrCount >= PullThresh(cfg) {
        ok := Pull();
        if !ok {
          stall := AutoPullStall;
          return false;
        }
      }
      DoOutShift(i);
      return true;
    }

    method DoPush(i: PioInstr) returns (ok: bool)
      requires Valid() && i.op == PUSH
      modifies this`pc, this`isr, this`isrCount, rx, rx.buf
      ensures Valid() && (View(), ok) == ExecPush(old(View()), i)
    {
      if i.ifFull && isrCount < PushThresh(cfg) {
        AdvancePc();
        return true;
      }
      ok := Push();
      if !ok {
        if i.block {
          return false;
        }
        isr := 0;
        isrCount := 0;
      }
      AdvancePc();
      return true;
    }

    method DoPull(i: PioInstr) returns (ok: bool)
      requires Valid() && i.op == PULL
      modifies this`pc, this`osr, this`osrCount, tx, tx.buf
      ensures Valid() && (View(), ok) == ExecPull(old(View()), i)
    {
      if i.ifEmpty && osrCount < PullThresh(cfg) {
        AdvancePc();
        return true;
      }
      ok := Pull();
      if !ok {
        if i.block {
          return false;
        }
        osr := x;
        osrCount := 0;
      }
      AdvancePc();
      return true;
    }

    method DoWait(i: PioInstr, env: Env) returns (ok: bool)
      requires Valid() && i.op == WAIT
      modifies this`pc, irq
      ensures Valid() && Result(View(), irq.flags, ok) == ExecWait(old(View()), i, old(irq.flags), env)
    {
      var satisfied := true;
      var n := ResolveIrq(i.index, id);
      match i.source {
        case 0 => satisfied := env.gpio(i.index) == i.polarity;
        case 1 => satisfied := env.waitPin(i.index) == i.polarity;
        case 2 => satisfied := (n in irq.flags) == i.polarity;
        case _ =>
      }
      if !satisfied {
        return false;
      }
      if i.source == WAIT_IRQ && i.polarity {
        irq.flags := irq.flags - {n};
      }
      AdvancePc();
      return true;
    }

    method DoIrq(i: PioInstr) returns (ok: bool)
      requires Valid() && i.op == IRQ
      modifies this`pc, this`irqWaitRaised, irq
      ensures Valid() && Result(View(), irq.flags, ok) == ExecIrq(old(View()), i, old(irq.flags))
    {
      var n := ResolveIrq(i.index, id);
      if i.clear {
        irq.flags := irq.flags - {n};
        AdvancePc();
        return true;
      }
      if !irqWaitRaised {
        irq.flags := irq.flags + {n};
        irqWaitRaised := i.wait;
      }
      if i.wait && n in irq.flags {
        return false;
      }
      irqWaitRaised := false;
      AdvancePc();
      return true;
    }

    /** The instructions that touch registers only. */
    method DoRegisters(i: PioInstr, env: Env)
      requires Valid() && i.op in {JMP, SET, MOV} && !Injects(i)
      modifies this`pc, this`x, this`y, this`osr, this`isr, this`osrCount, this`isrCount
      ensures Valid() && Result(View(), irq.flags, true) == Exec(old(View()), i, irq.flags, env)
    {
      hide ExecJmp, ExecSet, ExecMov, Status;
      if i.op == JMP {
        DoJmp(i, env);
      } else if i.op == SET {
        DoSet(i);
      } else {
        var status := ReadStatus();
        DoMov(i, env, status);
      }
    }

    method DoExec(i: PioInstr, env: Env) returns (ok: bool)
      requires Valid() && !Injects(i)
      modifies this`pc, this`x, this`y, this`osr, this`isr, this`osrCount, this`isrCount, this`stall,
               this`irqWaitRaised, tx, tx.buf, rx, rx.buf, irq
      ensures Valid() && Result(View(), irq.flags, ok) == Exec(old(View()), i, old(irq.flags), env)
    {
      hide ExecIn, ExecOut, ExecPush, ExecPull, ExecWait, ExecIrq, View, CoreView;
      if i.op in {JMP, SET, MOV} {
        DoRegisters(i, env);
        return true;
      }
      match i.op {
        case IN => ok := DoIn(i, env);
        case OUT => ok := DoOut(i);
        case PUSH => ok := DoPush(i);
        case PULL => ok := DoPull(i);
        case WAIT => ok := DoWait(i, env);
        case IRQ => ok := DoIrq(i);
      }
    }

    // ------------------------------------------------------------------ tick

    /** Retry the push of an IN that found the RX FIFO full. */
    method RetryPush() returns (o: Outcome)
      requires Valid() && stall == AutoPushStall
      modifies this`pc, this`isr, this`isrCount, this`stall, this`delayLeft, rx, rx.buf
      ensures Valid()
      ensures var s := old(View());
              (View(), o) == if s.rx.Full() then (s, StallOutcome(s)) else (ResumePush(s), RETIRED)
    {
      var room := Push();
      if !room {
        return Outcome(false, true, false, true, false);
      }
      stall := NoStall;
      AdvancePc();
      delayLeft := DelayOf(cfg, cur);
      return RETIRED;
    }

    /** Give an OUT stalled by autopull its word, if there is one. */
    method RetryPull() returns (got: bool)
      requires Valid() && stall == AutoPullStall
      modifies this`osr, this`osrCount, this`stall, tx, tx.buf
      ensures Valid() && got == CanPop(old(View()).tx) && View() == ResumePull(old(View()))
    {
      got := Pull();
      if got {
        stall := InstrStall;
      }
    }

    /** Advance by one post-divider clock. */
    method Tick(env: Env) returns (o: Outcome)
      requires Valid()
      requires forall a :: 0 <= a < 32 ==> !Injects(Decode(program[a]))
      requires !Injects(cur)
      modifies Own(), irq
      ensures Valid() && !Injects(cur)
      ensures TickResult(View(), irq.flags, o) == PioMachine.Tick(old(View()), old(irq.flags), env)
    {
      hide Decode, RunInstr, Injects, Prefetch, ResumePush, Refill, Drain;
      if !enabled {
        return IDLE;
      }
      if delayLeft > 0 {
        delayLeft := delayLeft - 1;
        return DELAYED;
      }
      if stall == AutoPushStall {
        o := RetryPush();
        return;
      }
      if stall == AutoPullStall {
        var got := RetryPull();
        if !got {
          return Outcome(false, true, false, false, true);
        }
      }
      o := RunNext(env);
    }

    /** Refill the OSR if it is due, then fetch and run an instruction. */
    method RunNext(env: Env) returns (o: Outcome)
      requires Valid() && stall in {NoStall, InstrStall}
      requires forall a :: 0 <= a < 32 ==> !Injects(Decode(program[a]))
      requires !Injects(cur)
      modifies Own(), irq
      ensures Valid() && !Injects(cur)
      ensures var s := Prefetch(old(View()));
              TickResult(View(), irq.flags, o) == RunInstr(s.(cur := Select(s)), old(irq.flags), env)
    {
      hide Decode, RunInstr, Injects, Prefetch;
      RefillEmptyOsr();
      if stall != InstrStall {
        cur := Decode(program[pc % 32]);
      }
      o := Run(env);
    }

    /** Proactive autopull: refill an empty OSR between instructions. */
    method RefillEmptyOsr()
      requires Valid()
      modifies this`osr, this`osrCount, tx, tx.buf
      ensures Valid() && View() == Prefetch(old(View())) && pc == old(pc) && stall == old(stall)
    {
      if stall != InstrStall && cfg.autopull && osrCount >= PullThresh(cfg) {
        var _ := Pull();
      }
    }

    /** Run the instruction in `cur`. */
    method Run(env: Env) returns (o: Outcome)
      requires Valid() && !Injects(cur)
      modifies Own(), irq
      ensures Valid() && cur == old(cur)
      ensures TickResult(View(), irq.flags, o) == RunInstr(old(View()), old(irq.flags), env)
    {
      hide Decode, Exec, Injects;
      var ok := DoExec(cur, env);
      if !ok {
        if stall == NoStall {
          stall := InstrStall;
        }
        var rxStall := stall == AutoPushStall || (stall == InstrStall && cur.op == PUSH);
        var txStall := stall == AutoPullStall || (stall == InstrStall && cur.op == PULL);
        return Outcome(false, true, false, rxStall, txStall);
      }
      stall := NoStall;
      delayLeft := DelayOf(cfg, cur);
      return RETIRED;
    }
  }
}
