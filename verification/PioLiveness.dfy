/** Progress: a machine that is served again and again reaches every step. */
module PioLiveness {
  // LatencyInsensitive says that data are never wrong; here they also arrive.
  // Nothing is asked of single clocks: it is enough that clocks in which the
  // machine can go on keep coming.
  import opened PioIsa
  import opened Words
  import opened PioMachine
  import opened PioPaths
  import opened PioReference
  import opened PioRefinement
  import opened PioLatency

  /** The machine can go on in this clock: it is enabled and, unless it still
      counts a delay, stands at no WAIT or IRQ and is not blocked by a FIFO. */
  predicate CanGoOn(s: Sm)
    requires |s.program| == 32
  {
    s.enabled && (s.delayLeft == 0 ==> Fetch(s).op !in {WAIT, IRQ} && Unblocked(s, Fetch(s)))
  }

  /** The clocks of a run in which the machine could go on. */
  function GoodClocks(w: World, es: seq<Event>): nat
    requires |w.sm.program| == 32
  {
    if es == [] then 0
    else
      var prefix := es[..|es| - 1];
      GoodClocks(w, prefix) + if es[|es| - 1].Clock? && CanGoOn(Run(w, prefix).sm) then 1 else 0
  }

  /** Clocks that may pass before the next instruction begins. */
  function Backlog(s: Sm): nat { s.delayLeft + if s.stall == AutoPushStall then 32 else 0 }

  // ----------------------------------------------------------------- one clock

  /** What a clock does to the timing of a machine. */
  ghost predicate TimingMoves(s: Sm, s': Sm, executed: bool) {
    && (!s.enabled ==> s'.stall == s.stall && s'.delayLeft == s.delayLeft && !executed)
    && (s.enabled && s.delayLeft > 0 ==> s'.stall == s.stall && s'.delayLeft == s.delayLeft - 1 && !executed)
    && (s.enabled && s.delayLeft == 0
        ==> s'.delayLeft <= 31 && (if executed then s'.stall == NoStall else s'.delayLeft == 0))
  }

  lemma TickTiming(s: Sm, irq: set<nat>, env: Env)
    requires |s.program| == 32
    ensures var t := Tick(s, irq, env); TimingMoves(s, t.sm, t.outcome.executed)
  {
    hide Exec, Decode, Drain, Advance;
    var s1 := Prefetch(ResumePull(s));
    var s2 := s1.(cur := Select(s1));
    ExecKeeps(s2, s2.cur, irq, env);
  }

  lemma NotHeldBack(w: World)
    requires Inv(w) && w.sm.stall != AutoPushStall
    ensures w.pushed == Abs(w).out
  {
  }

  /** A machine that waits for room has one word more for the reference than in its FIFO. */
  lemma HeldBack(w: World)
    requires Inv(w) && w.sm.stall == AutoPushStall
    ensures |Abs(w).out| == |w.pushed| + 1
  {
  }

  lemma StallKeepsRx(s: Sm, i: PioInstr, irq: set<nat>, env: Env)
    ensures !Exec(s, i, irq, env).ok ==> Exec(s, i, irq, env).sm.rx == s.rx
  {
    hide ShiftIn, Source, OutShifted, ResolveIrq, ExecJmp, ExecSet, ExecMov, WaitSatisfied, Advance;
  }

  lemma TickStallKeepsRx(s: Sm, irq: set<nat>, env: Env)
    requires |s.program| == 32
    ensures !Tick(s, irq, env).outcome.executed ==> Tick(s, irq, env).sm.rx == s.rx
  {
    hide Exec, Decode, Drain;
    var s1 := Prefetch(ResumePull(s));
    var s2 := s1.(cur := Select(s1));
    StallKeepsRx(s2, s2.cur, irq, env);
  }

  /** A clock without a retired instruction pushes nothing. */
  lemma NothingPushed(w: World, irq: set<nat>, env: Env)
    requires |w.sm.program| == 32 && !Tick(w.sm, irq, env).outcome.executed
    ensures Happen(w, Clock(env, irq)).pushed == w.pushed
  {
    TickStallKeepsRx(w.sm, irq, env);
    hide Tick;
    assert w.sm.rx.items[|w.sm.rx.items|..] == [];
    assert w.pushed + [] == w.pushed;
  }

  /** A clock without a step: the machine works off its backlog if it can. */
  ghost predicate ClockRests(w: World, w': World, good: bool)
    requires Inv(w) && Inv(w')
  {
    && Abs(w') == Abs(w) && Backlog(w'.sm) + (if good then 1 else 0) <= Backlog(w.sm)
    && (w'.sm.stall == AutoPushStall ==> w.sm.stall == AutoPushStall && w'.pushed == w.pushed)
  }

  /** A clock with a step, after which the machine may have to wait for room. */
  ghost predicate ClockSteps(w: World, w': World, tx: Stream, good: bool)
    requires Inv(w) && Inv(w')
  {
    && Abs(w') == RefStep(w.sm.cfg, w.sm.program, tx, Abs(w))
    && Backlog(w'.sm) + (if good then 1 else 0) <= 32
    && (w'.sm.stall == AutoPushStall ==> w'.pushed == Abs(w).out)
  }

  /** One clock of any kind, good or not. */
  ghost predicate ClockMoves(w: World, w': World, tx: Stream, good: bool)
    requires Inv(w) && Inv(w')
  {
    ClockRests(w, w', good) || ClockSteps(w, w', tx, good)
  }

  /** In which a machine that counts a delay, is stopped or waits for room moves. */
  lemma HoldingClock(w: World, irq: set<nat>, env: Env, tx: Stream)
    requires Legal(w) && FollowsStream(w, tx) && Holds(w.sm)
    ensures var w' := Happen(w, Clock(env, irq)); Legal(w') && ClockMoves(w, w', tx, CanGoOn(w.sm))
  {
    TickRefines(w, tx, irq, env);
    TickTiming(w.sm, irq, env);
    if CanGoOn(w.sm) && w.sm.delayLeft == 0 {
      NoSpuriousStall(w, irq, env);
    }
    if !Tick(w.sm, irq, env).outcome.executed {
      NothingPushed(w, irq, env);
    }
    hide Inv, Abs, AdmissibleFrom, FollowsStream, RefStep, Decode, Tick, CanGoOn;
  }

  /** In which an instruction begins or goes on waiting. */
  lemma RunningClock(w: World, irq: set<nat>, env: Env, tx: Stream)
    requires Legal(w) && FollowsStream(w, tx) && !Holds(w.sm)
    ensures var w' := Happen(w, Clock(env, irq)); Legal(w') && ClockMoves(w, w', tx, CanGoOn(w.sm))
  {
    TickRefines(w, tx, irq, env);
    TickTiming(w.sm, irq, env);
    NotHeldBack(w);
    var w' := Happen(w, Clock(env, irq));
    if CanGoOn(w.sm) {
      NoSpuriousStall(w, irq, env);
    }
    if !Tick(w.sm, irq, env).outcome.executed {
      NothingPushed(w, irq, env);
    }
    if w'.sm.stall == AutoPushStall {
      HeldBack(w');
    }
    hide Inv, Abs, AdmissibleFrom, FollowsStream, RefStep, Decode, Tick, CanGoOn;
  }

  lemma ClockProgresses(w: World, irq: set<nat>, env: Env, tx: Stream)
    requires Legal(w) && FollowsStream(w, tx)
    ensures var w' := Happen(w, Clock(env, irq)); Legal(w') && ClockMoves(w, w', tx, CanGoOn(w.sm))
  {
    hide Legal, ClockMoves, FollowsStream, CanGoOn, Happen;
    if Holds(w.sm) {
      HoldingClock(w, irq, env, tx);
    } else {
      RunningClock(w, irq, env, tx);
    }
  }

  /** CPU accesses and switches change neither the data nor the backlog. */
  lemma OthersInvisible(w: World, e: Event, tx: Stream)
    requires Legal(w) && FollowsStream(w, tx) && !e.Clock?
    ensures var w' := Happen(w, e);
            && Legal(w') && Abs(w') == Abs(w) && w'.pushed == w.pushed
            && w'.sm.stall == w.sm.stall && w'.sm.core == w.sm.core && Backlog(w'.sm) == Backlog(w.sm)
  {
    hide Inv, Abs, AdmissibleFrom, FollowsStream;
    match e
    case Write(word) => WriteInvisible(w, word);
    case Read => ReadInvisible(w);
    case Enable(on) => TimingInvisible(w, w.sm.delayLeft, on);
  }

  // ---------------------------------------------------------------- whole runs

  /** Where a run stands after `good` good clocks: `k` steps on, at most 32 good
      clocks a step and the first backlog; a machine that waits for room has done
      so since the start, or owes only the word of its last step. */
  ghost predicate Counted(w: World, v: World, good: nat, tx: Stream, k: nat)
    requires Legal(w)
  {
    && Legal(v) && v.sm.program == w.sm.program && v.sm.cfg == w.sm.cfg
    && Abs(v) == RefRun(w.sm.cfg, w.sm.program, tx, Abs(w), k)
    && good + Backlog(v.sm) <= 32 * k + Backlog(w.sm)
    && (v.sm.stall == AutoPushStall ==>
          || good + Backlog(v.sm) <= Backlog(w.sm)
          || (k >= 1 && v.pushed == RefRun(w.sm.cfg, w.sm.program, tx, Abs(w), k - 1).out))
  }

  lemma RefRunMore(cfg: Config, program: seq<Half>, tx: Stream, r: Ref, k: nat)
    requires |program| == 32
    ensures RefRun(cfg, program, tx, r, k + 1) == RefStep(cfg, program, tx, RefRun(cfg, program, tx, r, k))
  {
  }

  lemma ProgramStays(w: World)
    requires Legal(w)
    ensures |w.sm.program| == 32
  {
  }

  lemma RestCounts(w: World, v: World, v': World, good: nat, more: bool, tx: Stream, k: nat)
    requires Legal(w) && Counted(w, v, good, tx, k) && Legal(v') && ClockRests(v, v', more)
    requires v'.sm.program == v.sm.program && v'.sm.cfg == v.sm.cfg
    ensures Counted(w, v', good + if more then 1 else 0, tx, k)
  {
    hide Inv, AdmissibleFrom, Abs, RefRun, RefStep, Backlog;
  }

  lemma StepCounts(w: World, v: World, v': World, good: nat, more: bool, tx: Stream, k: nat)
    requires Legal(w) && Counted(w, v, good, tx, k) && Legal(v') && ClockSteps(v, v', tx, more)
    requires v'.sm.program == v.sm.program && v'.sm.cfg == v.sm.cfg
    ensures Counted(w, v', good + if more then 1 else 0, tx, k + 1)
  {
    ProgramStays(w);
    RefRunMore(w.sm.cfg, w.sm.program, tx, Abs(w), k);
    hide Inv, AdmissibleFrom, Abs, RefRun, RefStep, Backlog;
    assert k + 1 - 1 == k;
  }

  lemma ClockCounts(w: World, v: World, good: nat, tx: Stream, k: nat, irq: set<nat>, env: Env) returns (k': nat)
    requires Legal(w) && Counted(w, v, good, tx, k) && FollowsStream(v, tx) && Legal(v) && |v.sm.program| == 32
    ensures k <= k' <= k + 1
    ensures Counted(w, Happen(v, Clock(env, irq)), good + if CanGoOn(v.sm) then 1 else 0, tx, k')
  {
    ClockProgresses(v, irq, env, tx);
    HappenKeeps(v, Clock(env, irq));
    hide Inv, AdmissibleFrom, Abs, RefRun, FollowsStream, Happen, CanGoOn, ClockRests, ClockSteps, Counted;
    var v' := Happen(v, Clock(env, irq));
    if ClockRests(v, v', CanGoOn(v.sm)) {
      k' := k;
      RestCounts(w, v, v', good, CanGoOn(v.sm), tx, k);
    } else {
      k' := k + 1;
      StepCounts(w, v, v', good, CanGoOn(v.sm), tx, k);
    }
  }

  /** Every run makes at least one step in 32 good clocks, once the backlog it
      began with is worked off. */
  lemma {:induction false} RunSteps(w: World, es: seq<Event>, tx: Stream) returns (k: nat)
    requires Legal(w) && |w.sm.program| == 32 && FollowsStream(Run(w, es), tx)
    ensures Counted(w, Run(w, es), GoodClocks(w, es), tx, k)
    decreases |es|
  {
    hide Happen, Abs, Inv, AdmissibleFrom, RefStep, FollowsStream, CanGoOn;
    if es == [] {
      k := 0;
    } else {
      var (prefix, e) := (es[..|es| - 1], es[|es| - 1]);
      var v := Run(w, prefix);
      HappenKeeps(v, e);
      FollowsEarlier(v, Run(w, es), tx);
      k := RunSteps(w, prefix, tx);
      if e.Clock? {
        k := ClockCounts(w, v, GoodClocks(w, prefix), tx, k, e.irq, e.env);
      } else {
        OthersInvisible(v, e, tx);
      }
    }
  }

  /** Data arrive: after at least 32 `k` good clocks more than the backlog, whatever
      happened in between, a run has made the first `k` steps of the reference
      machine, and their whole output is in the RX sequence. */
  lemma DataArrive(w: World, es: seq<Event>, tx: Stream, k: nat) returns (n: nat)
    requires Legal(w) && |w.sm.program| == 32 && FollowsStream(Run(w, es), tx)
    requires GoodClocks(w, es) >= 32 * k + Backlog(w.sm)
    ensures n >= k && Inv(Run(w, es)) && Abs(Run(w, es)) == RefRun(w.sm.cfg, w.sm.program, tx, Abs(w), n)
    ensures RefRun(w.sm.cfg, w.sm.program, tx, Abs(w), k).out <= Run(w, es).pushed
  {
    n := RunSteps(w, es, tx);
    hide Inv, Abs, AdmissibleFrom, RefRun, FollowsStream, Run, GoodClocks;
    var held := Run(w, es).sm.stall == AutoPushStall;
    if !held {
      NotHeldBack(Run(w, es));
    }
    OutGrows(w.sm.cfg, w.sm.program, tx, Abs(w), k, if held then n - 1 else n);
  }

  // ------------------------------------------------------- serving is possible

  function NoWait(): PioInstr -> bool { (i: PioInstr) => i.op !in {WAIT, IRQ} }

  /** Both FIFOs can hold a word, and no WAIT or IRQ lies ahead. */
  ghost predicate Usable(w: World) {
    && Legal(w) && w.sm.enabled && w.sm.tx.depth >= 1 && w.sm.rx.depth >= 1
    && Always(w.sm.cfg, w.sm.program, w.sm.core.pc, NoWait())
  }

  lemma UsableProgram(w: World)
    requires Usable(w)
    ensures |w.sm.program| == 32
  {
  }

  /** A clock leaves a machine usable. */
  lemma TickStaysUsable(w: World, tx: Stream, irq: set<nat>, env: Env)
    requires Usable(w) && FollowsStream(w, tx)
    ensures var w' := Happen(w, Clock(env, irq)); Usable(w') && w'.written == w.written
  {
    var s' := Tick(w.sm, irq, env).sm;
    TickRefines(w, tx, irq, env);
    TickLeads(w.sm, irq, env);
    TickKeeps(w.sm, irq, env);
    TickKeepsDepths(w.sm, irq, env);
    hide Inv, AdmissibleFrom, Always, Decode, Tick, Follows;
    AlwaysNext(w.sm.cfg, w.sm.program, w.sm.core.pc, NoWait(), s'.core.pc);
  }

  lemma TickKeepsDepths(s: Sm, irq: set<nat>, env: Env)
    requires |s.program| == 32
    ensures Tick(s, irq, env).sm.tx.depth == s.tx.depth && Tick(s, irq, env).sm.rx.depth == s.rx.depth
  {
    hide Exec, Decode;
    var s1 := Prefetch(ResumePull(s));
    var s2 := s1.(cur := Select(s1));
    ExecKeeps(s2, s2.cur, irq, env);
  }

  /** A usable machine with a word to take and room to push can go on. */
  lemma FedIsGood(w: World)
    requires Usable(w) && CanPop(w.sm.tx) && !w.sm.rx.Full()
    ensures |w.sm.program| == 32 && CanGoOn(w.sm)
  {
    AlwaysNow(w.sm.cfg, w.sm.program, w.sm.core.pc, NoWait());
    hide Always, Inv, AdmissibleFrom, Decode;
  }

  /** One event more. */
  lemma RunMore(w: World, es: seq<Event>, e: Event)
    requires |w.sm.program| == 32
    ensures Run(w, es + [e]) == Happen(Run(w, es), e)
    ensures GoodClocks(w, es + [e]) == GoodClocks(w, es) + if e.Clock? && CanGoOn(Run(w, es).sm) then 1 else 0
  {
    hide Happen, CanGoOn;
    assert (es + [e])[..|es|] == es;
  }

  /** The CPU reads until the RX FIFO is empty. */
  lemma {:induction false} ReadAll(w: World, es: seq<Event>) returns (more: seq<Event>)
    requires |w.sm.program| == 32 && Usable(Run(w, es))
    ensures GoodClocks(w, more) == GoodClocks(w, es) && Run(w, more).sm.rx.items == []
    ensures Usable(Run(w, more)) && Run(w, more).written == Run(w, es).written
    decreases |Run(w, es).sm.rx.items|
  {
    more := es;
    if Run(w, es).sm.rx.items != [] {
      RunMore(w, es, Read);
      ReadInvisible(Run(w, es));
      hide Run, GoodClocks, Inv, AdmissibleFrom, Always, CanGoOn;
      more := ReadAll(w, es + [Read]);
    }
  }

  /** The next word of the stream may be written. */
  lemma WriteFollows(v: World, tx: Stream)
    requires Usable(v) && |v.sm.program| == 32 && FollowsStream(v, tx)
    ensures var u := Happen(v, Write(tx(|v.written|)));
            FollowsStream(u, tx) && Usable(u) && CanPop(u.sm.tx) && u.sm.rx == v.sm.rx
  {
    hide Inv, Abs, AdmissibleFrom, Always;
    WriteInvisible(v, tx(|v.written|));
  }

  lemma SameStream(v: World, u: World, tx: Stream)
    requires FollowsStream(v, tx) && u.written == v.written
    ensures FollowsStream(u, tx)
  {
  }

  /** One good clock more. */
  lemma ServeOnce(w: World, es: seq<Event>, tx: Stream, env: Env, irq: set<nat>) returns (more: seq<Event>)
    requires |w.sm.program| == 32 && FollowsStream(Run(w, es), tx) && Usable(Run(w, es))
    ensures GoodClocks(w, more) == GoodClocks(w, es) + 1
    ensures FollowsStream(Run(w, more), tx) && Usable(Run(w, more))
  {
    hide Happen, Run, GoodClocks, FollowsStream, Usable, CanGoOn;
    var drained := ReadAll(w, es);
    var v := Run(w, drained);
    SameStream(Run(w, es), v, tx);
    var write := Write(tx(|v.written|));
    RunMore(w, drained, write);
    WriteFollows(v, tx);
    var fed := drained + [write];
    var u := Run(w, fed);
    RoomAfterReading(u);
    FedIsGood(u);
    RunMore(w, fed, Clock(env, irq));
    TickStaysUsable(u, tx, irq, env);
    more := fed + [Clock(env, irq)];
    SameStream(u, Run(w, more), tx);
  }

  lemma RoomAfterReading(w: World)
    requires Usable(w) && w.sm.rx.items == []
    ensures !w.sm.rx.Full()
  {
    hide Inv, AdmissibleFrom, Always;
  }

  /** A CPU that empties the RX FIFO and offers the next word before every clock
      makes as many good clocks as it likes, whatever the pins and flags are. */
  lemma {:induction false} CanServe(w: World, tx: Stream, pins: nat -> (Env, set<nat>), n: nat)
    returns (es: seq<Event>)
    requires FollowsStream(w, tx) && Usable(w)
    ensures |w.sm.program| == 32
    ensures GoodClocks(w, es) == n && Usable(Run(w, es)) && FollowsStream(Run(w, es), tx)
    decreases n
  {
    hide Usable, FollowsStream, CanGoOn;
    UsableProgram(w);
    if n == 0 {
      es := [];
    } else {
      es := CanServe(w, tx, pins, n - 1);
      es := ServeOnce(w, es, tx, pins(n - 1).0, pins(n - 1).1);
    }
  }
}
