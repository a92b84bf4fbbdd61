/** Every tick of the real machine stutters or is one reference step.  One lemma
    per kind of instruction and per stall, then the tick as a whole; PioLatency.dfy
    carries it over whole runs. */
module PioRefinement {
  import opened PioIsa
  import opened Words
  import opened PioMachine
  import opened PioPaths
  import opened PioReference

  // -------------------------------------------------------------- history

  lemma SuffixTail(s: seq<Word>, t: seq<Word>)
    requires Suffix(s, t) && s != []
    ensures Suffix(s[1..], t) && s[0] == t[|t| - |s|]
  {
    assert t[|t| - |s|..][1..] == t[|t| - |s| + 1..];
  }

  lemma SuffixSnoc(s: seq<Word>, t: seq<Word>, v: Word)
    requires Suffix(s, t)
    ensures Suffix(s + [v], t + [v])
    ensures t + Grown(s, s + [v]) == t + [v]
  {
    assert (t + [v])[|t| - |s|..] == t[|t| - |s|..] + [v];
  }

  /** The world once the machine has become `s'`. */
  function Seen(w: World, s': Sm): World {
    w.(sm := s', pushed := w.pushed + Grown(w.sm.rx.items, s'.rx.items))
  }

  lemma Unchanged(w: World, s': Sm)
    requires s'.rx.items == w.sm.rx.items
    ensures Seen(w, s') == w.(sm := s')
  {
  }

  // ------------------------------------------------------ invisible steps

  /** Refilling an empty OSR ahead of time is invisible. */
  lemma RefillStutters(w: World)
    requires Inv(w) && w.sm.stall != AutoPushStall && CanPop(w.sm.tx)
    requires w.sm.cfg.autopull && w.sm.core.osrCount >= PullThresh(w.sm.cfg)
    ensures var w' := w.(sm := Refill(w.sm).(stall := NoStall)); Inv(w') && Abs(w') == Abs(w)
  {
    SuffixTail(w.sm.tx.items, w.written);
  }

  lemma ResumePushStutters(w: World)
    requires Inv(w) && w.sm.stall == AutoPushStall && !w.sm.rx.Full()
    ensures var w' := Seen(w, ResumePush(w.sm)); Inv(w') && Abs(w') == Abs(w)
  {
    SuffixSnoc(w.sm.rx.items, w.pushed, w.sm.core.isr);
  }

  // --------------------------------------------------- single instructions

  /** What running instruction `i` on `w` must give: on completion the reference
      step `next`, on a stall nothing, except that an IN waiting for room to push
      has already taken its reference step. */
  ghost predicate Matches(w: World, i: PioInstr, s: Sm, ok: bool, next: Ref)
    requires Inv(w)
  {
    var s' := s.(cur := i, stall := if ok then NoStall else if s.stall == NoStall then InstrStall else s.stall);
    var w' := Seen(w, s');
    && Inv(w')
    && Abs(w') == (if ok || s'.stall == AutoPushStall then next else Abs(w))
  }

  /** `w` is about to run `i`. */
  ghost predicate Ready(w: World, tx: Stream, i: PioInstr) {
    && Inv(w) && FollowsStream(w, tx)
    && w.sm.stall in {NoStall, InstrStall}
    && i == Fetch(w.sm)
    && Admissible(w.sm.cfg, i)
  }

  /** JMP, SET and MOV compute the same whether or not a word was prefetched. */
  lemma DatapathSettles(cfg: Config, c: Core, i: PioInstr, pin: bool, pins: Word, status: Word)
    requires Admissible(cfg, i)
    ensures i.op == JMP ==> Settle(cfg, ExecJmp(cfg, c, i, pin)) == ExecJmp(cfg, Settle(cfg, c), i, false)
    ensures i.op == SET ==> Settle(cfg, ExecSet(cfg, c, i)) == ExecSet(cfg, Settle(cfg, c), i)
    ensures i.op == MOV ==> Settle(cfg, ExecMov(cfg, c, i, pins, status)) == ExecMov(cfg, Settle(cfg, c), i, 0, 0)
  {
    if i.op == MOV {
      SourceIsData(cfg, c, i, pins, status);
    }
  }

  lemma OsrUntouched(cfg: Config, c: Core, i: PioInstr, pin: bool, pins: Word, status: Word)
    requires Admissible(cfg, i) && cfg.autopull
    ensures SameOsr(c, ExecJmp(cfg, c, i, pin)) && SameOsr(c, ExecSet(cfg, c, i))
    ensures i.op == MOV ==> SameOsr(c, ExecMov(cfg, c, i, pins, status))
  {
  }

  predicate SameOsr(c: Core, c': Core) { c'.osr == c.osr && c'.osrCount == c.osrCount }

  /** Replacing the datapath registers keeps the invariant, unless it claims a
      prefetched word that is not there. */
  lemma CoreChange(w: World, c: Core, i: PioInstr)
    requires Inv(w) && w.sm.stall in {NoStall, InstrStall}
    requires w.sm.cfg.autopull ==> c.osr == w.sm.core.osr && c.osrCount == w.sm.core.osrCount
    ensures var w' := w.(sm := w.sm.(core := c, stall := NoStall, cur := i));
            Inv(w') && Abs(w') == Ref(Settle(w.sm.cfg, c), Abs(w).taken, w.pushed)
  {
  }

  /** An instruction that only computes: `c` are the registers it leaves. */
  lemma DatapathMatches(w: World, i: PioInstr, c: Core, c': Core)
    requires Inv(w) && w.sm.stall in {NoStall, InstrStall}
    requires w.sm.cfg.autopull ==> c.osr == w.sm.core.osr && c.osrCount == w.sm.core.osrCount
    requires Settle(w.sm.cfg, c) == c'
    ensures Matches(w, i, w.sm.(core := c), true, Abs(w).(core := c'))
  {
    CoreChange(w, c, i);
    Unchanged(w, w.sm.(core := c));
  }

  /** The machine after a push that found room. */
  function Pushed(s: Sm, i: PioInstr): Sm {
    var d := Drain(s);
    d.(stall := NoStall, cur := i, core := Advance(s.cfg, d.core))
  }

  lemma PushEmits(w: World, i: PioInstr)
    requires Inv(w) && w.sm.stall in {NoStall, InstrStall}
    ensures var w' := Seen(w, Pushed(w.sm, i)); Inv(w') && Abs(w') == Emit(w.sm.cfg, Abs(w))
  {
    var v := w.sm.core.isr;
    SuffixSnoc(w.sm.rx.items, w.pushed, v);
    var c := Drain(w.sm).core;
    CoreChange(w, Advance(w.sm.cfg, c), i);
    var w1 := w.(sm := w.sm.(core := Advance(w.sm.cfg, c), stall := NoStall, cur := i));
    var w' := Seen(w, Pushed(w.sm, i));
    assert w' == w1.(sm := w1.sm.(rx := Drain(w.sm).rx), pushed := w.pushed + [v]);
  }

  /** An autopush that finds the FIFO full has, for the reference, already pushed. */
  lemma AutoPushEmits(w: World, i: PioInstr)
    requires Inv(w) && w.sm.stall in {NoStall, InstrStall}
    requires i == Fetch(w.sm) && i.op == IN
    requires w.sm.cfg.autopush && w.sm.core.isrCount >= PushThresh(w.sm.cfg)
    ensures var w' := w.(sm := w.sm.(stall := AutoPushStall, cur := i));
            Inv(w') && Abs(w') == Emit(w.sm.cfg, Abs(w))
  {
  }

  lemma ComputeMatches(w: World, tx: Stream, i: PioInstr, irq: set<nat>, env: Env)
    requires Ready(w, tx, i) && i.op in {JMP, SET, MOV}
    ensures var r := Exec(w.sm, i, irq, env); Matches(w, i, r.sm, r.ok, RefExec(w.sm.cfg, i, tx, Abs(w)))
  {
    var c := Exec(w.sm, i, irq, env).sm.core;
    DatapathSettles(w.sm.cfg, w.sm.core, i, env.jmpPin, env.inPins, Status(w.sm));
    if w.sm.cfg.autopull {
      OsrUntouched(w.sm.cfg, w.sm.core, i, env.jmpPin, env.inPins, Status(w.sm));
    }
    hide Matches, Settle, ExecJmp, ExecSet, ExecMov, Decode;
    DatapathMatches(w, i, c, RefExec(w.sm.cfg, i, tx, Abs(w)).core);
  }

  /** The world once IN has shifted but not yet pushed or advanced. */
  function Shifted(w: World, i: PioInstr): World {
    var c := ShiftIn(w.sm.cfg, w.sm.core, Source(w.sm.core, i, 0, 0), i.bitCount);
    w.(sm := w.sm.(core := c, stall := NoStall, cur := i))
  }

  /** An admissible IN or MOV reads no pins and no FIFO levels, and with autopull no OSR. */
  lemma SourceIsData(cfg: Config, c: Core, i: PioInstr, pins: Word, status: Word)
    requires Admissible(cfg, i) && i.op in {IN, MOV}
    ensures Source(c, i, pins, status) == Source(Settle(cfg, c), i, 0, 0)
  {
  }

  /** IN leaves the OSR alone. */
  lemma ShiftInSettles(cfg: Config, c: Core, src: Word, n: nat)
    ensures SameOsr(c, ShiftIn(cfg, c, src, n))
    ensures Settle(cfg, ShiftIn(cfg, c, src, n)) == ShiftIn(cfg, Settle(cfg, c), src, n)
  {
    hide LowBits, Shr, Shl, AddCount;
  }

  lemma AbsCore(w: World)
    requires Inv(w) && w.sm.stall != AutoPushStall
    ensures Abs(w).core == Settle(w.sm.cfg, w.sm.core) && Abs(w).out == w.pushed
  {
  }

  lemma InShifts(w: World, i: PioInstr)
    requires Inv(w) && w.sm.stall in {NoStall, InstrStall}
    requires i.op == IN && Admissible(w.sm.cfg, i)
    ensures var w' := Shifted(w, i);
            && Inv(w')
            && Abs(w') == Abs(w).(core :=
                 ShiftIn(w.sm.cfg, Abs(w).core, Source(Abs(w).core, i, 0, 0), i.bitCount))
  {
    SourceIsData(w.sm.cfg, w.sm.core, i, 0, 0);
    AbsCore(w);
    ShiftInSettles(w.sm.cfg, w.sm.core, Source(w.sm.core, i, 0, 0), i.bitCount);
    hide Decode, Source, ShiftIn, Settle, Inv, Abs, Admissible;
    CoreChange(w, Shifted(w, i).sm.core, i);
  }

  lemma InMatches(w: World, tx: Stream, i: PioInstr, env: Env)
    requires Ready(w, tx, i) && i.op == IN
    ensures var (s', ok) := ExecIn(w.sm, i, env); Matches(w, i, s', ok, RefIn(w.sm.cfg, i, Abs(w)))
  {
    SourceIsData(w.sm.cfg, w.sm.core, i, env.inPins, 0);
    SourceIsData(w.sm.cfg, w.sm.core, i, 0, 0);
    InShifts(w, i);
    var w1 := Shifted(w, i);
    InFinishes(w1, i);
    hide Decode, Source, ShiftIn, Settle, Admissible, AddCount, Inv;
    if w.sm.cfg.autopush && w1.sm.core.isrCount >= PushThresh(w.sm.cfg) && w.sm.rx.Full() {
      assert Seen(w1, w1.sm.(stall := AutoPushStall)) == Seen(w, w1.sm.(stall := AutoPushStall));
    }
  }

  /** IN after its shift: push, wait or go on. */
  lemma InFinishes(w: World, i: PioInstr)
    requires Inv(w) && w.sm.stall == NoStall && i == w.sm.cur == Fetch(w.sm) && i.op == IN
    ensures var full := w.sm.cfg.autopush && w.sm.core.isrCount >= PushThresh(w.sm.cfg);
            var s' := if !full then w.sm.(core := Advance(w.sm.cfg, w.sm.core))
                      else if w.sm.rx.Full() then w.sm.(stall := AutoPushStall)
                      else Pushed(w.sm, i);
            && Inv(Seen(w, s'))
            && Abs(Seen(w, s')) ==
               if full then Emit(w.sm.cfg, Abs(w)) else Abs(w).(core := Advance(w.sm.cfg, Abs(w).core))
  {
    if !w.sm.cfg.autopush || w.sm.core.isrCount < PushThresh(w.sm.cfg) {
      CoreChange(w, Advance(w.sm.cfg, w.sm.core), i);
      Unchanged(w, w.sm.(core := Advance(w.sm.cfg, w.sm.core)));
    } else if w.sm.rx.Full() {
      AutoPushEmits(w, i);
      Unchanged(w, w.sm.(stall := AutoPushStall));
    } else {
      PushEmits(w, i);
    }
    hide Decode, Settle;
  }

  /** OUT from an OSR that holds data, prefetched or not. */
  lemma OutShifts(w: World, tx: Stream, i: PioInstr)
    requires Inv(w) && w.sm.stall in {NoStall, InstrStall}
    requires FollowsStream(w, tx) && i.op == OUT && 1 <= i.bitCount
    requires w.sm.cfg.autopull ==> w.sm.core.osrCount < PullThresh(w.sm.cfg)
    ensures var w' := w.(sm := w.sm.(core := OutShifted(w.sm.cfg, w.sm.core, i), stall := NoStall, cur := i));
            Inv(w') && Abs(w') == RefOut(w.sm.cfg, i, tx, Abs(w))
  {
    var r := Abs(w);
    if w.sm.cfg.autopull && w.sm.core.osrCount == 0 {
      assert RefTake(tx, r).core == w.sm.core;
    }
  }

  /** OUT with autopull finds neither OSR data nor a TX word. */
  lemma OutWaits(w: World, i: PioInstr, next: Ref)
    requires Inv(w) && w.sm.stall in {NoStall, InstrStall}
    requires i == Fetch(w.sm) && i.op == OUT
    requires w.sm.cfg.autopull && w.sm.core.osrCount >= PullThresh(w.sm.cfg)
    ensures Matches(w, i, w.sm.(stall := AutoPullStall), false, next)
  {
    Unchanged(w, w.sm.(stall := AutoPullStall, cur := i));
  }

  /** A completed instruction seen from a world with the same history and meaning. */
  lemma MatchesFrom(w: World, w1: World, i: PioInstr, s: Sm, next: Ref)
    requires Inv(w) && Inv(w1) && Matches(w1, i, s, true, next)
    requires w1.written == w.written && w1.pushed == w.pushed && w1.sm.rx == w.sm.rx
    ensures Matches(w, i, s, true, next)
  {
  }

  lemma OutMatches(w: World, tx: Stream, i: PioInstr)
    requires Ready(w, tx, i) && i.op == OUT
    ensures var (s', ok) := ExecOut(w.sm, i); Matches(w, i, s', ok, RefOut(w.sm.cfg, i, tx, Abs(w)))
  {
    var s := w.sm;
    if !s.cfg.autopull || s.core.osrCount < PullThresh(s.cfg) {
      OutShifts(w, tx, i);
      Unchanged(w, s.(core := OutShifted(s.cfg, s.core, i), stall := NoStall, cur := i));
    } else if CanPop(s.tx) {
      var s1 := Refill(s).(stall := NoStall);
      var w1 := w.(sm := s1);
      RefillStutters(w);
      OutShifts(w1, tx, i);
      Unchanged(w1, s1.(core := OutShifted(s.cfg, s1.core, i), cur := i));
      MatchesFrom(w, w1, i, s1.(core := OutShifted(s.cfg, s1.core, i)), RefOut(s.cfg, i, tx, Abs(w)));
    } else {
      OutWaits(w, i, RefOut(s.cfg, i, tx, Abs(w)));
    }
    hide Decode, OutShifted, RefOut, Settle;
  }

  lemma PushMatches(w: World, tx: Stream, i: PioInstr)
    requires Ready(w, tx, i) && i.op == PUSH
    ensures var (s', ok) := ExecPush(w.sm, i); Matches(w, i, s', ok, RefPush(w.sm.cfg, i, Abs(w)))
  {
    if i.ifFull && w.sm.core.isrCount < PushThresh(w.sm.cfg) {
      HoldOrAdvance(w, i, w.sm.irqWaitRaised, true);
    } else if w.sm.rx.Full() {
      HoldOrAdvance(w, i, w.sm.irqWaitRaised, false);
    } else {
      hide Decode, Settle;
      PushEmits(w, i);
    }
  }

  /** PULL with a word to take; autopull is off. */
  lemma PullTakes(w: World, tx: Stream, i: PioInstr)
    requires Ready(w, tx, i) && i.op == PULL && CanPop(w.sm.tx)
    ensures var s1 := Refill(w.sm); var s' := s1.(core := Advance(w.sm.cfg, s1.core));
            Matches(w, i, s', true,
                    var r := RefTake(tx, Abs(w)); r.(core := Advance(w.sm.cfg, r.core)))
  {
    hide Decode;
    SuffixTail(w.sm.tx.items, w.written);
    var s1 := Refill(w.sm);
    Unchanged(w, s1.(core := Advance(w.sm.cfg, s1.core), cur := i, stall := NoStall));
  }

  lemma PullMatches(w: World, tx: Stream, i: PioInstr)
    requires Ready(w, tx, i) && i.op == PULL
    ensures var (s', ok) := ExecPull(w.sm, i); Matches(w, i, s', ok, RefPull(w.sm.cfg, i, tx, Abs(w)))
  {
    if i.ifEmpty && w.sm.core.osrCount < PullThresh(w.sm.cfg) {
      HoldOrAdvance(w, i, w.sm.irqWaitRaised, true);
    } else if CanPop(w.sm.tx) {
      PullTakes(w, tx, i);
    } else {
      HoldOrAdvance(w, i, w.sm.irqWaitRaised, false);
    }
    hide Matches, Decode, Advance;
  }

  /** A machine that stays, or that moves to the next instruction. */
  lemma HoldOrAdvance(w: World, i: PioInstr, raised: bool, ok: bool)
    requires Inv(w) && w.sm.stall in {NoStall, InstrStall}
    requires i == Fetch(w.sm) && i.op in {PUSH, PULL, WAIT, IRQ}
    ensures var c := if ok then Advance(w.sm.cfg, w.sm.core) else w.sm.core;
            Matches(w, i, w.sm.(core := c, irqWaitRaised := raised), ok,
                    Abs(w).(core := Advance(w.sm.cfg, Abs(w).core)))
  {
    hide Decode;
  }

  lemma WaitMatches(w: World, tx: Stream, i: PioInstr, irq: set<nat>, env: Env)
    requires Ready(w, tx, i) && i.op in {WAIT, IRQ}
    ensures var r := if i.op == WAIT then ExecWait(w.sm, i, irq, env) else ExecIrq(w.sm, i, irq);
            Matches(w, i, r.sm, r.ok, Abs(w).(core := Advance(w.sm.cfg, Abs(w).core)))
  {
    var r := if i.op == WAIT then ExecWait(w.sm, i, irq, env) else ExecIrq(w.sm, i, irq);
    HoldOrAdvance(w, i, r.sm.irqWaitRaised, r.ok);
    hide Matches, Decode, Advance, Settle;
  }

  lemma ExecMatches(w: World, tx: Stream, i: PioInstr, irq: set<nat>, env: Env)
    requires Ready(w, tx, i)
    ensures var r := Exec(w.sm, i, irq, env); Matches(w, i, r.sm, r.ok, RefExec(w.sm.cfg, i, tx, Abs(w)))
  {
    hide Decode, Inv, Matches, Settle, ExecIn, ExecOut, ExecPush, ExecPull, RefIn, RefOut, RefPush, RefPull;
    match i.op
    case IN => InMatches(w, tx, i, env);
    case OUT => OutMatches(w, tx, i);
    case PUSH => PushMatches(w, tx, i);
    case PULL => PullMatches(w, tx, i);
    case WAIT => WaitMatches(w, tx, i, irq, env);
    case IRQ => WaitMatches(w, tx, i, irq, env);
    case _ => ComputeMatches(w, tx, i, irq, env);
  }

  // ---------------------------------------------------------------- ticks

  /** What no instruction changes. */
  predicate Keeps(s: Sm, s': Sm) {
    && s'.cfg == s.cfg && s'.program == s.program && s'.id == s.id
    && s'.enabled == s.enabled && s'.delayLeft == s.delayLeft && s'.cur == s.cur
    && s'.tx.depth == s.tx.depth && s'.rx.depth == s.rx.depth
  }

  lemma ShiftOpsKeep(s: Sm, i: PioInstr, env: Env)
    ensures Keeps(s, ExecIn(s, i, env).0) && Keeps(s, ExecOut(s, i).0)
  {
    hide ShiftIn, OutShifted, Source;
  }

  lemma FifoOpsKeep(s: Sm, i: PioInstr)
    ensures Keeps(s, ExecPush(s, i).0) && Keeps(s, ExecPull(s, i).0)
  {
  }

  lemma FlagOpsKeep(s: Sm, i: PioInstr, irq: set<nat>, env: Env)
    ensures Keeps(s, ExecWait(s, i, irq, env).sm) && Keeps(s, ExecIrq(s, i, irq).sm)
  {
  }

  lemma CoreKeeps(s: Sm, c: Core)
    ensures Keeps(s, s.(core := c))
  {
  }

  lemma ExecKeeps(s: Sm, i: PioInstr, irq: set<nat>, env: Env)
    ensures Keeps(s, Exec(s, i, irq, env).sm)
  {
    match i.op
    case JMP => CoreKeeps(s, ExecJmp(s.cfg, s.core, i, env.jmpPin));
    case SET => CoreKeeps(s, ExecSet(s.cfg, s.core, i));
    case MOV => CoreKeeps(s, ExecMov(s.cfg, s.core, i, env.inPins, Status(s)));
    case WAIT => FlagOpsKeep(s, i, irq, env);
    case IRQ => FlagOpsKeep(s, i, irq, env);
    case IN => ShiftOpsKeep(s, i, env);
    case OUT => ShiftOpsKeep(s, i, env);
    case _ => FifoOpsKeep(s, i);
  }

  /** Only the timing fields differ: the reference sees no change. */
  lemma TimingInvisible(w: World, d: nat, on: bool)
    requires Inv(w)
    ensures var w' := w.(sm := w.sm.(delayLeft := d, enabled := on)); Inv(w') && Abs(w') == Abs(w)
  {
  }

  /** Remembering the fetched instruction is invisible. */
  lemma CurInvisible(w: World, i: PioInstr)
    requires Inv(w) && (w.sm.stall == NoStall || i == w.sm.cur)
    ensures var w' := w.(sm := w.sm.(cur := i)); Inv(w') && Abs(w') == Abs(w)
  {
  }

  /** `w'` is `w`, or one reference step further. */
  ghost predicate StuttersOrSteps(w: World, w': World, tx: Stream)
    requires Inv(w)
  {
    && Inv(w')
    && w'.sm.cfg == w.sm.cfg && w'.sm.program == w.sm.program
    && (Abs(w') == Abs(w) || Abs(w') == RefStep(w.sm.cfg, w.sm.program, tx, Abs(w)))
  }

  lemma RunInstrRefines(w: World, tx: Stream, irq: set<nat>, env: Env)
    requires Ready(w, tx, w.sm.cur)
    ensures StuttersOrSteps(w, Seen(w, RunInstr(w.sm, irq, env).sm), tx)
    ensures RunInstr(w.sm, irq, env).outcome.executed ==>
              Abs(Seen(w, RunInstr(w.sm, irq, env).sm)) == RefStep(w.sm.cfg, w.sm.program, tx, Abs(w))
  {
    var i := w.sm.cur;
    var r := Exec(w.sm, i, irq, env);
    ExecMatches(w, tx, i, irq, env);
    ExecKeeps(w.sm, i, irq, env);
    var s' := r.sm.(stall := if r.ok then NoStall else if r.sm.stall == NoStall then InstrStall else r.sm.stall);
    if r.ok {
      TimingInvisible(Seen(w, s'), DelayOf(w.sm.cfg, i), s'.enabled);
    }
  }

  /** The world just before the selected instruction runs. */
  lemma FetchInvisible(w: World, tx: Stream)
    requires Inv(w) && FollowsStream(w, tx)
    requires w.sm.stall in {NoStall, InstrStall}
    requires Admissible(w.sm.cfg, Fetch(w.sm))
    ensures var s1 := Prefetch(w.sm); var w1 := w.(sm := s1.(cur := Select(s1)));
            Ready(w1, tx, w1.sm.cur) && Abs(w1) == Abs(w)
  {
    var s1 := Prefetch(w.sm);
    if s1 != w.sm {
      RefillStutters(w);
    }
    CurInvisible(w.(sm := s1), Select(s1));
  }

  /** After an autopull stall the waiting OUT finds its word and completes. */
  lemma ResumePullRefines(w: World, tx: Stream, irq: set<nat>, env: Env)
    requires Inv(w) && FollowsStream(w, tx)
    requires w.sm.stall == AutoPullStall && CanPop(w.sm.tx)
    requires Admissible(w.sm.cfg, Fetch(w.sm))
    ensures var s1 := ResumePull(w.sm);
            && RunInstr(s1, irq, env).outcome == RETIRED
            && StuttersOrSteps(w, Seen(w, RunInstr(s1, irq, env).sm), tx)
            && Abs(Seen(w, RunInstr(s1, irq, env).sm)) == RefStep(w.sm.cfg, w.sm.program, tx, Abs(w))
  {
    var w1 := w.(sm := Refill(w.sm).(stall := NoStall));
    RefillStutters(w);
    RunInstrRefines(w1, tx, irq, env);
    assert RunInstr(ResumePull(w.sm), irq, env) == RunInstr(w1.sm, irq, env);
  }

  /** No instruction begins in the next clock. */
  predicate Holds(s: Sm) { !s.enabled || s.delayLeft > 0 || s.stall == AutoPushStall }

  /** The claim for one clock. */
  ghost predicate ClockRefines(w: World, tx: Stream, irq: set<nat>, env: Env)
    requires |w.sm.program| == 32 && Inv(w)
  {
    && StuttersOrSteps(w, Happen(w, Clock(env, irq)), tx)
    && (Holds(w.sm) ==> Abs(Happen(w, Clock(env, irq))) == Abs(w))
    && (Tick(w.sm, irq, env).outcome.executed && w.sm.stall != AutoPushStall ==>
          && Inv(Happen(w, Clock(env, irq)))
          && Abs(Happen(w, Clock(env, irq))) == RefStep(w.sm.cfg, w.sm.program, tx, Abs(w)))
  }

  lemma HeldRefines(w: World, tx: Stream, irq: set<nat>, env: Env)
    requires Inv(w) && FollowsStream(w, tx) && (!w.sm.enabled || w.sm.delayLeft > 0)
    ensures ClockRefines(w, tx, irq, env)
  {
    hide Decode, RunInstr, RefExec;
    Unchanged(w, Tick(w.sm, irq, env).sm);
    if w.sm.enabled {
      TimingInvisible(w, w.sm.delayLeft - 1, w.sm.enabled);
    }
  }

  lemma PushStallRefines(w: World, tx: Stream, irq: set<nat>, env: Env)
    requires Inv(w) && FollowsStream(w, tx) && w.sm.enabled && w.sm.delayLeft == 0 && w.sm.stall == AutoPushStall
    ensures ClockRefines(w, tx, irq, env)
  {
    hide Decode, RunInstr, RefExec;
    if w.sm.rx.Full() {
      Unchanged(w, w.sm);
    } else {
      ResumePushStutters(w);
    }
  }

  lemma PullStallRefines(w: World, tx: Stream, irq: set<nat>, env: Env)
    requires Inv(w) && FollowsStream(w, tx) && w.sm.enabled && w.sm.delayLeft == 0 && w.sm.stall == AutoPullStall
    requires Admissible(w.sm.cfg, Fetch(w.sm))
    ensures ClockRefines(w, tx, irq, env)
  {
    hide Decode, RunInstr, RefExec;
    if CanPop(w.sm.tx) {
      ResumePullRefines(w, tx, irq, env);
    } else {
      Unchanged(w, w.sm);
    }
  }

  lemma RunningRefines(w: World, tx: Stream, irq: set<nat>, env: Env)
    requires Inv(w) && FollowsStream(w, tx) && w.sm.enabled && w.sm.delayLeft == 0
    requires w.sm.stall == NoStall || w.sm.stall == InstrStall
    requires Admissible(w.sm.cfg, Fetch(w.sm))
    ensures ClockRefines(w, tx, irq, env)
  {
    hide Decode, RunInstr, RefExec;
    FetchInvisible(w, tx);
    var s1 := Prefetch(w.sm);
    RunInstrRefines(w.(sm := s1.(cur := Select(s1))), tx, irq, env);
  }

  lemma LegalNow(w: World)
    requires Legal(w)
    ensures Admissible(w.sm.cfg, Fetch(w.sm))
  {
    AlwaysNow(w.sm.cfg, w.sm.program, w.sm.core.pc, AdmissibleIn(w.sm.cfg));
    hide Decode, Always;
  }

  /** A clock keeps a machine on its path. */
  lemma TickStaysLegal(w: World, irq: set<nat>, env: Env)
    requires Legal(w) && Inv(Happen(w, Clock(env, irq)))
    ensures Legal(Happen(w, Clock(env, irq)))
  {
    var (s, s') := (w.sm, Tick(w.sm, irq, env).sm);
    TickLeads(s, irq, env);
    TickKeeps(s, irq, env);
    hide Decode, Always, Tick, Follows;
    AlwaysNext(s.cfg, s.program, s.core.pc, AdmissibleIn(s.cfg), s'.core.pc);
  }

  lemma TickKeeps(s: Sm, irq: set<nat>, env: Env)
    requires |s.program| == 32
    ensures var s' := Tick(s, irq, env).sm;
            s'.cfg == s.cfg && s'.program == s.program && s'.id == s.id && s'.enabled == s.enabled
  {
    hide Exec, Decode;
    var s1 := Prefetch(ResumePull(s));
    var s2 := s1.(cur := Select(s1));
    ExecKeeps(s2, s2.cur, irq, env);
  }

  /** The refinement theorem: one clock of the real machine, with any pins and
      IRQ flags, is one reference step or none; a retired instruction, other
      than an IN completing a delayed push, is exactly one. */
  lemma TickRefines(w: World, tx: Stream, irq: set<nat>, env: Env)
    requires Legal(w) && FollowsStream(w, tx)
    ensures var w' := Happen(w, Clock(env, irq)); StuttersOrSteps(w, w', tx) && Legal(w')
    ensures Tick(w.sm, irq, env).outcome.executed && w.sm.stall != AutoPushStall ==>
              Abs(Happen(w, Clock(env, irq))) == RefStep(w.sm.cfg, w.sm.program, tx, Abs(w))
    ensures Holds(w.sm) ==> Abs(Happen(w, Clock(env, irq))) == Abs(w)
  {
    LegalNow(w);
    TickMatches(w, tx, irq, env);
    hide Decode, Tick, RefStep, Abs;
    TickStaysLegal(w, irq, env);
  }

  lemma TickMatches(w: World, tx: Stream, irq: set<nat>, env: Env)
    requires Inv(w) && FollowsStream(w, tx) && Admissible(w.sm.cfg, Fetch(w.sm))
    ensures var w' := Happen(w, Clock(env, irq)); StuttersOrSteps(w, w', tx)
    ensures Tick(w.sm, irq, env).outcome.executed && w.sm.stall != AutoPushStall ==>
              Abs(Happen(w, Clock(env, irq))) == RefStep(w.sm.cfg, w.sm.program, tx, Abs(w))
    ensures Holds(w.sm) ==> Abs(Happen(w, Clock(env, irq))) == Abs(w)
  {
    hide Decode, Tick, RefStep, StuttersOrSteps, Abs;
    if !w.sm.enabled || w.sm.delayLeft > 0 {
      HeldRefines(w, tx, irq, env);
    } else if w.sm.stall == AutoPushStall {
      PushStallRefines(w, tx, irq, env);
    } else if w.sm.stall == AutoPullStall {
      PullStallRefines(w, tx, irq, env);
    } else {
      RunningRefines(w, tx, irq, env);
    }
  }
}
