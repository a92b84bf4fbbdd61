/** Whole runs: the RX words depend only on the TX words. */
module PioLatency {
  // FIFO depth, stalls, delays, and the moments at which the CPU writes, reads,
  // stops or starts the machine do not show in the data.
  import opened PioIsa
  import opened Words
  import opened PioMachine
  import opened PioPaths
  import opened PioReference
  import opened PioRefinement

  /** A machine after CTRL.SM_RESTART with empty FIFOs of the given depths. */
  function Restarted(cfg: Config, program: seq<Half>, id: nat, x: Word, y: Word, txDepth: nat, rxDepth: nat): World {
    World(Sm(cfg, program, id, Core(cfg.wrapBottom, x, y, 0, 0, 32, 0), Fifo([], txDepth), Fifo([], rxDepth),
             false, 0, NoStall, false, BLANK), [], [])
  }

  /** The world after a sequence of events. */
  function Run(w: World, es: seq<Event>): (w': World)
    requires |w.sm.program| == 32
    ensures w'.sm.program == w.sm.program && w'.sm.cfg == w.sm.cfg
  {
    if es == [] then w
    else
      var w0 := Run(w, es[..|es| - 1]);
      HappenKeeps(w0, es[|es| - 1]);
      Happen(w0, es[|es| - 1])
  }

  lemma HappenKeeps(w: World, e: Event)
    requires |w.sm.program| == 32
    ensures Happen(w, e).sm.program == w.sm.program && Happen(w, e).sm.cfg == w.sm.cfg
    ensures w.written <= Happen(w, e).written
  {
    hide Exec, Decode, Select;
    if e.Clock? {
      hide Grown;
      var s1 := Prefetch(ResumePull(w.sm));
      var s2 := s1.(cur := Select(s1));
      ExecKeeps(s2, s2.cur, e.irq, e.env);
    }
  }

  lemma WriteInvisible(w: World, word: Word)
    requires Inv(w)
    ensures Inv(Happen(w, Write(word))) && Abs(Happen(w, Write(word))) == Abs(w)
  {
    if !w.sm.tx.Full() {
      SuffixSnoc(w.sm.tx.items, w.written, word);
      FedInvisible(w, w.sm.tx.(items := w.sm.tx.items + [word]), w.written + [word]);
    }
    hide Decode, Inv, Abs;
  }

  lemma FedInvisible(w: World, tx: Fifo, written: seq<Word>)
    requires Inv(w) && Suffix(tx.items, written)
    requires |written| - |tx.items| == Popped(w) && w.written <= written
    ensures var w' := w.(sm := w.sm.(tx := tx), written := written); Inv(w') && Abs(w') == Abs(w)
  {
    hide Decode, Settle;
  }

  lemma ReadInvisible(w: World)
    requires Inv(w)
    ensures Inv(Happen(w, Read)) && Abs(Happen(w, Read)) == Abs(w)
  {
    if w.sm.rx.items != [] {
      SuffixTail(w.sm.rx.items, w.pushed);
    }
  }

  /** Every event is invisible to the reference machine or one of its steps. */
  lemma HappenRefines(w: World, e: Event, tx: Stream)
    requires Legal(w) && FollowsStream(w, tx)
    ensures StuttersOrSteps(w, Happen(w, e), tx) && Legal(Happen(w, e))
  {
    match e
    case Clock(env, irq) => TickRefines(w, tx, irq, env);
    case Write(word) => WriteInvisible(w, word);
    case Read => ReadInvisible(w);
    case Enable(on) => TimingInvisible(w, w.sm.delayLeft, on);
  }

  lemma FollowsEarlier(w: World, w': World, tx: Stream)
    requires FollowsStream(w', tx) && w.written <= w'.written
    ensures FollowsStream(w, tx)
  {
    forall j | 0 <= j < |w.written|
      ensures w.written[j] == tx(j)
    {
      assert w.written[j] == w'.written[j];
    }
  }

  lemma ProgramLength(w: World)
    requires Inv(w)
    ensures |w.sm.program| == 32
  {
  }

  lemma CountStep(w: World, w': World, tx: Stream, r: Ref, k: nat) returns (k': nat)
    requires Inv(w) && StuttersOrSteps(w, w', tx)
    requires Abs(w) == RefRun(w.sm.cfg, w.sm.program, tx, r, k)
    ensures Inv(w') && k <= k' <= k + 1 && Abs(w') == RefRun(w.sm.cfg, w.sm.program, tx, r, k')
  {
    hide RefStep;
    k' := if Abs(w') == Abs(w) then k else k + 1;
  }

  /** A run from any legal state is, for its data, `k` steps of the reference machine. */
  lemma {:induction false} RunRefines(w: World, es: seq<Event>, tx: Stream) returns (k: nat)
    requires Legal(w) && FollowsStream(Run(w, es), tx)
    ensures Legal(Run(w, es)) && k <= |es|
    ensures Abs(Run(w, es)) == RefRun(w.sm.cfg, w.sm.program, tx, Abs(w), k)
  {
    ProgramLength(w);
    hide Happen, Abs, Inv, AdmissibleFrom, RefStep, FollowsStream, StuttersOrSteps;
    if es == [] {
      k := 0;
    } else {
      var w0 := Run(w, es[..|es| - 1]);
      var e := es[|es| - 1];
      HappenKeeps(w0, e);
      FollowsEarlier(w0, Run(w, es), tx);
      k := RunRefines(w, es[..|es| - 1], tx);
      HappenRefines(w0, e, tx);
      k := CountStep(w0, Happen(w0, e), tx, Abs(w), k);
    }
  }

  lemma StepGrows(cfg: Config, i: PioInstr, tx: Stream, r: Ref)
    ensures r.out <= RefExec(cfg, i, tx, r).out
  {
    match i.op
    case JMP =>
    case IN =>
    case OUT =>
    case PUSH =>
    case PULL =>
    case _ =>
  }

  lemma {:induction false} OutGrows(cfg: Config, program: seq<Half>, tx: Stream, r: Ref, j: nat, k: nat)
    requires |program| == 32 && j <= k
    ensures RefRun(cfg, program, tx, r, j).out <= RefRun(cfg, program, tx, r, k).out
  {
    hide RefExec, Decode;
    if j < k {
      OutGrows(cfg, program, tx, r, j, k - 1);
      var r' := RefRun(cfg, program, tx, r, k - 1);
      StepGrows(cfg, Decode(program[r'.core.pc % 32]), tx, r');
    }
  }

  /** The RX words of a legal state are the reference output, but for one word
      that may still wait for room. */
  lemma PushedIsPrefix(w: World)
    requires Inv(w)
    ensures w.pushed <= Abs(w).out && |Abs(w).out| <= |w.pushed| + 1
  {
  }

  predicate Comparable(s: seq<Word>, t: seq<Word>) { s <= t || t <= s }

  lemma PrefixesCompare(s: seq<Word>, t: seq<Word>, u: seq<Word>)
    requires s <= u && t <= u
    ensures Comparable(s, t)
  {
  }

  function StreamOf(s: seq<Word>): Stream { (j: nat) => if j < |s| then s[j] else 0 }

  /** Latency-insensitivity.  Two machines with the same program and data start
      from states that look alike; their FIFO depths, the pins and flags they
      see, and the order and timing of CPU writes, reads and stops may all differ.
      If the CPU fed them the same words, one RX sequence extends the other. */
  lemma LatencyInsensitive(w1: World, es1: seq<Event>, w2: World, es2: seq<Event>)
    requires Legal(w1) && Legal(w2) && Abs(w1) == Abs(w2)
    requires w1.sm.cfg == w2.sm.cfg && w1.sm.program == w2.sm.program
    requires Comparable(Run(w1, es1).written, Run(w2, es2).written)
    ensures Comparable(Run(w1, es1).pushed, Run(w2, es2).pushed)
  {
    var (v1, v2) := (Run(w1, es1), Run(w2, es2));
    var tx := StreamOf(if v1.written <= v2.written then v2.written else v1.written);
    var k1 := RunRefines(w1, es1, tx);
    var k2 := RunRefines(w2, es2, tx);
    var (cfg, program) := (w1.sm.cfg, w1.sm.program);
    var k := if k1 < k2 then k2 else k1;
    OutGrows(cfg, program, tx, Abs(w1), k1, k);
    OutGrows(cfg, program, tx, Abs(w1), k2, k);
    PushedIsPrefix(v1);
    PushedIsPrefix(v2);
    hide AdmissibleFrom, Inv, Abs;
    PrefixesCompare(v1.pushed, v2.pushed, RefRun(cfg, program, tx, Abs(w1), k).out);
  }

  /** A restarted machine is a legal start whose reference state ignores the FIFO depths. */
  lemma RestartIsLegal(cfg: Config, program: seq<Half>, id: nat, x: Word, y: Word, txDepth: nat, rxDepth: nat)
    requires AdmissibleFrom(cfg, program, cfg.wrapBottom)
    ensures var w := Restarted(cfg, program, id, x, y, txDepth, rxDepth);
            && Legal(w)
            && Abs(w) == Ref(Settle(cfg, Core(cfg.wrapBottom, x, y, 0, 0, 32, 0)), 0, [])
  {
    hide Decode, Always;
    AlwaysNow(cfg, program, cfg.wrapBottom, AdmissibleIn(cfg));
  }

  /** What the instruction needs of the FIFOs, if it is to complete in this clock. */
  predicate Unblocked(s: Sm, i: PioInstr) {
    && ((i.op == OUT && s.cfg.autopull) || i.op == PULL ==> CanPop(s.tx))
    && ((i.op == IN && s.cfg.autopush) || i.op == PUSH ==> !s.rx.Full())
  }

  lemma ExecCompletes(s: Sm, i: PioInstr, irq: set<nat>, env: Env)
    requires i.op !in {WAIT, IRQ}
    requires (i.op == IN && s.cfg.autopush) || i.op == PUSH ==> !s.rx.Full()
    requires i.op == OUT && s.cfg.autopull ==> s.core.osrCount < PullThresh(s.cfg) || CanPop(s.tx)
    requires i.op == PULL ==> CanPop(s.tx)
    ensures Exec(s, i, irq, env).ok
  {
    hide ShiftIn, OutShifted, Source, ExecMov, ExecSet, ExecJmp, Advance, Status;
  }

  /** Back-pressure is the only thing that stops data: without a delay, an enabled
      machine retires an instruction every clock, unless it stands at a WAIT or
      IRQ, at an autopulling OUT or a PULL without a word to take, or at an
      autopushing IN or a PUSH without room. */
  lemma NoSpuriousStall(w: World, irq: set<nat>, env: Env)
    requires Legal(w) && w.sm.enabled && w.sm.delayLeft == 0
    requires Unblocked(w.sm, Fetch(w.sm)) && Fetch(w.sm).op !in {WAIT, IRQ}
    ensures Tick(w.sm, irq, env).outcome.executed
  {
    LegalNow(w);
    hide Exec, Decode, Suffix, AdmissibleFrom;
    if w.sm.stall != AutoPushStall {
      var s1 := Prefetch(ResumePull(w.sm));
      var s2 := s1.(cur := Select(s1));
      assert s2.cur == Fetch(w.sm);
      ExecCompletes(s2, s2.cur, irq, env);
    }
  }
}
