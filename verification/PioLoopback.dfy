/** A serialiser feeding a deserialiser: the wrapped program `out x, n` / `in x, n`
    with autopull and autopush at 32 bits echoes the TX words. */
module PioLoopback {
  import opened PioIsa
  import opened Words
  import opened PioMachine
  import opened PioPaths
  import opened PioReference
  import opened PioRefinement
  import opened PioLatency
  import opened PioSlices

  // ------------------------------------------------------------- the claim

  predicate LoopConfig(cfg: Config, n: nat) {
    && n in {1, 2, 4, 8, 16, 32}
    && cfg.autopull && cfg.autopush && PullThresh(cfg) == 32 && PushThresh(cfg) == 32
    && cfg.wrapBottom == 0 && cfg.wrapTop == 1
    && (cfg.inRight == cfg.outRight || n == 1)
  }

  predicate LoopbackProgram(cfg: Config, program: seq<Half>, n: nat) {
    && |program| == 32 && LoopConfig(cfg, n)
    && var (i0, i1) := (Decode(program[0]), Decode(program[1]));
       && i0.op == OUT && i0.destination == X && i0.bitCount == n
       && i1.op == IN && i1.source == X && i1.bitCount == n
  }

  // --------------------------------------------------- reference invariant

  /** `k` bits of the current word have crossed, and all words before it are out. */
  ghost predicate Crossed(cfg: Config, tx: Stream, r: Ref, k: nat) {
    && r.taken == |r.out| + 1
    && r.core.osrCount == k <= 32
    && (k < 32 ==> r.core.osr == OsrAt(cfg, tx(r.taken - 1), k))
  }

  predicate Multiple(k: nat, n: nat)
    requires n >= 1
  {
    k % n == 0
  }

  lemma NextMultiple(k: nat, n: nat)
    requires n in {1, 2, 4, 8, 16, 32} && Multiple(k, n) && k < 32
    ensures k + n <= 32 && Multiple(k + n, n) && Multiple(0, n)
    ensures n == 32 ==> k == 0
  {
  }

  /** What every reference state of the loopback program satisfies. */
  ghost predicate LoopInv(cfg: Config, n: nat, tx: Stream, r: Ref)
    requires n >= 1
  {
    var k := r.core.isrCount;
    && (forall j :: 0 <= j < |r.out| ==> r.out[j] == Echo(cfg, tx(j)))
    && k < 32 && Multiple(k, n)
    && (match r.core.pc
        case 0 =>
          if k == 0 then r.taken == |r.out| && r.core.osrCount == 32 && r.core.isr == 0
          else Crossed(cfg, tx, r, k) && r.core.isr == IsrAt(cfg, tx(r.taken - 1), k)
        case 1 =>
          && Crossed(cfg, tx, r, k + n)
          && r.core.isr == IsrAt(cfg, tx(r.taken - 1), k)
          && r.core.x == OutValue(cfg, OsrAt(cfg, tx(r.taken - 1), k), n)
        case _ => false)
  }

  lemma OutKeepsLoop(cfg: Config, i: PioInstr, n: nat, tx: Stream, r: Ref)
    requires LoopConfig(cfg, n) && LoopInv(cfg, n, tx, r) && r.core.pc == 0
    requires i.op == OUT && i.destination == X && i.bitCount == n
    ensures LoopInv(cfg, n, tx, RefOut(cfg, i, tx, r))
  {
    var k := r.core.isrCount;
    var r1 := if k == 0 then RefTake(tx, r) else r;
    var w := tx(r1.taken - 1);
    NextMultiple(k, n);
    WholeWord(cfg, w);
    IsrEnds(cfg, w);
    OutGivesSlice(cfg, r1.core, w, k, n);
    hide IsrAt, OsrAt, OutValue, ShiftOut, Echo, Multiple;
    assert OutShifted(cfg, r1.core, i).pc == 1;
  }

  /** IN with bits of the word still to come, and with its last. */
  lemma InGoesOn(cfg: Config, n: nat, tx: Stream, r: Ref, k: nat, c: Core)
    requires LoopConfig(cfg, n) && Crossed(cfg, tx, r, k) && 0 < k < 32 && Multiple(k, n)
    requires forall j :: 0 <= j < |r.out| ==> r.out[j] == Echo(cfg, tx(j))
    requires c == r.core.(isr := c.isr, isrCount := k) && c.isr == IsrAt(cfg, tx(r.taken - 1), k) && c.pc == 1
    ensures LoopInv(cfg, n, tx, r.(core := Advance(cfg, c)))
  {
    hide IsrAt, OsrAt, OutValue, Echo, Multiple;
  }

  lemma InEnds(cfg: Config, n: nat, tx: Stream, r: Ref, c: Core)
    requires LoopConfig(cfg, n) && Crossed(cfg, tx, r, 32)
    requires forall j :: 0 <= j < |r.out| ==> r.out[j] == Echo(cfg, tx(j))
    requires c == r.core.(isr := Echo(cfg, tx(r.taken - 1)), isrCount := 32) && c.pc == 1
    ensures LoopInv(cfg, n, tx, Emit(cfg, r.(core := c)))
  {
    hide IsrAt, OsrAt, OutValue, Echo;
  }

  lemma InKeepsLoop(cfg: Config, i: PioInstr, n: nat, tx: Stream, r: Ref)
    requires LoopConfig(cfg, n) && LoopInv(cfg, n, tx, r) && r.core.pc == 1
    requires i.op == IN && i.source == X && i.bitCount == n
    ensures LoopInv(cfg, n, tx, RefIn(cfg, i, r))
  {
    var k := r.core.isrCount;
    NextMultiple(k, n);
    InTakesSlice(cfg, r.core, tx(r.taken - 1), k, n);
    IsrEnds(cfg, tx(r.taken - 1));
    var c := ShiftIn(cfg, r.core, r.core.x, n);
    hide ShiftIn, IsrAt, OsrAt, OutValue, Echo, Multiple, Crossed;
    if k + n < 32 {
      InGoesOn(cfg, n, tx, r, k + n, c);
      hide LoopInv, Advance, Emit;
    } else {
      InEnds(cfg, n, tx, r, c);
      hide LoopInv, Advance, Emit;
    }
  }

  lemma StepKeepsLoop(cfg: Config, program: seq<Half>, n: nat, tx: Stream, r: Ref)
    requires LoopbackProgram(cfg, program, n) && LoopInv(cfg, n, tx, r)
    ensures LoopInv(cfg, n, tx, RefStep(cfg, program, tx, r))
  {
    var i := Decode(program[r.core.pc % 32]);
    LoopPcs(cfg, n, tx, r);
    hide Decode, LoopInv, LoopConfig, RefOut, RefIn;
    if r.core.pc == 0 {
      OutKeepsLoop(cfg, i, n, tx, r);
    } else {
      InKeepsLoop(cfg, i, n, tx, r);
    }
  }

  lemma LoopPcs(cfg: Config, n: nat, tx: Stream, r: Ref)
    requires n >= 1 && LoopInv(cfg, n, tx, r)
    ensures r.core.pc in {0, 1}
  {
  }

  lemma {:induction false} RunKeepsLoop(cfg: Config, program: seq<Half>, n: nat, tx: Stream, r: Ref, k: nat)
    requires LoopbackProgram(cfg, program, n) && LoopInv(cfg, n, tx, r)
    ensures LoopInv(cfg, n, tx, RefRun(cfg, program, tx, r, k))
  {
    hide Decode, RefExec, LoopInv;
    if k > 0 {
      RunKeepsLoop(cfg, program, n, tx, r, k - 1);
      StepKeepsLoop(cfg, program, n, tx, RefRun(cfg, program, tx, r, k - 1));
    }
  }

  /** The machine never leaves the two instructions, whatever else the memory holds. */
  lemma LoopPath(cfg: Config, program: seq<Half>, n: nat)
    requires LoopbackProgram(cfg, program, n)
    ensures AdmissibleFrom(cfg, program, 0)
  {
    hide Decode;
    assert OnPath(cfg, program, 0, AdmissibleIn(cfg), {0, 1});
  }

  // -------------------------------------------------------- the main result

  lemma EchoesSoFar(cfg: Config, n: nat, w: World)
    requires n >= 1 && Inv(w) && w.sm.cfg == cfg && LoopConfig(cfg, n) && LoopInv(cfg, n, StreamOf(w.written), Abs(w))
    ensures |w.pushed| <= |w.written|
    ensures forall j :: 0 <= j < |w.pushed| ==> w.pushed[j] == Echo(cfg, w.written[j])
    ensures Popped(w) <= |w.pushed| + 3
  {
    PushedIsPrefix(w);
    hide Decode, Echo, IsrAt, OsrAt, OutValue, Multiple;
  }

  /** Back-pressure cannot hurt an echo.  Restart a machine with the loopback
      program, any FIFO depths and scratch registers, and let anything happen:
      the RX words are the echo of the TX words, in order, none lost, none
      twice, and at most three words are inside the machine.  The other thirty words
      of the memory may hold anything. */
  lemma LoopbackEchoes(cfg: Config, program: seq<Half>, n: nat, id: nat, x: Word, y: Word,
                       txDepth: nat, rxDepth: nat, es: seq<Event>)
    requires LoopbackProgram(cfg, program, n)
    ensures var w := Run(Restarted(cfg, program, id, x, y, txDepth, rxDepth), es);
            && |w.pushed| <= |w.written|
            && (forall j :: 0 <= j < |w.pushed| ==> w.pushed[j] == Echo(cfg, w.written[j]))
            && Popped(w) <= |w.pushed| + 3
  {
    var w0 := Restarted(cfg, program, id, x, y, txDepth, rxDepth);
    var w := Run(w0, es);
    var tx := StreamOf(w.written);
    LoopPath(cfg, program, n);
    RestartIsLegal(cfg, program, id, x, y, txDepth, rxDepth);
    var k := RunRefines(w0, es, tx);
    IsrEnds(cfg, 0);
    NextMultiple(0, n);
    assert LoopInv(cfg, n, tx, Abs(w0));
    RunKeepsLoop(cfg, program, n, tx, Abs(w0), k);
    hide Decode, Echo, IsrAt, OsrAt, OutValue, Multiple, Run, RefRun, LoopInv, AdmissibleFrom, Restarted;
    EchoesSoFar(cfg, n, w);
  }
}
