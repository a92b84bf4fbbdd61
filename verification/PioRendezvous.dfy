/** Handing events over an IRQ flag. */
module PioRendezvous {
  // One machine raises flag `f` with `irq wait f`, others take it with `wait 1 irq f`.
  import opened PioIsa
  import opened Words
  import opened PioMachine
  import opened PioPaths
  import opened PioRefinement
  import opened PioBlockModel

  // ------------------------------------------------------------------ roles

  predicate Touches(i: PioInstr, id: nat, f: nat) {
    (i.op == IRQ || (i.op == WAIT && i.source == WAIT_IRQ)) && ResolveIrq(i.index, id) == f
  }

  predicate ProducerInstr(i: PioInstr, id: nat, f: nat) {
    Touches(i, id, f) ==> i.op == IRQ && !i.clear && i.wait
  }

  predicate ConsumerInstr(i: PioInstr, id: nat, f: nat) {
    Touches(i, id, f) ==> i.op == WAIT && i.polarity
  }

  function Produces(id: nat, f: nat): PioInstr -> bool { (i: PioInstr) => ProducerInstr(i, id, f) }

  function Consumes(id: nat, f: nat): PioInstr -> bool { (i: PioInstr) => ConsumerInstr(i, id, f) }

  /** The only instructions on flag `f` that `s` can come to execute are `irq wait f`;
      other words of the memory it shares with its block may be anything. */
  ghost predicate Producer(s: Sm, f: nat) { Always(s.cfg, s.program, s.core.pc, Produces(s.id, f)) }

  /** The only instructions on flag `f` that `s` can come to execute are `wait 1 irq f`. */
  ghost predicate Consumer(s: Sm, f: nat) { Always(s.cfg, s.program, s.core.pc, Consumes(s.id, f)) }

  lemma RoleNow(s: Sm, f: nat)
    requires |s.program| == 32
    ensures Producer(s, f) ==> ProducerInstr(Fetch(s), s.id, f)
    ensures Consumer(s, f) ==> ConsumerInstr(Fetch(s), s.id, f)
  {
    if Producer(s, f) {
      AlwaysNow(s.cfg, s.program, s.core.pc, Produces(s.id, f));
    }
    if Consumer(s, f) {
      AlwaysNow(s.cfg, s.program, s.core.pc, Consumes(s.id, f));
    }
    hide Always, Decode;
  }

  /** A stalled machine stands at the instruction it remembers, and a raised flag
      is remembered only while standing at an `irq wait`. */
  predicate Steady(s: Sm) {
    && |s.program| == 32
    && (s.stall != NoStall ==> s.cur == Fetch(s))
    && (s.stall == AutoPushStall ==> s.cur.op == IN)
    && (s.irqWaitRaised ==> s.stall == InstrStall && s.cur.op == IRQ && s.cur.wait && !s.cur.clear)
  }

  /** `s` has raised flag `f` and waits for it to fall. */
  predicate Raised(s: Sm, f: nat) {
    s.irqWaitRaised && Touches(s.cur, s.id, f)
  }

  // ----------------------------------------------------------- one tick

  lemma OtherInstrKeepsFlag(s: Sm, i: PioInstr, irq: set<nat>, env: Env, f: nat)
    requires !Touches(i, s.id, f)
    ensures f in Exec(s, i, irq, env).irq <==> f in irq
  {
    hide ExecJmp, ExecSet, ExecMov, ExecIn, ExecOut, ExecPush, ExecPull, ResolveIrq;
  }

  /** Only IRQ touches the memory of a raised flag. */
  lemma OtherOpKeepsRaised(s: Sm, i: PioInstr, irq: set<nat>, env: Env)
    requires i.op != IRQ
    ensures Exec(s, i, irq, env).sm.irqWaitRaised == s.irqWaitRaised
  {
    hide ExecJmp, ExecSet, ExecMov, ShiftIn, OutShifted, ResolveIrq, Source;
  }

  /** An instruction that does not complete leaves the machine where it is. */
  lemma StallKeepsPc(s: Sm, i: PioInstr, irq: set<nat>, env: Env)
    ensures !Exec(s, i, irq, env).ok ==> Exec(s, i, irq, env).sm.core.pc == s.core.pc
    ensures i.op in {WAIT, IRQ} ==> Exec(s, i, irq, env).sm.stall == s.stall
    ensures s.stall in {NoStall, InstrStall} && i.op != IN ==> Exec(s, i, irq, env).sm.stall != AutoPushStall
  {
    hide ExecJmp, ExecSet, ExecMov, OutShifted, ResolveIrq, Source;
  }

  /** What the instruction run by a tick does to flag `f` and to the machine. */
  ghost predicate Handover(s: Sm, irq: set<nat>, t: TickResult, f: nat) {
    var touched := t.outcome.executed && Touches(t.sm.cur, s.id, f);
    var took := touched && t.sm.cur.op == WAIT;
    var done := touched && t.sm.cur.op == IRQ;
    && Steady(t.sm)
    && (Consumer(s, f) ==>
          && !done
          && (f in irq <==> f in t.irq || took)
          && (took ==> f !in t.irq))
    && (Producer(s, f) && (f in irq ==> Raised(s, f)) ==>
          && !took
          && (!Raised(s, f) && Raised(t.sm, f) ==> !done && f in t.irq)
          && (!Raised(s, f) && !Raised(t.sm, f) ==> !done && f !in t.irq)
          && (Raised(s, f) && Raised(t.sm, f) ==> !done && (f in t.irq <==> f in irq))
          && (Raised(s, f) && !Raised(t.sm, f) ==> done && f !in irq && f !in t.irq))
  }

  lemma RunHandover(s: Sm, irq: set<nat>, env: Env, f: nat)
    requires |s.program| == 32 && s.cur == Fetch(s) && s.stall in {NoStall, InstrStall}
    requires s.irqWaitRaised ==> s.cur.op == IRQ && s.cur.wait && !s.cur.clear
    ensures Handover(s, irq, RunInstr(s, irq, env), f)
  {
    var i := s.cur;
    ExecKeeps(s, i, irq, env);
    StallKeepsPc(s, i, irq, env);
    RoleNow(s, f);
    if i.op != IRQ {
      OtherOpKeepsRaised(s, i, irq, env);
    }
    if !Touches(i, s.id, f) {
      OtherInstrKeepsFlag(s, i, irq, env, f);
    }
    hide Decode, ResolveIrq, Producer, Consumer, DelayOf;
    if i.op in {WAIT, IRQ} {
    } else {
      hide Exec;
    }
  }

  lemma TickHandover(s: Sm, irq: set<nat>, env: Env, f: nat)
    requires Steady(s)
    ensures Handover(s, irq, Tick(s, irq, env), f)
    ensures Roles(s, Tick(s, irq, env).sm, f)
  {
    hide Decode, RunInstr, ResolveIrq, Producer, Consumer, DelayOf, Advance;
    TickKeepsRoles(s, irq, env, f);
    if s.enabled && s.delayLeft == 0 && s.stall != AutoPushStall && (s.stall == AutoPullStall ==> CanPop(s.tx)) {
      var s1 := Prefetch(ResumePull(s));
      var s2 := s1.(cur := Select(s1));
      RunHandover(s2, irq, env, f);
      SameRoles(s, s2, f);
      assert Raised(s2, f) == Raised(s, f);
    }
  }

  /** A machine in a role keeps it. */
  ghost predicate Roles(s: Sm, s': Sm, f: nat) {
    (Producer(s, f) ==> Producer(s', f)) && (Consumer(s, f) ==> Consumer(s', f)) && s'.id == s.id
  }

  lemma SameRoles(s: Sm, s': Sm, f: nat)
    requires s'.cfg == s.cfg && s'.program == s.program && s'.id == s.id && s'.core.pc == s.core.pc
    ensures Producer(s', f) == Producer(s, f) && Consumer(s', f) == Consumer(s, f)
  {
  }

  /** Ticks do not leave the path, so roles stay. */
  lemma TickKeepsRoles(s: Sm, irq: set<nat>, env: Env, f: nat)
    requires Steady(s)
    ensures Roles(s, Tick(s, irq, env).sm, f)
  {
    var s' := Tick(s, irq, env).sm;
    TickLeads(s, irq, env);
    TickKeeps(s, irq, env);
    hide Tick, Always, Decode, Follows;
    if Producer(s, f) {
      AlwaysNext(s.cfg, s.program, s.core.pc, Produces(s.id, f), s'.core.pc);
    }
    if Consumer(s, f) {
      AlwaysNext(s.cfg, s.program, s.core.pc, Consumes(s.id, f), s'.core.pc);
    }
  }

  // ------------------------------------------------------------------ runs

  /** The machines of a block, their flags, and what has happened on flag `f`:
      how often it was raised, taken by a WAIT, and how often the producer's
      `irq wait` completed. */
  datatype Meeting = Meeting(sms: seq<Sm>, irq: set<nat>, raises: nat, consumes: nat, retired: nat)

  /** Any machine ticks, or something outside changes FIFOs, enables, or other flags. */
  datatype Event =
    | TickOf(i: nat, env: Env)
    | Host(i: nat, tx: Fifo, rx: Fifo, on: bool)
    | Others(irq: set<nat>)

  predicate Possible(m: Meeting, f: nat, e: Event) {
    match e
    case TickOf(i, _) => i < |m.sms| && |m.sms[i].program| == 32
    case Host(i, _, _, _) => i < |m.sms|
    case Others(irq) => f in irq <==> f in m.irq
  }

  function Next(m: Meeting, f: nat, e: Event): Meeting
    requires Possible(m, f, e)
  {
    match e
    case TickOf(i, env) =>
      var t := Tick(m.sms[i], m.irq, env);
      var touched := t.outcome.executed && Touches(t.sm.cur, t.sm.id, f);
      Meeting(m.sms[i := t.sm], t.irq,
              m.raises + (if !Raised(m.sms[i], f) && Raised(t.sm, f) then 1 else 0),
              m.consumes + (if touched && t.sm.cur.op == WAIT then 1 else 0),
              m.retired + (if touched && t.sm.cur.op == IRQ then 1 else 0))
    case Host(i, tx, rx, on) => m.(sms := m.sms[i := m.sms[i].(tx := tx, rx := rx, enabled := on)])
    case Others(irq) => m.(irq := irq)
  }

  /** Machine `p` produces, all others consume, and the counts agree with the flag. */
  ghost predicate Met(m: Meeting, p: nat, f: nat) {
    && p < |m.sms|
    && (forall i :: 0 <= i < |m.sms| ==>
          Steady(m.sms[i]) && if i == p then Producer(m.sms[i], f) else Consumer(m.sms[i], f))
    && m.raises == m.consumes + (if f in m.irq then 1 else 0)
    && m.raises == m.retired + (if Raised(m.sms[p], f) then 1 else 0)
    && (f in m.irq ==> Raised(m.sms[p], f))
  }

  lemma ConsumerNeverRaises(s: Sm, f: nat)
    requires Steady(s) && Consumer(s, f)
    ensures !Raised(s, f)
  {
    RoleNow(s, f);
    hide Consumer;
  }

  lemma NextMeets(m: Meeting, p: nat, f: nat, e: Event)
    requires Met(m, p, f) && Possible(m, f, e)
    ensures Met(Next(m, f, e), p, f)
  {
    hide Tick, Decode, ResolveIrq, Producer, Consumer;
    match e
    case TickOf(i, env) =>
      TickHandover(m.sms[i], m.irq, env, f);
      if i != p {
        ConsumerNeverRaises(m.sms[i], f);
        ConsumerNeverRaises(Tick(m.sms[i], m.irq, env).sm, f);
      }
    case Host(i, tx, rx, on) => SameRoles(m.sms[i], m.sms[i].(tx := tx, rx := rx, enabled := on), f);
    case Others(_) =>
  }

  /** A block whose machines have not started and whose flag `f` is down is met with no counts. */
  lemma StartMeets(sms: seq<Sm>, irq: set<nat>, p: nat, f: nat)
    requires p < |sms| && f !in irq
    requires forall i :: 0 <= i < |sms| ==> sms[i].stall == NoStall && !sms[i].irqWaitRaised
    requires forall i :: 0 <= i < |sms| ==> if i == p then Producer(sms[i], f) else Consumer(sms[i], f)
    ensures Met(Meeting(sms, irq, 0, 0, 0), p, f)
  {
    hide Decode, ResolveIrq, OnPath;
    forall i | 0 <= i < |sms|
      ensures Steady(sms[i])
    {
      assert if i == p then Producer(sms[i], f) else Consumer(sms[i], f);
    }
  }

  ghost predicate IsRun(ms: seq<Meeting>, f: nat) {
    |ms| > 0 && forall k :: 0 <= k < |ms| - 1 ==> IsNext(ms[k], ms[k + 1], f)
  }

  ghost predicate IsNext(m: Meeting, m': Meeting, f: nat) {
    exists e :: Possible(m, f, e) && m' == Next(m, f, e)
  }

  /** The rendezvous theorem.  In every run, however the machines' clocks
      interleave, each raise of flag `f` is taken by at most one WAIT, only the
      latest may be outstanding, and the producer's completions never exceed the
      takes nor lag them by more than one. */
  lemma {:induction false} Rendezvous(ms: seq<Meeting>, p: nat, f: nat, k: nat)
    requires IsRun(ms, f) && k < |ms|
    requires Met(ms[0], p, f)
    ensures var m := ms[k];
            && Met(m, p, f)
            && m.raises == m.consumes + (if f in m.irq then 1 else 0)
            && m.retired <= m.consumes <= m.retired + 1
  {
    if k > 0 {
      Rendezvous(ms, p, f, k - 1);
      assert IsNext(ms[k - 1], ms[k - 1 + 1], f);
      var e :| Possible(ms[k - 1], f, e) && ms[k] == Next(ms[k - 1], f, e);
      NextMeets(ms[k - 1], p, f, e);
    }
    hide Next, Steady, Producer, Consumer;
  }

  // ------------------------------------------------------- runs of a block

  /** Machine `i`'s share of one system clock: a tick if it is due. */
  function ShareMeeting(b: Block, i: nat, env: Env, m: Meeting, f: nat): (m': Meeting)
    requires Wired(b) && i < NUM_SM && m.sms == b.sms && m.irq == b.irq
    ensures m'.sms == Clock(b, i, env).sms && m'.irq == Clock(b, i, env).irq
  {
    if Due(b, i) then Next(m, f, TickOf(i, env)) else m
  }

  /** The meeting after the shares of the first `n` machines, in order. */
  function SharesMeeting(b: Block, envs: seq<Env>, n: nat, m: Meeting, f: nat): (m': Meeting)
    requires Wired(b) && |envs| == NUM_SM && n <= NUM_SM && m.sms == b.sms && m.irq == b.irq
    ensures m'.sms == Shares(b, envs, n).sms && m'.irq == Shares(b, envs, n).irq
    decreases n
  {
    if n == 0 then m
    else ShareMeeting(Shares(b, envs, n - 1), n - 1, envs[n - 1], SharesMeeting(b, envs, n - 1, m, f), f)
  }

  /** The block's history on flag `f` over `n` system clocks, all counts starting at 0. */
  function BlockMeeting(b: Block, pins: nat -> seq<Env>, n: nat, f: nat): (m: Meeting)
    requires Wired(b) && (forall t :: |pins(t)| == NUM_SM)
    ensures m.sms == BlockRun(b, pins, n).sms && m.irq == BlockRun(b, pins, n).irq
    decreases n
  {
    if n == 0 then Meeting(b.sms, b.irq, 0, 0, 0)
    else SharesMeeting(BlockRun(b, pins, n - 1), pins(n - 1), NUM_SM, BlockMeeting(b, pins, n - 1, f), f)
  }

  /** One event more. */
  lemma RunGrows(ms: seq<Meeting>, m: Meeting, f: nat, e: Event)
    requires IsRun(ms, f) && Possible(ms[|ms| - 1], f, e) && m == Next(ms[|ms| - 1], f, e)
    ensures IsRun(ms + [m], f)
  {
    hide Next, Possible;
    var longer := ms + [m];
    forall k | 0 <= k < |longer| - 1
      ensures IsNext(longer[k], longer[k + 1], f)
    {
      if k < |ms| - 1 {
        assert IsNext(ms[k], ms[k + 1], f);
      }
    }
  }

  /** A share of a clock is one event or none. */
  lemma ShareIsRun(b: Block, i: nat, env: Env, ms: seq<Meeting>, f: nat) returns (longer: seq<Meeting>)
    requires Wired(b) && i < NUM_SM && IsRun(ms, f)
    requires ms[|ms| - 1].sms == b.sms && ms[|ms| - 1].irq == b.irq
    ensures IsRun(longer, f) && longer[0] == ms[0]
    ensures longer[|longer| - 1] == ShareMeeting(b, i, env, ms[|ms| - 1], f)
  {
    hide Next, IsNext;
    longer := ms;
    if Due(b, i) {
      var m := Next(ms[|ms| - 1], f, TickOf(i, env));
      RunGrows(ms, m, f, TickOf(i, env));
      longer := ms + [m];
    }
  }

  lemma {:induction false} SharesAreRun(b: Block, envs: seq<Env>, n: nat, ms: seq<Meeting>, f: nat)
    returns (longer: seq<Meeting>)
    requires Wired(b) && |envs| == NUM_SM && n <= NUM_SM && IsRun(ms, f)
    requires ms[|ms| - 1].sms == b.sms && ms[|ms| - 1].irq == b.irq
    ensures IsRun(longer, f) && longer[0] == ms[0]
    ensures longer[|longer| - 1] == SharesMeeting(b, envs, n, ms[|ms| - 1], f)
    decreases n
  {
    hide ShareMeeting, Wired, IsNext;
    longer := ms;
    if n > 0 {
      longer := SharesAreRun(b, envs, n - 1, ms, f);
      longer := ShareIsRun(Shares(b, envs, n - 1), n - 1, envs[n - 1], longer, f);
    }
  }

  lemma {:induction false} BlockIsRun(b: Block, pins: nat -> seq<Env>, n: nat, f: nat) returns (ms: seq<Meeting>)
    requires Wired(b) && (forall t :: |pins(t)| == NUM_SM)
    ensures IsRun(ms, f) && ms[0] == Meeting(b.sms, b.irq, 0, 0, 0)
    ensures ms[|ms| - 1] == BlockMeeting(b, pins, n, f)
    decreases n
  {
    hide Shares, SharesMeeting, IsNext, Wired;
    if n == 0 {
      ms := [Meeting(b.sms, b.irq, 0, 0, 0)];
      OneIsRun(ms[0], f);
    } else {
      ms := BlockIsRun(b, pins, n - 1, f);
      ms := SharesAreRun(BlockRun(b, pins, n - 1), pins(n - 1), NUM_SM, ms, f);
    }
  }

  lemma OneIsRun(m: Meeting, f: nat)
    ensures IsRun([m], f)
  {
  }

  /** The rendezvous in a block: over every number of system clocks, with any
      divider settings and pins, the block's own counts of raises, takes and
      completions keep the relation. */
  lemma BlockMeets(b: Block, pins: nat -> seq<Env>, n: nat, p: nat, f: nat)
    requires Wired(b) && (forall t :: |pins(t)| == NUM_SM)
    requires Met(Meeting(b.sms, b.irq, 0, 0, 0), p, f)
    ensures var m := BlockMeeting(b, pins, n, f);
            && Met(m, p, f)
            && m.raises == m.consumes + (if f in m.irq then 1 else 0)
            && m.retired <= m.consumes <= m.retired + 1
  {
    hide Met, BlockMeeting, IsNext, Wired, BlockRun;
    var ms := BlockIsRun(b, pins, n, f);
    Rendezvous(ms, p, f, |ms| - 1);
  }

  // ------------------------------------------------------ one memory, two roles

  /** The memory of a block: `irq wait f; jmp 0; wait 1 irq f; jmp 2`, then `jmp 0`. */
  function Handshake(f: nat): (program: seq<Half>)
    requires f < 8
    ensures |program| == 32
  {
    [0xC020 + f, 0, 0x20C0 + f, 2] + seq<Half>(28, _ => 0)
  }

  lemma HandshakeDecodes(f: nat)
    requires f < 8
    ensures var i := Decode(0xC020 + f);
            i.op == IRQ && i.wait && !i.clear && i.index == f && i.delaySideset == 0
    ensures var i := Decode(0x20C0 + f);
            i.op == WAIT && i.polarity && i.source == WAIT_IRQ && i.index == f && i.delaySideset == 0
  {
  }

  lemma JumpDecodes(a: nat)
    requires a < 32
    ensures Decode(a).op == JMP && Decode(a).condition == JMP_ALWAYS && Decode(a).address == a
  {
  }

  /** A machine of the block that starts at `pc`, with its wrap elsewhere. */
  predicate AtStart(s: Sm, f: nat, pc: nat)
    requires f < 8
  {
    && s.program == Handshake(f) && s.core.pc == pc && s.cfg.wrapTop !in {0, 2}
    && s.stall == NoStall && !s.irqWaitRaised
  }

  /** One machine at word 0 of that memory produces, the others at word 2 consume:
      each word is on one machine's path only. */
  lemma HandshakeMeets(sms: seq<Sm>, irq: set<nat>, p: nat, f: nat)
    requires f < 8 && p < |sms| && f !in irq
    requires forall i :: 0 <= i < |sms| ==> AtStart(sms[i], f, if i == p then 0 else 2)
    ensures Met(Meeting(sms, irq, 0, 0, 0), p, f)
  {
    hide Decode;
    HandshakeDecodes(f);
    JumpDecodes(0);
    JumpDecodes(2);
    forall i | 0 <= i < |sms|
      ensures if i == p then Producer(sms[i], f) else Consumer(sms[i], f)
    {
      var s := sms[i];
      if i == p {
        assert OnPath(s.cfg, s.program, 0, Produces(s.id, f), {0, 1});
      } else {
        assert OnPath(s.cfg, s.program, 2, Consumes(s.id, f), {2, 3});
      }
    }
    hide Producer, Consumer, AtStart;
    StartMeets(sms, irq, p, f) by {
      forall i | 0 <= i < |sms|
        ensures sms[i].stall == NoStall && !sms[i].irqWaitRaised
      {
        StartsClear(sms[i], f, if i == p then 0 else 2);
      }
    }
  }

  /** So in a block with that memory the counts keep their relation for ever. */
  lemma HandshakeBlockMeets(b: Block, pins: nat -> seq<Env>, n: nat, p: nat, f: nat)
    requires Wired(b) && (forall t :: |pins(t)| == NUM_SM) && f < 8 && p < NUM_SM && f !in b.irq
    requires forall i :: 0 <= i < NUM_SM ==> AtStart(b.sms[i], f, if i == p then 0 else 2)
    ensures var m := BlockMeeting(b, pins, n, f);
            m.raises == m.consumes + (if f in m.irq then 1 else 0) && m.retired <= m.consumes <= m.retired + 1
  {
    hide AtStart, Met, BlockMeeting, BlockRun;
    HandshakeMeets(b.sms, b.irq, p, f);
    BlockMeets(b, pins, n, p, f);
  }

  /** A machine about to run `i`, and what it is when it runs it. */
  lemma TickRuns(s: Sm, irq: set<nat>, env: Env) returns (r: Sm)
    requires |s.program| == 32 && s.enabled && s.delayLeft == 0 && s.stall in {NoStall, InstrStall}
    ensures Tick(s, irq, env) == RunInstr(r, irq, env)
    ensures r.cur == if s.stall == InstrStall then s.cur else Fetch(s)
    ensures r.program == s.program && r.id == s.id && r.cfg == s.cfg && r.enabled && r.delayLeft == 0
        && r.stall == s.stall
    ensures r.irqWaitRaised == s.irqWaitRaised && r.core.pc == s.core.pc
  {
    hide RunInstr, Decode;
    var s' := Prefetch(ResumePull(s));
    r := s'.(cur := Select(s'));
  }

  lemma FlagIs(f: nat, id: nat)
    requires f < 8
    ensures ResolveIrq(f, id) == f
  {
  }

  /** The producer's first clock raises the flag and waits. */
  lemma FirstRaise(s: Sm, irq: set<nat>, env: Env, f: nat)
    requires f < 8 && AtStart(s, f, 0) && s.enabled && s.delayLeft == 0 && f !in irq
    ensures var t := Tick(s, irq, env);
            && !t.outcome.executed && t.irq == irq + {f} && t.sm.irqWaitRaised && t.sm.cur == Decode(0xC020 + f)
            && t.sm.stall == InstrStall && t.sm.enabled && t.sm.delayLeft == 0
            && t.sm.program == s.program && t.sm.id == s.id
  {
    HandshakeDecodes(f);
    FlagIs(f, s.id);
    assert Fetch(s) == Decode(0xC020 + f);
    hide Decode, Tick, ResolveIrq, AtStart, Fetch;
    StartsClear(s, f, 0);
    var r := TickRuns(s, irq, env);
    assert Exec(r, r.cur, irq, env) == Result(r.(irqWaitRaised := true), irq + {f}, false);
    hide Exec;
  }

  /** A consumer's first clock takes a flag that is up. */
  lemma FirstTake(s: Sm, irq: set<nat>, env: Env, f: nat)
    requires f < 8 && AtStart(s, f, 2) && s.enabled && s.delayLeft == 0 && f in irq
    ensures var t := Tick(s, irq, env);
            && t.outcome.executed && t.irq == irq - {f} && !t.sm.irqWaitRaised && t.sm.cur == Decode(0x20C0 + f)
            && t.sm.id == s.id
  {
    HandshakeDecodes(f);
    FlagIs(f, s.id);
    assert Fetch(s) == Decode(0x20C0 + f);
    hide Decode, Tick, ResolveIrq, AtStart, Fetch;
    StartsClear(s, f, 2);
    var r := TickRuns(s, irq, env);
    assert Exec(r, r.cur, irq, env) == Result(r.(core := Advance(r.cfg, r.core)), irq - {f}, true);
    hide Exec, DelayOf;
  }

  /** The producer goes on once its flag has fallen. */
  lemma GoesOn(s: Sm, irq: set<nat>, env: Env, f: nat)
    requires f < 8 && s.cur == Decode(0xC020 + f) && |s.program| == 32 && f !in irq
    requires s.irqWaitRaised && s.stall == InstrStall && s.enabled && s.delayLeft == 0
    ensures var t := Tick(s, irq, env);
            t.outcome.executed && t.irq == irq && !t.sm.irqWaitRaised && t.sm.cur == s.cur && t.sm.id == s.id
  {
    HandshakeDecodes(f);
    FlagIs(f, s.id);
    hide Decode, Tick, ResolveIrq, Fetch;
    var r := TickRuns(s, irq, env);
    assert Exec(r, r.cur, irq, env) == Result(r.(irqWaitRaised := false, core := Advance(r.cfg, r.core)), irq, true);
    hide Exec, DelayOf;
  }

  lemma HandshakeTouches(f: nat, id: nat)
    requires f < 8
    ensures Touches(Decode(0xC020 + f), id, f) && Touches(Decode(0x20C0 + f), id, f)
  {
    HandshakeDecodes(f);
    hide Decode;
  }

  /** The first two clocks of a handshake, machine by machine. */
  ghost predicate Halfway(m0: Meeting, m: Meeting, p: nat, f: nat)
    requires f < 8
  {
    && |m.sms| == |m0.sms| && p < |m.sms| && |m.sms[p].program| == 32 && f !in m.irq
    && m.raises == m0.raises + 1 && m.consumes == m0.consumes + 1 && m.retired == m0.retired
    && m.sms[p].cur == Decode(0xC020 + f) && m.sms[p].irqWaitRaised
    && m.sms[p].stall == InstrStall && m.sms[p].enabled && m.sms[p].delayLeft == 0
  }

  lemma RaiseAndTake(m0: Meeting, p: nat, c: nat, f: nat, env: Env) returns (m1: Meeting, m2: Meeting)
    requires f < 8 && p < |m0.sms| && c < |m0.sms| && p != c && f !in m0.irq
    requires AtStart(m0.sms[p], f, 0) && m0.sms[p].enabled && m0.sms[p].delayLeft == 0
    requires AtStart(m0.sms[c], f, 2) && m0.sms[c].enabled && m0.sms[c].delayLeft == 0
    ensures IsNext(m0, m1, f) && IsNext(m1, m2, f) && Halfway(m0, m2, p, f)
  {
    FirstRaise(m0.sms[p], m0.irq, env, f);
    HandshakeTouches(f, m0.sms[p].id);
    HandshakeTouches(f, m0.sms[c].id);
    HandshakeDecodes(f);
    StartsClear(m0.sms[p], f, 0);
    StartsClear(m0.sms[c], f, 2);
    hide Tick, Decode, Touches, AtStart;
    m1 := Next(m0, f, TickOf(p, env));
    FirstTake(m1.sms[c], m1.irq, env, f);
    m2 := Next(m1, f, TickOf(c, env));
    assert Possible(m0, f, TickOf(p, env)) && Possible(m1, f, TickOf(c, env));
  }

  lemma StartsClear(s: Sm, f: nat, pc: nat)
    requires f < 8 && AtStart(s, f, pc)
    ensures |s.program| == 32 && !s.irqWaitRaised && s.stall == NoStall && !Raised(s, f)
  {
  }

  lemma Complete(m0: Meeting, m: Meeting, p: nat, f: nat, env: Env) returns (m3: Meeting)
    requires f < 8 && Halfway(m0, m, p, f)
    ensures IsNext(m, m3, f) && f !in m3.irq
    ensures m3.raises == m.raises && m3.consumes == m.consumes && m3.retired == m.retired + 1
  {
    GoesOn(m.sms[p], m.irq, env, f);
    HandshakeTouches(f, m.sms[p].id);
    HandshakeDecodes(f);
    hide Tick, Decode, Touches;
    m3 := Next(m, f, TickOf(p, env));
    assert Possible(m, f, TickOf(p, env));
  }

  /** And things happen there: producer, consumer, producer make one raise, one
      take and one completion. */
  lemma HandshakeHappens(sms: seq<Sm>, irq: set<nat>, p: nat, c: nat, f: nat, env: Env) returns (ms: seq<Meeting>)
    requires f < 8 && p < |sms| && c < |sms| && p != c && f !in irq
    requires AtStart(sms[p], f, 0) && sms[p].enabled && sms[p].delayLeft == 0
    requires AtStart(sms[c], f, 2) && sms[c].enabled && sms[c].delayLeft == 0
    ensures IsRun(ms, f) && |ms| == 4 && ms[0] == Meeting(sms, irq, 0, 0, 0)
    ensures ms[3].raises == ms[3].consumes == ms[3].retired == 1 && f !in ms[3].irq
  {
    hide AtStart, Decode, IsNext;
    var m0 := Meeting(sms, irq, 0, 0, 0);
    var m1, m2 := RaiseAndTake(m0, p, c, f, env);
    var m3 := Complete(m0, m2, p, f, env);
    ms := [m0, m1, m2, m3];
  }
}
