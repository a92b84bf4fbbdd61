/** Which words of the shared instruction memory a machine can come to execute. */
module PioPaths {
  // The four machines of a block run from one memory, so what is asked of a
  // program is asked of the words on the machine's own path only.
  import opened PioIsa
  import opened Words
  import opened PioMachine

  function NextPc(cfg: Config, pc: nat): nat { if pc == cfg.wrapTop then cfg.wrapBottom else (pc + 1) % 32 }

  /** Instruction `i` at `pc` can be followed by the one at `next`. */
  predicate Follows(cfg: Config, i: PioInstr, pc: nat, next: nat) {
    match i.op
    case JMP => next == i.address % 32 || (i.condition != JMP_ALWAYS && next == NextPc(cfg, pc))
    case MOV => if i.destination == MOV_DEST_PC then next < 32 else next == NextPc(cfg, pc)
    case OUT => if i.destination == OUT_PC then next < 32 else next == NextPc(cfg, pc)
    case _ => next == NextPc(cfg, pc)
  }

  /** A set of addresses that execution does not leave. */
  ghost predicate Closed(cfg: Config, program: seq<Half>, path: set<nat>)
    requires |program| == 32
  {
    forall a, b: nat :: a in path && Follows(cfg, Decode(program[a % 32]), a, b) ==> b in path
  }

  ghost predicate OnPath(cfg: Config, program: seq<Half>, pc: nat, good: PioInstr -> bool, path: set<nat>)
    requires |program| == 32
  {
    pc in path && Closed(cfg, program, path) && forall a :: a in path ==> good(Decode(program[a % 32]))
  }

  /** Every instruction that can be executed from `pc` on is `good`. */
  ghost predicate Always(cfg: Config, program: seq<Half>, pc: nat, good: PioInstr -> bool) {
    |program| == 32 && exists path: set<nat> :: OnPath(cfg, program, pc, good, path)
  }

  lemma AlwaysNow(cfg: Config, program: seq<Half>, pc: nat, good: PioInstr -> bool)
    requires Always(cfg, program, pc, good)
    ensures |program| == 32 && good(Decode(program[pc % 32]))
  {
    hide Decode;
  }

  lemma AlwaysNext(cfg: Config, program: seq<Half>, pc: nat, good: PioInstr -> bool, next: nat)
    requires Always(cfg, program, pc, good)
    requires |program| == 32 && (next == pc || Follows(cfg, Decode(program[pc % 32]), pc, next))
    ensures Always(cfg, program, next, good)
  {
    hide Decode, Follows;
    var path: set<nat> :| OnPath(cfg, program, pc, good, path);
    assert OnPath(cfg, program, next, good, path);
  }

  // ------------------------------------------------------- where a machine goes

  predicate StaysOrFollows(s: Sm, i: PioInstr, s': Sm) {
    s'.core.pc == s.core.pc || Follows(s.cfg, i, s.core.pc, s'.core.pc)
  }

  lemma CoreOpsLead(s: Sm, i: PioInstr, irq: set<nat>, env: Env)
    requires i.op in {JMP, SET, MOV}
    ensures StaysOrFollows(s, i, Exec(s, i, irq, env).sm)
  {
    hide Source, ApplyMovOp;
  }

  lemma InLeads(s: Sm, i: PioInstr, env: Env)
    requires i.op == IN
    ensures StaysOrFollows(s, i, ExecIn(s, i, env).0)
  {
    hide Source, LowBits, Shr, Shl, AddCount;
  }

  lemma OutLeads(s: Sm, i: PioInstr)
    requires i.op == OUT
    ensures StaysOrFollows(s, i, ExecOut(s, i).0)
  {
    hide OutValue, LowBits, Shr, Shl, AddCount;
  }

  lemma FlagOpsLead(s: Sm, i: PioInstr, irq: set<nat>, env: Env)
    requires i.op in {WAIT, IRQ}
    ensures StaysOrFollows(s, i, Exec(s, i, irq, env).sm)
  {
    hide ResolveIrq;
  }

  lemma ExecLeads(s: Sm, i: PioInstr, irq: set<nat>, env: Env)
    ensures StaysOrFollows(s, i, Exec(s, i, irq, env).sm)
  {
    hide ExecIn, ExecOut;
    match i.op
    case IN => InLeads(s, i, env);
    case OUT => OutLeads(s, i);
    case WAIT => FlagOpsLead(s, i, irq, env);
    case IRQ => FlagOpsLead(s, i, irq, env);
    case PUSH =>
    case PULL =>
    case _ => CoreOpsLead(s, i, irq, env);
  }

  /** A clock leaves a machine at its instruction or takes it to one that follows. */
  lemma TickLeads(s: Sm, irq: set<nat>, env: Env)
    requires |s.program| == 32 && (s.stall != NoStall ==> s.cur == Fetch(s))
    requires s.stall == AutoPushStall ==> s.cur.op == IN
    ensures StaysOrFollows(s, Fetch(s), Tick(s, irq, env).sm)
  {
    hide Exec, Decode;
    var s1 := Prefetch(ResumePull(s));
    var s2 := s1.(cur := Select(s1));
    ExecLeads(s2, s2.cur, irq, env);
  }
}
