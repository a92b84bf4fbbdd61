/** A PIO block as a value: four state machines that share IRQ flags, each behind
    a fractional clock divider. */
module PioBlockModel {
  import opened PioIsa
  import opened Words
  import opened WordLemmas
  import opened PioMachine
  import opened PioRefinement

  const NUM_SM: nat := 4

  /** `divs` are 256 * integer part + fraction; `accs` what each divider has gathered. */
  datatype Block = Block(
    sms: seq<Sm>, irq: set<nat>, divs: seq<nat>, accs: seq<nat>,
    outcomes: seq<Outcome>, retired: seq<nat>)

  predicate Wired(b: Block) {
    && |b.sms| == |b.divs| == |b.accs| == |b.outcomes| == |b.retired| == NUM_SM
    && (forall i :: 0 <= i < NUM_SM ==> |b.sms[i].program| == 32)
    && (forall i :: 0 <= i < NUM_SM ==> 256 <= b.divs[i] && b.accs[i] < b.divs[i])
  }

  /** A divider setting: an integer part of 0 divides by 65536. */
  function Divisor(intPart: nat, frac: nat): (d: nat)
    requires intPart < 65536 && frac < 256
    ensures 256 <= d < 65537 * 256
    ensures d % 256 == frac && d / 256 == if intPart == 0 then 65536 else intPart
  {
    (if intPart == 0 then 65536 else intPart) * 256 + frac
  }

  /** Machine `i` gets a clock this cycle. */
  predicate Due(b: Block, i: nat)
    requires Wired(b) && i < NUM_SM
  {
    b.sms[i].enabled && b.accs[i] + 256 >= b.divs[i]
  }

  /** Machine `i`'s share of one system clock. */
  function Clock(b: Block, i: nat, env: Env): Block
    requires Wired(b) && i < NUM_SM
  {
    if !b.sms[i].enabled then b.(outcomes := b.outcomes[i := IDLE])
    else if !Due(b, i) then b.(outcomes := b.outcomes[i := IDLE], accs := b.accs[i := b.accs[i] + 256])
    else
      var t := Tick(b.sms[i], b.irq, env);
      Block(b.sms[i := t.sm], t.irq, b.divs, b.accs[i := b.accs[i] + 256 - b.divs[i]],
            b.outcomes[i := t.outcome],
            b.retired[i := b.retired[i] + if t.outcome.executed then 1 else 0])
  }

  lemma ClockWired(b: Block, i: nat, env: Env)
    requires Wired(b) && i < NUM_SM
    ensures Wired(Clock(b, i, env))
  {
    TickKeeps(b.sms[i], b.irq, env);
    hide Tick;
  }

  /** The first `n` machines, in order, have had their share of a clock. */
  function Shares(b: Block, envs: seq<Env>, n: nat): (b': Block)
    requires Wired(b) && |envs| == NUM_SM && n <= NUM_SM
    ensures Wired(b')
  {
    if n == 0 then b
    else
      var b0 := Shares(b, envs, n - 1);
      ClockWired(b0, n - 1, envs[n - 1]);
      Clock(b0, n - 1, envs[n - 1])
  }

  /** One system clock. */
  function BlockTick(b: Block, envs: seq<Env>): Block
    requires Wired(b) && |envs| == NUM_SM
  {
    Shares(b, envs, NUM_SM)
  }

  /** The block after `n` system clocks under the pins `pins(0)`, `pins(1)`, ... */
  function BlockRun(b: Block, pins: nat -> seq<Env>, n: nat): (b': Block)
    requires Wired(b) && (forall t :: |pins(t)| == NUM_SM)
    ensures Wired(b')
  {
    if n == 0 then b else BlockTick(BlockRun(b, pins, n - 1), pins(n - 1))
  }

  /** How often machine `i` was stepped in those `n` clocks. */
  function Steps(b: Block, pins: nat -> seq<Env>, i: nat, n: nat): nat
    requires Wired(b) && (forall t :: |pins(t)| == NUM_SM) && i < NUM_SM
  {
    if n == 0 then 0
    else Steps(b, pins, i, n - 1) + if Due(BlockRun(b, pins, n - 1), i) then 1 else 0
  }

  /** What one clock does to the divider of machine `i`. */
  lemma {:induction false} SharesDivide(b: Block, envs: seq<Env>, i: nat, n: nat)
    requires Wired(b) && |envs| == NUM_SM && i < NUM_SM && n <= NUM_SM
    ensures var b' := Shares(b, envs, n);
            && b'.divs == b.divs
            && b'.sms[i].enabled == b.sms[i].enabled
            && b'.accs[i] == if i < n && b.sms[i].enabled
                             then b.accs[i] + 256 - (if Due(b, i) then b.divs[i] else 0)
                             else b.accs[i]
  {
    hide Tick;
    if n > 0 {
      SharesDivide(b, envs, i, n - 1);
      var b0 := Shares(b, envs, n - 1);
      TickKeeps(b0.sms[n - 1], b0.irq, envs[n - 1]);
    }
  }

  /** The divider's rate law: from a restarted divider, `n` enabled clocks step
      the machine exactly floor(256 n / (256 int + frac)) times, and the
      accumulator holds the remainder. */
  lemma {:induction false} RateLaw(b: Block, pins: nat -> seq<Env>, i: nat, n: nat)
    requires Wired(b) && (forall t :: |pins(t)| == NUM_SM) && i < NUM_SM
    requires b.sms[i].enabled && b.accs[i] == 0
    ensures var b' := BlockRun(b, pins, n);
            && Steps(b, pins, i, n) == 256 * n / b.divs[i]
            && b'.accs[i] == 256 * n % b.divs[i]
            && b'.divs == b.divs && b'.sms[i].enabled
  {
    hide BlockTick;
    var d := b.divs[i];
    if n > 0 {
      RateLaw(b, pins, i, n - 1);
      var b0 := BlockRun(b, pins, n - 1);
      TickDivides(b0, pins(n - 1), i);
      AddOnce(256 * (n - 1), 256, d);
    } else {
      AddOnce(0, 0, d);
    }
  }

  lemma TickDivides(b: Block, envs: seq<Env>, i: nat)
    requires Wired(b) && |envs| == NUM_SM && i < NUM_SM && b.sms[i].enabled
    ensures var b' := BlockTick(b, envs);
            && Wired(b') && b'.divs == b.divs && b'.sms[i].enabled
            && b'.accs[i] == b.accs[i] + 256 - (if Due(b, i) then b.divs[i] else 0)
  {
    hide Shares;
    SharesDivide(b, envs, i, NUM_SM);
  }

  /** Adding at most one divisor carries at most once. */
  lemma AddOnce(x: nat, y: nat, d: nat)
    requires 0 < d && y <= d
    ensures var r := x % d;
            && 0 <= r && x / d >= 0
            && (x + y) / d == x / d + (if r + y >= d then 1 else 0)
            && (x + y) % d == r + y - (if r + y >= d then d else 0)
            && (x == 0 ==> x / d == 0 && r == 0)
  {
    DivMod(x, d);
    var (q, r) := (x / d, x % d);
    Distrib(d, q, 1);
    DivUnique(0, d, 0, 0);
    if r + y >= d {
      DivUnique(x + y, d, q + 1, r + y - d);
    } else {
      DivUnique(x + y, d, q, r + y);
    }
  }
}
