/** What OUT, PUSH, PULL, WAIT and IRQ words do, in plain terms. */
module PioFlowMeaning {
  import opened PioIsa
  import opened Words
  import opened WordLemmas
  import opened PioMachine
  import opened PioPaths
  import opened PioMeaning

  // ----------------------------------------------------------------------- OUT

  /** What leaves the OSR: its low `n` bits when shifting right, its top `n` when shifting left. */
  function Left(osr: Word, n: nat, right: bool): nat
    requires 1 <= n <= 32
  {
    ModLe(osr, Pow2(n));
    DivLe(osr, Pow2(32 - n));
    if n == 32 then osr else if right then osr % Pow2(n) else osr / Pow2(32 - n)
  }

  /** And what stays, with zeros for the bits that left. */
  function Rest(osr: Word, n: nat, right: bool): nat
    requires 1 <= n <= 32
  {
    DivLe(osr, Pow2(n));
    if n == 32 then 0 else if right then osr / Pow2(n) else osr * Pow2(n) % WORD_SIZE
  }

  lemma LeavesIs(cfg: Config, core: Core, n: nat)
    requires 1 <= n <= 32
    ensures Left(core.osr, n, cfg.outRight) < WORD_SIZE && Rest(core.osr, n, cfg.outRight) < WORD_SIZE
    ensures OutValue(cfg, core.osr, n) == Left(core.osr, n, cfg.outRight)
    ensures ShiftOut(cfg, core, n)
         == core.(osr := Rest(core.osr, n, cfg.outRight), osrCount := Capped(core.osrCount + n))
  {
    hide Pow2, Shr, Shl, LowBits;
    LowBitsIs(core.osr, n);
    ShrIs(core.osr, n);
    ShrIs(core.osr, 32 - n);
    ShlIs(core.osr, n);
    ModLe(core.osr, Pow2(n));
    DivLe(core.osr, Pow2(n));
    DivLe(core.osr, Pow2(32 - n));
  }

  lemma OutWord(d: nat, n: nat, l: nat)
    requires d < 8 && 1 <= n <= 32 && l == n % 32
    ensures 0x6000 + 32 * d + l < 0x1_0000 && (0x6000 + 32 * d + l) / 256 % 32 == 0
    ensures Decode(0x6000 + 32 * d + l) == BLANK.(op := OUT, destination := d, bitCount := n)
  {
    TwoFields(d, l);
    LowFields(0x6000 + 32 * d + l, 0x60, 32 * d + l);
  }

  /** Destination code 1 is X, 2 Y, 5 the program counter, and 6 ISR with its count. */
  predicate OutDone(s: Sm, t: TickResult, d: nat, v: nat, rest: nat, count: nat, n: nat) {
    && t.outcome.executed && t.sm.stall == NoStall && t.sm.rx == s.rx && |t.sm.tx.items| == LeftInTx(s)
    && t.sm.core.pc == (if d == 5 then v % 32 else NextPc(s.cfg, s.core.pc))
    && t.sm.core.x == (if d == 1 then v else s.core.x)
    && t.sm.core.y == (if d == 2 then v else s.core.y)
    && t.sm.core.isr == (if d == 6 then v else s.core.isr)
    && t.sm.core.isrCount == (if d == 6 then n else s.core.isrCount)
    && t.sm.core.osr == rest && t.sm.core.osrCount == count
  }

  /** `out d, n`: with autopull a used-up OSR and an empty TX FIFO it waits; else it
      delivers the bits that leave the OSR, refilled first if used up. */
  lemma OutMeans(s: Sm, d: nat, n: nat, l: nat, irq: set<nat>, env: Env)
    requires d < 8 && d != 7 && 1 <= n <= 32 && l == n % 32
    requires 0x6000 + 32 * d + l < 0x1_0000 && At(s, 0x6000 + 32 * d + l)
    ensures Tick(s, irq, env).irq == irq
    ensures var t := Tick(s, irq, env);
            var (osr, count) := (OsrOf(s), if Refills(s) then 0 else s.core.osrCount);
            if s.cfg.autopull && UsedUp(s) && !Refills(s)
            then
              && !t.outcome.executed && t.sm.stall == AutoPullStall
              && t.sm.core == s.core && t.sm.tx == s.tx && t.sm.rx == s.rx
            else OutDone(s, t, d, Left(osr, n, s.cfg.outRight), Rest(osr, n, s.cfg.outRight), Capped(count + n), n)
  {
    OutWord(d, n, l);
    hide Decode, Tick, DelayOf, ShiftOut, OutValue, Left, Rest, OsrOf, Capped, At, OutDone;
    var r := TickIs(s, 0x6000 + 32 * d + l, irq, env);
    RefilledCounts(s, r);
    LeavesIs(r.cfg, r.core, n);
    if s.cfg.autopull && UsedUp(s) && !Refills(s) {
      assert Exec(r, r.cur, irq, env) == Result(r.(stall := AutoPullStall), irq, false);
      hide Exec;
    } else {
      assert Exec(r, r.cur, irq, env) == Result(r.(core := OutShifted(r.cfg, r.core, r.cur)), irq, true);
      hide Exec;
      OutSettles(s, r, d, n, irq, env);
    }
  }

  lemma RefilledCounts(s: Sm, r: Sm)
    requires Runs(s, r, r.cur)
    ensures r.core.osr == OsrOf(s) && r.core.osrCount == (if Refills(s) then 0 else s.core.osrCount)
    ensures |r.tx.items| == LeftInTx(s)
    ensures r.core.osrCount >= PullThresh(r.cfg) <==> UsedUp(s) && !Refills(s)
  {
  }

  lemma OutSettles(s: Sm, r: Sm, d: nat, n: nat, irq: set<nat>, env: Env)
    requires Runs(s, r, r.cur) && r.cur.op == OUT && r.cur.destination == d < 8 && r.cur.bitCount == n && 1 <= n <= 32
    requires d != 7 && Exec(r, r.cur, irq, env) == Result(r.(core := OutShifted(r.cfg, r.core, r.cur)), irq, true)
    ensures var t := RunInstr(r, irq, env);
            && t.irq == irq
            && var c := ShiftOut(r.cfg, r.core, n);
               OutDone(s, t, d, OutValue(r.cfg, r.core.osr, n), c.osr, c.osrCount, n)
  {
    RefilledCounts(s, r);
    hide Exec, DelayOf, OutValue, LowBits, Shr, Shl, Refills, OsrOf, LeftInTx;
  }

  // -------------------------------------------------------------- PUSH and PULL

  function Bit(b: bool): nat { if b then 1 else 0 }

  lemma FlagFields(high: nat, a: bool, b: bool, c: bool, l: nat)
    requires high < 256 && l < 32
    ensures var low := 128 * Bit(a) + 64 * Bit(b) + 32 * Bit(c) + l;
            && low < 256 && low / 128 == Bit(a) && low / 64 == 2 * Bit(a) + Bit(b)
            && low / 32 == 4 * Bit(a) + 2 * Bit(b) + Bit(c) && low % 32 == l
  {
    TwoFields(4 * Bit(a) + 2 * Bit(b) + Bit(c), l);
  }

  lemma PushPullWord(pull: bool, conditional: bool, block: bool)
    ensures var w := 0x8000 + (128 * Bit(pull) + 64 * Bit(conditional) + 32 * Bit(block));
            && w < 0x1_0000 && w / 256 % 32 == 0
            && Decode(w) == if pull then BLANK.(op := PULL, ifEmpty := conditional, block := block)
                            else BLANK.(op := PUSH, ifFull := conditional, block := block)
  {
    FlagFields(0x80, pull, conditional, block, 0);
    var low := 128 * Bit(pull) + 64 * Bit(conditional) + 32 * Bit(block);
    LowFields(0x8000 + low, 0x80, low);
  }

  /** Another clock of a machine that cannot go on: everything stays, the instruction is remembered. */
  predicate Stalls(s: Sm, t: TickResult) {
    && !t.outcome.executed && t.sm.stall == InstrStall && t.sm.rx == s.rx && |t.sm.tx.items| == LeftInTx(s)
    && t.sm.core.pc == s.core.pc && t.sm.core.x == s.core.x && t.sm.core.y == s.core.y
    && t.sm.core.isr == s.core.isr && t.sm.core.isrCount == s.core.isrCount && t.sm.core.osr == OsrOf(s)
  }

  predicate Goes(s: Sm, t: TickResult) {
    && t.outcome.executed && t.sm.stall == NoStall && t.sm.core.pc == NextPc(s.cfg, s.core.pc)
    && t.sm.core.x == s.core.x && t.sm.core.y == s.core.y
  }

  /** `push`: with `iffull` nothing below the threshold; else ISR goes to the RX FIFO
      and is cleared; without room it waits, or with `noblock` is cleared all the same. */
  lemma PushMeans(s: Sm, full: bool, block: bool, w: Half, irq: set<nat>, env: Env)
    requires w == 0x8000 + (128 * Bit(false) + 64 * Bit(full) + 32 * Bit(block)) && At(s, w)
    ensures var t := Tick(s, irq, env);
            && t.irq == irq
            && (if full && s.core.isrCount < Threshold(s.cfg.pushThreshold) then
                  Goes(s, t) && t.sm.rx == s.rx && t.sm.core.isr == s.core.isr && t.sm.core.isrCount == s.core.isrCount
                else if !s.rx.Full() then
                  && Goes(s, t) && t.sm.rx == s.rx.(items := s.rx.items + [s.core.isr])
                  && t.sm.core.isr == 0 && t.sm.core.isrCount == 0
                else if block then Stalls(s, t)
                else Goes(s, t) && t.sm.rx == s.rx && t.sm.core.isr == 0 && t.sm.core.isrCount == 0)
  {
    PushPullWord(false, full, block);
    assert s.stall == NoStall;
    hide Decode, Tick, DelayOf, OsrOf, Refills, LeftInTx, At;
    var r := TickIs(s, w, irq, env);
    RefilledCounts(s, r);
    var (r2, ok) := ExecPush(r, r.cur);
    assert Exec(r, r.cur, irq, env) == Result(r2, irq, ok);
    hide Exec;
  }

  /** `pull`: with `ifempty` nothing unless the OSR is used up; else the oldest TX
      word goes to the OSR; without one it waits, or with `noblock` takes X. */
  lemma PullMeans(s: Sm, empty: bool, block: bool, w: Half, irq: set<nat>, env: Env)
    requires w == 0x8000 + (128 * Bit(true) + 64 * Bit(empty) + 32 * Bit(block)) && At(s, w) && !s.cfg.autopull
    ensures var t := Tick(s, irq, env);
            && t.irq == irq && t.sm.rx == s.rx && t.sm.core.isr == s.core.isr && t.sm.core.isrCount == s.core.isrCount
            && (if empty && !UsedUp(s) then
                  Goes(s, t) && t.sm.tx == s.tx && t.sm.core.osr == s.core.osr && t.sm.core.osrCount == s.core.osrCount
                else if s.tx.items != [] then
                  && Goes(s, t) && t.sm.tx == s.tx.(items := s.tx.items[1..])
                  && t.sm.core.osr == s.tx.items[0] && t.sm.core.osrCount == 0
                else if block then Stalls(s, t)
                else Goes(s, t) && t.sm.tx == s.tx && t.sm.core.osr == s.core.x && t.sm.core.osrCount == 0)
  {
    PushPullWord(true, empty, block);
    assert s.stall == NoStall;
    hide Decode, Tick, DelayOf, At;
    var r := TickIs(s, w, irq, env);
    assert r == s.(cur := r.cur);
    var (r2, ok) := ExecPull(r, r.cur);
    assert Exec(r, r.cur, irq, env) == Result(r2, irq, ok);
    hide Exec;
  }

  // --------------------------------------------------------------- WAIT and IRQ

  /** The flag an index names: below 16 its low three bits; from 16 on the machine's
      number is added within the group of four that bit 2 selects. */
  predicate Names(index: nat, id: nat, flag: nat) {
    if index < 16 then flag == index % 8
    else flag < 8 && flag / 4 == index / 4 % 2 && flag % 4 == (index + id) % 4
  }

  lemma FlagNamed(index: nat, id: nat, flag: nat)
    requires index < 32
    ensures Names(index, id, flag) <==> flag == ResolveIrq(index, id)
  {
    var g := index / 4 % 2;
    assert index >= 16 ==> index / 16 % 2 == 1;
    assert index < 16 ==> index / 16 % 2 == 0;
    SameSum(index, id);
    if index >= 16 {
      FlagParts(g, (index % 4 + id) % 4);
    }
  }

  lemma SameSum(index: nat, id: nat)
    ensures (index % 4 + id) % 4 == (index + id) % 4
  {
  }

  lemma FlagParts(g: nat, m: nat)
    requires g < 2 && m < 4
    ensures g * 4 + m < 8 && (g * 4 + m) / 4 == g && (g * 4 + m) % 4 == m
    ensures forall f: nat :: f < 8 && f / 4 == g && f % 4 == m ==> f == g * 4 + m
  {
  }

  lemma WaitWord(p: bool, c: nat, index: nat, w: nat)
    requires c < 4 && index < 32 && w == 0x2000 + (128 * Bit(p) + 64 * (c / 2) + 32 * (c % 2) + index)
    ensures w < 0x1_0000 && w / 256 % 32 == 0
    ensures Decode(w) == BLANK.(op := WAIT, polarity := p, source := c, index := index)
  {
    FlagFields(0x20, p, c / 2 == 1, c % 2 == 1, index);
    LowFields(w, 0x20, w - 0x2000);
  }

  /** The level that WAIT looks at: source 0 a GPIO, 1 a pin of the machine, 2 an IRQ flag. */
  predicate Level(c: nat, index: nat, flag: nat, irq: set<nat>, env: Env) {
    if c == 0 then env.gpio(index) else if c == 1 then env.waitPin(index) else flag in irq
  }

  /** `wait p c index` goes on exactly in a clock that sees level p; `wait 1 irq` then
      takes the flag down. */
  lemma WaitMeans(s: Sm, p: bool, c: nat, index: nat, flag: nat, w: Half, irq: set<nat>, env: Env)
    requires c < 3 && index < 32 && Names(index, s.id, flag)
    requires w == 0x2000 + (128 * Bit(p) + 64 * (c / 2) + 32 * (c % 2) + index) && At(s, w)
    ensures var t := Tick(s, irq, env);
            && t.sm.rx == s.rx && t.sm.core.isr == s.core.isr && t.sm.irqWaitRaised == s.irqWaitRaised
            && (if Level(c, index, flag, irq, env) == p
                then Goes(s, t) && t.irq == (if c == 2 && p then irq - {flag} else irq)
                else Stalls(s, t) && t.irq == irq)
  {
    WaitWord(p, c, index, w);
    FlagNamed(index, s.id, flag);
    assert s.stall == NoStall;
    hide Decode, Tick, DelayOf, OsrOf, Refills, LeftInTx, At, ResolveIrq, Names;
    var r := TickIs(s, w, irq, env);
    RefilledCounts(s, r);
    assert Exec(r, r.cur, irq, env) == ExecWait(r, r.cur, irq, env);
    hide Exec;
  }

  lemma IrqWord(clear: bool, wait: bool, index: nat, w: nat)
    requires index < 32 && w == 0xC000 + (128 * Bit(false) + 64 * Bit(clear) + 32 * Bit(wait) + index)
    ensures w < 0x1_0000 && w / 256 % 32 == 0
    ensures Decode(w) == BLANK.(op := IRQ, clear := clear, wait := wait, index := index)
  {
    FlagFields(0xC0, false, clear, wait, index);
    LowFields(w, 0xC0, w - 0xC000);
  }

  /** `irq clear` takes the flag down and `irq set` puts it up, both in one clock;
      `irq wait` puts it up in its first clock and waits. */
  lemma IrqMeans(s: Sm, clear: bool, wait: bool, index: nat, flag: nat, w: Half, irq: set<nat>, env: Env)
    requires index < 32 && Names(index, s.id, flag) && !s.irqWaitRaised
    requires w == 0xC000 + (128 * Bit(false) + 64 * Bit(clear) + 32 * Bit(wait) + index) && At(s, w)
    ensures var t := Tick(s, irq, env);
            && t.sm.rx == s.rx && t.sm.core.isr == s.core.isr
            && (if clear then Goes(s, t) && t.irq == irq - {flag} && !t.sm.irqWaitRaised
                else if wait then Stalls(s, t) && t.irq == irq + {flag} && t.sm.irqWaitRaised
                else Goes(s, t) && t.irq == irq + {flag} && !t.sm.irqWaitRaised)
  {
    IrqWord(clear, wait, index, w);
    FlagNamed(index, s.id, flag);
    assert s.stall == NoStall;
    hide Decode, Tick, DelayOf, OsrOf, Refills, LeftInTx, At, ResolveIrq, Names;
    var r := TickIs(s, w, irq, env);
    RefilledCounts(s, r);
    assert Exec(r, r.cur, irq, env) == ExecIrq(r, r.cur, irq);
    hide Exec;
  }
}
