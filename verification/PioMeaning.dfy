/** What single instruction words do, in plain terms. */
module PioMeaning {
  // The other modules relate machines to machines.  Here a clock is described by
  // numbers alone: the word at the program counter, the registers before and the
  // registers after.
  import opened PioIsa
  import opened Words
  import opened WordLemmas
  import opened PioMachine
  import opened PioPaths
  import opened PioRefinement

  /** The machine is about to execute the word `w`. */
  predicate At(s: Sm, w: Half) {
    && |s.program| == 32 && s.program[s.core.pc % 32] == w
    && s.enabled && s.delayLeft == 0 && s.stall == NoStall
  }

  /** The OSR counts as used up at this many bits; 0 stands for 32. */
  function Threshold(field: nat): nat { if field == 0 then 32 else field }

  predicate UsedUp(s: Sm) { s.core.osrCount >= Threshold(s.cfg.pullThreshold) }

  /** With autopull a used-up OSR is refilled from the TX FIFO before the instruction. */
  predicate Refills(s: Sm) { s.cfg.autopull && UsedUp(s) && s.tx.items != [] }

  /** The machine that runs instruction `i`, the refill done. */
  predicate Runs(s: Sm, r: Sm, i: PioInstr) {
    && r == s.(core := r.core, tx := r.tx, cur := i)
    && r.core == s.core.(osr := r.core.osr, osrCount := r.core.osrCount)
    && (if Refills(s)
        then r.core.osr == s.tx.items[0] && r.core.osrCount == 0 && r.tx == s.tx.(items := s.tx.items[1..])
        else r.core == s.core && r.tx == s.tx)
  }

  lemma TickIs(s: Sm, w: Half, irq: set<nat>, env: Env) returns (r: Sm)
    requires At(s, w)
    ensures Runs(s, r, Decode(w)) && Tick(s, irq, env) == RunInstr(r, irq, env)
  {
    hide Decode, RunInstr;
    var s' := Prefetch(ResumePull(s));
    r := s'.(cur := Select(s'));
  }

  /** Without delay or side-set bits the machine is ready again in the next clock. */
  lemma NoDelay(cfg: Config, w: Half)
    requires w / 256 % 32 == 0
    ensures DelayOf(cfg, Decode(w)) == 0
  {
    assert Decode(w).delaySideset == 0;
    hide Decode;
  }

  /** Another machine in the same place but for its registers, pc and FIFOs. */
  predicate SameSetup(s: Sm, s': Sm) {
    s' == s.(core := s'.core, tx := s'.tx, rx := s'.rx, cur := s'.cur)
  }

  /** An instruction that only computes retires with the registers it leaves. */
  lemma Retires(s: Sm, w: Half, irq: set<nat>, env: Env, r: Sm, c: Core)
    requires At(s, w) && w / 256 % 32 == 0 && Runs(s, r, Decode(w)) && Tick(s, irq, env) == RunInstr(r, irq, env)
    requires Exec(r, r.cur, irq, env) == Result(r.(core := c), irq, true)
    ensures Tick(s, irq, env) == TickResult(r.(core := c), irq, RETIRED)
  {
    NoDelay(s.cfg, w);
    hide Decode, Tick, DelayOf, Exec;
  }

  // -------------------------------------------------------------------- fields

  /** The fields of the low byte of a word. */
  lemma LowFields(w: Half, high: nat, low: nat)
    requires w == 256 * high + low && low < 256
    ensures w / 8192 == high / 32 && w / 256 == high && w % 32 == low % 32 && w % 8 == low % 8
    ensures w / 32 == 8 * high + low / 32 && w / 8 == 32 * high + low / 8
    ensures w / 64 == 4 * high + low / 64 && w / 128 == 2 * high + low / 128
  {
    DivUnique(w, 32, 8 * high + low / 32, low % 32);
    DivUnique(w, 8, 32 * high + low / 8, low % 8);
    DivUnique(w, 64, 4 * high + low / 64, low % 64);
    DivUnique(w, 128, 2 * high + low / 128, low % 128);
    DivUnique(w, 256, high, low);
    DivUnique(w, 8192, high / 32, 256 * (high % 32) + low);
  }

  /** A byte of three, two and three bits. */
  lemma ThreeFields(d: nat, o: nat, c: nat)
    requires d < 8 && o < 4 && c < 8
    ensures var low := 32 * d + 8 * o + c;
            low < 256 && low / 32 == d && low / 8 == 4 * d + o && low % 8 == c && low % 32 == 8 * o + c
  {
    DivUnique(32 * d + 8 * o + c, 32, d, 8 * o + c);
    DivUnique(32 * d + 8 * o + c, 8, 4 * d + o, c);
  }

  /** A byte of three and five bits. */
  lemma TwoFields(c: nat, l: nat)
    requires c < 8 && l < 32
    ensures 32 * c + l < 256 && (32 * c + l) / 32 == c && (32 * c + l) % 32 == l
  {
    DivUnique(32 * c + l, 32, c, l);
  }

  // ----------------------------------------------------------------------- JMP

  /** Whether a JMP with condition code `c` jumps: 0 always, 1 X zero, 2 X not zero,
      3 Y zero, 4 Y not zero, 5 X and Y differ, 6 the pin is high, 7 the OSR still
      `holds` data. */
  predicate Jumps(c: nat, x: Word, y: Word, pin: bool, holds: bool) {
    || c == 0
    || (c == 1 && x == 0)
    || (c == 2 && x != 0)
    || (c == 3 && y == 0)
    || (c == 4 && y != 0)
    || (c == 5 && x != y)
    || (c == 6 && pin)
    || (c == 7 && holds)
  }

  /** One less, below 0 all ones. */
  function Less(v: Word): Word { if v == 0 then 0xFFFF_FFFF else v - 1 }

  lemma JumpCore(cfg: Config, core: Core, i: PioInstr, pin: bool)
    requires i.condition < 8 && i.address < 32
    ensures ExecJmp(cfg, core, i, pin)
         == core.(pc := if Jumps(i.condition, core.x, core.y, pin, core.osrCount < Threshold(cfg.pullThreshold))
                        then i.address else NextPc(cfg, core.pc),
                  x := if i.condition == 2 then Less(core.x) else core.x,
                  y := if i.condition == 4 then Less(core.y) else core.y)
  {
  }

  lemma JumpWord(c: nat, a: nat)
    requires c < 8 && a < 32
    ensures Decode(32 * c + a) == BLANK.(op := JMP, condition := c, address := a)
    ensures (32 * c + a) / 256 % 32 == 0
  {
    TwoFields(c, a);
    LowFields(32 * c + a, 0, 32 * c + a);
  }

  /** The word `jmp cond a` goes to `a` if and only if its condition held on the
      registers before, the OSR refilled first if it is to be, and else to the next
      address; codes 2 and 4 take one from X and Y, whether they jump or not. */
  lemma JumpMeans(s: Sm, c: nat, a: nat, irq: set<nat>, env: Env)
    requires c < 8 && a < 32 && At(s, 32 * c + a)
    ensures var t := Tick(s, irq, env);
            && t.outcome.executed && t.irq == irq && SameSetup(s, t.sm) && t.sm.rx == s.rx
            && t.sm.core.pc == (if Jumps(c, s.core.x, s.core.y, env.jmpPin, !UsedUp(s) || Refills(s))
                                then a else NextPc(s.cfg, s.core.pc))
            && t.sm.core.x == (if c == 2 then Less(s.core.x) else s.core.x)
            && t.sm.core.y == (if c == 4 then Less(s.core.y) else s.core.y)
            && t.sm.core.isr == s.core.isr && t.sm.core.isrCount == s.core.isrCount
  {
    JumpWord(c, a);
    hide Decode, Tick, RunInstr, Jumps, Less, ExecJmp;
    var r := TickIs(s, 32 * c + a, irq, env);
    Retires(s, 32 * c + a, irq, env, r, ExecJmp(r.cfg, r.core, r.cur, env.jmpPin));
    hide Exec;
    JumpCore(r.cfg, r.core, r.cur, env.jmpPin);
  }

  /** What one clock sees. */
  type Inputs = nat -> (set<nat>, Env)

  /** The machine after `k` clocks. */
  function Ticks(s: Sm, ins: Inputs, k: nat): (s': Sm)
    requires |s.program| == 32
    ensures |s'.program| == 32
  {
    if k == 0 then s
    else
      var before := Ticks(s, ins, k - 1);
      TickKeeps(before, ins(k - 1).0, ins(k - 1).1);
      Tick(before, ins(k - 1).0, ins(k - 1).1).sm
  }

  /** The scratch register that JMP condition `c` counts down. */
  function Counter(s: Sm, c: nat): Word { if c == 2 then s.core.x else s.core.y }

  /** The one-word loop `a: jmp x-- a` (or y--) stays for as many clocks as the
      register says, taking one from it in each, and leaves in the clock after with
      all ones in the register. */
  lemma {:induction false} CountdownLoop(s: Sm, c: nat, a: nat, ins: Inputs, k: nat)
    requires c in {2, 4} && a < 32 && At(s, 32 * c + a) && s.core.pc == a && k <= Counter(s, c) + 1
    ensures var s' := Ticks(s, ins, k);
            if k <= Counter(s, c)
            then At(s', 32 * c + a) && s'.core.pc == a && Counter(s', c) == Counter(s, c) - k && s'.cfg == s.cfg
            else s'.core.pc == NextPc(s.cfg, a) && Counter(s', c) == 0xFFFF_FFFF
  {
    hide Tick, Decode;
    if k > 0 {
      CountdownLoop(s, c, a, ins, k - 1);
      var before := Ticks(s, ins, k - 1);
      JumpMeans(before, c, a, ins(k - 1).0, ins(k - 1).1);
      TicksMore(s, ins, k);
    }
  }

  lemma TicksMore(s: Sm, ins: Inputs, k: nat)
    requires |s.program| == 32 && k > 0
    ensures Ticks(s, ins, k) == Tick(Ticks(s, ins, k - 1), ins(k - 1).0, ins(k - 1).1).sm
  {
  }

  // --------------------------------------------------------------------- delay

  /** Side-set takes the upper bits of the five delay bits. */
  lemma DelayBits(cfg: Config, w: Half)
    ensures var n := cfg.sidesetCount + if cfg.sidesetOpt then 1 else 0;
            DelayOf(cfg, Decode(w)) == if n <= 5 then w / 256 % 32 % Pow2(5 - n) else 0
  {
    assert Decode(w).delaySideset == w / 256 % 32;
    assert Pow2(0) == 1 && Pow2(1) == 2 && Pow2(2) == 4;
    assert Pow2(3) == 8 && Pow2(4) == 16 && Pow2(5) == 32;
    hide Decode;
  }

  /** An executed word holds the machine for its delay: so many clocks change
      nothing but the count, whatever the pins and flags are. */
  lemma {:induction false} DelayHolds(s: Sm, ins: Inputs, k: nat)
    requires |s.program| == 32 && s.enabled && k <= s.delayLeft
    ensures Ticks(s, ins, k) == s.(delayLeft := s.delayLeft - k)
  {
    if k > 0 {
      DelayHolds(s, ins, k - 1);
      TicksMore(s, ins, k);
    }
    hide RunInstr, Decode;
  }

  lemma ExecutedDelays(s: Sm, w: Half, irq: set<nat>, env: Env)
    requires At(s, w) && Tick(s, irq, env).outcome.executed
    ensures var n := s.cfg.sidesetCount + if s.cfg.sidesetOpt then 1 else 0;
            Tick(s, irq, env).sm.delayLeft == if n <= 5 then w / 256 % 32 % Pow2(5 - n) else 0
  {
    DelayBits(s.cfg, w);
    hide Decode, Tick, DelayOf, Exec, Pow2;
    var r := TickIs(s, w, irq, env);
  }

  // ------------------------------------------------------------- SET, MOV, OUT, IN

  lemma SetWord(d: nat, v: nat)
    requires d < 8 && v < 32
    ensures 0xE000 + 32 * d + v < 0x1_0000
    ensures Decode(0xE000 + 32 * d + v) == BLANK.(op := SET, destination := d, data := v)
    ensures (0xE000 + 32 * d + v) / 256 % 32 == 0
  {
    TwoFields(d, v);
    LowFields(0xE000 + 32 * d + v, 0xE0, 32 * d + v);
  }

  /** `set x, v` and `set y, v` load five bits; every SET goes to the next address. */
  lemma SetMeans(s: Sm, d: nat, v: nat, irq: set<nat>, env: Env)
    requires d < 8 && v < 32 && 0xE000 + 32 * d + v < 0x1_0000 && At(s, 0xE000 + 32 * d + v)
    ensures var t := Tick(s, irq, env);
            && t.outcome.executed && t.irq == irq && SameSetup(s, t.sm) && t.sm.rx == s.rx
            && t.sm.core.pc == NextPc(s.cfg, s.core.pc)
            && t.sm.core.x == (if d == 1 then v else s.core.x) && t.sm.core.y == (if d == 2 then v else s.core.y)
            && t.sm.core.isr == s.core.isr && t.sm.core.isrCount == s.core.isrCount
  {
    SetWord(d, v);
    hide Decode, Tick, RunInstr;
    var r := TickIs(s, 0xE000 + 32 * d + v, irq, env);
    Retires(s, 0xE000 + 32 * d + v, irq, env, r, ExecSet(r.cfg, r.core, r.cur));
    hide Exec;
  }

  /** What a MOV or IN reads: source code 0 the pins, 1 X, 2 Y, 5 the status word
      (MOV only), 6 ISR, 7 OSR, and 0 for the others. */
  function Selected(code: nat, x: Word, y: Word, isr: Word, osr: Word, pins: Word, status: Word): Word {
    if code == 0 then pins else if code == 1 then x else if code == 2 then y
    else if code == 5 then status else if code == 6 then isr else if code == 7 then osr else 0
  }

  /** The value moved: operation 1 complements it, operation 2 reverses its bits. */
  function Operated(op: nat, v: Word): nat {
    if op == 1 then 0xFFFF_FFFF - v else if op == 2 then Rev(v, 32) else v
  }

  lemma MovValue(core: Core, i: PioInstr, pins: Word, status: Word)
    requires i.op == MOV && i.source < 8 && i.movOp < 4
    ensures ApplyMovOp(i, Source(core, i, pins, status))
         == Operated(i.movOp, Selected(i.source, core.x, core.y, core.isr, core.osr, pins, status))
  {
    var v := Source(core, i, pins, status);
    assert v == Selected(i.source, core.x, core.y, core.isr, core.osr, pins, status);
    BitReverseIsRev(v);
    hide BitReverse, Rev, Source, Selected;
  }

  /** Where a moved value goes: code 1 to X, 2 to Y, 5 to the program counter, 6 to
      ISR and 7 to OSR, with their counts cleared. */
  function Moved(cfg: Config, core: Core, d: nat, v: Word): Core {
    core.(pc := if d == 5 then v % 32 else NextPc(cfg, core.pc),
          x := if d == 1 then v else core.x,
          y := if d == 2 then v else core.y,
          isr := if d == 6 then v else core.isr,
          isrCount := if d == 6 then 0 else core.isrCount,
          osr := if d == 7 then v else core.osr,
          osrCount := if d == 7 then 0 else core.osrCount)
  }

  lemma MovCore(cfg: Config, core: Core, i: PioInstr, pins: Word, status: Word)
    requires i.op == MOV && i.destination < 8
    ensures ExecMov(cfg, core, i, pins, status)
         == Moved(cfg, core, i.destination, ApplyMovOp(i, Source(core, i, pins, status)))
  {
    hide ApplyMovOp, Source;
  }

  lemma MovWord(d: nat, o: nat, c: nat)
    requires d < 8 && o < 4 && c < 8
    ensures 0xA000 + 32 * d + 8 * o + c < 0x1_0000 && (0xA000 + 32 * d + 8 * o + c) / 256 % 32 == 0
    ensures Decode(0xA000 + 32 * d + 8 * o + c) == BLANK.(op := MOV, destination := d, movOp := o, source := c)
  {
    ThreeFields(d, o, c);
    LowFields(0xA000 + 32 * d + 8 * o + c, 0xA0, 32 * d + 8 * o + c);
  }

  /** What OSR holds, and how many TX words are left, once the refill is done. */
  function OsrOf(s: Sm): Word { if Refills(s) then s.tx.items[0] else s.core.osr }

  function LeftInTx(s: Sm): nat { if Refills(s) then |s.tx.items| - 1 else |s.tx.items| }

  /** MOV STATUS: all ones while the selected FIFO holds fewer than N words. */
  function StatusWord(s: Sm): Word {
    if (if s.cfg.statusSelRx then |s.rx.items| else LeftInTx(s)) < s.cfg.statusN then 0xFFFF_FFFF else 0
  }

  lemma StatusIs(s: Sm, r: Sm, i: PioInstr)
    requires Runs(s, r, i)
    ensures Status(r) == StatusWord(s) && r.core.osr == OsrOf(s)
  {
  }

  /** The value that `mov d, op c` moves. */
  function MovedValue(s: Sm, o: nat, c: nat, pins: Word): nat {
    Operated(o, Selected(c, s.core.x, s.core.y, s.core.isr, OsrOf(s), pins, StatusWord(s)))
  }

  predicate MovDone(s: Sm, t: TickResult, d: nat, v: nat) {
    && t.outcome.executed && SameSetup(s, t.sm) && t.sm.rx == s.rx
    && t.sm.core.pc == (if d == 5 then v % 32 else NextPc(s.cfg, s.core.pc))
    && t.sm.core.x == (if d == 1 then v else s.core.x)
    && t.sm.core.y == (if d == 2 then v else s.core.y)
    && t.sm.core.isr == (if d == 6 then v else s.core.isr)
    && t.sm.core.isrCount == (if d == 6 then 0 else s.core.isrCount)
    && t.sm.core.osr == (if d == 7 then v else OsrOf(s))
    && (d == 7 ==> t.sm.core.osrCount == 0)
  }

  /** `mov d, op c` writes the operated source to the destination and nothing else. */
  lemma MovMeans(s: Sm, d: nat, o: nat, c: nat, irq: set<nat>, env: Env)
    requires d < 8 && d != 4 && o < 4 && c < 8
    requires 0xA000 + 32 * d + 8 * o + c < 0x1_0000 && At(s, 0xA000 + 32 * d + 8 * o + c)
    ensures Tick(s, irq, env).irq == irq && MovDone(s, Tick(s, irq, env), d, MovedValue(s, o, c, env.inPins))
  {
    MovWord(d, o, c);
    var w := 0xA000 + 32 * d + 8 * o + c;
    hide Decode, Tick, RunInstr, Status, ExecMov, Operated, Selected, ApplyMovOp, Source, StatusWord, OsrOf, At,
         MovDone;
    var r := TickIs(s, w, irq, env);
    var v := ApplyMovOp(r.cur, Source(r.core, r.cur, env.inPins, Status(r)));
    StatusIs(s, r, r.cur);
    MovCore(r.cfg, r.core, r.cur, env.inPins, Status(r));
    MovValue(r.core, r.cur, env.inPins, Status(r));
    Retires(s, w, irq, env, r, Moved(r.cfg, r.core, d, v));
    hide Exec;
    MovSettles(s, r, d, v, irq);
  }

  lemma MovSettles(s: Sm, r: Sm, d: nat, v: Word, irq: set<nat>)
    requires Runs(s, r, r.cur) && s.stall == NoStall && s.delayLeft == 0
    ensures MovDone(s, TickResult(r.(core := Moved(r.cfg, r.core, d, v)), irq, RETIRED), d, v)
  {
    StatusIs(s, r, r.cur);
    hide Refills, OsrOf;
  }

  // ---------------------------------------------------------------- IN and OUT

  function Capped(n: nat): nat { if n > 32 then 32 else n }

  /** IN in plain arithmetic: the low `n` bits of `v` enter at the top when
      shifting right, and at the bottom when shifting left. */
  function Entered(isr: Word, v: Word, n: nat, right: bool): nat
    requires 1 <= n <= 32
  {
    DivLe(isr, Pow2(n));
    ModLe(v, Pow2(n));
    if n == 32 then v
    else if right then isr / Pow2(n) + v % Pow2(n) * Pow2(32 - n)
    else isr * Pow2(n) % WORD_SIZE + v % Pow2(n)
  }

  /** A quotient by 2^n leaves room for `n` bits above it. */
  lemma TopFits(isr: Word, b: nat, n: nat)
    requires 1 <= n < 32 && b < Pow2(n)
    ensures b * Pow2(32 - n) >= 0 && isr / Pow2(n) >= 0
    ensures isr / Pow2(n) + b * Pow2(32 - n) < WORD_SIZE && b * Pow2(32 - n) < WORD_SIZE
  {
    hide Pow2;
    var (p, q) := (Pow2(n), Pow2(32 - n));
    Pow2Sum(n, 32 - n);
    Pow2Of32();
    DivMod(isr, p);
    if isr / p >= q {
      MulMono(p, q, isr / p);
    }
    MulMono(q, b + 1, p);
    Distrib(q, b, 1);
  }

  lemma BelowProduct(m: nat, b: nat, p: nat, q: nat)
    requires m < q && b < p
    ensures m * p + b < q * p
  {
    MulMono(p, m + 1, q);
    Distrib(p, m, 1);
  }

  /** A product by 2^n modulo 2^32 leaves its low `n` bits clear. */
  lemma BottomFits(isr: Word, b: nat, n: nat)
    requires 1 <= n < 32 && b < Pow2(n)
    ensures isr * Pow2(n) >= 0 && isr * Pow2(n) % WORD_SIZE + b < WORD_SIZE
  {
    hide Pow2;
    var (p, q) := (Pow2(n), Pow2(32 - n));
    Pow2Sum(32 - n, n);
    Pow2Of32();
    ModScale(isr, q, p);
    DivMod(isr, q);
    BelowProduct(isr % q, b, p, q);
  }

  lemma EnteredIs(cfg: Config, core: Core, v: Word, n: nat)
    requires 1 <= n <= 32
    ensures Entered(core.isr, v, n, cfg.inRight) < WORD_SIZE
    ensures ShiftIn(cfg, core, v, n)
         == core.(isr := Entered(core.isr, v, n, cfg.inRight), isrCount := Capped(core.isrCount + n))
  {
    if n < 32 {
      hide Pow2, Shr, Shl, LowBits;
      var b := LowBits(v, n);
      LowBitsIs(v, n);
      ModLe(v, Pow2(n));
      ShrIs(core.isr, n);
      ShlIs(core.isr, n);
      ShlIs(b, 32 - n);
      TopFits(core.isr, b, n);
      BottomFits(core.isr, b, n);
      InWord32(b * Pow2(32 - n));
      InWord32(core.isr / Pow2(n) + b * Pow2(32 - n));
      InWord32(core.isr * Pow2(n) % WORD_SIZE + b);
    }
  }

  lemma InWord32(x: nat)
    requires x < WORD_SIZE
    ensures x % WORD_SIZE == x && Wrap(x) == x
  {
  }

  lemma InWord(c: nat, n: nat, l: nat)
    requires c < 8 && 1 <= n <= 32 && l == n % 32
    ensures 0x4000 + 32 * c + l < 0x1_0000 && (0x4000 + 32 * c + l) / 256 % 32 == 0
    ensures Decode(0x4000 + 32 * c + l) == BLANK.(op := IN, source := c, bitCount := n)
  {
    TwoFields(c, l);
    LowFields(0x4000 + 32 * c + l, 0x40, 32 * c + l);
  }

  /** The ISR after `in c, n`, before any push. */
  function After(s: Sm, c: nat, n: nat, env: Env): nat
    requires c < 8 && 1 <= n <= 32
  {
    Entered(s.core.isr, Selected(c, s.core.x, s.core.y, s.core.isr, OsrOf(s), env.inPins, 0), n, s.cfg.inRight)
  }

  /** The ISR is full for autopush. */
  predicate Full(s: Sm, count: nat) { s.cfg.autopush && count >= Threshold(s.cfg.pushThreshold) }

  /** A clock that leaves everything but ISR, the RX FIFO and the program counter. */
  predicate InDone(s: Sm, t: TickResult, v: nat, count: nat) {
    && t.sm.core.x == s.core.x && t.sm.core.y == s.core.y && t.sm.core.osr == OsrOf(s)
    && (!Full(s, count) ==>
          && t.outcome.executed && t.sm.stall == NoStall && t.sm.rx == s.rx
          && t.sm.core.isr == v && t.sm.core.isrCount == count && t.sm.core.pc == NextPc(s.cfg, s.core.pc))
    && (Full(s, count) && !s.rx.Full() ==>
          && t.outcome.executed && t.sm.stall == NoStall && v < WORD_SIZE && t.sm.rx == s.rx.(items := s.rx.items + [v])
          && t.sm.core.isr == 0 && t.sm.core.isrCount == 0 && t.sm.core.pc == NextPc(s.cfg, s.core.pc))
    && (Full(s, count) && s.rx.Full() ==>
          && !t.outcome.executed && t.sm.stall == AutoPushStall && t.sm.rx == s.rx
          && t.sm.core.isr == v && t.sm.core.isrCount == count && t.sm.core.pc == s.core.pc)
  }

  /** `in c, n` shifts in the low `n` bits of its source; with autopush a full ISR goes
      to the RX FIFO and is cleared, or waits there for room. */
  lemma InMeans(s: Sm, c: nat, n: nat, l: nat, irq: set<nat>, env: Env)
    requires c < 8 && 1 <= n <= 32 && l == n % 32 && 0x4000 + 32 * c + l < 0x1_0000 && At(s, 0x4000 + 32 * c + l)
    ensures Tick(s, irq, env).irq == irq
    ensures InDone(s, Tick(s, irq, env), After(s, c, n, env), Capped(s.core.isrCount + n))
  {
    InWord(c, n, l);
    hide Decode, Tick, DelayOf, ShiftIn, Source, Selected, Entered, OsrOf, Refills, Capped;
    var r := TickIs(s, 0x4000 + 32 * c + l, irq, env);
    StatusIs(s, r, r.cur);
    InSource(r.core, r.cur, env.inPins);
    var c1 := ShiftIn(r.cfg, r.core, Source(r.core, r.cur, env.inPins, 0), n);
    EnteredIs(r.cfg, r.core, Source(r.core, r.cur, env.inPins, 0), n);
    assert Exec(r, r.cur, irq, env) == Result(FinishIn(r.(core := c1)).0, irq, FinishIn(r.(core := c1)).1);
    hide Exec, UsedUp, FinishIn, InDone, Full, At;
    InSettles(s, r, c1, irq, env);
  }

  lemma InSettles(s: Sm, r: Sm, c1: Core, irq: set<nat>, env: Env)
    requires Runs(s, r, r.cur) && s.stall == NoStall && s.delayLeft == 0
    requires c1 == r.core.(isr := c1.isr, isrCount := c1.isrCount)
    requires var (r2, ok) := FinishIn(r.(core := c1)); Exec(r, r.cur, irq, env) == Result(r2, irq, ok)
    ensures RunInstr(r, irq, env).irq == irq && InDone(s, RunInstr(r, irq, env), c1.isr, c1.isrCount)
  {
    StatusIs(s, r, r.cur);
    hide Exec, DelayOf, Refills, OsrOf;
  }

  lemma InSource(core: Core, i: PioInstr, pins: Word)
    requires i.op == IN && i.source < 8
    ensures Source(core, i, pins, 0) == Selected(i.source, core.x, core.y, core.isr, core.osr, pins, 0)
  {
  }
}
