/** Which exception is taken, and why nesting is bounded. */
module PreemptionPriority {
  // Active exceptions are ever more urgent from the bottom of the stack to the top,
  // unless an SVC is executed where SVCall does not outrank.
  import opened Words
  import opened MemoryBus
  import opened RegisterModel
  import opened ExceptionModel
  import opened ExceptionFrames
  import opened Preemption

  // -------------------------------------------------------------- selection

  /** `e` may preempt now. */
  predicate Candidate(c: Cpu, e: nat) {
    2 <= e <= MAX_EXCEPTION && Eligible(c, e) && PriorityOf(c.priority, e) < CurrentPriority(c)
  }

  /** `e` is at least as urgent as `f`; ties go to the lower number. */
  predicate Before(c: Cpu, e: nat, f: nat) {
    var (p, q) := (PriorityOf(c.priority, e), PriorityOf(c.priority, f));
    p < q || (p == q && e <= f)
  }

  lemma {:induction false} ScanFinds(c: Cpu, n: nat)
    requires 2 <= n <= MAX_EXCEPTION + 1
    ensures var (prio, best) := Scan(c, n);
            && (best != 0 ==> best < n && Candidate(c, best) && prio == PriorityOf(c.priority, best))
            && (best == 0 ==> prio == CurrentPriority(c))
            && (forall e :: 2 <= e < n && Candidate(c, e) ==> best != 0 && Before(c, best, e))
  {
    if n > 2 {
      ScanFinds(c, n - 1);
    }
    hide CurrentPriority, PriorityOf, Eligible;
  }

  /** The exception taken is the (priority, number)-least that may preempt, and
      none is taken only if none may. */
  lemma SelectsLeast(c: Cpu)
    ensures var best := HighestPending(c);
            && (best != 0 ==> Candidate(c, best))
            && (forall e :: Candidate(c, e) ==> best != 0 && Before(c, best, e))
  {
    ScanFinds(c, MAX_EXCEPTION + 1);
  }

  // ------------------------------------------------------------- discipline

  /** Each active exception is strictly more urgent than the one it preempted. */
  ghost predicate Chain(priority: seq<Byte>, active: seq<nat>) {
    forall i, j :: 0 <= i < j < |active| ==> PriorityOf(priority, active[j]) < PriorityOf(priority, active[i])
  }

  /** The active exceptions of a state, oldest first; IPSR names the last. */
  ghost predicate Stacked(c: Cpu, active: seq<nat>) {
    && Chain(c.priority, active)
    && (if active == [] then c.regs.exc == 0 else c.regs.exc == active[|active| - 1] && c.regs.exc != 0)
  }

  predicate SamePriorities(c: Cpu, d: Cpu, active: seq<nat>) {
    forall i :: 0 <= i < |active| ==> PriorityOf(c.priority, active[i]) == PriorityOf(d.priority, active[i])
  }

  /** An exception that may be entered now: the selected pending one, a HardFault
      that does not escalate to lockup, or, at any priority, SVCall. */
  predicate Enterable(c: Cpu, exc: nat)
    requires c.Valid()
  {
    || exc == HighestPending(c) != 0
    || (exc == HARD_FAULT && TakeException(c, exc, c.regs.pc).1 != Lockup)
    || exc == SVCALL
  }

  /** Software leaves the priorities of active exceptions alone, and only enterable ones are entered. */
  ghost predicate Legal(c: Cpu, run: Run, active: seq<nat>)
    requires c.Valid() && Sane(run)
    decreases run
  {
    match run
    case Done => true
    case Own(next, rest) => SamePriorities(c, next, active) && Legal(next, rest, active)
    case Preempt(exc, handler, rest) =>
      && Enterable(c, exc)
      && Legal(Entered(c, exc), handler, active + [exc])
      && Legal(Return(c, exc, handler), rest, active)
  }

  /** SVCall is more urgent than the running exception. */
  predicate SvcOutranks(c: Cpu) {
    c.regs.exc == 0 || PriorityOf(c.priority, SVCALL) < PriorityOf(c.priority, c.regs.exc)
  }

  /** Every SVC of the run is executed where SVCall outranks the running exception. */
  ghost predicate SvcsOutrank(c: Cpu, run: Run)
    requires c.Valid() && Sane(run)
    decreases run
  {
    match run
    case Done => true
    case Own(next, rest) => SvcsOutrank(next, rest)
    case Preempt(exc, handler, rest) =>
      && (exc == SVCALL ==> SvcOutranks(c))
      && SvcsOutrank(Entered(c, exc), handler)
      && SvcsOutrank(Return(c, exc, handler), rest)
  }

  /** Every entry of the run is of an exception more urgent than all active ones. */
  ghost predicate Ordered(c: Cpu, run: Run, active: seq<nat>)
    requires c.Valid() && Sane(run)
    decreases run
  {
    match run
    case Done => true
    case Own(next, rest) => Ordered(next, rest, active)
    case Preempt(exc, handler, rest) =>
      && Chain(c.priority, active + [exc])
      && Ordered(Entered(c, exc), handler, active + [exc])
      && Ordered(Return(c, exc, handler), rest, active)
  }

  /** An entry is more urgent than everything active, unless it is an SVC that SVCall's priority does not allow. */
  lemma EntryUrgent(c: Cpu, exc: nat, active: seq<nat>)
    requires c.Valid() && Stacked(c, active) && Enterable(c, exc)
    ensures Chain(c.priority, active + [exc]) <==> (exc == SVCALL ==> SvcOutranks(c))
  {
    SelectsLeast(c);
    hide Enter, HighestPending, Eligible;
    var top := PriorityOf(c.priority, exc);
    if exc == SVCALL {
      SvcKeepsChain(c, active);
    } else {
      assert top < CurrentPriority(c);
      if active != [] {
        assert CurrentPriority(c) <= PriorityOf(c.priority, c.regs.exc);
      }
    }
    hide PriorityOf, CurrentPriority;
  }

  /** Six priorities, six levels. */
  lemma ChainShort(priority: seq<Byte>, active: seq<nat>)
    requires Chain(priority, active)
    ensures |active| <= 6
    ensures forall i, j :: 0 <= i < j < |active| ==> active[i] != active[j]
  {
    if |active| > 6 {
      ChainDrops(priority, active, 6);
    }
  }

  lemma {:induction false} ChainDrops(priority: seq<Byte>, active: seq<nat>, i: nat)
    requires Chain(priority, active) && i < |active|
    ensures PriorityOf(priority, active[i]) <= 3 - i
  {
    if i > 0 {
      ChainDrops(priority, active, i - 1);
    }
    hide PriorityOf;
  }

  function Least(a: int, b: int): int { if a < b then a else b }

  /** The most urgent of the active exceptions. */
  function LeastPriority(priority: seq<Byte>, active: seq<nat>): int {
    if active == [] then NO_PRIORITY
    else Least(LeastPriority(priority, active[..|active| - 1]), PriorityOf(priority, active[|active| - 1]))
  }

  /** In a chain the last is the least. */
  lemma {:induction false} LastIsLeast(priority: seq<Byte>, active: seq<nat>)
    requires Chain(priority, active) && active != []
    ensures LeastPriority(priority, active) == PriorityOf(priority, active[|active| - 1])
    decreases |active|
  {
    if |active| > 1 {
      LastIsLeast(priority, active[..|active| - 1]);
    } else {
      assert LeastPriority(priority, active[..0]) == NO_PRIORITY;
    }
  }

  /** The execution priority read from IPSR alone is the least over all that are
      active and, while PRIMASK is set, 0. */
  lemma IpsrIsMinimum(c: Cpu, active: seq<nat>)
    requires Stacked(c, active)
    ensures CurrentPriority(c) == Least(LeastPriority(c.priority, active), if c.regs.primask then 0 else NO_PRIORITY)
  {
    if active != [] {
      LastIsLeast(c.priority, active);
    }
  }

  function Depth(run: Run): nat {
    match run
    case Done => 0
    case Own(_, rest) => Depth(rest)
    case Preempt(_, handler, rest) =>
      var (d, e) := (1 + Depth(handler), Depth(rest));
      if d > e then d else e
  }

  lemma ChainSame(c: Cpu, d: Cpu, active: seq<nat>)
    requires Chain(c.priority, active) && SamePriorities(c, d, active)
    ensures Chain(d.priority, active)
  {
    hide PriorityOf;
  }

  lemma SameTrans(a: Cpu, b: Cpu, c: Cpu, active: seq<nat>)
    requires SamePriorities(a, b, active) && SamePriorities(b, c, active)
    ensures SamePriorities(a, c, active)
  {
    hide PriorityOf;
  }

  lemma SameEarlier(a: Cpu, b: Cpu, active: seq<nat>, exc: nat)
    requires SamePriorities(a, b, active + [exc])
    ensures SamePriorities(a, b, active)
  {
    hide PriorityOf;
    forall i | 0 <= i < |active|
      ensures PriorityOf(a.priority, active[i]) == PriorityOf(b.priority, active[i])
    {
      assert (active + [exc])[i] == active[i];
    }
  }

  lemma EnterKeepsPriorities(c: Cpu, exc: nat)
    requires c.Valid()
    ensures Entered(c, exc).priority == c.priority
  {
    hide StoreWords, Frame, FramePtr;
  }

  lemma ReturnKeepsPriorities(c: Cpu, excReturn: Word)
    requires c.Valid()
    ensures ExceptionReturn(c, excReturn).0.priority == c.priority
  {
  }

  lemma {:induction false} LegalKeepsPriorities(c: Cpu, run: Run, active: seq<nat>)
    requires c.Valid() && Sane(run) && Legal(c, run, active)
    ensures SamePriorities(c, Final(c, run), active)
    decreases run, 0
  {
    hide Enter, ExceptionReturn, PriorityOf, HighestPending, TakeException;
    match run
    case Done =>
    case Own(next, rest) =>
      LegalKeepsPriorities(next, rest, active);
      SameTrans(c, next, Final(next, rest), active);
    case Preempt(exc, handler, rest) =>
      var c3 := Return(c, exc, handler);
      HandlerKeepsPriorities(c, exc, handler, active);
      LegalKeepsPriorities(c3, rest, active);
      SameTrans(c, c3, Final(c3, rest), active);
  }

  lemma HandlerKeepsPriorities(c: Cpu, exc: nat, handler: Run, active: seq<nat>)
    requires c.Valid() && Sane(handler) && Legal(Entered(c, exc), handler, active + [exc])
    ensures SamePriorities(c, Return(c, exc, handler), active)
    decreases handler, 1
  {
    hide Enter, ExceptionReturn, PriorityOf, HighestPending, TakeException;
    var c1 := Entered(c, exc);
    var c2 := Final(c1, handler);
    EnterKeepsPriorities(c, exc);
    LegalKeepsPriorities(c1, handler, active + [exc]);
    SameEarlier(c1, c2, active, exc);
    ReturnKeepsPriorities(c2, ExcReturn(c.regs));
  }

  /** A state that is in order: what is suspended lies where it may, and what is
      active is ever more urgent. */
  ghost predicate InOrder(s: Stacks, x: Held, c: Cpu, active: seq<nat>) { Tidy(s, x, c) && Stacked(c, active) }

  /** The handler starts in order if its exception is more urgent, and the
      interrupted code goes on in order. */
  lemma PreemptInOrder(s: Stacks, x: Held, c: Cpu, exc: nat, handler: Run, active: seq<nat>)
    requires c.Valid() && Sane(handler) && InOrder(s, x, c, active)
    requires Behaves(s, x, c, Preempt(exc, handler, Done)) && Legal(c, Preempt(exc, handler, Done), active)
    ensures Chain(c.priority, active + [exc]) ==> InOrder(s, Hold(c, x), Entered(c, exc), active + [exc])
    ensures InOrder(s, x, Return(c, exc, handler), active)
  {
    hide Enter, TakeException, ExceptionReturn, Agree, FramePtr, Hold, Lies, PriorityOf, HighestPending, KeepsFrames;
    EntryTidy(s, x, c, exc);
    PreemptionTransparent(s, x, c, Preempt(exc, handler, Done));
    HandlerKeepsPriorities(c, exc, handler, active);
    ChainSame(c, Return(c, exc, handler), active);
  }

  /** The discipline, exactly: in a well-behaved run every entry is more urgent
      than all that is active if and only if every SVC is executed where SVCall
      outranks the running exception. */
  lemma {:induction false} OrderedIff(s: Stacks, x: Held, c: Cpu, run: Run, active: seq<nat>)
    requires c.Valid() && Sane(run) && InOrder(s, x, c, active) && Behaves(s, x, c, run) && Legal(c, run, active)
    ensures Ordered(c, run, active) <==> SvcsOutrank(c, run)
    decreases run
  {
    hide Enter, TakeException, ExceptionReturn, Agree, FramePtr, Hold, Tidy, PriorityOf, HighestPending, KeepsFrames,
         Enterable, SvcOutranks, Chain;
    match run
    case Done =>
    case Own(next, rest) =>
      OwnInOrder(s, x, c, next, active);
      OrderedIff(s, x, next, rest, active);
    case Preempt(exc, handler, rest) =>
      EntryUrgent(c, exc, active);
      PreemptInOrder(s, x, c, exc, handler, active);
      if Chain(c.priority, active + [exc]) {
        OrderedIff(s, Hold(c, x), Entered(c, exc), handler, active + [exc]);
      }
      OrderedIff(s, x, Return(c, exc, handler), rest, active);
  }

  lemma OwnInOrder(s: Stacks, x: Held, c: Cpu, next: Cpu, active: seq<nat>)
    requires InOrder(s, x, c, active) && SamePriorities(c, next, active)
    requires next.regs.exc == c.regs.exc && next.regs.msp <= x.mFloor && next.regs.psp <= x.pFloor
    ensures InOrder(s, x, next, active)
  {
    hide Lies, PriorityOf;
    ChainSame(c, next, active);
  }

  /** Nesting is at most six deep in every well-behaved run whose SVCs are executed
      where SVCall outranks: whatever is already active, the levels above it fill
      at most the remaining of six. */
  lemma {:induction false} NestingBounded(s: Stacks, x: Held, c: Cpu, run: Run, active: seq<nat>)
    requires c.Valid() && Sane(run) && InOrder(s, x, c, active) && Behaves(s, x, c, run) && Legal(c, run, active)
    requires SvcsOutrank(c, run)
    ensures |active| + Depth(run) <= 6
    decreases run
  {
    hide Enter, TakeException, ExceptionReturn, Agree, FramePtr, Hold, Tidy, PriorityOf, HighestPending, KeepsFrames,
         Enterable, SvcOutranks, Chain;
    match run
    case Done =>
      ChainShort(c.priority, active);
    case Own(next, rest) =>
      OwnInOrder(s, x, c, next, active);
      NestingBounded(s, x, next, rest, active);
    case Preempt(exc, handler, rest) =>
      EntryUrgent(c, exc, active);
      PreemptInOrder(s, x, c, exc, handler, active);
      NestingBounded(s, Hold(c, x), Entered(c, exc), handler, active + [exc]);
      NestingBounded(s, x, Return(c, exc, handler), rest, active);
  }

  // -------------------------------------------------------------------- SVC

  /** One SVC keeps the discipline exactly when SVCall outranks the running
      exception; inside SVCall itself it never does. */
  lemma SvcKeepsChain(c: Cpu, active: seq<nat>)
    requires Stacked(c, active)
    ensures Chain(c.priority, active + [SVCALL]) <==> SvcOutranks(c)
    ensures c.regs.exc == SVCALL ==> !Chain(c.priority, active + [SVCALL])
  {
    hide PriorityOf;
    var all := active + [SVCALL];
    if active != [] {
      var n := |active|;
      assert all[n] == SVCALL && all[n - 1] == c.regs.exc;
      if PriorityOf(c.priority, SVCALL) < PriorityOf(c.priority, c.regs.exc) {
        forall i, j | 0 <= i < j < |all|
          ensures PriorityOf(c.priority, all[j]) < PriorityOf(c.priority, all[i])
        {
          assert i == n - 1 || PriorityOf(c.priority, active[n - 1]) < PriorityOf(c.priority, active[i]);
        }
      }
    }
  }

  /** The next instruction, SVC, has been fetched: the return address is the one after it. */
  function Fetched(c: Cpu): (d: Cpu)
    ensures c.Valid() ==> d.Valid()
  {
    c.(regs := c.regs.(pc := Wrap(c.regs.pc + 2)))
  }

  /** The state in which the handler of that SVC starts. */
  function InSvc(c: Cpu): (d: Cpu)
    requires c.Valid()
    ensures d.Valid()
  {
    Entered(Fetched(c), SVCALL)
  }

  /** `n` nested SVCs: each handler's first instruction is an SVC, and its second returns. */
  function SvcNest(c: Cpu, n: nat): Run
    requires c.Valid()
    decreases n
  {
    if n == 0 then Done else Own(Fetched(c), Preempt(SVCALL, SvcNest(InSvc(c), n - 1), Done))
  }

  lemma {:induction false} NestIsSane(c: Cpu, n: nat)
    requires c.Valid()
    ensures Sane(SvcNest(c, n))
    decreases n
  {
    hide Fetched, InSvc;
    if n > 0 {
      NestIsSane(InSvc(c), n - 1);
    }
  }

  /** The main stack is in use and has room for `n` more frames, and the SVCall
      vector can be read. */
  predicate RoomFor(s: Stacks, c: Cpu, n: nat) {
    && !c.regs.OnPsp()
    && SRAM_BASE <= s.mLo && s.mHi <= SRAM_BASE + SRAM_SIZE
    && s.mLo + FRAME_BYTES * n <= c.regs.msp - c.regs.msp % 8
    && WordReadable(Wrap(c.vtor + 4 * SVCALL))
  }

  /** Where there is room for a frame, an SVC is taken. */
  lemma SvcTaken(s: Stacks, x: Held, c: Cpu, n: nat)
    requires c.Valid() && Tidy(s, x, c) && RoomFor(s, c, n) && n > 0
    ensures Enter(c, SVCALL, c.regs.pc).1 == ExceptionTaken && s.mLo <= FramePtr(c.regs.Sp())
    ensures RoomFor(s, Entered(c, SVCALL), n - 1)
  {
    hide Enter, StoreWords, Frame, FramePtr, WordReadable, ByteAt, LoadWords, Lies;
    var fp := FramePtr(c.regs.msp);
    FrameInStack(s, c, n);
    StoreSucceeds(c.mem, fp, Frame(c.regs, c.regs.pc));
    StoredEnters(c, SVCALL, c.regs.pc);
    EntryStores(c, SVCALL, c.regs.pc);
  }

  lemma FrameInStack(s: Stacks, c: Cpu, n: nat)
    requires c.Valid() && RoomFor(s, c, n) && n > 0 && c.regs.msp <= s.mHi
    ensures var fp := FramePtr(c.regs.msp);
            && fp % 8 == 0 && InSram(fp, FRAME_BYTES) && s.mLo <= fp
            && s.mLo + FRAME_BYTES * (n - 1) <= fp - fp % 8
  {
    hide WordReadable, Regs.Sp, Cpu.Valid, FramePtr;
    FramePlace(c.regs.msp, c.regs.msp - c.regs.msp % 8);
  }

  lemma FramePlace(sp: Word, top: int)
    requires top == sp - sp % 8 && top >= FRAME_BYTES
    ensures FramePtr(sp) == top - FRAME_BYTES && (top - FRAME_BYTES) % 8 == 0
  {
    assert Wrap(sp - FRAME_BYTES) == sp - FRAME_BYTES;
    assert (sp - FRAME_BYTES) % 8 == sp % 8;
  }

  lemma StoredEnters(c: Cpu, exc: nat, ra: Word)
    requires c.Valid() && StoreWords(c.mem, FramePtr(c.regs.Sp()), Frame(c.regs, ra)).1
    requires WordReadable(Wrap(c.vtor + 4 * exc))
    ensures Enter(c, exc, ra).1 == ExceptionTaken && Enter(c, exc, ra).0.vtor == c.vtor
  {
    hide StoreWords, Frame, FramePtr, WordReadable, HandlerRegs, Vectored, WordAt;
  }

  lemma {:induction false} StoreSucceeds(m: Mem, a: Word, ws: seq<Word>)
    requires m.Valid() && a % 4 == 0 && InSram(a, 4 * |ws|)
    ensures StoreWords(m, a, ws).1
    decreases |ws|
  {
    hide StoreWord;
    if ws != [] {
      StoreSucceeds(StoreWord(m, a, ws[0]), Wrap(a + 4), ws[1..]);
    }
  }

  /** What a nest of SVCs is: a legal, well-behaved run, `n` deep, that gives the registers back. */
  ghost predicate Nests(s: Stacks, x: Held, c: Cpu, run: Run, n: nat, active: seq<nat>)
    requires c.Valid() && Sane(run)
  {
    && Behaves(s, x, c, run) && Legal(c, run, active) && Depth(run) == n
    && SameRegs(c, Final(c, run))
  }

  predicate SameRegs(c: Cpu, d: Cpu) { d.regs.r == c.regs.r && d.regs.msp == c.regs.msp && d.regs.psp == c.regs.psp }

  /** One more SVC around a nest. */
  lemma NestGrows(s: Stacks, x: Held, d: Cpu, handler: Run, n: nat, active: seq<nat>)
    requires d.Valid() && Sane(handler) && Tidy(s, x, d) && RoomFor(s, d, n + 1)
    requires Nests(s, Hold(d, x), Entered(d, SVCALL), handler, n, active + [SVCALL])
    ensures Nests(s, x, d, Preempt(SVCALL, handler, Done), n + 1, active)
  {
    hide Enter, ExceptionReturn, Agree, FramePtr, Hold, Lies, PriorityOf, HighestPending, KeepsFrames, TakeException,
         Final, Tidy;
    var c1 := Entered(d, SVCALL);
    SvcTaken(s, x, d, n + 1);
    EntryTidy(s, x, d, SVCALL);
    PreemptionTransparent(s, Hold(d, x), c1, handler);
    ReturnResumes(s, x, d, SVCALL, handler);
    FinalOfReturn(d, SVCALL, handler);
    assert Behaves(s, x, Return(d, SVCALL, handler), Done) && Legal(Return(d, SVCALL, handler), Done, active);
    assert Behaves(s, x, d, Preempt(SVCALL, handler, Done));
    assert Depth(Preempt(SVCALL, handler, Done)) == n + 1;
  }

  lemma FinalOfReturn(c: Cpu, exc: nat, handler: Run)
    requires c.Valid() && Sane(handler)
    ensures Final(c, Preempt(exc, handler, Done)) == Return(c, exc, handler)
  {
    hide Return;
  }

  /** Fetching the SVC disturbs nothing. */
  lemma FetchNests(s: Stacks, x: Held, c: Cpu, run: Run, n: nat, active: seq<nat>)
    requires c.Valid() && Sane(run) && Tidy(s, x, c) && Nests(s, x, Fetched(c), run, n, active)
    ensures Nests(s, x, c, Own(Fetched(c), run), n, active)
  {
    SelfAgree(c.mem, x);
    hide Agree, Lies, PriorityOf, KeepsFrames;
    assert Fetched(c).mem == c.mem;
    assert SamePriorities(c, Fetched(c), active);
  }

  /** Without the guard there is no bound but the stack: from every state with room
      for `n` frames, `n` nested SVCs are a legal, well-behaved run `n` deep. */
  lemma {:induction false} SvcsNest(s: Stacks, x: Held, c: Cpu, n: nat, active: seq<nat>)
    requires c.Valid() && Tidy(s, x, c) && RoomFor(s, c, n)
    ensures Sane(SvcNest(c, n)) && Nests(s, x, c, SvcNest(c, n), n, active)
    decreases n
  {
    NestIsSane(c, n);
    if n > 0 {
      var d := Fetched(c);
      RoomAfterFetch(s, x, c, n);
      SvcTaken(s, x, d, n);
      EntryTidy(s, x, d, SVCALL);
      hide *;
      NestStep(c, n);
      SvcsNest(s, Hold(d, x), Entered(d, SVCALL), n - 1, active + [SVCALL]);
      NestGrows(s, x, d, SvcNest(InSvc(c), n - 1), n - 1, active);
      FetchNests(s, x, c, Preempt(SVCALL, SvcNest(InSvc(c), n - 1), Done), n, active);
    } else {
      NoNest(s, x, c, active);
    }
  }

  lemma NestStep(c: Cpu, n: nat)
    requires c.Valid() && n > 0
    ensures Fetched(c).Valid() && InSvc(c) == Entered(Fetched(c), SVCALL)
    ensures SvcNest(c, n) == Own(Fetched(c), Preempt(SVCALL, SvcNest(InSvc(c), n - 1), Done))
    ensures Sane(SvcNest(InSvc(c), n - 1)) && Sane(Preempt(SVCALL, SvcNest(InSvc(c), n - 1), Done))
  {
    NestIsSane(InSvc(c), n - 1);
    hide Fetched, InSvc;
  }

  lemma NoNest(s: Stacks, x: Held, c: Cpu, active: seq<nat>)
    requires c.Valid()
    ensures SvcNest(c, 0) == Done && Nests(s, x, c, Done, 0, active)
  {
  }

  lemma RoomAfterFetch(s: Stacks, x: Held, c: Cpu, n: nat)
    requires Tidy(s, x, c) && RoomFor(s, c, n)
    ensures Tidy(s, x, Fetched(c)) && RoomFor(s, Fetched(c), n)
  {
    hide Lies;
  }

  // ------------------------------------------------------- a machine that does it

  const SRAM_TOP: nat := SRAM_BASE + SRAM_SIZE
  const CODE: Word := 0x100
  const SVC_OPCODE: nat := 0xDF00
  const BX_LR_OPCODE: nat := 0x4770

  /** A ROM with the stack top in word 0, `CODE` as entry point in word 1 and as
      SVCall handler in word 11, and there `svc 0; bx lr`. */
  function RomByte(i: nat): Byte {
    if i in {1, 3} then 0x20
    else if i == 2 then 0x04
    else if i in {4, 5, 44, 45} then 0x01
    else if i == 0x101 then 0xDF
    else if i == 0x102 then 0x70
    else if i == 0x103 then 0x47
    else 0
  }

  function RomImage(): (rom: seq<Byte>)
    ensures |rom| == ROM_SIZE
  {
    seq<Byte>(ROM_SIZE, i requires 0 <= i < ROM_SIZE => RomByte(i))
  }

  lemma RomWords(m: Mem)
    requires m.Valid() && m.rom == RomImage()
    ensures WordAt(m, 0) == SRAM_TOP && WordAt(m, 4) == CODE + 1 && WordAt(m, 4 * SVCALL) == CODE + 1
    ensures ValueAt(m, CODE, 2) == SVC_OPCODE && ValueAt(m, CODE + 2, 2) == BX_LR_OPCODE
  {
    assert forall i: nat :: i < ROM_SIZE ==> ByteAt(m, i) == RomByte(i);
    hide ByteAt;
    FourBytes(m, 0);
    FourBytes(m, 4);
    FourBytes(m, 44);
    TwoBytes(m, CODE);
    TwoBytes(m, CODE + 2);
  }

  lemma TwoBytes(m: Mem, a: nat)
    requires m.Valid()
    ensures ValueAt(m, a, 2) == ByteAt(m, a) + 256 * ByteAt(m, a + 1)
  {
    hide ByteAt;
    assert ValueAt(m, a + 1, 1) == ByteAt(m, a + 1) + 256 * ValueAt(m, a + 2, 0);
  }

  lemma FourBytes(m: Mem, a: nat)
    requires m.Valid()
    ensures WordAt(m, a)
         == ByteAt(m, a) + 256 * ByteAt(m, a + 1) + 0x1_0000 * ByteAt(m, a + 2) + 0x100_0000 * ByteAt(m, a + 3)
  {
    hide ByteAt;
    TwoBytes(m, a + 2);
    assert ValueAt(m, a + 1, 3) == ByteAt(m, a + 1) + 256 * ValueAt(m, a + 2, 2);
  }

  /** Reset with the vector table at 0: registers cleared, MSP and PC from its first two words. */
  function Reset(m: Mem): (c: Cpu)
    requires m.Valid()
    ensures c.Valid()
  {
    var (sp, pc) := (WordAt(m, 0), WordAt(m, 4));
    var regs := Regs(seq(13, _ => 0), Even(pc), WORD_SIZE - 1, Align4(sp), 0,
                     false, false, false, false, pc % 2 == 1, 0, false, false, false);
    Cpu(regs, m, 0, {}, {}, seq(MAX_EXCEPTION + 1, _ => 0), 0, false, false, false, false)
  }

  /** That ROM, with flash and SRAM cleared. */
  function Board(): (m: Mem)
    ensures m.Valid() && m.rom == RomImage()
  {
    Mem(RomImage(), seq(FLASH_SIZE, _ => 0), seq(SRAM_SIZE, _ => 0))
  }

  /** The machine is about to execute the SVC of that ROM. */
  predicate AtSvc(c: Cpu)
    requires c.Valid()
  {
    c.mem.rom == RomImage() && c.vtor == 0 && c.regs.pc == CODE
  }

  /** Each of the `n` SVCs is the instruction that stands at the program counter. */
  ghost predicate ExecutesSvcs(c: Cpu, n: nat)
    requires c.Valid()
    decreases n
  {
    n == 0 || (ValueAt(c.mem, c.regs.pc, 2) == SVC_OPCODE && ExecutesSvcs(InSvc(c), n - 1))
  }

  lemma {:induction false} StoresKeepRom(m: Mem, a: Word, ws: seq<Word>)
    requires m.Valid()
    ensures StoreWords(m, a, ws).0.rom == m.rom
    decreases |ws|
  {
    if ws != [] && WordWritable(a) {
      StoresKeepRom(StoreWord(m, a, ws[0]), Wrap(a + 4), ws[1..]);
    }
  }

  /** The handler starts at the same SVC again. */
  lemma AtSvcAgain(c: Cpu)
    requires c.Valid() && AtSvc(c) && Enter(Fetched(c), SVCALL, Fetched(c).regs.pc).1 == ExceptionTaken
    ensures AtSvc(InSvc(c))
  {
    var d := Fetched(c);
    var fp := FramePtr(d.regs.Sp());
    StoresKeepRom(d.mem, fp, Frame(d.regs, d.regs.pc));
    var m := StoreWords(d.mem, fp, Frame(d.regs, d.regs.pc)).0;
    RomWords(m);
    hide StoreWords, Frame, FramePtr, RomImage, WordAt;
  }

  /** The handler of an SVC starts in order, at the SVC again. */
  lemma NextSvc(s: Stacks, x: Held, c: Cpu, n: nat)
    requires c.Valid() && AtSvc(c) && Tidy(s, x, c) && RoomFor(s, c, n) && n > 0
    ensures AtSvc(InSvc(c)) && Tidy(s, Hold(Fetched(c), x), InSvc(c)) && RoomFor(s, InSvc(c), n - 1)
  {
    hide FramePtr, StoreWords, Frame, RomImage, Lies, Hold, Enter;
    RoomAfterFetch(s, x, c, n);
    SvcTaken(s, x, Fetched(c), n);
    EntryTidy(s, x, Fetched(c), SVCALL);
    AtSvcAgain(c);
  }

  lemma SvcThere(c: Cpu)
    requires c.Valid() && AtSvc(c)
    ensures ValueAt(c.mem, c.regs.pc, 2) == SVC_OPCODE
  {
    RomWords(c.mem);
  }

  lemma {:induction false} NestExecutes(s: Stacks, x: Held, c: Cpu, n: nat)
    requires c.Valid() && AtSvc(c) && Tidy(s, x, c) && RoomFor(s, c, n)
    ensures ExecutesSvcs(c, n)
    decreases n
  {
    hide AtSvc, Tidy, RoomFor, InSvc, Hold, ValueAt, RomImage, Fetched;
    if n > 0 {
      SvcThere(c);
      NextSvc(s, x, c, n);
      NestExecutes(s, Hold(Fetched(c), x), InSvc(c), n - 1);
    }
  }

  /** The whole SRAM is main stack, and nothing is suspended. */
  const WHOLE_SRAM: Stacks := Stacks(SRAM_BASE, SRAM_TOP, 0, 0)
  const NOTHING_HELD: Held := Held([], SRAM_TOP, 0)

  lemma ResetInOrder(n: nat)
    requires FRAME_BYTES * n <= SRAM_SIZE
    ensures var c := Reset(Board());
            InOrder(WHOLE_SRAM, NOTHING_HELD, c, []) && RoomFor(WHOLE_SRAM, c, n) && AtSvc(c)
  {
    RomWords(Board());
    hide PriorityOf, WordAt, ValueAt, RomImage, Board;
  }

  /** So a concrete machine breaks the bound of six: out of reset it nests SVCs to
      every depth that fits into its SRAM, and each is an instruction in its ROM. */
  lemma SvcBreaksBound(n: nat)
    requires FRAME_BYTES * n <= SRAM_SIZE
    ensures var (s, x, c) := (WHOLE_SRAM, NOTHING_HELD, Reset(Board()));
            && InOrder(s, x, c, [])
            && Sane(SvcNest(c, n)) && Behaves(s, x, c, SvcNest(c, n)) && Legal(c, SvcNest(c, n), [])
            && Depth(SvcNest(c, n)) == n && ExecutesSvcs(c, n)
            && (n > 6 ==> !SvcsOutrank(c, SvcNest(c, n)))
  {
    var c := Reset(Board());
    ResetInOrder(n);
    SvcsNest(WHOLE_SRAM, NOTHING_HELD, c, n, []);
    ResetTidy(n);
    NestExecutes(WHOLE_SRAM, NOTHING_HELD, c, n);
    hide Reset, Board, SvcNest, Behaves, Legal, SvcsOutrank, Final, Depth, InOrder, RoomFor;
    if SvcsOutrank(c, SvcNest(c, n)) {
      NestingBounded(WHOLE_SRAM, NOTHING_HELD, c, SvcNest(c, n), []);
    }
  }

  lemma ResetTidy(n: nat)
    requires FRAME_BYTES * n <= SRAM_SIZE
    ensures Tidy(WHOLE_SRAM, NOTHING_HELD, Reset(Board()))
  {
    ResetInOrder(n);
    hide Reset, Board;
  }
}
