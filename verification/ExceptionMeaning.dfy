/** Exceptions in terms of registers, priority bytes and words in memory. */
module ExceptionMeaning {
  // The other modules relate states to states.  Here selection, entry and return
  // are described by numbers: bytes of the priority table, words of the frame, bits
  // of the status word, addresses of vectors.
  import opened Words
  import opened MemoryBus
  import opened RegisterModel
  import opened ExceptionModel
  import opened ExceptionFrames
  import opened PreemptionPriority
  import opened CallStack

  // ---------------------------------------------------------------- priorities

  /** The level of an exception, least most urgent: NMI, HardFault, and then one of
      four levels by the two top bits of its priority byte. */
  function Level(priority: seq<Byte>, e: nat): int
    requires e < |priority|
  {
    if e == 2 then -2 else if e == 3 then -1
    else if priority[e] < 0x40 then 0 else if priority[e] < 0x80 then 1 else if priority[e] < 0xC0 then 2 else 3
  }

  lemma LevelIs(priority: seq<Byte>, e: nat)
    requires e < |priority|
    ensures PriorityOf(priority, e) == Level(priority, e)
  {
  }

  /** A byte below 64 m is strictly more urgent than one at or above it, and bytes in
      the same block of 64 tie. */
  lemma BytesRank(priority: seq<Byte>, e: nat, f: nat, m: nat)
    requires e < |priority| && f < |priority| && e !in {2, 3} && f !in {2, 3} && m < 4
    ensures priority[e] < 64 * m <= priority[f] ==> PriorityOf(priority, e) < PriorityOf(priority, f)
    ensures 64 * m <= priority[e] < 64 * m + 64 && 64 * m <= priority[f] < 64 * m + 64
        ==> PriorityOf(priority, e) == PriorityOf(priority, f)
  {
    LevelIs(priority, e);
    LevelIs(priority, f);
  }

  /** Exception `e` is pending, and enabled if it is external; with PRIMASK set only
      NMI and HardFault come through. */
  predicate Waits(c: Cpu, e: nat) {
    && 2 <= e <= 41 && e in c.pending && (e >= 16 ==> e - 16 in c.irqEnabled)
    && (c.regs.primask ==> e == 2 || e == 3)
  }

  /** It is more urgent than the running code: Thread code without PRIMASK yields to
      everything, PRIMASK puts it at level 0. */
  predicate MoreUrgent(c: Cpu, e: nat)
    requires |c.priority| == 42 && c.regs.exc < 512 && e < 42
  {
    && (c.regs.primask ==> Level(c.priority, e) < 0)
    && (c.regs.exc != 0 ==>
          Level(c.priority, e) < if c.regs.exc < 42 then Level(c.priority, c.regs.exc) else 0)
  }

  lemma CandidateIs(c: Cpu, e: nat)
    requires |c.priority| == 42 && c.regs.exc < 512
    ensures Candidate(c, e) <==> Waits(c, e) && MoreUrgent(c, e)
  {
    if e < 42 {
      LevelIs(c.priority, e);
    }
    if c.regs.exc < 42 {
      LevelIs(c.priority, c.regs.exc);
    }
  }

  /** Selection on the bytes: the exception taken waits and is more urgent than the
      running code, none that does so has a lower level, nor the same level and a
      lower number, and none is taken only if none does so. */
  lemma SelectionOnBytes(c: Cpu)
    requires |c.priority| == 42 && c.regs.exc < 512
    ensures var best := HighestPending(c);
            && (best != 0 ==> Waits(c, best) && MoreUrgent(c, best))
            && (forall e :: Waits(c, e) && MoreUrgent(c, e) ==>
                  && best != 0 && Level(c.priority, best) <= Level(c.priority, e)
                  && (Level(c.priority, best) == Level(c.priority, e) ==> best <= e))
  {
    SelectsLeast(c);
    var best := HighestPending(c);
    CandidateIs(c, best);
    if best != 0 {
      LevelIs(c.priority, best);
    }
    forall e | Waits(c, e) && MoreUrgent(c, e)
      ensures best != 0 && Level(c.priority, best) <= Level(c.priority, e)
      ensures Level(c.priority, best) == Level(c.priority, e) ==> best <= e
    {
      CandidateIs(c, e);
      LevelIs(c.priority, e);
    }
    hide HighestPending, Candidate, PriorityOf, Level;
  }

  /** So a configurable exception is never taken before one in a lower block of 64. */
  lemma LowerBlockFirst(c: Cpu, e: nat, m: nat)
    requires |c.priority| == 42 && c.regs.exc < 512 && m < 4
    requires Waits(c, e) && MoreUrgent(c, e) && e !in {2, 3} && c.priority[e] < 64 * m
    ensures var best := HighestPending(c); best in {2, 3} || (2 <= best < 42 && c.priority[best] < 64 * m)
  {
    SelectionOnBytes(c);
    hide HighestPending;
  }

  /** A HardFault locks up at once exactly while NMI or HardFault is running. */
  lemma LockupIff(c: Cpu, ra: Word)
    requires c.Valid()
    ensures c.regs.exc in {2, 3} ==> TakeException(c, 3, ra) == (c, Lockup)
    ensures c.regs.exc !in {2, 3} ==> TakeException(c, 3, ra) == Enter(c, 3, ra)
    ensures forall e: nat :: e != 3 ==> TakeException(c, e, ra) == Enter(c, e, ra)
  {
    hide Enter;
  }

  // --------------------------------------------------------------------- entry

  /** The frame, word by word from its lowest address. */
  predicate FrameWords(m: Mem, fp: nat, g: Regs, ra: Word)
    requires m.Valid() && g.Valid()
  {
    && WordAt(m, fp) == g.r[0] && WordAt(m, fp + 4) == g.r[1] && WordAt(m, fp + 8) == g.r[2]
    && WordAt(m, fp + 12) == g.r[3] && WordAt(m, fp + 16) == g.r[12] && WordAt(m, fp + 20) == g.lr
    && WordAt(m, fp + 24) == ra && StatusBits(WordAt(m, fp + 28), g)
  }

  /** The bits of a stacked status word: flags at 31 to 28, Thumb at 24, the
      realignment at 9 and the exception number in the low nine. */
  predicate StatusBits(x: nat, g: Regs) {
    && (x / 0x8000_0000 % 2 == 1) == g.n && (x / 0x4000_0000 % 2 == 1) == g.z
    && (x / 0x2000_0000 % 2 == 1) == g.c && (x / 0x1000_0000 % 2 == 1) == g.v
    && (x / 0x100_0000 % 2 == 1) == g.t && (x / 0x200 % 2 == 1) == (g.Sp() / 4 % 2 == 1)
    && x % 512 == g.exc
  }

  lemma StackedBits(g: Regs)
    requires g.Valid()
    ensures StatusBits(WithBit9(Xpsr(g), Realigned(g.Sp())), g)
  {
    var on := Realigned(g.Sp());
    StackedIs(g, on);
    StackedTop(g, on);
    StackedMiddle(g, on);
    hide Xpsr, WithBit9, StatusWord;
  }

  /** The frame as a sequence, and as eight words of memory. */
  lemma FrameLaid(m: Mem, fp: Word, g: Regs, ra: Word)
    requires m.Valid() && g.Valid() && fp % 4 == 0 && InSram(fp, 32) && LoadWords(m, fp, 8) == Frame(g, ra)
    ensures FrameWords(m, fp, g, ra)
  {
    hide WordAt, LoadWords, WithBit9, Xpsr, Realigned, StatusBits, InSram;
    StackedBits(g);
    LoadAt(m, fp, 8, 0);
    LoadAt(m, fp, 8, 1);
    LoadAt(m, fp, 8, 2);
    LoadAt(m, fp, 8, 3);
    LoadAt(m, fp, 8, 4);
    LoadAt(m, fp, 8, 5);
    LoadAt(m, fp, 8, 6);
    LoadAt(m, fp, 8, 7);
  }

  /** What the registers hold once the handler is about to run. */
  predicate Entered(g: Regs, h: Regs, exc: nat, fp: nat, vector: Word) {
    && h.r == g.r && h.exc == exc % 512
    && h.pc % 2 == 0 && vector == h.pc + (if h.t then 1 else 0)
    && h.lr == (if g.exc != 0 then 0xFFFF_FFF1 else if g.spsel then 0xFFFF_FFFD else 0xFFFF_FFF9)
    && (if g.exc == 0 && g.spsel then h.psp == fp && h.msp == g.msp else h.msp == fp && h.psp == g.psp)
    && h.primask == g.primask && h.spsel == g.spsel && h.n == g.n && h.z == g.z && h.c == g.c && h.v == g.v
  }

  /** Entry has put the frame at `fp` and nothing else into memory. */
  ghost predicate EntryDone(c: Cpu, c1: Cpu, exc: nat, ra: Word, fp: nat)
    requires c.Valid() && c1.Valid()
  {
    && FrameWords(c1.mem, fp, c.regs, ra)
    && (forall x: nat :: x < fp || fp + 32 <= x ==> ByteAt(c1.mem, x) == ByteAt(c.mem, x))
    && Entered(c.regs, c1.regs, exc, fp, WordAt(c1.mem, (c.vtor + 4 * exc) % 0x1_0000_0000))
    && c1.cycles == c.cycles + 15 && c1.event && !c1.asleep
    && c1.pending == c.pending && c1.priority == c.priority
  }

  /** Entry puts the frame at the highest multiple of 8 that leaves 32 bytes below the
      stack pointer in use, records in LR where to return, and branches to the word
      at 4 times the exception number above the vector table's base, that word's
      bit 0 being the Thumb bit. */
  lemma EntryMeans(c: Cpu, exc: nat, ra: Word)
    requires c.Valid() && Enter(c, exc, ra).1 == ExceptionTaken
    ensures c.regs.Sp() >= 40
    ensures EntryDone(c, Enter(c, exc, ra).0, exc, ra, c.regs.Sp() - 32 - c.regs.Sp() % 8)
  {
    hide StoreWords, LoadWords, WordAt, ByteAt, FramePtr, Frame, FrameWords, Entered, InSram;
    var c1 := Enter(c, exc, ra).0;
    var fp := FramePtr(c.regs.Sp());
    EntryStores(c, exc, ra);
    SpAligned(c.regs);
    FrameIsAt(c.regs.Sp());
    FrameLaid(c1.mem, fp, c.regs, ra);
    EntryRegs(c, exc, ra);
  }

  lemma EntryRegs(c: Cpu, exc: nat, ra: Word)
    requires c.Valid() && Enter(c, exc, ra).1 == ExceptionTaken
    ensures var c1 := Enter(c, exc, ra).0;
            Entered(c.regs, c1.regs, exc, FramePtr(c.regs.Sp()), WordAt(c1.mem, (c.vtor + 4 * exc) % 0x1_0000_0000))
  {
    hide StoreWords, WordAt, FramePtr, Frame, WordReadable, HandlerRegs, Vectored, Entered, ExcReturn;
    var fp := FramePtr(c.regs.Sp());
    var c1 := Enter(c, exc, ra).0;
    var v := WordAt(c1.mem, Wrap(c.vtor + 4 * exc));
    assert c1.regs == Vectored(HandlerRegs(c.regs, fp, exc), v);
    VectoredIs(c.regs, fp, exc, v);
  }

  lemma VectoredIs(g: Regs, fp: Word, exc: nat, v: Word)
    requires g.Valid() && fp % 8 == 0
    ensures Entered(g, Vectored(HandlerRegs(g, fp, exc), v), exc, fp, v)
  {
    hide Align4, Even, Regs.Valid;
    AlignedSame(fp);
    ThumbBit(v);
    hide Entered;
    var low := exc % 512;
    var h := Vectored(HandlerRegs(g, fp, exc), v);
    assert h == (if g.OnPsp() then g.(psp := fp) else g.(msp := fp))
                .(lr := ExcReturn(g), exc := low, t := v % 2 == 1, pc := Even(v));
    hide Vectored, HandlerRegs;
    EnteredIs(g, h, low, fp, v);
  }

  lemma EnteredIs(g: Regs, h: Regs, low: nat, fp: Word, v: Word)
    requires h == (if g.OnPsp() then g.(psp := fp) else g.(msp := fp))
                  .(lr := ExcReturn(g), exc := low, t := v % 2 == 1, pc := Even(v))
    requires v == Even(v) + (if v % 2 == 1 then 1 else 0)
    ensures forall exc: nat :: exc % 512 == low ==> Entered(g, h, exc, fp, v)
  {
    hide Even;
  }

  lemma ThumbBit(v: Word)
    ensures v == Even(v) + (if v % 2 == 1 then 1 else 0)
  {
  }

  /** Entry fails exactly when the frame does not fit into SRAM or the vector cannot
      be read, and then the processor locks up. */
  lemma EntryIff(c: Cpu, exc: nat, ra: Word)
    requires c.Valid()
    ensures var (sp, vector) := (c.regs.Sp(), (c.vtor + 4 * exc) % 0x1_0000_0000);
            Enter(c, exc, ra).1 == if sp >= 40 && InSram(sp - 32 - sp % 8, 32) && vector % 4 == 0 && Backed(vector, 4)
                                   then ExceptionTaken else Lockup
  {
    hide Enter, StoreWords, Frame, FramePtr, Backed, InSram, WordReadable;
    EntryStatus(c, exc, ra);
    SpAligned(c.regs);
    StoresIff(c.mem, FramePtr(c.regs.Sp()), Frame(c.regs, ra));
    FrameSpan(c.regs.Sp());
    ReadableWord(Wrap(c.vtor + 4 * exc));
  }

  lemma EntryStatus(c: Cpu, exc: nat, ra: Word)
    requires c.Valid()
    ensures Enter(c, exc, ra).1 == if StoreWords(c.mem, FramePtr(c.regs.Sp()), Frame(c.regs, ra)).1
                                      && WordReadable(Wrap(c.vtor + 4 * exc))
                                   then ExceptionTaken else Lockup
  {
    hide StoreWords, Frame, FramePtr, WordReadable, WordAt, HandlerRegs, Vectored;
  }

  lemma ReadableWord(a: nat)
    ensures WordReadable(a) <==> a % 4 == 0 && Backed(a, 4)
  {
    hide Backed;
  }

  lemma FrameIsAt(sp: Word)
    requires sp % 4 == 0 && InSram(FramePtr(sp), 32)
    ensures sp >= 40 && FramePtr(sp) == sp - 32 - sp % 8
  {
  }

  lemma FrameSpan(sp: Word)
    requires sp % 4 == 0
    ensures InSram(FramePtr(sp), 32) <==> sp >= 40 && InSram(sp - 32 - sp % 8, 32)
  {
    if sp >= 40 {
      assert FramePtr(sp) == sp - 32 - sp % 8;
    }
  }

  /** Storing succeeds exactly when the whole span lies in SRAM. */
  lemma {:induction false} StoresIff(m: Mem, a: Word, ws: seq<Word>)
    requires m.Valid() && a % 4 == 0 && ws != []
    ensures StoreWords(m, a, ws).1 <==> InSram(a, 4 * |ws|)
    decreases |ws|
  {
    if WordWritable(a) && |ws| > 1 {
      StoresIff(StoreWord(m, a, ws[0]), Wrap(a + 4), ws[1..]);
    }
  }

  // -------------------------------------------------------------------- return

  /** The eight words of a frame are mapped. */
  predicate FrameBacked(fp: Word) {
    forall k: nat :: k < 8 ==> WordBacked(fp, k)
  }

  /** A return code whose low four bits are not 1, 9 or 13 locks up and changes
      nothing; so does a frame that cannot be read. */
  lemma ReturnIff(c: Cpu, excReturn: Word, low: nat)
    requires c.Valid() && low == excReturn % 16
    ensures if low in {1, 9, 13} && FrameBacked(if low == 13 then c.regs.psp else c.regs.msp)
            then ExceptionReturn(c, excReturn).1 == StatusOk
            else ExceptionReturn(c, excReturn) == (c, Lockup)
  {
    hide Unstack, LoadWords, WordsReadable, FrameBacked;
    FrameBackedIff(if low == 13 then c.regs.psp else c.regs.msp);
  }

  lemma FrameBackedIff(fp: Word)
    requires fp % 4 == 0
    ensures WordsReadable(fp, 8) <==> FrameBacked(fp)
  {
    hide WordBacked, WordsReadable;
    ReadableIff(fp, 8);
  }

  /** Word `k` above `a` is mapped, addresses wrapping round. */
  predicate WordBacked(a: Word, k: nat) {
    Backed((a + 4 * k) % 0x1_0000_0000, 4)
  }

  lemma NextWord(a: Word, k: nat)
    ensures WordBacked(Wrap(a + 4), k) <==> WordBacked(a, k + 1)
  {
    hide Backed;
    assert (Wrap(a + 4) + 4 * k) % 0x1_0000_0000 == (a + 4 * (k + 1)) % 0x1_0000_0000;
  }

  lemma FirstWord(a: Word)
    requires a % 4 == 0
    ensures WordReadable(a) <==> WordBacked(a, 0)
    ensures Wrap(a + 4) % 4 == 0
  {
    hide Backed;
  }

  lemma {:induction false} ReadableIff(a: Word, n: nat)
    requires a % 4 == 0
    ensures WordsReadable(a, n) <==> forall k: nat :: k < n ==> WordBacked(a, k)
    decreases n
  {
    hide WordBacked, WordReadable, Wrap;
    if n > 0 {
      var b := Wrap(a + 4);
      FirstWord(a);
      ReadableIff(b, n - 1);
      forall k: nat
        ensures WordBacked(b, k) <==> WordBacked(a, k + 1)
      {
        NextWord(a, k);
      }
      assert forall k: nat :: 0 < k < n && WordBacked(b, k - 1) ==> WordBacked(a, k);
    }
  }

  /** The return code entry leaves is recognised by a branch in Handler mode. */
  lemma ReturnCodeRecognised(g: Regs)
    ensures IsExcReturn(ExcReturn(g)) && ExcReturn(g) % 16 in {1, 9, 13}
    ensures ExcReturn(g) % 16 == 13 <==> g.OnPsp()
  {
  }

  /** A branch to one of the last sixteen addresses is an exception return in Handler
      mode; any other goes to the even address, with bit 0 as the Thumb bit. */
  lemma BranchMeans(c: Cpu, target: Word)
    requires c.Valid()
    ensures if c.regs.exc != 0 && target >= 0xFFFF_FFF0 then
              var (c', st) := ExceptionReturn(c, target);
              BranchTo(c, target) == (c', Returned(st))
            else
              var (c', st) := BranchTo(c, target);
              && st == StackOk && c'.regs.pc % 2 == 0 && target == c'.regs.pc + (if c'.regs.t then 1 else 0)
              && c' == c.(regs := c.regs.(pc := c'.regs.pc, t := c'.regs.t))
  {
    hide ExceptionReturn, Even, Regs.Valid, Mem.Valid;
    ThumbBit(target);
  }

  /** Returning to Thread mode with sleep-on-exit set goes to sleep. */
  lemma SleepsOnExit(c: Cpu, excReturn: Word)
    requires c.Valid() && ExceptionReturn(c, excReturn).1 == StatusOk
    ensures var c' := ExceptionReturn(c, excReturn).0;
            && c'.mem == c.mem && c'.cycles == c.cycles && c'.pending == c.pending && c'.event == c.event
            && (c'.asleep <==> c.asleep || (c.sleepOnExit && c'.regs.exc == 0))
            && (c.sleepOnExit && c'.regs.exc == 0 ==> !c'.sleepIsWfe)
  {
    hide Unstack, LoadWords, WordsReadable;
  }

  // ----------------------------------------------------------------------- bus

  /** The bus, address by address: ROM, flash and SRAM can be read, SRAM alone can
      be written, and an access must be aligned to its size. */
  lemma BusMap(a: nat, n: nat)
    requires n in {1, 2, 4}
    ensures var sram := 0x2000_0000 <= a && a + n <= 0x2004_2000;
            var backed := a + n <= 0x4000 || (0x1000_0000 <= a && a + n <= 0x1020_0000) || sram;
            && (Backed(a, n) <==> backed) && (InSram(a, n) <==> sram)
            && (ReadStatus(a, n) == if a % n != 0 then MisalignedAccess else if backed then Ok else InvalidAddress)
            && (WriteStatus(a, n) ==
                if a % n != 0 then MisalignedAccess
                else if !backed then InvalidAddress else if sram then Ok else WriteToReadOnly)
  {
  }
}
