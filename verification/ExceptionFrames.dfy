/** One exception entry and its return: the frame holds the interrupted context
    and comes back intact, whatever the handler did elsewhere. */
module ExceptionFrames {
  import opened Words
  import opened WordLemmas
  import opened MemoryBus
  import opened RegisterModel
  import opened ExceptionModel

  lemma {:induction false} StoredSpan(m: Mem, a: Word, ws: seq<Word>)
    requires m.Valid() && ws != [] && StoreWords(m, a, ws).1
    ensures InSram(a, 4 * |ws|) && a % 4 == 0
    decreases |ws|
  {
    if |ws| > 1 {
      StoredSpan(StoreWord(m, a, ws[0]), Wrap(a + 4), ws[1..]);
    }
  }

  lemma {:induction false} StoreOutside(m: Mem, a: Word, ws: seq<Word>, x: nat)
    requires m.Valid() && StoreWords(m, a, ws).1
    requires x < a || a + 4 * |ws| <= x
    ensures ByteAt(StoreWords(m, a, ws).0, x) == ByteAt(m, x)
    decreases |ws|
  {
    if ws != [] {
      StoredSpan(m, a, ws);
      StoreByte(m, a, ws[0], 4, x);
      hide WordAt, ValueAt;
      StoreOutside(StoreWord(m, a, ws[0]), Wrap(a + 4), ws[1..], x);
    }
  }

  lemma {:induction false} LoadStored(m: Mem, a: Word, ws: seq<Word>)
    requires m.Valid() && StoreWords(m, a, ws).1
    ensures WordsReadable(a, |ws|) && LoadWords(StoreWords(m, a, ws).0, a, |ws|) == ws
    decreases |ws|
  {
    if ws != [] {
      StoredSpan(m, a, ws);
      var m1 := StoreWord(m, a, ws[0]);
      var m2 := StoreWords(m, a, ws).0;
      LoadStored(m1, Wrap(a + 4), ws[1..]);
      FirstWordStays(m, a, ws);
      hide ByteAt, ValueAt, WordAt;
      assert LoadWords(m2, a, |ws|) == [WordAt(m2, a)] + LoadWords(m2, Wrap(a + 4), |ws| - 1);
    }
  }

  lemma FirstWordStays(m: Mem, a: Word, ws: seq<Word>)
    requires m.Valid() && ws != [] && StoreWords(m, a, ws).1 && InSram(a, 4 * |ws|) && a % 4 == 0
    ensures WordReadable(a) && WordAt(StoreWords(m, a, ws).0, a) == ws[0]
  {
    hide ByteAt, ValueAt, WordAt, StoreWord;
    var m1 := StoreWord(m, a, ws[0]);
    var m2 := StoreWords(m, a, ws).0;
    WordReadBack(m, a, ws[0]);
    forall x | a <= x < a + 4
      ensures ByteAt(m1, x) == ByteAt(m2, x)
    {
      StoreOutside(m1, Wrap(a + 4), ws[1..], x);
    }
    AgreeWord(m1, m2, a);
  }

  lemma {:induction false} LoadAgree(m: Mem, m': Mem, a: Word, n: nat)
    requires m.Valid() && m'.Valid() && InSram(a, 4 * n) && Agree(m, m', a, 4 * n)
    ensures LoadWords(m, a, n) == LoadWords(m', a, n)
    decreases n
  {
    if n > 0 {
      AgreeWord(m, m', a);
      LoadAgree(m, m', Wrap(a + 4), n - 1);
    }
  }

  lemma FrameFits(sp: Word)
    requires sp % 4 == 0 && InSram(FramePtr(sp), FRAME_BYTES)
    ensures var f := FramePtr(sp);
            sp == f + FRAME_BYTES + (if Realigned(sp) then 4 else 0)
  {
    assert sp >= FRAME_BYTES;
  }

  /** A handler keeps the interrupted frame and the stack pointer it lies under. */
  ghost predicate KeepsFrame(c1: Cpu, c2: Cpu, fromPsp: bool)
    requires c1.Valid() && c2.Valid()
  {
    var fp := if fromPsp then c1.regs.psp else c1.regs.msp;
    && (if fromPsp then c2.regs.psp else c2.regs.msp) == fp
    && Agree(c1.mem, c2.mem, fp, FRAME_BYTES)
  }

  /** What an interrupted program can see of its context. */
  ghost predicate Resumed(c: Cpu, c3: Cpu, fromPsp: bool) {
    var (g, h) := (c.regs, c3.regs);
    && |g.r| == |h.r| == 13
    && (forall n :: n in {0, 1, 2, 3, 12} ==> h.r[n] == g.r[n])
    && h.lr == g.lr && h.pc == g.pc
    && h.n == g.n && h.z == g.z && h.c == g.c && h.v == g.v && h.t == g.t
    && h.exc == g.exc
    && (if fromPsp then h.psp == g.psp else h.msp == g.msp)
    && (!g.HandlerMode() ==> h.spsel == g.spsel)
  }

  /** Entry writes the frame and nothing else. */
  lemma EntryStores(c: Cpu, exc: nat, ra: Word)
    requires c.Valid() && Enter(c, exc, ra).1 == ExceptionTaken
    ensures var c1 := Enter(c, exc, ra).0;
            var fp := FramePtr(c.regs.Sp());
            && InSram(fp, FRAME_BYTES)
            && (if c.regs.OnPsp() then c1.regs.psp == fp && c1.regs.msp == c.regs.msp
                else c1.regs.msp == fp && c1.regs.psp == c.regs.psp)
            && LoadWords(c1.mem, fp, FRAME_WORDS) == Frame(c.regs, ra)
            && (forall x: nat :: x < fp || fp + FRAME_BYTES <= x ==> ByteAt(c1.mem, x) == ByteAt(c.mem, x))
            && c1.regs.lr == ExcReturn(c.regs) && c1.regs.exc == exc % 512
            && c1.regs.r == c.regs.r && c1.regs.spsel == c.regs.spsel && c1.regs.primask == c.regs.primask
            && c1.priority == c.priority
  {
    var fp := FramePtr(c.regs.Sp());
    var ws := Frame(c.regs, ra);
    StoredSpan(c.mem, fp, ws);
    LoadStored(c.mem, fp, ws);
    forall x: nat | x < fp || fp + FRAME_BYTES <= x
      ensures ByteAt(StoreWords(c.mem, fp, ws).0, x) == ByteAt(c.mem, x)
    {
      StoreOutside(c.mem, fp, ws, x);
    }
    hide StoreWords, LoadWords, Frame, ByteAt, WordAt, FramePtr;
    assert Align4(fp) == fp;
  }

  lemma SramReadable(a: Word, n: nat)
    requires a % 4 == 0 && InSram(a, 4 * n)
    ensures WordsReadable(a, n)
    decreases n
  {
    if n > 0 {
      SramReadable(Wrap(a + 4), n - 1);
    }
  }

  /** One preemption: a handler that keeps the frame and the stack pointer
      returns to a context indistinguishable from the interrupted one, with the
      exact stack pointer, realigned or not. */
  lemma EntryReturn(c: Cpu, exc: nat, c2: Cpu)
    requires c.Valid() && c2.Valid() && Enter(c, exc, c.regs.pc).1 == ExceptionTaken
    requires KeepsFrame(Enter(c, exc, c.regs.pc).0, c2, c.regs.OnPsp())
    ensures var (c3, st) := ExceptionReturn(c2, ExcReturn(c.regs));
            && st == StatusOk
            && Resumed(c, c3, c.regs.OnPsp())
            && (forall n :: 4 <= n < 12 ==> c3.regs.r[n] == c2.regs.r[n])
            && (if c.regs.OnPsp() then c3.regs.msp == c2.regs.msp else c3.regs.psp == c2.regs.psp)
            && (c.regs.HandlerMode() ==> c3.regs.spsel == c2.regs.spsel)
            && c3.mem == c2.mem && c3.priority == c2.priority
  {
    hide Enter, LoadWords, StoreWords, WordsReadable, ByteAt, FramePtr, Realigned, WithBit9, Xpsr, HasBit,
         Unstack, Frame, Resumed, InSram;
    var ra := c.regs.pc;
    var c1 := Enter(c, exc, ra).0;
    var fp := FramePtr(c.regs.Sp());
    EntryStores(c, exc, ra);
    LoadAgree(c1.mem, c2.mem, fp, FRAME_WORDS);
    SramReadable(fp, FRAME_WORDS);
    SpAligned(c.regs);
    FrameFits(c.regs.Sp());
    UnstackFrame(c, c2.regs, fp);
    var h := Unstack(c2.regs, Frame(c.regs, ra), fp, c.regs.OnPsp());
    ResumedRegs(c, c.(regs := h), ExceptionReturn(c2, ExcReturn(c.regs)).0);
  }

  lemma ResumedRegs(c: Cpu, a: Cpu, b: Cpu)
    requires Resumed(c, a, c.regs.OnPsp()) && b.regs == a.regs
    ensures Resumed(c, b, c.regs.OnPsp())
  {
  }

  lemma SpAligned(g: Regs)
    requires g.Valid()
    ensures g.Sp() % 4 == 0
  {
  }

  lemma UnstackFrame(c: Cpu, g2: Regs, fp: Word)
    requires c.Valid() && g2.Valid()
    requires c.regs.Sp() == fp + FRAME_BYTES + (if Realigned(c.regs.Sp()) then 4 else 0)
    ensures var h := Unstack(g2, Frame(c.regs, c.regs.pc), fp, c.regs.OnPsp());
            && Resumed(c, c.(regs := h), c.regs.OnPsp())
            && (forall n :: 4 <= n < 12 ==> h.r[n] == g2.r[n])
            && (if c.regs.OnPsp() then h.msp == g2.msp else h.psp == g2.psp)
            && (c.regs.HandlerMode() ==> h.spsel == g2.spsel)
  {
    hide Realigned, Unstack, Frame;
    FrameIs(c);
    UnstackIs(c.regs, g2, Frame(c.regs, c.regs.pc), fp);
  }

  lemma FrameIs(c: Cpu)
    requires c.Valid()
    ensures FrameOf(c.regs, Frame(c.regs, c.regs.pc))
  {
    hide WithBit9, Xpsr, Realigned;
  }

  /** `w` is the frame entry makes from the registers `g`. */
  ghost predicate FrameOf(g: Regs, w: seq<Word>)
    requires g.Valid()
  {
    && |w| == FRAME_WORDS && w[0] == g.r[0] && w[1] == g.r[1] && w[2] == g.r[2] && w[3] == g.r[3]
    && w[4] == g.r[12] && w[5] == g.lr && w[6] == g.pc && w[7] == WithBit9(Xpsr(g), Realigned(g.Sp()))
  }

  /** r0-r3 and r12 of `g`, r4-r11 of `g2`. */
  function Merge(g: Regs, g2: Regs): (r: seq<Word>)
    requires g.Valid() && g2.Valid()
    ensures |r| == 13
  {
    g.r[..4] + g2.r[4..12] + g.r[12..]
  }

  lemma PopIs(g: Regs, g2: Regs, w: seq<Word>, fp: Word)
    requires g.Valid() && g2.Valid() && FrameOf(g, w)
    requires g.Sp() == fp + FRAME_BYTES + (if Realigned(g.Sp()) then 4 else 0)
    ensures var p := PopFrame(g2, w, fp, g.OnPsp());
            && p.r == Merge(g, g2) && p.lr == g.lr && p.spsel == g2.spsel
            && p.msp == (if g.OnPsp() then g2.msp else g.msp)
            && p.psp == (if g.OnPsp() then g.psp else g2.psp)
  {
    hide WithBit9, Xpsr, HasBit, Realigned, SetXpsr;
    SpAligned(g);
    XpsrRoundTrip(g, g2, Realigned(g.Sp()));
    assert g2.r[0 := w[0]][1 := w[1]][2 := w[2]][3 := w[3]][12 := w[4]] == Merge(g, g2);
  }

  lemma StatusBack(g: Regs, p: Regs, w: seq<Word>)
    requires g.Valid() && FrameOf(g, w)
    ensures var q := SetXpsr(p, w[7]);
            && q.n == g.n && q.z == g.z && q.c == g.c && q.v == g.v && q.t == g.t && q.exc == g.exc
            && q.r == p.r && q.lr == p.lr && q.msp == p.msp && q.psp == p.psp && q.spsel == p.spsel
  {
    hide WithBit9, Xpsr, HasBit, Realigned, SetXpsr;
    XpsrRoundTrip(g, p, Realigned(g.Sp()));
  }

  lemma ResumeIs(g: Regs, q: Regs)
    requires g.Valid() && q.exc == g.exc
    ensures var h := Resume(q, g.pc, g.OnPsp());
            && h.pc == g.pc && h.spsel == (if g.HandlerMode() then q.spsel else g.spsel)
            && h.n == q.n && h.z == q.z && h.c == q.c && h.v == q.v && h.t == q.t && h.exc == q.exc
            && h.r == q.r && h.lr == q.lr && h.msp == q.msp && h.psp == q.psp
  {
  }

  /** The registers a return leaves: those of `g`, but r4-r11 and the other stack
      pointer come from the handler's `g2`. */
  lemma UnstackIs(g: Regs, g2: Regs, w: seq<Word>, fp: Word)
    requires g.Valid() && g2.Valid() && FrameOf(g, w)
    requires g.Sp() == fp + FRAME_BYTES + (if Realigned(g.Sp()) then 4 else 0)
    ensures var h := Unstack(g2, w, fp, g.OnPsp());
            && h.r == Merge(g, g2) && h.lr == g.lr && h.pc == g.pc
            && h.n == g.n && h.z == g.z && h.c == g.c && h.v == g.v && h.t == g.t && h.exc == g.exc
            && h.msp == (if g.OnPsp() then g2.msp else g.msp)
            && h.psp == (if g.OnPsp() then g.psp else g2.psp)
            && h.spsel == (if g.HandlerMode() then g2.spsel else g.spsel)
  {
    hide WithBit9, Xpsr, HasBit, Realigned, SetXpsr, PopFrame, Resume, Merge;
    var p := PopFrame(g2, w, fp, g.OnPsp());
    PopIs(g, g2, w, fp);
    StatusBack(g, p, w);
    ResumeIs(g, SetXpsr(p, w[7]));
  }
}
