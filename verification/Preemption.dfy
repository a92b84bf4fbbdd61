/** Whole nested runs of exceptions. */
module Preemption {
  // Every return restores the interrupted context, at any depth.
  import opened Words
  import opened MemoryBus
  import opened RegisterModel
  import opened ExceptionModel
  import opened ExceptionFrames

  /** A well-bracketed run: the code's own steps, each to any next state, with
      preemptions between them.  A preemption is an entry, the handler's run
      (itself preemptible) and the matching return. */
  datatype Run =
    | Done
    | Own(next: Cpu, rest: Run)
    | Preempt(exc: nat, handler: Run, rest: Run)

  predicate Sane(run: Run) {
    match run
    case Done => true
    case Own(next, rest) => next.Valid() && Sane(rest)
    case Preempt(exc, handler, rest) => Sane(handler) && Sane(rest)
  }

  /** The state where a run ends. */
  function Final(c: Cpu, run: Run): (d: Cpu)
    requires c.Valid() && Sane(run)
    ensures d.Valid()
    decreases run, 0
  {
    match run
    case Done => c
    case Own(next, rest) => Final(next, rest)
    case Preempt(exc, handler, rest) => Final(Return(c, exc, handler), rest)
  }

  /** The state after entry of `exc`. */
  function Entered(c: Cpu, exc: nat): (c1: Cpu)
    requires c.Valid()
    ensures c1.Valid()
  {
    Enter(c, exc, c.regs.pc).0
  }

  /** The state after a preemption's handler has returned. */
  function Return(c: Cpu, exc: nat, handler: Run): (c3: Cpu)
    requires c.Valid() && Sane(handler)
    ensures c3.Valid()
    decreases handler, 1
  {
    ExceptionReturn(Final(Entered(c, exc), handler), ExcReturn(c.regs)).0
  }

  // ------------------------------------------------------------- behaviour

  /** The memory set aside for the two stacks. */
  datatype Stacks = Stacks(mLo: nat, mHi: nat, pLo: nat, pHi: nat)

  /** The frames of the suspended contexts, and the lowest on each stack. */
  datatype Held = Held(frames: seq<nat>, mFloor: nat, pFloor: nat)

  predicate Disjoint(s: Stacks) { s.mHi <= s.pLo || s.pHi <= s.mLo }

  ghost predicate Tidy(s: Stacks, x: Held, c: Cpu) {
    && Disjoint(s)
    && c.regs.msp <= x.mFloor <= s.mHi
    && c.regs.psp <= x.pFloor <= s.pHi
    && (forall i :: 0 <= i < |x.frames| ==> Lies(s, x, x.frames[i]))
  }

  predicate Lies(s: Stacks, x: Held, f: nat) {
    || (x.mFloor <= f && s.mLo <= f && f + FRAME_BYTES <= s.mHi)
    || (x.pFloor <= f && s.pLo <= f && f + FRAME_BYTES <= s.pHi)
  }

  ghost predicate KeepsFrames(m: Mem, m': Mem, x: Held)
    requires m.Valid() && m'.Valid()
  {
    forall i :: 0 <= i < |x.frames| ==> Agree(m, m', x.frames[i], FRAME_BYTES)
  }

  function Hold(c: Cpu, x: Held): Held {
    var fp := FramePtr(c.regs.Sp());
    if c.regs.OnPsp() then x.(frames := x.frames + [fp], pFloor := fp)
    else x.(frames := x.frames + [fp], mFloor := fp)
  }

  /** What is asked of software.  A step neither leaves its exception, nor raises
      a stack pointer over a suspended frame, nor writes into one; stacks do not
      overflow; and a handler ends with r4-r11 and the stack pointers it began with. */
  ghost predicate Behaves(s: Stacks, x: Held, c: Cpu, run: Run)
    requires c.Valid() && Sane(run)
    decreases run
  {
    match run
    case Done => true
    case Own(next, rest) =>
      && next.regs.exc == c.regs.exc
      && next.regs.msp <= x.mFloor && next.regs.psp <= x.pFloor
      && KeepsFrames(c.mem, next.mem, x)
      && Behaves(s, x, next, rest)
    case Preempt(exc, handler, rest) =>
      var c1 := Entered(c, exc);
      var c2 := Final(c1, handler);
      && 0 < exc < 512
      && Enter(c, exc, c.regs.pc).1 == ExceptionTaken
      && (if c.regs.OnPsp() then s.pLo else s.mLo) <= FramePtr(c.regs.Sp())
      && Behaves(s, Hold(c, x), c1, handler)
      && c2.regs.r[4..12] == c1.regs.r[4..12]
      && c2.regs.msp == c1.regs.msp && c2.regs.psp == c1.regs.psp
      && Behaves(s, x, Return(c, exc, handler), rest)
  }

  /** The two states differ in nothing that the interrupted code can see of its
      registers, modes and stacks. */
  ghost predicate SameContext(c: Cpu, c3: Cpu) {
    && Resumed(c, c3, c.regs.OnPsp())
    && c3.regs.r == c.regs.r
    && c3.regs.msp == c.regs.msp && c3.regs.psp == c.regs.psp
  }

  /** Every preemption of the run, at any depth, resumes the context it suspended. */
  ghost predicate AllResume(c: Cpu, run: Run)
    requires c.Valid() && Sane(run)
    decreases run
  {
    match run
    case Done => true
    case Own(next, rest) => AllResume(next, rest)
    case Preempt(exc, handler, rest) =>
      var c1 := Entered(c, exc);
      && AllResume(c1, handler)
      && ExceptionReturn(Final(c1, handler), ExcReturn(c.regs)).1 == StatusOk
      && SameContext(c, Return(c, exc, handler))
      && AllResume(Return(c, exc, handler), rest)
  }

  // ----------------------------------------------------------------- proofs

  lemma AgreeTrans(a: Mem, b: Mem, c: Mem, x: Held)
    requires a.Valid() && b.Valid() && c.Valid() && KeepsFrames(a, b, x) && KeepsFrames(b, c, x)
    ensures KeepsFrames(a, c, x)
  {
    hide ByteAt;
  }

  /** The new frame lies in its stack's memory, below the suspended frames. */
  lemma NewFrameBelow(s: Stacks, x: Held, c: Cpu, exc: nat)
    requires c.Valid() && Tidy(s, x, c) && Enter(c, exc, c.regs.pc).1 == ExceptionTaken
    requires (if c.regs.OnPsp() then s.pLo else s.mLo) <= FramePtr(c.regs.Sp())
    ensures var fp := FramePtr(c.regs.Sp());
            if c.regs.OnPsp() then s.pLo <= fp && fp + FRAME_BYTES <= x.pFloor <= s.pHi
            else s.mLo <= fp && fp + FRAME_BYTES <= x.mFloor <= s.mHi
  {
    EntryStores(c, exc, c.regs.pc);
    SpAligned(c.regs);
    FrameFits(c.regs.Sp());
    hide Enter, Lies, LoadWords, ByteAt, Frame, FramePtr, Realigned, InSram;
  }

  lemma ApartFromNew(s: Stacks, x: Held, c: Cpu, fp: nat, f: nat)
    requires Disjoint(s) && Lies(s, x, f)
    requires if c.regs.OnPsp() then s.pLo <= fp && fp + FRAME_BYTES <= x.pFloor <= s.pHi
             else s.mLo <= fp && fp + FRAME_BYTES <= x.mFloor <= s.mHi
    ensures f + FRAME_BYTES <= fp || fp + FRAME_BYTES <= f
  {
  }

  lemma EntryKeepsFrames(s: Stacks, x: Held, c: Cpu, exc: nat)
    requires c.Valid() && Tidy(s, x, c) && Enter(c, exc, c.regs.pc).1 == ExceptionTaken
    requires (if c.regs.OnPsp() then s.pLo else s.mLo) <= FramePtr(c.regs.Sp())
    ensures KeepsFrames(c.mem, Entered(c, exc).mem, x)
  {
    hide Enter, ByteAt, LoadWords, Frame, FramePtr, Lies, InSram;
    NewFrameBelow(s, x, c, exc);
    EntryStores(c, exc, c.regs.pc);
    forall i | 0 <= i < |x.frames|
      ensures Agree(c.mem, Entered(c, exc).mem, x.frames[i], FRAME_BYTES)
    {
      ApartFromNew(s, x, c, FramePtr(c.regs.Sp()), x.frames[i]);
    }
  }

  /** A new frame joins the suspended ones, and stacking spares the others. */
  lemma EntryTidy(s: Stacks, x: Held, c: Cpu, exc: nat)
    requires c.Valid() && Tidy(s, x, c) && 0 < exc < 512
    requires Enter(c, exc, c.regs.pc).1 == ExceptionTaken
    requires (if c.regs.OnPsp() then s.pLo else s.mLo) <= FramePtr(c.regs.Sp())
    ensures var c1 := Entered(c, exc);
            && Tidy(s, Hold(c, x), c1)
            && KeepsFrames(c.mem, c1.mem, x)
            && c1.regs.exc == exc && c1.regs.r == c.regs.r
            && (if c.regs.OnPsp() then c1.regs.msp == c.regs.msp else c1.regs.psp == c.regs.psp)
            && c1.priority == c.priority
  {
    hide Enter, ByteAt, LoadWords, Frame, FramePtr, InSram, KeepsFrames;
    EntryKeepsFrames(s, x, c, exc);
    NewFrameBelow(s, x, c, exc);
    EntryStores(c, exc, c.regs.pc);
    forall i | 0 <= i < |Hold(c, x).frames|
      ensures Lies(s, Hold(c, x), Hold(c, x).frames[i])
    {
      assert i < |x.frames| ==> Lies(s, x, x.frames[i]);
    }
  }

  /** What a handler has to keep of the state it was entered in. */
  ghost predicate HandlerKeeps(x: Held, c: Cpu, c1: Cpu, c2: Cpu)
    requires c1.Valid() && c2.Valid()
  {
    && KeepsFrames(c1.mem, c2.mem, Hold(c, x))
    && c2.regs.r[4..12] == c1.regs.r[4..12]
    && c2.regs.msp == c1.regs.msp && c2.regs.psp == c1.regs.psp
  }

  /** The state after the return, piece by piece. */
  lemma ReturnState(x: Held, c: Cpu, exc: nat, handler: Run)
    requires c.Valid() && Sane(handler) && Enter(c, exc, c.regs.pc).1 == ExceptionTaken
    requires HandlerKeeps(x, c, Entered(c, exc), Final(Entered(c, exc), handler))
    ensures ExceptionReturn(Final(Entered(c, exc), handler), ExcReturn(c.regs)).1 == StatusOk
    ensures Resumed(c, Return(c, exc, handler), c.regs.OnPsp())
    ensures Return(c, exc, handler).regs.r == c.regs.r
    ensures Return(c, exc, handler).regs.msp == c.regs.msp && Return(c, exc, handler).regs.psp == c.regs.psp
    ensures Return(c, exc, handler).mem == Final(Entered(c, exc), handler).mem
  {
    hide Final, Enter, ExceptionReturn, ByteAt, LoadWords, Frame, FramePtr, InSram, ExcReturn, KeepsFrames, Resumed;
    var (c1, c2, c3) := (Entered(c, exc), Final(Entered(c, exc), handler), Return(c, exc, handler));
    EntryStores(c, exc, c.regs.pc);
    NewFrameKept(x, c, c1, c2);
    EntryReturn(c, exc, c2);
    RegistersBack(c, c1, c2, c3);
    ResumedSp(c, c3);
  }

  lemma ResumedSp(c: Cpu, c3: Cpu)
    requires Resumed(c, c3, c.regs.OnPsp())
    ensures if c.regs.OnPsp() then c3.regs.psp == c.regs.psp else c3.regs.msp == c.regs.msp
  {
  }

  lemma NewFrameKept(x: Held, c: Cpu, c1: Cpu, c2: Cpu)
    requires c1.Valid() && c2.Valid() && HandlerKeeps(x, c, c1, c2)
    requires var fp := FramePtr(c.regs.Sp());
             if c.regs.OnPsp() then c1.regs.psp == fp else c1.regs.msp == fp
    ensures KeepsFrame(c1, c2, c.regs.OnPsp())
  {
    hide Agree, FramePtr;
    assert Hold(c, x).frames[|x.frames|] == FramePtr(c.regs.Sp());
  }

  /** One preemption, given what its handler kept. */
  lemma ReturnResumes(s: Stacks, x: Held, c: Cpu, exc: nat, handler: Run)
    requires c.Valid() && Sane(handler) && Tidy(s, x, c) && 0 < exc < 512
    requires Enter(c, exc, c.regs.pc).1 == ExceptionTaken
    requires (if c.regs.OnPsp() then s.pLo else s.mLo) <= FramePtr(c.regs.Sp())
    requires HandlerKeeps(x, c, Entered(c, exc), Final(Entered(c, exc), handler))
    ensures var c3 := Return(c, exc, handler);
            && ExceptionReturn(Final(Entered(c, exc), handler), ExcReturn(c.regs)).1 == StatusOk
            && SameContext(c, c3)
            && KeepsFrames(c.mem, c3.mem, x)
            && Tidy(s, x, c3)
  {
    hide Final, Enter, ExceptionReturn, ByteAt, FramePtr, ExcReturn, KeepsFrames, Resumed, Return, Hold, Lies;
    var (c1, c2) := (Entered(c, exc), Final(Entered(c, exc), handler));
    EntryKeepsFrames(s, x, c, exc);
    OldFramesKept(c, x, c1.mem, c2.mem);
    AgreeTrans(c.mem, c1.mem, c2.mem, x);
    ReturnState(x, c, exc, handler);
  }

  lemma OldFramesKept(c: Cpu, x: Held, m: Mem, m': Mem)
    requires m.Valid() && m'.Valid() && KeepsFrames(m, m', Hold(c, x))
    ensures KeepsFrames(m, m', x)
  {
    hide Agree, FramePtr;
    forall i | 0 <= i < |x.frames|
      ensures Agree(m, m', x.frames[i], FRAME_BYTES)
    {
      assert Hold(c, x).frames[i] == x.frames[i];
    }
  }

  lemma RegistersBack(c: Cpu, c1: Cpu, c2: Cpu, c3: Cpu)
    requires c.Valid() && c2.Valid() && c1.regs.r == c.regs.r && c2.regs.r[4..12] == c1.regs.r[4..12]
    requires Resumed(c, c3, c.regs.OnPsp())
    requires forall n :: 4 <= n < 12 ==> c3.regs.r[n] == c2.regs.r[n]
    ensures c3.regs.r == c.regs.r
  {
    forall n | 0 <= n < 13
      ensures c3.regs.r[n] == c.regs.r[n]
    {
      if 4 <= n < 12 {
        assert c2.regs.r[4..12][n - 4] == c1.regs.r[4..12][n - 4];
      }
    }
  }

  /** Nested preemption is transparent: in every well-behaved run, to any depth,
      from Thread mode on either stack or from a handler, each return restores
      all registers, flags, IPSR, stack selection and the exact stack pointers,
      and the run as a whole leaves every suspended frame alone. */
  lemma {:induction false} PreemptionTransparent(s: Stacks, x: Held, c: Cpu, run: Run)
    requires c.Valid() && Sane(run) && Tidy(s, x, c) && Behaves(s, x, c, run)
    ensures AllResume(c, run)
    ensures var d := Final(c, run);
            KeepsFrames(c.mem, d.mem, x) && d.regs.exc == c.regs.exc && Tidy(s, x, d)
    decreases run
  {
    hide Enter, ExceptionReturn, Agree, FramePtr, Hold, Lies;
    match run
    case Done =>
      SelfAgree(c.mem, x);
    case Own(next, rest) =>
      PreemptionTransparent(s, x, next, rest);
      AgreeTrans(c.mem, next.mem, Final(next, rest).mem, x);
    case Preempt(exc, handler, rest) =>
      var c1 := Entered(c, exc);
      EntryTidy(s, x, c, exc);
      PreemptionTransparent(s, Hold(c, x), c1, handler);
      ReturnResumes(s, x, c, exc, handler);
      var c3 := Return(c, exc, handler);
      PreemptionTransparent(s, x, c3, rest);
      AgreeTrans(c.mem, c3.mem, Final(c3, rest).mem, x);
  }

  lemma SelfAgree(m: Mem, x: Held)
    requires m.Valid()
    ensures KeepsFrames(m, m, x)
  {
  }
}
