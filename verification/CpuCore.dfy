/** The CPU core: exception selection, entry and return, PUSH and POP, as methods
    that change registers and memory in place. */
module CpuCore {
  import opened Words
  import opened MemoryBus
  import opened MemoryObject
  import opened RegisterModel
  import opened ExceptionModel
  import opened CallStack
  import opened CpuObject
  import Alu

  class CpuDevice {
    const regs: RegisterFile
    const mem: Memory
    var vtor: Word
    var pending: set<nat>
    var irqEnabled: set<nat>
    var priority: seq<Byte>
    var cycles: nat
    var asleep: bool
    var sleepIsWfe: bool
    var event: bool
    var sleepOnExit: bool

    ghost predicate Valid()
      reads this, regs, regs.r, mem
    {
      && regs.Shape() && regs.View().Valid() && mem.Valid()
      && |priority| == MAX_EXCEPTION + 1
      && regs.r as object != mem.sram && regs.r as object != mem.rom && regs.r as object != mem.flash
    }

    ghost function View(): (c: Cpu)
      requires Valid()
      reads this, regs, regs.r, mem, mem.rom, mem.flash, mem.sram
      ensures c.Valid()
    {
      Cpu(regs.View(), mem.View(), vtor, pending, irqEnabled, priority,
          cycles, asleep, sleepIsWfe, event, sleepOnExit)
    }

    constructor (regs: RegisterFile, mem: Memory)
      requires regs.Shape() && regs.View().Valid() && mem.Valid()
      requires regs.r as object != mem.sram && regs.r as object != mem.rom && regs.r as object != mem.flash
      ensures Valid() && this.regs == regs && this.mem == mem && pending == {} && irqEnabled == {} && cycles == 0
    {
      this.regs, this.mem := regs, mem;
      vtor, pending, irqEnabled, cycles := 0, {}, {}, 0;
      priority := seq(MAX_EXCEPTION + 1, _ => 0);
      asleep, sleepIsWfe, event, sleepOnExit := false, false, false, false;
    }

    method CurrentPriority() returns (p: int)
      requires Valid()
      ensures p == ExceptionModel.CurrentPriority(View())
    {
      p := NO_PRIORITY;
      if regs.exc != 0 {
        p := PriorityOf(priority, regs.exc);
      }
      if regs.primask && p > 0 {
        p := 0;
      }
    }

    /** Scan exceptions 2 .. 41 for the most urgent that may preempt. */
    method HighestPending() returns (best: nat)
      requires Valid()
      ensures best == ExceptionModel.HighestPending(View())
    {
      hide PriorityOf;
      best := 0;
      var bestPrio := CurrentPriority();
      ghost var c := View();
      assert Scan(c, 2) == (bestPrio, 0);
      for e := 2 to MAX_EXCEPTION + 1
        invariant Scan(c, e) == (bestPrio, best)
      {
        if e !in pending {
          continue;
        }
        if e >= EXTERNAL0 && e - EXTERNAL0 !in irqEnabled {
          continue;
        }
        var p := PriorityOf(priority, e);
        if regs.primask && p >= 0 {
          continue;
        }
        if p < bestPrio {
          bestPrio := p;
          best := e;
        }
      }
    }

    // ---------------------------------------------------------------- frames

    /** Store words upwards from `a`; stops at the first the bus refuses. */
    method StoreUp(a: Word, ws: seq<Word>) returns (ok: bool)
      requires mem.Valid()
      modifies mem.sram
      ensures (mem.View(), ok) == StoreWords(old(mem.View()), a, ws)
    {
      hide WordWritable, StoreWord;
      ghost var m0 := mem.View();
      var at := a;
      for i := 0 to |ws|
        invariant StoreWords(mem.View(), at, ws[i..]) == StoreWords(m0, a, ws)
      {
        assert ws[i..][1..] == ws[i + 1..];
        ghost var m := mem.View();
        var st := mem.WriteScalar(at, ws[i], 4);
        WriteIsStore(m, at, ws[i]);
        if st != Ok {
          return false;
        }
        at := Wrap(at + 4);
      }
      ok := true;
    }

    /** Load `n` words upwards from `a`. */
    method LoadUp(a: Word, n: nat) returns (ok: bool, ws: seq<Word>)
      requires mem.Valid()
      ensures ok == WordsReadable(a, n)
      ensures ok ==> ws == LoadWords(mem.View(), a, n)
    {
      hide WordReadable, WordAt;
      ws := [];
      var at := a;
      ghost var m := mem.View();
      for i := 0 to n
        invariant WordsReadable(at, n - i) == WordsReadable(a, n)
        invariant ws + LoadWords(m, at, n - i) == LoadWords(m, a, n)
      {
        var v, st := mem.ReadScalar(at, 4);
        ReadIsWord(m, at);
        if st != Ok {
          return false, ws;
        }
        assert ws + LoadWords(m, at, n - i) == (ws + [v]) + LoadWords(m, Wrap(at + 4), n - i - 1);
        ws := ws + [v];
        at := Wrap(at + 4);
      }
      ok := true;
    }

    /** Exception entry: stack the frame, switch stacks and mode, fetch the vector. */
    method TakeException(exc: nat, returnAddress: Word) returns (status: ExecStatus)
      requires Valid()
      modifies this`event, this`asleep, this`cycles, regs, mem.sram
      ensures Valid() && (View(), status) == ExceptionModel.TakeException(old(View()), exc, returnAddress)
    {
      var current := CurrentPriority();
      if exc == HARD_FAULT && current <= -1 {
        return Lockup;
      }
      status := EnterException(exc, returnAddress);
    }

    method EnterException(exc: nat, returnAddress: Word) returns (status: ExecStatus)
      requires Valid()
      modifies this`event, this`asleep, this`cycles, regs, mem.sram
      ensures Valid() && (View(), status) == Enter(old(View()), exc, returnAddress)
    {
      hide StoreWords, Frame, FramePtr, WordAt, WordReadable, HandlerRegs, Vectored, Regs.Valid;
      event := true;
      asleep := false;
      var fp, ws := BuildFrame(returnAddress);
      var stacked := StoreUp(fp, ws);
      ghost var e := Enter(old(View()), exc, returnAddress);
      assert mem.View() == e.0.mem;
      if !stacked {
        return Lockup;
      }
      SwitchToHandler(exc, fp);
      var vectored := FetchVector(exc);
      assert regs.View() == e.0.regs;
      if !vectored {
        return Lockup;
      }
      cycles := cycles + ENTRY_CYCLES;
      status := ExceptionTaken;
    }

    method FetchVector(exc: nat) returns (ok: bool)
      requires Valid()
      modifies regs`t, regs`pc
      ensures Valid()
      ensures var vector := Wrap(vtor + 4 * exc);
              var v := WordAt(mem.View(), vector);
              && ok == WordReadable(vector)
              && regs.View() == if ok then Vectored(old(regs.View()), v) else old(regs.View())
    {
      hide WordAt, WordReadable, ValueAt, Vectored, Regs.Valid;
      var vector := Wrap(vtor + 4 * exc);
      var v, st := mem.ReadScalar(vector, 4);
      ReadIsWord(mem.View(), vector);
      ok := st == Ok;
      if ok {
        VectorTo(v);
      }
    }

    method BuildFrame(returnAddress: Word) returns (fp: Word, ws: seq<Word>)
      requires Valid()
      ensures fp == FramePtr(regs.View().Sp()) && ws == Frame(regs.View(), returnAddress)
    {
      hide Xpsr, WithBit9;
      var sp0 := regs.Sp();
      var x := regs.ReadXpsr();
      fp := FramePtr(sp0);
      ws := [regs.r[0], regs.r[1], regs.r[2], regs.r[3], regs.r[12], regs.lr, returnAddress,
             WithBit9(x, sp0 / 4 % 2 == 1)];
    }

    method SwitchToHandler(exc: nat, fp: Word)
      requires Valid()
      modifies regs
      ensures Valid()
      ensures regs.View() == HandlerRegs(old(regs.View()), fp, exc)
    {
      var handler := regs.exc != 0;
      regs.WriteSp(fp);
      if handler {
        regs.lr := RETURN_HANDLER_MSP;
      } else if regs.spsel {
        regs.lr := RETURN_THREAD_PSP;
      } else {
        regs.lr := RETURN_THREAD_MSP;
      }
      regs.exc := exc % 512;
    }

    /** Between instructions: take the most urgent pending exception, if any. */
    method TakePending() returns (taken: nat, status: ExecStatus)
      requires Valid()
      modifies this`pending, this`event, this`asleep, this`cycles, regs, mem.sram
      ensures Valid() && taken == ExceptionModel.HighestPending(old(View()))
      ensures taken == 0 ==> View() == old(View()) && status == StatusOk
      ensures taken != 0 ==>
                var c := old(View()).(pending := old(pending) - {taken});
                (View(), status) == ExceptionModel.TakeException(c, taken, c.regs.pc)
    {
      hide ExceptionModel.HighestPending, ExceptionModel.TakeException;
      taken := HighestPending();
      if taken == 0 {
        return 0, StatusOk;
      }
      pending := pending - {taken};
      status := TakeException(taken, regs.pc);
    }

    /** Exception return: unstack the frame and resume. */
    method ExceptionReturn(excReturn: Word) returns (status: ExecStatus)
      requires Valid()
      modifies this`asleep, this`sleepIsWfe, regs, regs.r
      ensures Valid() && (View(), status) == ExceptionModel.ExceptionReturn(old(View()), excReturn)
    {
      hide LoadWords, WordsReadable, Unstack;
      var kind := excReturn % 16;
      if kind !in {1, 9, 13} {
        return Lockup;
      }
      var fromPsp := kind == 13;
      var fp := if fromPsp then regs.psp else regs.msp;
      var ok, w := LoadUp(fp, FRAME_WORDS);
      if !ok {
        return Lockup;
      }
      RestoreFrame(w, fp, fromPsp);
      if sleepOnExit && regs.exc == 0 {
        asleep := true;
        sleepIsWfe := false;
      }
      status := StatusOk;
    }

    method RestoreFrame(w: seq<Word>, fp: Word, fromPsp: bool)
      requires Valid() && |w| == FRAME_WORDS
      modifies regs, regs.r
      ensures Valid() && regs.View() == Unstack(old(regs.View()), w, fp, fromPsp)
    {
      hide SetXpsr, PopFrame, Resume, Regs.Valid;
      PopRegisters(w, fp, fromPsp);
      regs.WriteXpsr(w[7]);
      ResumeAt(w[6], fromPsp);
      assert regs.View() == Unstack(old(regs.View()), w, fp, fromPsp);
    }

    method ResumeAt(pc: Word, fromPsp: bool)
      modifies regs`spsel, regs`pc
      ensures regs.View() == Resume(old(regs.View()), pc, fromPsp)
    {
      if regs.exc == 0 {
        regs.spsel := fromPsp;
      }
      regs.pc := pc - pc % 2;
    }

    method PopRegisters(w: seq<Word>, fp: Word, fromPsp: bool)
      requires Valid() && |w| == FRAME_WORDS
      modifies regs`lr, regs`msp, regs`psp, regs.r
      ensures Valid() && regs.View() == PopFrame(old(regs.View()), w, fp, fromPsp)
    {
      hide HasBit;
      regs.r[0], regs.r[1], regs.r[2], regs.r[3] := w[0], w[1], w[2], w[3];
      regs.r[12] := w[4];
      regs.lr := w[5];
      var sp := Align4(Wrap(fp + FRAME_BYTES + if HasBit(w[7], BIT9) then 4 else 0));
      if fromPsp {
        regs.psp := sp;
      } else {
        regs.msp := sp;
      }
    }

    // ------------------------------------------------------------ arithmetic

    /** ADDS, ADCS, SUBS, SBCS or CMP on low registers. */
    method Arithmetic(op: Alu.ArithOp, rd: nat, rn: nat, rm: nat)
      requires Valid() && rd < 8 && rn < 8 && rm < 8
      modifies regs`n, regs`z, regs`c, regs`v, regs.r
      ensures regs.View() == Alu.Execute(old(regs.View()), op, rd, rn, rm) && Valid()
    {
      hide Alu.AddWithCarry, Alu.SetFlags;
      var (x, y) := (regs.r[rn], regs.r[rm]);
      var result :=
        match op
        case ADDS => Alu.AddWithCarry(x, y, false)
        case ADCS => Alu.AddWithCarry(x, y, regs.c)
        case SUBS => Alu.AddWithCarry(x, Not(y), true)
        case SBCS => Alu.AddWithCarry(x, Not(y), regs.c)
        case CMP => Alu.AddWithCarry(x, Not(y), true);
      if !op.CMP? {
        regs.r[rd] := result.value;
      }
      SetNzcv(result);
    }

    method SetNzcv(result: Alu.AddResult)
      modifies regs`n, regs`z, regs`c, regs`v
      ensures regs.View() == Alu.SetFlags(old(regs.View()), result)
    {
      regs.n := Alu.Negative(result.value);
      regs.z := result.value == 0;
      regs.c := result.carry;
      regs.v := result.overflow;
    }

    // ------------------------------------------------------------ push / pop

    method CountBits(mask: set<nat>) returns (n: nat)
      ensures n == |Listed(mask, 0)|
    {
      hide RegList;
      n := 0;
      for i := 0 to 16
        invariant n + |Listed(mask, i)| == |Listed(mask, 0)|
      {
        ListedStep(mask, i);
        if i in mask {
          n := n + 1;
        }
      }
    }

    /** PUSH: store the listed registers below the stack pointer. */
    method Push(mask: set<nat>) returns (status: StackStatus)
      requires Valid() && 15 !in mask
      modifies regs`msp, regs`psp, mem.sram
      ensures Valid() && (View(), status) == CallStack.Push(old(View()), Listed(mask, 0))
    {
      hide StoreWords, SetSp, Values, Listed, RegList, Regs.Valid, Mem.Valid;
      var n := CountBits(mask);
      if n == 0 {
        return Undefined;
      }
      var sp := regs.Sp();
      var a := Wrap(sp - 4 * n);
      var stored := StoreListed(mask, a);
      if !stored {
        return MemFault;
      }
      regs.WriteSp(a);
      status := StackOk;
    }

    method StoreListed(mask: set<nat>, a: Word) returns (ok: bool)
      requires Valid() && 15 !in mask
      modifies mem.sram
      ensures Valid() && (mem.View(), ok) == StoreWords(old(mem.View()), a, Values(regs.View(), Listed(mask, 0)))
    {
      hide WordWritable, StoreWord, Get, StoreWords, Values, Listed, RegList, Regs.Valid, Mem.Valid;
      ghost var m0 := mem.View();
      ghost var g := regs.View();
      var at := a;
      for i := 0 to 16
        invariant Valid() && regs.View() == g
        invariant StoreWords(mem.View(), at, Values(g, Listed(mask, i)))
            == StoreWords(m0, a, Values(g, Listed(mask, 0)))
      {
        ListedStep(mask, i);
        if i !in mask {
          continue;
        }
        var v := regs.Read(i);
        ghost var m := mem.View();
        StoreStep(m, at, g, i, Listed(mask, i + 1));
        var st := mem.WriteScalar(at, v, 4);
        WriteIsStore(m, at, v);
        if st != Ok {
          return false;
        }
        at := Wrap(at + 4);
      }
      StoreNone(mem.View(), at, g, mask);
      ok := true;
    }

    /** POP: load the listed registers, free the stack and, with PC, branch. */
    method Pop(mask: set<nat>) returns (status: StackStatus)
      requires Valid() && 13 !in mask && 14 !in mask
      modifies this`asleep, this`sleepIsWfe, regs, regs.r
      ensures Valid() && (View(), status) == CallStack.Pop(old(View()), Listed(mask, 0))
    {
      hide LoadRegs, SetSp, WordAt, WordReadable, BranchTo, ValueAt, Listed, RegList, Regs.Valid, Mem.Valid;
      var n := CountBits(mask);
      if n == 0 {
        return Undefined;
      }
      ListedPc(mask, 0);
      var sp := regs.Sp();
      var loaded := LoadListed(mask - {15}, sp);
      if !loaded {
        return MemFault;
      }
      if 15 !in mask {
        regs.WriteSp(Wrap(sp + 4 * n));
        return StackOk;
      }
      var last := Wrap(sp + 4 * (n - 1));
      var target, st := mem.ReadScalar(last, 4);
      ReadIsWord(mem.View(), last);
      if st != Ok {
        return MemFault;
      }
      regs.WriteSp(Wrap(sp + 4 * n));
      status := Branch(target);
    }

    method LoadListed(mask: set<nat>, a: Word) returns (ok: bool)
      requires Valid() && 13 !in mask && 14 !in mask && 15 !in mask
      modifies regs, regs.r
      ensures Valid() && (regs.View(), ok) == LoadRegs(old(regs.View()), mem.View(), Listed(mask, 0), a)
    {
      hide WordReadable, WordAt, ValueAt, Set, LoadRegs, Listed, RegList, Regs.Valid, Mem.Valid;
      ghost var g := regs.View();
      ghost var m := mem.View();
      var at := a;
      for i := 0 to 16
        invariant Valid() && mem.View() == m
        invariant LoadRegs(regs.View(), m, Listed(mask, i), at) == LoadRegs(g, m, Listed(mask, 0), a)
      {
        ListedStep(mask, i);
        if i !in mask {
          continue;
        }
        LoadStep(regs.View(), m, i, Listed(mask, i + 1), at);
        var v, st := mem.ReadScalar(at, 4);
        ReadIsWord(m, at);
        if st != Ok {
          return false;
        }
        regs.Write(i, v);
        at := Wrap(at + 4);
      }
      LoadNone(regs.View(), m, at, mask);
      ok := true;
    }

    /** LoadWritePC: branch, or in Handler mode return from an exception. */
    method Branch(target: Word) returns (status: StackStatus)
      requires Valid()
      modifies this`asleep, this`sleepIsWfe, regs, regs.r
      ensures Valid() && (View(), status) == BranchTo(old(View()), target)
    {
      hide ExceptionModel.ExceptionReturn, Regs.Valid, Vectored;
      if regs.exc != 0 && IsExcReturn(target) {
        var st := ExceptionReturn(target);
        return Returned(st);
      }
      VectorTo(target);
      status := StackOk;
    }

    method VectorTo(v: Word)
      modifies regs`t, regs`pc
      ensures regs.View() == Vectored(old(regs.View()), v)
    {
      regs.t := v % 2 == 1;
      regs.pc := v - v % 2;
    }
  }

  lemma ListedStep(mask: set<nat>, i: nat)
    requires i < 16
    ensures RegList(Listed(mask, i)) && RegList(Listed(mask, i + 1))
    ensures Listed(mask, i) == (if i in mask then [i] else []) + Listed(mask, i + 1)
    ensures i in mask ==> RegList([i] + Listed(mask, i + 1))
    ensures i !in mask ==> Listed(mask, i) == Listed(mask, i + 1)
  {
    assert [] + Listed(mask, i + 1) == Listed(mask, i + 1);
  }

  lemma StoreStep(m: Mem, a: Word, g: Regs, i: nat, rest: seq<nat>)
    requires m.Valid() && g.Valid() && RegList([i] + rest) && RegList(rest) && i < 16
    ensures StoreWords(m, a, Values(g, [i] + rest)) ==
            if WordWritable(a) then StoreWords(StoreWord(m, a, Get(g, i)), Wrap(a + 4), Values(g, rest)) else (m, false)
  {
    hide WordWritable, StoreWord, Get, Mem.Valid, Regs.Valid;
    assert ([i] + rest)[1..] == rest;
    var ws := Values(g, [i] + rest);
    assert ws == [Get(g, i)] + Values(g, rest) && ws[1..] == Values(g, rest);
  }

  lemma StoreNone(m: Mem, a: Word, g: Regs, mask: set<nat>)
    requires m.Valid() && g.Valid()
    ensures StoreWords(m, a, Values(g, Listed(mask, 16))) == (m, true)
  {
    hide WordWritable, StoreWord, Mem.Valid, Regs.Valid;
  }

  lemma LoadStep(g: Regs, m: Mem, i: nat, rest: seq<nat>, a: Word)
    requires m.Valid() && g.Valid() && RegList([i] + rest) && RegList(rest) && i < 16
    ensures LoadRegs(g, m, [i] + rest, a) ==
            if WordReadable(a) then LoadRegs(Set(g, i, WordAt(m, a)), m, rest, Wrap(a + 4)) else (g, false)
  {
    hide WordReadable, WordAt, Set, Mem.Valid, Regs.Valid;
    assert ([i] + rest)[1..] == rest;
  }

  lemma LoadNone(g: Regs, m: Mem, a: Word, mask: set<nat>)
    requires m.Valid() && g.Valid()
    ensures LoadRegs(g, m, Listed(mask, 16), a) == (g, true)
  {
    hide Mem.Valid, Regs.Valid;
  }

  /** PC, if listed, comes last. */
  lemma {:induction false} ListedPc(mask: set<nat>, i: nat)
    requires i <= 15
    ensures var list := Listed(mask, i);
            && RegList(list) && RegList(Listed(mask - {15}, i))
            && (15 in mask ==> list == Listed(mask - {15}, i) + [15])
            && (15 !in mask ==> list == Listed(mask - {15}, i) && (list != [] ==> list[|list| - 1] != 15))
    decreases 15 - i
  {
    hide RegList, Listed;
    var less := mask - {15};
    ListedStep(mask, i);
    ListedStep(less, i);
    if i < 15 {
      ListedPc(mask, i + 1);
      assert i in less <==> i in mask;
    } else {
      ListedEnd(mask);
      ListedEnd(less);
    }
  }

  lemma ListedEnd(mask: set<nat>)
    ensures Listed(mask, 16) == []
  {
  }

  lemma WriteIsStore(m: Mem, a: Word, v: Word)
    requires m.Valid()
    ensures WriteStatus(a, 4) == Ok <==> WordWritable(a)
    ensures Write(m, a, v, 4) == if WordWritable(a) then StoreWord(m, a, v) else m
  {
    hide Patch;
  }

  lemma ReadIsWord(m: Mem, a: Word)
    requires m.Valid()
    ensures ReadStatus(a, 4) == Ok <==> WordReadable(a)
    ensures ValueAt(m, a, 4) == WordAt(m, a)
  {
    hide ValueAt;
  }
}
