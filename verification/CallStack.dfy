/** PUSH and POP: what a call saves on the stack comes back, and POP {.., PC}
    returns to the caller. */
module CallStack {
  import opened Words
  import opened MemoryBus
  import opened RegisterModel
  import opened ExceptionModel
  import opened ExceptionFrames

  const LR: nat := 14
  const PC: nat := 15

  datatype StackStatus = StackOk | Undefined | MemFault | Returned(status: ExecStatus)

  /** A register list as the bit scan meets it: ascending register numbers. */
  predicate RegList(list: seq<nat>) {
    && (forall i :: 0 <= i < |list| ==> list[i] < 16)
    && (forall i, j :: 0 <= i < j < |list| ==> list[i] < list[j])
  }

  /** The registers at or above `i` in a bit mask, in the order of the bit scan. */
  function Listed(mask: set<nat>, i: nat): (list: seq<nat>)
    requires i <= 16
    ensures RegList(list) && forall k :: 0 <= k < |list| ==> i <= list[k] && list[k] in mask
    decreases 16 - i
  {
    if i == 16 then [] else (if i in mask then [i] else []) + Listed(mask, i + 1)
  }

  function Values(g: Regs, list: seq<nat>): (ws: seq<Word>)
    requires g.Valid() && RegList(list)
    ensures |ws| == |list|
  {
    if list == [] then [] else [Get(g, list[0])] + Values(g, list[1..])
  }

  /** PUSH: store the listed registers upwards to the old stack pointer.  A bus
      fault leaves the stack pointer, but not the words already stored. */
  function Push(c: Cpu, list: seq<nat>): (r: (Cpu, StackStatus))
    requires c.Valid() && RegList(list)
    ensures r.0.Valid()
  {
    if list == [] then (c, Undefined)
    else
      var a := Wrap(c.regs.Sp() - 4 * |list|);
      var (m, ok) := StoreWords(c.mem, a, Values(c.regs, list));
      if !ok then (c.(mem := m), MemFault)
      else (c.(mem := m, regs := SetSp(c.regs, a)), StackOk)
  }

  /** Load the listed registers upwards from `a`; stops at a bus fault. */
  function LoadRegs(g: Regs, m: Mem, list: seq<nat>, a: Word): (r: (Regs, bool))
    requires g.Valid() && m.Valid() && RegList(list)
    ensures r.0.Valid()
    decreases |list|
  {
    if list == [] then (g, true)
    else if !WordReadable(a) then (g, false)
    else LoadRegs(Set(g, list[0], WordAt(m, a)), m, list[1..], Wrap(a + 4))
  }

  predicate IsExcReturn(v: Word) { v / 16 == 0x0FFF_FFFF }

  /** LoadWritePC: a branch, or in Handler mode possibly an exception return. */
  function BranchTo(c: Cpu, target: Word): (r: (Cpu, StackStatus))
    requires c.Valid()
    ensures r.0.Valid()
  {
    if c.regs.HandlerMode() && IsExcReturn(target) then
      var (c', st) := ExceptionReturn(c, target);
      (c', Returned(st))
    else (c.(regs := Vectored(c.regs, target)), StackOk)
  }

  /** POP: load the listed registers, then free the stack and, with PC, branch. */
  function Pop(c: Cpu, list: seq<nat>): (r: (Cpu, StackStatus))
    requires c.Valid() && RegList(list)
    ensures r.0.Valid()
  {
    if list == [] then (c, Undefined)
    else
      var withPc := list[|list| - 1] == PC;
      var low := if withPc then list[..|list| - 1] else list;
      var sp := c.regs.Sp();
      var (g, ok) := LoadRegs(c.regs, c.mem, low, sp);
      var last := Wrap(sp + 4 * |low|);
      var c' := c.(regs := SetSp(g, Wrap(sp + 4 * |list|)));
      if !ok then (c.(regs := g), MemFault)
      else if !withPc then (c', StackOk)
      else if !WordReadable(last) then (c.(regs := g), MemFault)
      else BranchTo(c', WordAt(c.mem, last))
  }

  // ------------------------------------------------------------------- laws

  predicate LowRegs(list: seq<nat>) {
    && RegList(list) && forall i :: 0 <= i < |list| ==> list[i] < 8
  }

  lemma {:induction false} ValuesAt(g: Regs, list: seq<nat>, k: nat)
    requires g.Valid() && RegList(list) && k < |list|
    ensures Values(g, list)[k] == Get(g, list[k])
  {
    if k > 0 {
      ValuesAt(g, list[1..], k - 1);
    }
  }

  lemma NoWrap(a: nat)
    requires a < WORD_SIZE
    ensures Wrap(a) == a
  {
  }

  /** The k-th word of a span in SRAM can be accessed, at its plain address. */
  lemma SpanWord(a: nat, n: nat, k: nat)
    requires a % 4 == 0 && InSram(a, 4 * n) && k < n
    ensures a + 4 * k < WORD_SIZE && Wrap(a + 4 * k) == a + 4 * k && WordReadable(a + 4 * k)
    ensures a + 4 < WORD_SIZE && Wrap(a + 4) == a + 4 && (a + 4) % 4 == 0 && InSram(a + 4, 4 * (n - 1))
  {
  }

  lemma {:induction false} LoadAt(m: Mem, a: Word, n: nat, k: nat)
    requires m.Valid() && k < n && InSram(a, 4 * n) && a % 4 == 0
    ensures a + 4 * k < WORD_SIZE && LoadWords(m, a, n)[k] == WordAt(m, a + 4 * k)
    decreases n
  {
    hide WordAt, Wrap, InSram, WordReadable;
    SpanWord(a, n, k);
    if k > 0 {
      LoadAt(m, a + 4, n - 1, k - 1);
    }
  }

  lemma SetLow(g: Regs, n: nat, v: Word)
    requires g.Valid() && n < 13
    ensures Set(g, n, v) == g.(r := g.r[n := v])
  {
  }

  /** Loading low registers changes only them, each to its word of memory. */
  ghost predicate Loaded(g: Regs, h: Regs, m: Mem, list: seq<nat>, a: Word)
    requires g.Valid() && h.Valid() && m.Valid() && LowRegs(list) && InSram(a, 4 * |list|)
  {
    && (forall i :: 0 <= i < |list| ==> h.r[list[i]] == WordAt(m, a + 4 * i))
    && (forall k :: 0 <= k < 13 && k !in list ==> h.r[k] == g.r[k])
    && h.lr == g.lr && h.msp == g.msp && h.psp == g.psp && h.exc == g.exc && h.spsel == g.spsel
  }

  lemma {:induction false} LoadRegsLoads(g: Regs, m: Mem, list: seq<nat>, a: Word)
    requires g.Valid() && m.Valid() && LowRegs(list)
    requires a % 4 == 0 && InSram(a, 4 * |list|)
    ensures var (h, ok) := LoadRegs(g, m, list, a); ok && Loaded(g, h, m, list, a)
    decreases |list|
  {
    hide WordAt, Wrap, InSram, WordReadable, Regs.Valid, Mem.Valid;
    if list != [] {
      SpanWord(a, |list|, 0);
      var g1 := Set(g, list[0], WordAt(m, a));
      var tail := list[1..];
      SetLow(g, list[0], WordAt(m, a));
      TailLow(list);
      LoadRegsLoads(g1, m, tail, a + 4);
      var h := LoadRegs(g1, m, tail, a + 4).0;
      HeadLoaded(g, g1, h, m, list, a);
    }
  }

  lemma TailLow(list: seq<nat>)
    requires LowRegs(list) && list != []
    ensures LowRegs(list[1..]) && list[0] < 8 && list[0] !in list[1..]
  {
  }

  lemma HeadLoaded(g: Regs, g1: Regs, h: Regs, m: Mem, list: seq<nat>, a: Word)
    requires g.Valid() && g1.Valid() && h.Valid() && m.Valid() && LowRegs(list) && list != []
    requires InSram(a, 4 * |list|) && a + 4 < WORD_SIZE && LowRegs(list[1..]) && InSram(a + 4, 4 * (|list| - 1))
    requires g1 == g.(r := g.r[list[0] := WordAt(m, a)])
    requires Loaded(g1, h, m, list[1..], a + 4)
    ensures Loaded(g, h, m, list, a)
  {
    hide WordAt;
    var tail := list[1..];
    assert list[0] !in tail;
    forall i | 0 <= i < |list|
      ensures h.r[list[i]] == WordAt(m, a + 4 * i)
    {
      if i > 0 {
        assert tail[i - 1] == list[i] && a + 4 + 4 * (i - 1) == a + 4 * i;
      }
    }
  }

  /** What PUSH leaves: the stack pointer lowered, and the listed registers in
      memory, the lowest register at the lowest address. */
  lemma PushStores(c: Cpu, list: seq<nat>)
    requires c.Valid() && RegList(list) && Push(c, list).1 == StackOk
    ensures var c1 := Push(c, list).0;
            var a := c1.regs.Sp();
            && a + 4 * |list| == c.regs.Sp() && a % 4 == 0 && InSram(a, 4 * |list|)
            && c1.regs.OnPsp() == c.regs.OnPsp()
            && (forall k :: 0 <= k < |list| ==> WordAt(c1.mem, a + 4 * k) == Get(c.regs, list[k]))
            && (forall x: nat :: x < a || c.regs.Sp() <= x ==> ByteAt(c1.mem, x) == ByteAt(c.mem, x))
  {
    hide WordAt, ByteAt, Values, Get, StoreWords, LoadWords, WordsReadable;
    var ws := Values(c.regs, list);
    var n := |list|;
    var a := Wrap(c.regs.Sp() - 4 * n);
    StoredSpan(c.mem, a, ws);
    SpAligned(c.regs);
    assert a + 4 * n == c.regs.Sp() && Align4(a) == a;
    StoredValues(c, list, a);
  }

  lemma StoredValues(c: Cpu, list: seq<nat>, a: Word)
    requires c.Valid() && RegList(list) && list != [] && StoreWords(c.mem, a, Values(c.regs, list)).1
    ensures InSram(a, 4 * |list|)
    ensures var m := StoreWords(c.mem, a, Values(c.regs, list)).0;
            && (forall k :: 0 <= k < |list| ==> WordAt(m, a + 4 * k) == Get(c.regs, list[k]))
            && (forall x: nat :: x < a || a + 4 * |list| <= x ==> ByteAt(m, x) == ByteAt(c.mem, x))
  {
    hide WordAt, ByteAt, Values, Get, StoreWords, LoadWords, WordsReadable;
    var ws := Values(c.regs, list);
    var m := StoreWords(c.mem, a, ws).0;
    StoredSpan(c.mem, a, ws);
    LoadStored(c.mem, a, ws);
    forall k | 0 <= k < |list|
      ensures WordAt(m, a + 4 * k) == Get(c.regs, list[k])
    {
      LoadAt(m, a, |list|, k);
      ValuesAt(c.regs, list, k);
    }
    forall x: nat | x < a || a + 4 * |list| <= x
      ensures ByteAt(m, x) == ByteAt(c.mem, x)
    {
      StoreOutside(c.mem, a, ws, x);
    }
  }

  /** A call's frame: PUSH {list, LR} at entry, POP {list, PC} at exit.  If the
      body gives the stack pointer back and keeps the frame, the pop restores
      every listed register and the stack pointer; registers not listed stay as
      the body left them.  Then it branches to LR, with LR's bit 0 as the Thumb
      bit, or, in a handler that was called with EXC_RETURN in LR, returns from
      the exception with just these registers and this stack pointer. */
  lemma CallReturns(c: Cpu, list: seq<nat>, c2: Cpu) returns (freed: Cpu)
    requires c.Valid() && c2.Valid() && LowRegs(list)
    requires RegList(list + [LR]) && RegList(list + [PC])
    requires Push(c, list + [LR]).1 == StackOk
    requires var c1 := Push(c, list + [LR]).0;
             && c2.regs.Sp() == c1.regs.Sp()
             && Agree(c1.mem, c2.mem, c1.regs.Sp(), 4 * (|list| + 1))
    ensures freed.Valid() && FrameFreed(c, c2, list, freed)
    ensures var r := Pop(c2, list + [PC]);
            if c2.regs.HandlerMode() && IsExcReturn(c.regs.lr) then LeavesHandler(freed, c.regs.lr, r)
            else BackAtCaller(c, c2, list, r)
  {
    hide WordAt, ByteAt, Get, Push, Pop, RegList, Agree, InSram, ExceptionReturn;
    var c1 := Push(c, list + [LR]).0;
    var a := c1.regs.Sp();
    var n := |list|;
    PushStores(c, list + [LR]);
    FrameKept(c, c1.mem, c2.mem, list, a);
    LowSpan(a, n);
    LoadRegsLoads(c2.regs, c2.mem, list, a);
    freed := PopsTo(c, c2, list, a);
  }

  /** The listed registers and the stack pointer are back, the others and memory
      as the body left them. */
  predicate FrameFreed(c: Cpu, c2: Cpu, list: seq<nat>, c3: Cpu)
    requires c.Valid() && c2.Valid() && c3.Valid() && LowRegs(list)
  {
    && c3.regs.Sp() == c.regs.Sp()
    && (forall i :: 0 <= i < |list| ==> c3.regs.r[list[i]] == c.regs.r[list[i]])
    && (forall k :: 0 <= k < 13 && k !in list ==> c3.regs.r[k] == c2.regs.r[k])
    && c3 == c2.(regs := c3.regs) && c3.regs.exc == c2.regs.exc
  }

  /** The pop has branched to the return address. */
  predicate BackAtCaller(c: Cpu, c2: Cpu, list: seq<nat>, r: (Cpu, StackStatus))
    requires c.Valid() && c2.Valid() && r.0.Valid() && LowRegs(list)
  {
    && r.1 == StackOk && FrameFreed(c, c2, list, r.0)
    && r.0.regs.pc == Even(c.regs.lr) && r.0.regs.t == (c.regs.lr % 2 == 1)
  }

  /** The pop has returned from the exception. */
  predicate LeavesHandler(freed: Cpu, excReturn: Word, r: (Cpu, StackStatus))
    requires freed.Valid()
  {
    var (c3, status) := ExceptionReturn(freed, excReturn);
    r == (c3, Returned(status))
  }

  lemma LowSpan(a: nat, n: nat)
    requires InSram(a, 4 * (n + 1))
    ensures InSram(a, 4 * n)
  {
  }

  /** The words of the frame after the body. */
  lemma FrameKept(c: Cpu, m1: Mem, m2: Mem, list: seq<nat>, a: Word)
    requires c.Valid() && m1.Valid() && m2.Valid() && LowRegs(list) && RegList(list + [LR])
    requires InSram(a, 4 * (|list| + 1)) && Agree(m1, m2, a, 4 * (|list| + 1))
    requires forall k :: 0 <= k <= |list| ==> WordAt(m1, a + 4 * k) == Get(c.regs, (list + [LR])[k])
    ensures forall k :: 0 <= k < |list| ==> WordAt(m2, a + 4 * k) == c.regs.r[list[k]]
    ensures WordAt(m2, a + 4 * |list|) == c.regs.lr
  {
    hide WordAt, ByteAt;
    var n := |list|;
    forall k | 0 <= k < n
      ensures WordAt(m2, a + 4 * k) == c.regs.r[list[k]]
    {
      AgreeWord(m1, m2, a + 4 * k);
      assert (list + [LR])[k] == list[k];
    }
    AgreeWord(m1, m2, a + 4 * n);
    assert WordAt(m1, a + 4 * n) == Get(c.regs, (list + [LR])[n]);
  }

  lemma PopsTo(c: Cpu, c2: Cpu, list: seq<nat>, a: Word) returns (freed: Cpu)
    requires c.Valid() && c2.Valid() && LowRegs(list) && RegList(list + [PC])
    requires c2.regs.Sp() == a && c.regs.Sp() == a + 4 * (|list| + 1)
    requires a % 4 == 0 && InSram(a, 4 * (|list| + 1)) && InSram(a, 4 * |list|)
    requires WordAt(c2.mem, a + 4 * |list|) == c.regs.lr
    requires forall k :: 0 <= k < |list| ==> WordAt(c2.mem, a + 4 * k) == c.regs.r[list[k]]
    requires var (h, ok) := LoadRegs(c2.regs, c2.mem, list, a); ok && Loaded(c2.regs, h, c2.mem, list, a)
    ensures freed.Valid() && FrameFreed(c, c2, list, freed)
    ensures var r := Pop(c2, list + [PC]);
            if c2.regs.HandlerMode() && IsExcReturn(c.regs.lr) then LeavesHandler(freed, c.regs.lr, r)
            else BackAtCaller(c, c2, list, r)
  {
    hide Pop, LoadRegs, WordAt, RegList, ExceptionReturn, InSram, Align4, Regs.Valid;
    SpAligned(c.regs);
    AlignedSame(c.regs.Sp());
    PopBranches(c2, list, a);
    var h := LoadRegs(c2.regs, c2.mem, list, a).0;
    assert SetSp(h, c.regs.Sp()).Sp() == c.regs.Sp();
    freed := c2.(regs := SetSp(h, c.regs.Sp()));
  }

  lemma PopBranches(c: Cpu, list: seq<nat>, a: Word)
    requires c.Valid() && LowRegs(list) && RegList(list + [PC]) && c.regs.Sp() == a
    requires a % 4 == 0 && InSram(a, 4 * (|list| + 1)) && LoadRegs(c.regs, c.mem, list, a).1
    ensures a + 4 * (|list| + 1) < WORD_SIZE
    ensures Pop(c, list + [PC]) ==
            BranchTo(c.(regs := SetSp(LoadRegs(c.regs, c.mem, list, a).0, a + 4 * (|list| + 1))),
                     WordAt(c.mem, a + 4 * |list|))
  {
    hide LoadRegs, WordAt, RegList, BranchTo, WordReadable, Align4;
    var n := |list|;
    SpanWord(a, n + 1, n);
    NoWrap(a + 4 * (n + 1));
    hide Wrap, InSram;
    assert (list + [PC])[..n] == list && (list + [PC])[n] == PC;
  }

  lemma AlignedSame(a: Word)
    requires a % 4 == 0
    ensures Align4(a) == a
  {
  }
}
