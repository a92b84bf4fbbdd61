/** The ARMv6-M register file as a value: banked stack pointers, flags, the
    program status register views and the condition codes. */
module RegisterModel {
  import opened Words
  import opened WordLemmas

  datatype Regs = Regs(
    r: seq<Word>, pc: Word, lr: Word, msp: Word, psp: Word,
    n: bool, z: bool, c: bool, v: bool, t: bool,
    exc: nat, npriv: bool, spsel: bool, primask: bool)
  {
    predicate Valid() {
      |r| == 13 && exc < 512 && pc % 2 == 0 && msp % 4 == 0 && psp % 4 == 0
    }

    predicate HandlerMode() { exc != 0 }

    predicate OnPsp() { exc == 0 && spsel }

    function Sp(): Word { if OnPsp() then psp else msp }
  }

  function Align4(a: Word): (r: Word)
    ensures r % 4 == 0 && a - 4 < r <= a
  {
    a - a % 4
  }

  function SetSp(g: Regs, v: Word): (g': Regs)
    ensures g.Valid() ==> g'.Valid()
  {
    if g.OnPsp() then g.(psp := Align4(v)) else g.(msp := Align4(v))
  }

  /** Branch targets lose bit 0. */
  function Even(v: Word): (r: Word)
    ensures r % 2 == 0
  {
    v - v % 2
  }

  function SetPc(g: Regs, v: Word): Regs { g.(pc := Even(v)) }

  function Get(g: Regs, n: nat): Word
    requires g.Valid() && n < 16
  {
    if n < 13 then g.r[n] else if n == 13 then g.Sp() else if n == 14 then g.lr else g.pc
  }

  function Set(g: Regs, n: nat, v: Word): (g': Regs)
    requires g.Valid() && n < 16
    ensures g'.Valid()
  {
    if n < 13 then g.(r := g.r[n := v])
    else if n == 13 then SetSp(g, v)
    else if n == 14 then g.(lr := v)
    else SetPc(g, v)
  }

  /** A register reads back what was written, SP word-aligned and PC even, and the
      others, the other stack pointer among them, stay. */
  lemma ReadsBack(g: Regs, n: nat, v: Word, k: nat)
    requires g.Valid() && n < 16 && k < 16
    ensures Get(Set(g, n, v), k) == if k != n then Get(g, k)
                                    else if n == 13 then v - v % 4 else if n == 15 then v - v % 2 else v
    ensures if g.OnPsp() then Set(g, n, v).msp == g.msp else Set(g, n, v).psp == g.psp
  {
    hide Get, Set, Align4, Even;
    WrittenBack(g, n, v, k);
    Rounded(v);
  }

  lemma WrittenBack(g: Regs, n: nat, v: Word, k: nat)
    requires g.Valid() && n < 16 && k < 16
    ensures Get(Set(g, n, v), k)
         == if k != n then Get(g, k) else if n == 13 then Align4(v) else if n == 15 then Even(v) else v
    ensures if g.OnPsp() then Set(g, n, v).msp == g.msp else Set(g, n, v).psp == g.psp
  {
    hide Align4, Even, Get, Set;
    if n == 13 {
      SpWritten(g, v, k);
    } else {
      OtherWritten(g, n, v, k);
    }
  }

  lemma SpWritten(g: Regs, v: Word, k: nat)
    requires g.Valid() && k < 16
    ensures Get(Set(g, 13, v), k) == if k != 13 then Get(g, k) else Align4(v)
    ensures if g.OnPsp() then Set(g, 13, v).msp == g.msp else Set(g, 13, v).psp == g.psp
  {
    hide Align4, Regs.Valid;
  }

  lemma OtherWritten(g: Regs, n: nat, v: Word, k: nat)
    requires g.Valid() && n < 16 && n != 13 && k < 16
    ensures Get(Set(g, n, v), k) == if k != n then Get(g, k) else if n == 15 then Even(v) else v
    ensures Set(g, n, v).msp == g.msp && Set(g, n, v).psp == g.psp
  {
    hide Even, SetSp, Get;
    var h := Set(g, n, v);
    assert h == g.(r := h.r, lr := h.lr, pc := h.pc);
    assert h.r == if n < 13 then g.r[n := v] else g.r;
    assert h.lr == if n == 14 then v else g.lr;
    assert h.pc == if n == 15 then Even(v) else g.pc;
    hide Set;
    GetIs(g, h, n, k);
  }

  lemma GetIs(g: Regs, h: Regs, n: nat, k: nat)
    requires g.Valid() && h.Valid() && n < 16 && n != 13 && k < 16 && h.Sp() == g.Sp()
    requires n < 13 ==> h.r == g.r[n := h.r[n]]
    requires n >= 13 ==> h.r == g.r
    requires n != 14 ==> h.lr == g.lr
    requires n != 15 ==> h.pc == g.pc
    ensures k != n ==> Get(h, k) == Get(g, k)
    ensures Get(h, n) == if n < 13 then h.r[n] else if n == 14 then h.lr else h.pc
  {
    hide Regs.Sp;
  }

  lemma Rounded(v: Word)
    ensures Align4(v) == v - v % 4 && Even(v) == v - v % 2
  {
  }

  // ---------------------------------------------------------------- status

  const BIT9: nat := 0x200
  const BIT24: nat := 0x100_0000
  const BIT28: nat := 0x1000_0000
  const BIT29: nat := 0x2000_0000
  const BIT30: nat := 0x4000_0000
  const BIT31: nat := 0x8000_0000

  function Apsr(g: Regs): Word {
    (if g.n then BIT31 else 0) + (if g.z then BIT30 else 0) + (if g.c then BIT29 else 0) + (if g.v then BIT28 else 0)
  }

  /** APSR, EPSR and IPSR together; their bits do not overlap. */
  function Xpsr(g: Regs): Word
    requires g.Valid()
  {
    Apsr(g) + (if g.t then BIT24 else 0) + g.exc
  }

  predicate HasBit(x: Word, bit: nat)
    requires bit > 0
  {
    x / bit % 2 == 1
  }

  /** Exception return: flags, Thumb state and exception number. */
  function SetXpsr(g: Regs, x: Word): Regs {
    g.(n := HasBit(x, BIT31), z := HasBit(x, BIT30), c := HasBit(x, BIT29), v := HasBit(x, BIT28),
       t := HasBit(x, BIT24), exc := x % 512)
  }

  /** `x` with bit 9 set or cleared. */
  function WithBit9(x: Word, on: bool): (y: Word)
  {
    var y := x - (if HasBit(x, BIT9) then BIT9 else 0);
    if on then y + BIT9 else y
  }

  lemma BitAt(y: nat, bit: nat, above: nat, on: bool, below: nat)
    requires y == (2 * bit) * above + (if on then bit else 0) + below && below < bit
    ensures y / bit % 2 == (if on then 1 else 0)
  {
    var b := if on then 1 else 0;
    Assoc(bit, 2, above);
    Distrib(bit, 2 * above, b);
    DivUnique(y, bit, 2 * above + b, below);
  }

  /** The stacked status word: bit 9 is free, the flags keep their places. */
  function StatusWord(g: Regs, on: bool): Word
    requires g.Valid()
  {
    Xpsr(g) + if on then BIT9 else 0
  }

  lemma StackedIs(g: Regs, on: bool)
    requires g.Valid()
    ensures WithBit9(Xpsr(g), on) == StatusWord(g, on) && StatusWord(g, on) % 512 == g.exc
  {
    var (n, z, c, v, t) := (B(g.n), B(g.z), B(g.c), B(g.v), B(g.t));
    var high := 0x20_0000 * n + 0x10_0000 * z + 0x8_0000 * c + 0x4_0000 * v + 0x4000 * t;
    BitAt(Xpsr(g), BIT9, high, false, g.exc);
    DivUnique(StatusWord(g, on), 512, 2 * high + B(on), g.exc);
    hide *;
    assert !HasBit(Xpsr(g), BIT9) by { NotBit(Xpsr(g), BIT9); }
    Bit9Added(g, on);
  }

  lemma NotBit(x: Word, bit: nat)
    requires bit > 0 && x / bit % 2 == 0
    ensures !HasBit(x, bit)
  {
  }

  lemma Bit9Added(g: Regs, on: bool)
    requires g.Valid() && !HasBit(Xpsr(g), BIT9)
    ensures WithBit9(Xpsr(g), on) == StatusWord(g, on)
  {
    hide HasBit, Xpsr;
  }

  lemma StackedTop(g: Regs, on: bool)
    requires g.Valid()
    ensures HasBit(StatusWord(g, on), BIT31) == g.n && HasBit(StatusWord(g, on), BIT30) == g.z
    ensures HasBit(StatusWord(g, on), BIT9) == on
  {
    var (n, z, c, v, t) := (B(g.n), B(g.z), B(g.c), B(g.v), B(g.t));
    var low := g.exc + if on then BIT9 else 0;
    var y := StatusWord(g, on);
    BitAt(y, BIT9, 0x20_0000 * n + 0x10_0000 * z + 0x8_0000 * c + 0x4_0000 * v + 0x4000 * t, on, g.exc);
    BitAt(y, BIT30, n, g.z, c * BIT29 + v * BIT28 + t * BIT24 + low);
    BitAt(y, BIT31, 0, g.n, z * BIT30 + c * BIT29 + v * BIT28 + t * BIT24 + low);
  }

  lemma StackedMiddle(g: Regs, on: bool)
    requires g.Valid()
    ensures HasBit(StatusWord(g, on), BIT29) == g.c && HasBit(StatusWord(g, on), BIT28) == g.v
    ensures HasBit(StatusWord(g, on), BIT24) == g.t
  {
    var (n, z, c, v, t) := (B(g.n), B(g.z), B(g.c), B(g.v), B(g.t));
    var low := g.exc + if on then BIT9 else 0;
    var y := StatusWord(g, on);
    BitAt(y, BIT24, 64 * n + 32 * z + 16 * c + 8 * v, g.t, low);
    BitAt(y, BIT28, 4 * n + 2 * z + c, g.v, t * BIT24 + low);
    BitAt(y, BIT29, 2 * n + z, g.c, v * BIT28 + t * BIT24 + low);
  }

  /** Restoring a status word restores what it was made from; bit 9, which notes
      the realignment, comes back out as it went in. */
  lemma XpsrRoundTrip(g: Regs, h: Regs, on: bool)
    requires g.Valid()
    ensures var x := WithBit9(Xpsr(g), on);
            && HasBit(x, BIT9) == on
            && SetXpsr(h, x) == h.(n := g.n, z := g.z, c := g.c, v := g.v, t := g.t, exc := g.exc)
  {
    hide HasBit, WithBit9, Xpsr, StatusWord;
    StackedIs(g, on);
    StackedTop(g, on);
    StackedMiddle(g, on);
  }

  function B(b: bool): nat { if b then 1 else 0 }
}
