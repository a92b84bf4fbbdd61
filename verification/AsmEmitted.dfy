/** What the assembler emits. */
module AsmEmitted {
  // Every accepted instruction decodes to the operands it was written with, and
  // survives printing and assembling again.
  import opened AsmText
  import opened AsmExpr
  import opened AsmEncode
  import opened Words
  import opened WordLemmas
  import opened PioIsa
  import opened PioDisasm
  import opened PioDisasmTokens
  import opened PioReadBack
  import opened PioRoundTrip

  // ------------------------------------------------------- operands come back

  /** The operands of a decoded word are those the tokens name. */
  predicate Means(m: string, a: seq<string>, syms: Symbols, d: PioInstr) {
    && (m == "jmp" ==>
          && d.op == JMP && d.condition == Condition(a).0
          && Operand(a[Condition(a).1..], syms, 0, 31) == Ok(d.address))
    && (m == "wait" ==>
          && d.op == WAIT && Sum(a, syms).Ok?
          && var p := Sum(a, syms).value;
          && p.value == (if d.polarity then 1 else 0) && p.rest != [] && WaitSource(Lower(p.rest[0])) == Some(d.source)
          && Index(p.rest[1..], syms, d.source == WAIT_IRQ) == Ok(d.index))
    && (m == "in" ==>
          && d.op == IN && |a| >= 2 && InCode(Lower(a[0])) == Some(d.source)
              && Operand(a[1..], syms, 1, 32) == Ok(d.bitCount))
    && (m == "out" ==>
          && d.op == OUT && |a| >= 2 && OutCode(Lower(a[0])) == Some(d.destination)
              && Operand(a[1..], syms, 1, 32) == Ok(d.bitCount))
    && (m == "push" ==> d.op == PUSH && FlagsMean(a, "iffull", d.ifFull, d.block))
    && (m == "pull" ==> d.op == PULL && FlagsMean(a, "ifempty", d.ifEmpty, d.block))
    && (m == "mov" ==>
          && d.op == MOV && |a| >= 2 && MovDestination(Lower(a[0])) == Some(d.destination)
          && d.movOp == MovOperator(a[1]) && MovSource(Lower(a[|a| - 1])) == Some(d.source)
          && |a| == if d.movOp == MOV_NONE then 2 else 3)
    && (m == "irq" ==>
          && d.op == IRQ && a != [] && d.clear == (Lower(a[0]) == "clear") && d.wait == (Lower(a[0]) == "wait")
          && Index(if Lower(a[0]) in ["set", "nowait", "wait", "clear"] then a[1..] else a, syms, true) == Ok(d.index))
    && (m == "set" ==>
          && d.op == SET && |a| >= 2 && SetCode(Lower(a[0])) == Some(d.destination)
              && Operand(a[1..], syms, 0, 31) == Ok(d.data))
    && (m == "nop" ==> d.op == MOV && d.destination == Y && d.source == Y && d.movOp == MOV_NONE)
  }

  function MovOperator(t: string): nat {
    if Lower(t) == "!" || Lower(t) == "~" then MOV_INVERT else if t == "::" then MOV_BITREV else MOV_NONE
  }

  /** The condition is on when its word occurs; no `noblock` is left without a `block` after it. */
  predicate FlagsMean(a: seq<string>, flag: string, conditional: bool, block: bool) {
    conditional == HasFlag(a, flag) && block == BlockAfterNoblock(a)
  }

  predicate HasFlag(a: seq<string>, flag: string) {
    a != [] && (Lower(a[0]) == flag || HasFlag(a[1..], flag))
  }

  predicate BlockAfterNoblock(a: seq<string>) {
    a == [] || ((Lower(a[0]) == "noblock" ==> HasFlag(a[1..], "block")) && BlockAfterNoblock(a[1..]))
  }

  lemma {:induction false} FlagsFold(a: seq<string>, pull: bool, conditional: bool, block: bool)
    requires EncPushPull(a, pull, conditional, block).Ok?
    ensures EncPushPull(a, pull, conditional, block).value
         == (if conditional || HasFlag(a, if pull then "ifempty" else "iffull") then 64 else 0)
            + if (block || HasFlag(a, "block")) && BlockAfterNoblock(a) then 32 else 0
  {
    if a != [] {
      var o := Lower(a[0]);
      if o == "block" {
        FlagsFold(a[1..], pull, conditional, true);
      } else if o == "noblock" {
        FlagsFold(a[1..], pull, conditional, false);
      } else {
        FlagsFold(a[1..], pull, true, block);
      }
    }
  }

  // --------------------------------------------------- which words are emitted

  /** The bodies the operand encoders can produce. */
  predicate Emitted(b: Body) {
    && b.opcode < 8 && b.low < 256
    && (b.opcode == 1 ==> b.low / 32 % 4 < 3)
    && (b.opcode == 2 ==> b.low / 32 != 4 && b.low / 32 != 5)
    && (b.opcode == 4 ==> b.low % 32 == 0)
    && (b.opcode == 5 ==> b.low / 32 != 3 && b.low / 8 % 4 != 3 && b.low % 8 != 4)
    && (b.opcode == 6 ==> b.low < 96)
    && (b.opcode == 7 ==> b.low / 32 < 3 || b.low / 32 == 4)
  }

  lemma EmitsWait(a: seq<string>, syms: Symbols)
    requires EncWait(a, syms).Ok?
    ensures EncWait(a, syms).value / 32 % 4 < 3
  {
    hide Sum, Index, Lower;
  }

  lemma EmitsIn(a: seq<string>, syms: Symbols)
    requires EncInOut(a, syms, false).Ok?
    ensures EncInOut(a, syms, false).value / 32 != 4 && EncInOut(a, syms, false).value / 32 != 5
  {
    hide Operand, Lower, OutCode;
  }

  /** The three codes of an accepted MOV. */
  lemma MovShape(a: seq<string>)
    requires EncMov(a).Ok?
    ensures |a| >= 2 && |a| == (if MovOperator(a[1]) == MOV_NONE then 2 else 3)
    ensures var (dst, src) := (MovDestination(Lower(a[0])), MovSource(Lower(a[|a| - 1])));
            dst.Some? && src.Some? && EncMov(a).value == 32 * dst.value + 8 * MovOperator(a[1]) + src.value
  {
    hide Lower, MovDestination, MovSource;
  }

  lemma MovDigits(low: nat, dst: nat, op: nat, src: nat)
    requires low == 32 * dst + 8 * op + src && dst < 8 && op < 4 && src < 8
    ensures low / 32 == dst && low / 8 % 4 == op && low % 8 == src
  {
    assert low / 8 == 4 * dst + op;
  }

  lemma MovCodes(s: string, t: string)
    ensures MovDestination(s).Some? ==> MovDestination(s).value < 8 && MovDestination(s).value != 3
    ensures MovSource(t).Some? ==> MovSource(t).value < 8 && MovSource(t).value != 4
  {
  }

  lemma EmitsMov(a: seq<string>)
    requires EncMov(a).Ok?
    ensures var low := EncMov(a).value;
            low / 32 != 3 && low / 8 % 4 != 3 && low % 8 != 4
  {
    hide Lower, MovDestination, MovSource, EncMov;
    MovShape(a);
    MovCodes(Lower(a[0]), Lower(a[|a| - 1]));
    MovDigits(EncMov(a).value, MovDestination(Lower(a[0])).value, MovOperator(a[1]),
      MovSource(Lower(a[|a| - 1])).value);
  }

  lemma EmitsIrq(a: seq<string>, syms: Symbols)
    requires EncIrq(a, syms).Ok?
    ensures EncIrq(a, syms).value < 96
  {
    hide Lower, Index;
  }

  lemma EmitsSet(a: seq<string>, syms: Symbols)
    requires EncSet(a, syms).Ok?
    ensures EncSet(a, syms).value / 32 < 3 || EncSet(a, syms).value / 32 == 4
  {
    hide Lower, Operand;
  }

  lemma EmitsOnly(mnemonic: string, a: seq<string>, syms: Symbols)
    requires EncodeBody(mnemonic, a, syms).Ok?
    ensures Emitted(EncodeBody(mnemonic, a, syms).value)
  {
    hide Lower, EncWait, EncInOut, EncMov, EncIrq, EncSet, EncJmp, EncPushPull;
    var m := Lower(mnemonic);
    if m == "wait" {
      EmitsWait(a, syms);
    } else if m == "in" {
      EmitsIn(a, syms);
    } else if m == "mov" {
      EmitsMov(a);
    } else if m == "irq" {
      EmitsIrq(a, syms);
    } else if m == "set" {
      EmitsSet(a, syms);
    }
  }

  /** A field built from a side-set value and a delay has no side-set value under a clear enable bit. */
  lemma FieldIsCanonical(l: Layout, side: Option<int>, delay: int)
    requires l.Fits() && DelaySideset(l, side, delay).Ok?
    ensures var field := DelaySideset(l, side, delay).value;
            field < 32 && CanonicalField(field, l.count, l.opt) == field
  {
    FieldBound(l, side, delay);
    var field := DelaySideset(l, side, delay).value;
    FieldSurvives(l, field);
    if l.opt && side.None? {
      var p := Pow2(l.DelayBits());
      DivUnique(field, p, 0, field);
      assert SideOf(field, l.count, l.opt) == 0 by {
        DivMod(0, Pow2(l.count));
      }
    } else if l.opt {
      assert SidePrinted(field, l.count, l.opt) by {
        EnableBit(field, Pow2(l.DelayBits()), Pow2(l.count), delay, side.value, l);
      }
    }
  }

  lemma EnableBit(field: nat, p: nat, q: nat, delay: nat, side: nat, l: Layout)
    requires l.Fits() && l.opt && p == Pow2(l.DelayBits()) && q == Pow2(l.count)
    requires delay < p && side < q && field == delay + side * p + 16
    ensures field / p >= 0 && field / p / q == 1
  {
    Pow2Sum(l.DelayBits(), l.count);
    Pow2Values();
    Distrib(p, side, q);
    DivUnique(field, p, side + q, delay);
    DivUnique(side + q, q, 1, side);
  }

  /** The decoder's fields of a word with low byte `low`. */
  lemma DecodeLow(w: Half, low: nat)
    requires low == w % 256
    ensures var d := Decode(w);
            && d.delaySideset == w / 256 % 32
            && (w / 8192 == 0 ==> d.op == JMP && d.condition == low / 32 && d.address == low % 32)
            && (w / 8192 == 1 ==>
                  d.op == WAIT && d.polarity == (low / 128 == 1) && d.source == low / 32 % 4 && d.index == low % 32)
            && (w / 8192 == 2 ==> d.op == IN && d.source == low / 32 && d.bitCount == CountOf(low))
            && (w / 8192 == 3 ==> d.op == OUT && d.destination == low / 32 && d.bitCount == CountOf(low))
  {
    LowCut(w, low);
  }

  lemma DecodeLowLast(w: Half, low: nat)
    requires low == w % 256
    ensures var d := Decode(w);
            && (w / 8192 == 4 ==> d.op == (if low / 128 == 1 then PULL else PUSH) && d.block == (low / 32 % 2 == 1)
                                  && (if low / 128 == 1 then d.ifEmpty else d.ifFull) == (low / 64 % 2 == 1))
            && (w / 8192 == 5 ==>
                  d.op == MOV && d.destination == low / 32 && d.movOp == low / 8 % 4 && d.source == low % 8)
            && (w / 8192 == 6 ==>
                  && d.op == IRQ && d.clear == (low / 64 % 2 == 1)
                  && d.wait == (low / 32 % 2 == 1) && d.index == low % 32)
            && (w / 8192 == 7 ==> d.op == SET && d.destination == low / 32 && d.data == low % 32)
  {
    LowCut(w, low);
  }

  function CountOf(low: nat): nat { if low % 32 == 0 then 32 else low % 32 }

  lemma LowCut(w: nat, low: nat)
    requires low == w % 256
    ensures w / 32 % 8 == low / 32 && w % 32 == low % 32 && w / 128 % 2 == low / 128 && w / 32 % 4 == low / 32 % 4
    ensures w / 64 % 2 == low / 64 % 2 && w / 32 % 2 == low / 32 % 2 && w / 8 % 4 == low / 8 % 4 && w % 8 == low % 8
  {
    Part(w, low, 32, 8, 1);
    Part(w, low, 1, 32, 8);
    Part(w, low, 128, 2, 1);
    Part(w, low, 32, 4, 2);
    Part(w, low, 64, 2, 2);
    Part(w, low, 32, 2, 4);
    Part(w, low, 8, 4, 8);
    Part(w, low, 1, 8, 32);
  }

  /** A bit field inside the low byte. */
  lemma Part(w: nat, low: nat, a: nat, c: nat, k: nat)
    requires low == w % 256 && a >= 1 && c >= 1 && k >= 1 && a * (c * k) == 256
    ensures w / a % c == low / a % c
  {
    Cut(w, a, c * k);
    DivDiv(w / a, c, k);
    DivMod(w / a, c);
    DivUnique(w / a % (c * k), c, w / a / c % k, w / a % c);
  }

  lemma Cut(w: nat, a: nat, b: nat)
    requires a >= 1 && b >= 1
    ensures a * b >= 1 && w % (a * b) / a == w / a % b
  {
    DivDiv(w, a, b);
    DivMod(w / a, b);
    DivUnique(w % (a * b), a, w / a % b, w % a);
  }

  // ------------------------------------------------------------- main results

  lemma JumpMeans(a: seq<string>, syms: Symbols, d: PioInstr, low: nat)
    requires EncJmp(a, syms) == Ok(low) && d.op == JMP && d.condition == low / 32 && d.address == low % 32
    ensures Means("jmp", a, syms, d)
  {
    hide Sum, Operand, Condition;
  }

  lemma WaitMeans(a: seq<string>, syms: Symbols, d: PioInstr, low: nat)
    requires EncWait(a, syms) == Ok(low) && d.op == WAIT
    requires d.polarity == (low / 128 == 1) && d.source == low / 32 % 4 && d.index == low % 32
    ensures Means("wait", a, syms, d)
  {
    hide Sum, Index, Lower;
  }

  lemma InOutMeans(m: string, a: seq<string>, syms: Symbols, d: PioInstr, low: nat)
    requires || (m == "in" && d.op == IN && d.source == low / 32)
             || (m == "out" && d.op == OUT && d.destination == low / 32)
    requires EncInOut(a, syms, m == "out") == Ok(low) && d.bitCount == CountOf(low)
    ensures Means(m, a, syms, d)
  {
    hide Lower, Operand;
    var code := if m == "out" then OutCode(Lower(a[0])) else InCode(Lower(a[0]));
    assert code.Some? && code.value < 8;
    assert Operand(a[1..], syms, 1, 32).Ok?;
    SmallParts(low, code.value, Operand(a[1..], syms, 1, 32).value);
  }

  lemma SmallParts(low: nat, code: nat, count: nat)
    requires 1 <= count <= 32 && low == 32 * code + if count == 32 then 0 else count
    ensures low / 32 == code && CountOf(low) == count
  {
  }

  lemma PushMeans(m: string, a: seq<string>, syms: Symbols, d: PioInstr, low: nat)
    requires (m == "push" && d.op == PUSH && d.ifFull == (low / 64 % 2 == 1))
          || (m == "pull" && d.op == PULL && d.ifEmpty == (low / 64 % 2 == 1))
    requires d.block == (low / 32 % 2 == 1)
    requires EncPushPull(a, m == "pull", false, true) == Ok(if m == "pull" then low - 128 else low)
        && (m == "pull" ==> low >= 128)
    ensures Means(m, a, syms, d)
  {
    hide EncPushPull, HasFlag, BlockAfterNoblock;
    FlagsFold(a, m == "pull", false, true);
  }

  lemma MovMeans(a: seq<string>, syms: Symbols, d: PioInstr, low: nat)
    requires EncMov(a) == Ok(low) && d.op == MOV
    requires d.destination == low / 32 && d.movOp == low / 8 % 4 && d.source == low % 8
    ensures Means("mov", a, syms, d)
  {
    hide Lower, MovDestination, MovSource, EncMov;
    MovShape(a);
    MovCodes(Lower(a[0]), Lower(a[|a| - 1]));
    MovDigits(low, MovDestination(Lower(a[0])).value, MovOperator(a[1]), MovSource(Lower(a[|a| - 1])).value);
  }

  lemma IrqMeans(a: seq<string>, syms: Symbols, d: PioInstr, low: nat)
    requires EncIrq(a, syms) == Ok(low) && d.op == IRQ
    requires d.clear == (low / 64 % 2 == 1) && d.wait == (low / 32 % 2 == 1) && d.index == low % 32
    ensures Means("irq", a, syms, d)
  {
    hide Lower, Index;
  }

  lemma SetMeans(a: seq<string>, syms: Symbols, d: PioInstr, low: nat)
    requires EncSet(a, syms) == Ok(low) && d.op == SET && d.destination == low / 32 && d.data == low % 32
    ensures Means("set", a, syms, d)
  {
    hide Lower, Operand;
  }

  lemma NopMeans(a: seq<string>, syms: Symbols, d: PioInstr)
    requires d.op == MOV && d.destination == Y && d.source == Y && d.movOp == MOV_NONE
    ensures Means("nop", a, syms, d)
  {
  }

  lemma BodyMeans(mnemonic: string, a: seq<string>, syms: Symbols, w: Half)
    requires EncodeBody(mnemonic, a, syms) == Ok(Body(w / 8192, w % 256))
    ensures Means(Lower(mnemonic), a, syms, Decode(w))
  {
    hide Lower, EncWait, EncInOut, EncMov, EncIrq, EncSet, EncJmp, EncPushPull, Means, Decode;
    var (m, d, low) := (Lower(mnemonic), Decode(w), w % 256);
    DecodeLow(w, low);
    DecodeLowLast(w, low);
    if m == "nop" {
      NopMeans(a, syms, d);
    } else if m == "jmp" {
      JumpMeans(a, syms, d, low);
    } else if m == "wait" {
      WaitMeans(a, syms, d, low);
    } else if m == "in" || m == "out" {
      InOutMeans(m, a, syms, d, low);
    } else if m == "push" || m == "pull" {
      PushMeans(m, a, syms, d, low);
    } else if m == "mov" {
      MovMeans(a, syms, d, low);
    } else if m == "irq" {
      IrqMeans(a, syms, d, low);
    } else {
      SetMeans(a, syms, d, low);
    }
  }

  /** Decoding an encoded instruction returns the operands it was written with. */
  lemma DecodeReturnsOperands(l: Layout, syms: Symbols, o: Operands)
    requires l.Accepted() && EncodeOperands(l, syms, o).Ok?
    ensures o.core != []
    ensures var d := Decode(EncodeOperands(l, syms, o).value);
            && Means(Lower(o.core[0]), DropCommas(o.core[1..]), syms, d)
            && DelaySideset(l, o.side, o.delay) == Ok(d.delaySideset)
  {
    hide EncodeBody, DelaySideset, Means, Decode;
    var w := EncodeOperands(l, syms, o).value;
    BodyMeans(o.core[0], DropCommas(o.core[1..]), syms, w);
    FieldIs(w);
  }

  predicate ShortWait(w: Half) {
    var d := Decode(w);
    d.op == WAIT && d.source != WAIT_IRQ && d.index >= 16
  }

  lemma EmittedSurvives(w: Half)
    requires Emitted(Body(w / 8192, w % 256))
    ensures !Reserved(Decode(w))
    ensures LowSurvives(w) <==> !ShortWait(w)
  {
    hide Decode, Pow2;
    var low := w % 256;
    DecodeLow(w, low);
    DecodeLowLast(w, low);
    LowCut(w, low);
  }

  /** Every word the assembler emits survives printing and assembling again
      unless it is a WAIT GPIO or WAIT PIN with an index the printer cuts. */
  lemma AssembledSurvives(l: Layout, syms: Symbols, toks: seq<string>, others: Symbols)
    requires l.Fits() && Encode(l, syms, toks).Ok?
    ensures var w := Encode(l, syms, toks).value;
            AssembleText(l, others, Text(w, l.count, l.opt)) == Ok(w) <==> !ShortWait(w)
  {
    hide EncodeBody, DelaySideset, Extract, Decode, Reserved, LowSurvives, Emitted, CanonicalField, ShortWait,
         AssembleText, Text, SidePrinted, SideOf;
    var o := Extract(toks, syms, Operands([], None, 0)).value;
    var w := Encode(l, syms, toks).value;
    EmitsOnly(o.core[0], DropCommas(o.core[1..]), syms);
    FieldIsCanonical(l, o.side, o.delay);
    FieldIs(w);
    FieldSurvives(l, w / 256 % 32);
    EmittedSurvives(w);
    RoundTripIff(w, l, others);
  }
}
