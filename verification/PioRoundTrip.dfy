/** Assembling what the disassembler printed. */
module PioRoundTrip {
  // Main results: the exact word that comes back for every word and every
  // side-set layout (`Reassembles`), hence exactly which words survive
  // (`RoundTripIff`), and that every word the assembler itself emits does, except
  // WAIT GPIO and WAIT PIN with an index of 16 or more (`AssembledSurvives`).
  import opened AsmText
  import opened AsmExpr
  import opened AsmEncode
  import opened Words
  import opened WordLemmas
  import opened PioIsa
  import opened PioDisasm
  import opened PioDisasmTokens
  import opened PioReadBack

  function AssembleText(l: Layout, syms: Symbols, text: string): Result<Half>
    requires l.Accepted()
  {
    match Tokens(text)
    case Err(e) => Err(e)
    case Ok(ts) => Encode(l, syms, ts)
  }

  // -------------------------------------------------------------- bits 12:8

  /** A field cut at `p` and then at `q`. */
  lemma CutTwice(field: nat, p: nat, q: nat)
    requires p >= 1 && q >= 1 && (p * q == 32 || p * q == 16) && field < 32
    ensures field / p >= 0 && field == field % p + field / p * p
    ensures 0 <= field / p / q < 32 / (p * q)
    ensures field / p / q == 0 ==> field / p % q == field / p
    ensures field / p / q == 1 ==> field == field % p + field / p % q * p + p * q
  {
    DivMod(field, p);
    DivDiv(field, p, q);
    DivMod(field / p, q);
    DivMod(field, p * q);
  }

  lemma NoMultiple(hi: nat, p: nat)
    requires p >= 1
    ensures hi * p == 0 <==> hi == 0
  {
    if hi > 0 {
      MulLe(p, hi);
    }
  }

  /** Delay, side-set value and enable bit put together again. */
  lemma FieldParts(l: Layout, field: nat)
    requires l.Fits() && field < 32
    ensures var (delay, side, printed) :=
              (DelayOf(field, l.count, l.opt), SideOf(field, l.count, l.opt), SidePrinted(field, l.count, l.opt));
            && l.DelayBits() == DelayWidth(l.count, l.opt)
            && 0 <= delay < Pow2(l.DelayBits()) && 0 <= side < Pow2(l.count)
            && (printed ==> delay + side * Pow2(l.DelayBits()) + 16 * l.OptBit() == field)
            && (printed ==> l.opt || l.count > 0)
            && (!printed && !l.opt ==> l.count == 0 && delay == field)
            && (!printed && l.opt ==> (delay == field <==> side == 0))
  {
    var n := l.DelayBits();
    var (p, q) := (Pow2(n), Pow2(l.count));
    Pow2Sum(n, l.count);
    Pow2Values();
    assert p * q == if l.opt then 16 else 32;
    CutTwice(field, p, q);
    NoMultiple(field / p, p);
    assert DelayWidth(l.count, l.opt) == n;
    DivMod(field / p, q);
    DivMod(field, p);
  }

  lemma DelayBound(field: nat, count: nat, opt: bool)
    ensures 0 <= DelayOf(field, count, opt) <= field
  {
    ModLe(field, Pow2(DelayWidth(count, opt)));
  }

  lemma FieldComesBack(l: Layout, field: nat)
    requires l.Fits() && field < 32
    ensures DelaySideset(l, SideValue(field, l.count, l.opt), DelayOf(field, l.count, l.opt))
         == Ok(CanonicalField(field, l.count, l.opt))
    ensures CanonicalField(field, l.count, l.opt) < 32
  {
    hide DelayOf, SideOf, SidePrinted, Pow2;
    FieldParts(l, field);
    ModLe(field, Pow2(DelayWidth(l.count, l.opt)));
    DelayBound(field, l.count, l.opt);
  }

  // ---------------------------------------------------------------- the word

  lemma LowBound(w: Half)
    ensures CanonicalLow(Decode(w)) < 256
    ensures OpcodeOf(Decode(w).op) == w / 8192
  {
  }

  /** The word that printing and assembling leave of `w`. */
  function Canonical(w: Half, l: Layout): Half
    requires l.Fits()
  {
    FieldComesBack(l, Decode(w).delaySideset);
    LowBound(w);
    Join(w / 8192, CanonicalField(Decode(w).delaySideset, l.count, l.opt), CanonicalLow(Decode(w)))
  }

  /** Printing any word and assembling the text, under any symbols, stops at the
      `?` of a reserved selector and otherwise gives the canonical word. */
  lemma Reassembles(w: Half, l: Layout, syms: Symbols)
    requires l.Fits()
    ensures AssembleText(l, syms, Text(w, l.count, l.opt))
         == if Reserved(Decode(w)) then Err(UnexpectedCharacter('?')) else Ok(Canonical(w, l))
  {
    hide Tokens, Reserved, Decode, Extract, EncodeBody, DelaySideset, CoreTokens, SideTokens, DelayTokens, Text,
         CanonicalLow, CanonicalField, Plain, InRange, SideValue, DelayOf, Join, OpcodeOf;
    var d := Decode(w);
    TextTokens(w, l.count, l.opt);
    DecodedInRange(w);
    LowBound(w);
    if !Reserved(d) {
      CoreAssembles(d, syms);
      ExtractPrinted(CoreTokens(d), d.delaySideset, l.count, l.opt, syms);
      FieldComesBack(l, d.delaySideset);
    }
  }

  // --------------------------------------------------------- which words survive

  /** The low byte of a word, put together from its decoded operands. */
  predicate LowIs(w: Half) {
    var (d, low) := (Decode(w), w % 256);
    && (d.op == JMP ==> low == 32 * d.condition + d.address)
    && (d.op == WAIT ==> low == (if d.polarity then 128 else 0) + 32 * d.source + d.index)
    && (d.op == IN ==> low == 32 * d.source + d.bitCount % 32)
    && (d.op == OUT ==> low == 32 * d.destination + d.bitCount % 32)
    && (d.op == PUSH ==> low == (if d.ifFull then 64 else 0) + (if d.block then 32 else 0) + w % 32)
    && (d.op == PULL ==> low == 128 + (if d.ifEmpty then 64 else 0) + (if d.block then 32 else 0) + w % 32)
    && (d.op == MOV ==> low == 32 * d.destination + 8 * d.movOp + d.source)
    && (d.op == IRQ ==> low == 128 * (w / 128 % 2) + (if d.clear then 64 else 0) + (if d.wait then 32 else 0) + d.index)
    && (d.op == SET ==> low == 32 * d.destination + d.data)
  }

  lemma LowByte(w: Half)
    ensures LowIs(w)
  {
    Digits(w);
    if w / 8192 < 4 {
      LowByteFirst(w);
    } else {
      LowByteLast(w);
    }
  }

  lemma LowByteFirst(w: Half)
    requires w / 8192 < 4
    requires w % 256 == 32 * (w / 32 % 8) + w % 32 && w / 32 % 8 == 4 * (w / 128 % 2) + w / 32 % 4
    ensures LowIs(w)
  {
  }

  lemma LowByteLast(w: Half)
    requires w / 8192 >= 4
    requires w % 256 == 32 * (w / 32 % 8) + w % 32 && w / 32 % 8 == 4 * (w / 128 % 2) + w / 32 % 4
    requires w / 32 % 4 == 2 * (w / 64 % 2) + w / 32 % 2 && w % 32 == 8 * (w / 8 % 4) + w % 8
    ensures LowIs(w)
  {
  }

  lemma Digits(w: nat)
    ensures w % 256 == 32 * (w / 32 % 8) + w % 32
    ensures w / 32 % 8 == 4 * (w / 128 % 2) + w / 32 % 4 && w / 32 % 4 == 2 * (w / 64 % 2) + w / 32 % 2
    ensures w % 32 == 8 * (w / 8 % 4) + w % 8
  {
    DivDiv(w, 32, 8);
    DivDiv(w, 8, 4);
    DivDiv(w, 32, 4);
    DivDiv(w / 32, 4, 2);
    DivDiv(w, 32, 2);
    DivDiv(w / 32, 2, 2);
  }

  predicate LowSurvives(w: Half) {
    var d := Decode(w);
    && (d.op == WAIT ==> d.source == WAIT_IRQ || (d.source != 3 && d.index < 16))
    && (d.op == PUSH || d.op == PULL ==> w % 32 == 0)
    && (d.op == MOV ==> d.movOp != 3)
    && (d.op == IRQ ==> w / 128 % 2 == 0 && !(d.clear && d.wait))
  }

  /** The words the two programs agree on: no reserved selector, unused bits
      clear, a WAIT index the printer shows whole, not both IRQ clear and IRQ
      wait, and no side-set value under a clear enable bit. */
  predicate Survives(w: Half, l: Layout) {
    var field := Decode(w).delaySideset;
    && !Reserved(Decode(w))
    && LowSurvives(w)
    && (l.opt && !SidePrinted(field, l.count, l.opt) ==> SideOf(field, l.count, l.opt) == 0)
  }

  lemma PlainComesBack(w: Half)
    requires LowIs(w) && InRange(Decode(w)) && Decode(w).op in {JMP, IN, OUT, SET}
    ensures CanonicalLow(Decode(w)) == w % 256 && LowSurvives(w)
  {
    hide Decode;
  }

  lemma WaitComesBack(w: Half)
    requires LowIs(w) && InRange(Decode(w)) && Decode(w).op == WAIT
    ensures CanonicalLow(Decode(w)) == w % 256 <==> LowSurvives(w)
  {
    hide Decode;
  }

  lemma FlagsComeBack(w: Half)
    requires LowIs(w) && InRange(Decode(w)) && Decode(w).op in {PUSH, PULL, IRQ}
    ensures CanonicalLow(Decode(w)) == w % 256 <==> LowSurvives(w)
  {
    hide Decode;
  }

  lemma MovComesBack(w: Half)
    requires LowIs(w) && InRange(Decode(w)) && Decode(w).op == MOV
    ensures CanonicalLow(Decode(w)) == w % 256 <==> LowSurvives(w)
  {
    hide Decode;
  }

  lemma LowComesBack(w: Half)
    ensures CanonicalLow(Decode(w)) == w % 256 <==> LowSurvives(w)
  {
    hide Decode, LowIs, CanonicalLow, LowSurvives, InRange;
    LowByte(w);
    DecodedInRange(w);
    match Decode(w).op
    case WAIT => WaitComesBack(w);
    case PUSH => FlagsComeBack(w);
    case PULL => FlagsComeBack(w);
    case IRQ => FlagsComeBack(w);
    case MOV => MovComesBack(w);
    case _ => PlainComesBack(w);
  }

  lemma FieldSurvives(l: Layout, field: nat)
    requires l.Fits() && field < 32
    ensures CanonicalField(field, l.count, l.opt) == field
       <==> (l.opt && !SidePrinted(field, l.count, l.opt) ==> SideOf(field, l.count, l.opt) == 0)
  {
    hide DelayOf, SideOf, SidePrinted, Pow2;
    FieldParts(l, field);
  }

  lemma JoinIs(w: Half, field: nat, low: nat)
    requires field < 32 && low < 256
    ensures Join(w / 8192, field, low) == w <==> field == w / 256 % 32 && low == w % 256
  {
  }

  lemma FieldIs(w: Half)
    ensures Decode(w).delaySideset == w / 256 % 32
  {
  }

  /** Assembling undoes disassembling for exactly the words of `Survives`. */
  lemma RoundTripIff(w: Half, l: Layout, syms: Symbols)
    requires l.Fits()
    ensures AssembleText(l, syms, Text(w, l.count, l.opt)) == Ok(w) <==> Survives(w, l)
  {
    hide AssembleText, Text, CanonicalLow, CanonicalField, Reserved, SidePrinted, SideOf, Decode, LowSurvives,
         OpcodeOf, Join;
    Reassembles(w, l, syms);
    if !Reserved(Decode(w)) {
      LowComesBack(w);
      LowBound(w);
      FieldIs(w);
      FieldComesBack(l, Decode(w).delaySideset);
      FieldSurvives(l, Decode(w).delaySideset);
      JoinIs(w, CanonicalField(Decode(w).delaySideset, l.count, l.opt), CanonicalLow(Decode(w)));
    }
  }
}
