/** How the assembler reads the tokens of a printed instruction: piece by piece,
    and one kind of instruction at a time.  These are the steps of the round
    trip that PioRoundTrip.dfy states. */
module PioReadBack {
  import opened AsmText
  import opened AsmTextLemmas
  import opened AsmExpr
  import opened AsmEncode
  import opened Words
  import opened PioIsa
  import opened PioDisasm
  import opened PioDisasmTokens

  // ------------------------------------------------------- what comes back

  /** Bits 7:0 as the assembler writes them for the printed operands: unused
      bits clear, WAIT indices below 16 except for an IRQ, clear before wait. */
  function CanonicalLow(d: PioInstr): nat {
    match d.op
    case JMP => 32 * d.condition + d.address
    case WAIT =>
      (if d.polarity then 128 else 0)
      + (if d.source == WAIT_IRQ then 64 + d.index
         else if d.source == 3 then 64 + d.index % 16
         else 32 * d.source + d.index % 16)
    case IN => 32 * d.source + d.bitCount % 32
    case OUT => 32 * d.destination + d.bitCount % 32
    case PUSH => (if d.ifFull then 64 else 0) + if d.block then 32 else 0
    case PULL => 128 + (if d.ifEmpty then 64 else 0) + if d.block then 32 else 0
    case MOV => 32 * d.destination + (if d.movOp == 3 then 0 else 8 * d.movOp) + d.source
    case IRQ => (if d.clear then 64 else if d.wait then 32 else 0) + d.index
    case SET => 32 * d.destination + d.data
  }

  /** Bits 12:8: a side-set value under a clear enable bit is dropped. */
  function CanonicalField(field: nat, count: nat, opt: bool): nat {
    ModLe(field, Pow2(DelayWidth(count, opt)));
    if opt && !SidePrinted(field, count, opt) then DelayOf(field, count, opt) else field
  }

  // ---------------------------------------------------------- printed tokens

  function SideTokens(field: nat, count: nat, opt: bool): seq<string> {
    if SidePrinted(field, count, opt) then ["side", Dec(SideOf(field, count, opt))] else []
  }

  function DelayTokens(field: nat, count: nat, opt: bool): seq<string> {
    ModLe(field, Pow2(DelayWidth(count, opt)));
    if DelayOf(field, count, opt) > 0 then ["[", Dec(DelayOf(field, count, opt)), "]"] else []
  }

  lemma SideReads(s: string, field: nat, count: nat, opt: bool)
    ensures Tokens(s + SideText(field, count, opt)) == Then(Tokens(s), Ok(SideTokens(field, count, opt)))
  {
    hide Tokens, SidePrinted, SideOf;
    if SidePrinted(field, count, opt) {
      var n := SideOf(field, count, opt);
      DecToken(n);
      WordSpaceOk("side", Dec(n), [Dec(n)]);
      assert ["side"] + [Dec(n)] == ["side", Dec(n)];
      TokensSpace(s, "side" + " " + Dec(n));
      assert s + " " + ("side" + " " + Dec(n)) == s + (" side " + Dec(n));
    } else {
      AppendNothing(s);
    }
  }

  lemma AppendNothing(s: string)
    ensures Tokens(s + "") == Then(Tokens(s), Ok([]))
  {
    assert s + "" == s;
    if Tokens(s).Ok? {
      assert Tokens(s).value + [] == Tokens(s).value;
    }
  }

  lemma CloseReads()
    ensures Tokens("]") == Ok(["]"])
  {
    TokensPunct(']', "");
    assert [']'] + "" == "]" && ["]"] + [] == ["]"];
  }

  lemma BracketReads(n: nat)
    ensures Tokens("[" + Dec(n) + "]") == Ok(["[", Dec(n), "]"])
  {
    hide Dec, Tokens;
    DecIsWord(n);
    CloseReads();
    TokensWordThen(Dec(n), "]");
    TokensPunct('[', Dec(n) + "]");
    assert ['['] + (Dec(n) + "]") == "[" + Dec(n) + "]";
    assert ["["] + ([Dec(n)] + ["]"]) == ["[", Dec(n), "]"];
  }

  lemma DelayReads(s: string, field: nat, count: nat, opt: bool)
    ensures Tokens(s + DelayText(field, count, opt)) == Then(Tokens(s), Ok(DelayTokens(field, count, opt)))
  {
    hide Tokens;
    var n := DelayOf(field, count, opt);
    ModLe(field, Pow2(DelayWidth(count, opt)));
    if n > 0 {
      BracketReads(n);
      TokensSpace(s, "[" + Dec(n) + "]");
      assert s + " " + ("[" + Dec(n) + "]") == s + (" [" + Dec(n) + "]");
    } else {
      AppendNothing(s);
    }
  }

  lemma DecodedInRange(w: Half)
    ensures InRange(Decode(w))
  {
  }

  function TextTokensOf(d: PioInstr, count: nat, opt: bool): seq<string> {
    CoreTokens(d) + SideTokens(d.delaySideset, count, opt) + DelayTokens(d.delaySideset, count, opt)
  }

  lemma TextTokens(w: Half, count: nat, opt: bool)
    ensures Tokens(Text(w, count, opt))
         == if Reserved(Decode(w)) then Err(UnexpectedCharacter('?')) else Ok(TextTokensOf(Decode(w), count, opt))
  {
    hide Tokens, CoreTokens, InstructionText, Reserved, InRange, Decode, SideTokens, DelayTokens, SideText, DelayText;
    var d := Decode(w);
    DecodedInRange(w);
    InstructionTokens(d);
    SideReads(InstructionText(d), d.delaySideset, count, opt);
    DelayReads(InstructionText(d) + SideText(d.delaySideset, count, opt), d.delaySideset, count, opt);
  }

  // --------------------------------------------------- splitting off the operands

  predicate Plain(ts: seq<string>) { forall i :: 0 <= i < |ts| ==> Lower(ts[i]) != "side" && ts[i] != "[" }

  lemma {:induction false} ExtractPlain(core: seq<string>, tail: seq<string>, syms: Symbols, found: Operands)
    requires Plain(core)
    ensures Extract(core + tail, syms, found) == Extract(tail, syms, found.(core := found.core + core))
    decreases |core|
  {
    if core == [] {
      assert core + tail == tail && found.core + core == found.core;
    } else {
      assert (core + tail)[1..] == core[1..] + tail;
      assert Plain(core[1..]);
      ExtractPlain(core[1..], tail, syms, found.(core := found.core + [core[0]]));
      assert found.core + [core[0]] + core[1..] == found.core + core;
    }
  }

  /** A printed number followed by anything that is no operator reads as that number. */
  lemma NumberReads(n: nat, rest: seq<string>, syms: Symbols)
    requires n <= INT64_MAX && !Continued(rest)
    ensures Sum([Dec(n)] + rest, syms) == Ok(Parsed(n, rest))
  {
    EvaluatorReadsTree(Num(n), rest, syms);
    assert Show(Num(n), SUM) == [Dec(n)];
  }

  function SideValue(field: nat, count: nat, opt: bool): Option<int> {
    if SidePrinted(field, count, opt) then Some(SideOf(field, count, opt)) else None
  }

  lemma ExtractPrinted(core: seq<string>, field: nat, count: nat, opt: bool, syms: Symbols)
    requires Plain(core) && field < 32
    ensures Extract(core + SideTokens(field, count, opt) + DelayTokens(field, count, opt), syms, Operands([], None, 0))
         == Ok(Operands(core, SideValue(field, count, opt), DelayOf(field, count, opt)))
  {
    hide SidePrinted, Sum, Dec, Plain;
    var side := SideValue(field, count, opt);
    var (ss, ds) := (SideTokens(field, count, opt), DelayTokens(field, count, opt));
    ModLe(field, Pow2(DelayWidth(count, opt)));
    DivLe(field, Pow2(DelayWidth(count, opt)));
    ModLe(field / Pow2(DelayWidth(count, opt)), Pow2(count));
    assert core + ss + ds == core + (ss + ds);
    ExtractPlain(core, ss + ds, syms, Operands([], None, 0));
    assert [] + core == core;
    ExtractSide(core, ss, ds, side, syms);
    ExtractDelay(Operands(core, side, 0), DelayOf(field, count, opt), syms);
  }

  lemma ExtractSide(core: seq<string>, ss: seq<string>, ds: seq<string>, side: Option<int>, syms: Symbols)
    requires side.Some? ==> 0 <= side.value <= INT64_MAX
    requires ss == if side.Some? then ["side", Dec(side.value)] else []
    requires ds == [] || ds[0] == "["
    ensures Extract(ss + ds, syms, Operands(core, None, 0)) == Extract(ds, syms, Operands(core, side, 0))
  {
    hide Sum, Dec;
    if side.Some? {
      NumberReads(side.value, ds, syms);
      assert (ss + ds)[1..] == [Dec(side.value)] + ds;
    } else {
      assert ss + ds == ds;
    }
  }

  lemma ExtractDelay(found: Operands, delay: nat, syms: Symbols)
    requires found.delay == 0 && delay <= INT64_MAX
    ensures Extract(if delay > 0 then ["[", Dec(delay), "]"] else [], syms, found) == Ok(found.(delay := delay))
  {
    hide Sum, Dec;
    if delay > 0 {
      var ts := ["[", Dec(delay), "]"];
      NumberReads(delay, ["]"], syms);
      assert ts[1..] == [Dec(delay)] + ["]"];
      assert Extract(ts, syms, found) == Extract(["]"][1..], syms, found.(delay := delay));
    }
  }

  // ------------------------------------------------------------- the operands

  function OpcodeOf(op: Op): nat {
    match op
    case JMP => 0
    case WAIT => 1
    case IN => 2
    case OUT => 3
    case PUSH => 4
    case PULL => 4
    case MOV => 5
    case IRQ => 6
    case SET => 7
  }

  predicate Assembles(core: seq<string>, syms: Symbols, body: Body) {
    core != [] && Plain(core) && EncodeBody(core[0], DropCommas(core[1..]), syms) == Ok(body)
  }

  lemma {:induction false} NoCommas(ts: seq<string>)
    requires forall i :: 0 <= i < |ts| ==> ts[i] != ","
    ensures DropCommas(ts) == ts
  {
    if ts != [] {
      NoCommas(ts[1..]);
    }
  }

  lemma DropHead(t: string, ts: seq<string>)
    ensures DropCommas([t] + ts) == (if t == "," then [] else [t]) + DropCommas(ts)
  {
    assert ([t] + ts)[1..] == ts;
  }

  lemma OneComma(name: string, ts: seq<string>)
    requires name != "," && forall i :: 0 <= i < |ts| ==> ts[i] != ","
    ensures DropCommas([name, ","] + ts) == [name] + ts
  {
    hide DropCommas;
    DropHead(name, [","] + ts);
    DropHead(",", ts);
    NoCommas(ts);
    assert [name, ","] + ts == [name] + ([","] + ts);
    assert [] + ts == ts;
  }

  /** A numeral is no keyword, no comma and no bracket. */
  lemma DecPlain(n: nat)
    ensures Lower(Dec(n)) == Dec(n) && IsDigit(Dec(n)[0])
    ensures Plain([Dec(n)]) && Dec(n) != ","
  {
    DecIsWord(n);
  }

  lemma NumberOperand(n: nat, lo: int, hi: int, syms: Symbols)
    requires lo <= n <= hi && n <= INT64_MAX
    ensures Operand([Dec(n)], syms, lo, hi) == Ok(n)
  {
    NumberReads(n, [], syms);
    assert [Dec(n)] + [] == [Dec(n)];
  }

  lemma NumberIndex(n: nat, rel: bool, relAllowed: bool, syms: Symbols)
    requires n < 16 && (rel ==> relAllowed)
    ensures Index([Dec(n)] + RelToken(rel), syms, relAllowed) == Ok(if rel then n + 16 else n)
  {
    hide Sum, Dec;
    NumberReads(n, RelToken(rel), syms);
    if rel {
      assert ["rel"][1..] == [];
      assert Lower("rel") == "rel";
    }
  }

  lemma JmpEncodes(condition: nat, address: nat, syms: Symbols)
    requires condition < 8 && address < 32
    ensures EncJmp(ConditionTokens(condition) + [Dec(address)], syms) == Ok(32 * condition + address)
  {
    hide Operand, Dec;
    var cs := ConditionTokens(condition);
    var a := cs + [Dec(address)];
    DecPlain(address);
    ConditionNames(condition, Dec(address));
    assert a[|cs|..] == [Dec(address)];
    NumberOperand(address, 0, 31, syms);
  }

  lemma ConditionNames(c: nat, n: string)
    requires c < 8 && n != "" && Lower(n) == n && IsDigit(n[0])
    ensures Condition(ConditionTokens(c) + [n]) == (c, |ConditionTokens(c)|)
  {
    assert Lower("!") == "!" && Lower("x") == "x" && Lower("y") == "y" && Lower("--") == "--";
    assert Lower("!=") == "!=" && Lower("pin") == "pin" && Lower("osre") == "osre";
  }

  lemma WaitEncodes(polarity: nat, source: nat, index: nat, rel: bool, syms: Symbols)
    requires polarity < 2 && source < 4 && index < 16 && (rel ==> source == WAIT_IRQ)
    ensures var code := if source == 3 then 2 else source;
            && WaitSource(Lower(WaitName(source))) == Some(code)
            && EncWait([Dec(polarity), WaitName(source), Dec(index)] + RelToken(rel), syms)
            == Ok(128 * polarity + 32 * code + if rel then index + 16 else index)
  {
    hide Sum, Dec, Index;
    var tail := [WaitName(source), Dec(index)] + RelToken(rel);
    NumberReads(polarity, tail, syms);
    var a := [Dec(polarity), WaitName(source), Dec(index)] + RelToken(rel);
    assert a == [Dec(polarity)] + tail;
    assert tail[1..] == [Dec(index)] + RelToken(rel);
    NumberIndex(index, rel, (if source == 3 then 2 else source) == WAIT_IRQ, syms);
  }

  lemma InOutEncodes(name: string, out: bool, code: nat, count: nat, syms: Symbols)
    requires (if out then OutCode(Lower(name)) else InCode(Lower(name))) == Some(code)
    requires code < 8 && 1 <= count <= 32
    ensures EncInOut([name, Dec(count)], syms, out) == Ok(32 * code + count % 32)
  {
    hide Operand, Dec, OutCode, InCode;
    assert [name, Dec(count)][1..] == [Dec(count)];
    NumberOperand(count, 1, 32, syms);
  }

  lemma SetEncodes(name: string, code: nat, value: nat, syms: Symbols)
    requires SetCode(Lower(name)) == Some(code) && code < 8 && value < 32
    ensures EncSet([name, Dec(value)], syms) == Ok(32 * code + value)
  {
    hide Operand, Dec, SetCode;
    assert [name, Dec(value)][1..] == [Dec(value)];
    NumberOperand(value, 0, 31, syms);
  }

  lemma Mnemonic(m: string)
    requires IsLowerWord(m)
    ensures Lower(m) == m
  {
  }

  // Each name table and its code table are inverse to each other.

  lemma InNames(code: nat)
    requires code < 8 && InName(code) != "?"
    ensures InCode(Lower(InName(code))) == Some(code)
  {
    Mnemonic(InName(code));
  }

  lemma OutNames(code: nat)
    requires code < 8
    ensures OutName(code) != "?" && OutCode(Lower(OutName(code))) == Some(code)
  {
    Mnemonic(OutName(code));
  }

  lemma MovSourceNames(code: nat)
    requires code < 8 && MovSourceName(code) != "?"
    ensures MovSource(Lower(MovSourceName(code))) == Some(code)
  {
    Mnemonic(MovSourceName(code));
  }

  lemma MovDestinationNames(code: nat)
    requires code < 8 && MovDestinationName(code) != "?"
    ensures MovDestination(Lower(MovDestinationName(code))) == Some(code)
  {
    Mnemonic(MovDestinationName(code));
  }

  lemma SetNames(code: nat)
    requires code < 8 && SetName(code) != "?"
    ensures SetCode(Lower(SetName(code))) == Some(code)
  {
    Mnemonic(SetName(code));
  }

  lemma FlagsEncode(pull: bool, flagged: bool, block: bool)
    ensures EncPushPull((if flagged then [if pull then "ifempty" else "iffull"] else []) + [BlockToken(block)],
                        pull, false, true)
         == Ok((if flagged then 64 else 0) + if block then 32 else 0)
  {
    var last := [BlockToken(block)];
    LastFlag(pull, flagged, block);
    if flagged {
      var flag := if pull then "ifempty" else "iffull";
      LowerWord(flag);
      assert ([flag] + last)[1..] == last;
    } else {
      assert [] + last == last;
    }
  }

  lemma LastFlag(pull: bool, flagged: bool, block: bool)
    ensures EncPushPull([BlockToken(block)], pull, flagged, true)
         == Ok((if flagged then 64 else 0) + if block then 32 else 0)
  {
    LowerWord(BlockToken(block));
    assert [BlockToken(block)][1..] == [];
  }

  lemma MovEncodes(destination: string, d: nat, op: nat, source: string, s: nat)
    requires MovDestination(Lower(destination)) == Some(d) && MovSource(Lower(source)) == Some(s)
    requires d < 8 && s < 8 && op < 4
    ensures EncMov([destination] + MovOpTokens(op) + [source])
         == Ok(32 * d + (if op == 3 then 0 else 8 * op) + s)
  {
    hide MovDestination;
    assert Lower("~") == "~" && Lower("::") == "::";
  }

  lemma IrqEncodes(mode: string, index: nat, rel: bool, syms: Symbols)
    requires (mode == "clear" || mode == "wait" || mode == "set") && index < 16
    ensures EncIrq([mode, Dec(index)] + RelToken(rel), syms)
         == Ok((if mode == "clear" then 64 else if mode == "wait" then 32 else 0) + if rel then index + 16 else index)
  {
    hide Index, Dec;
    LowerWord(mode);
    var a := [mode, Dec(index)] + RelToken(rel);
    assert a[1..] == [Dec(index)] + RelToken(rel);
    NumberIndex(index, rel, true, syms);
  }

  // ------------------------------------------------------ whole instructions

  predicate NoComma(ts: seq<string>) { forall i :: 0 <= i < |ts| ==> ts[i] != "," }

  /** A mnemonic and operands without commas. */
  lemma PlainForm(m: string, operands: seq<string>, syms: Symbols, body: Body)
    requires IsLowerWord(m) && m != "side" && Plain(operands) && NoComma(operands)
    requires EncodeBody(m, operands, syms) == Ok(body)
    ensures Assembles([m] + operands, syms, body)
  {
    hide EncodeBody, Lower;
    Mnemonic(m);
    NoCommas(operands);
    var core := [m] + operands;
    assert core[1..] == operands && core[0] == m && m[0] != '[';
    assert forall i :: 0 < i < |core| ==> core[i] == operands[i - 1];
  }

  lemma JmpAssembles(d: PioInstr, syms: Symbols)
    requires d.op == JMP && InRange(d)
    ensures Assembles(CoreTokens(d), syms, Body(0, CanonicalLow(d)))
  {
    hide EncJmp, Dec, Lower, Assembles;
    var operands := ConditionTokens(d.condition) + [Dec(d.address)];
    DecPlain(d.address);
    Mnemonic("jmp");
    ConditionPlain(d.condition);
    JmpEncodes(d.condition, d.address, syms);
    PlainForm("jmp", operands, syms, Body(0, CanonicalLow(d)));
    assert CoreTokens(d) == ["jmp"] + operands;
  }

  lemma ConditionPlain(c: nat)
    requires c < 8
    ensures Plain(ConditionTokens(c)) && NoComma(ConditionTokens(c))
  {
  }

  lemma WaitAssembles(d: PioInstr, syms: Symbols)
    requires d.op == WAIT && InRange(d)
    ensures Assembles(CoreTokens(d), syms, Body(1, CanonicalLow(d)))
  {
    hide EncWait, Dec, Lower, Assembles, WaitName, WaitSource, RelToken, Plain, NoComma;
    var polarity := if d.polarity then 1 else 0;
    var rel := d.source == WAIT_IRQ && d.index / 16 % 2 == 1;
    var operands := [Dec(polarity), WaitName(d.source), Dec(d.index % 16)] + RelToken(rel);
    Mnemonic("wait");
    WaitPlain(polarity, d.source, d.index % 16, rel);
    WaitEncodes(polarity, d.source, d.index % 16, rel, syms);
    PlainForm("wait", operands, syms, Body(1, CanonicalLow(d)));
    assert CoreTokens(d) == ["wait"] + operands;
  }

  lemma WaitPlain(polarity: nat, source: nat, index: nat, rel: bool)
    ensures Plain([Dec(polarity), WaitName(source), Dec(index)] + RelToken(rel))
    ensures NoComma([Dec(polarity), WaitName(source), Dec(index)] + RelToken(rel))
  {
    hide Dec;
    DecPlain(polarity);
    DecPlain(index);
    Mnemonic("rel");
    Mnemonic(WaitName(source));
  }

  lemma CommaLower()
    ensures Lower(",") == ","
  {
  }

  /** A mnemonic, a name, a comma and the rest. */
  lemma CommaForm(m: string, name: string, rest: seq<string>, syms: Symbols, body: Body)
    requires IsLowerWord(m) && m != "side" && IsLowerWord(name) && name != "side"
    requires Plain(rest) && NoComma(rest)
    requires EncodeBody(m, [name] + rest, syms) == Ok(body)
    ensures Assembles([m, name, ","] + rest, syms, body)
  {
    hide EncodeBody, Lower;
    LowerWord(m);
    LowerWord(name);
    OneComma(name, rest);
    var core := [m, name, ","] + rest;
    assert core[1..] == [name, ","] + rest;
    CommaLower();
  }

  lemma InAssembles(d: PioInstr, syms: Symbols)
    requires d.op == IN && InRange(d) && !Reserved(d)
    ensures Assembles(CoreTokens(d), syms, Body(2, CanonicalLow(d)))
  {
    hide EncInOut, Dec, Lower, Assembles, InCode;
    var name := InName(d.source);
    InNames(d.source);
    InOutEncodes(name, false, d.source, d.bitCount, syms);
    DecPlain(d.bitCount);
    Mnemonic("in");
    assert [name] + [Dec(d.bitCount)] == [name, Dec(d.bitCount)];
    CommaForm("in", name, [Dec(d.bitCount)], syms, Body(2, CanonicalLow(d)));
    assert CoreTokens(d) == ["in", name, ","] + [Dec(d.bitCount)];
  }

  lemma OutAssembles(d: PioInstr, syms: Symbols)
    requires d.op == OUT && InRange(d)
    ensures Assembles(CoreTokens(d), syms, Body(3, CanonicalLow(d)))
  {
    hide EncInOut, Dec, Lower, Assembles, OutCode;
    var name := OutName(d.destination);
    OutNames(d.destination);
    InOutEncodes(name, true, d.destination, d.bitCount, syms);
    DecPlain(d.bitCount);
    Mnemonic("out");
    assert [name] + [Dec(d.bitCount)] == [name, Dec(d.bitCount)];
    CommaForm("out", name, [Dec(d.bitCount)], syms, Body(3, CanonicalLow(d)));
    assert CoreTokens(d) == ["out", name, ","] + [Dec(d.bitCount)];
  }

  lemma SetAssembles(d: PioInstr, syms: Symbols)
    requires d.op == SET && InRange(d) && !Reserved(d)
    ensures Assembles(CoreTokens(d), syms, Body(7, CanonicalLow(d)))
  {
    hide EncSet, Dec, Lower, Assembles, SetCode;
    var name := SetName(d.destination);
    SetNames(d.destination);
    SetEncodes(name, d.destination, d.data, syms);
    DecPlain(d.data);
    Mnemonic("set");
    assert [name] + [Dec(d.data)] == [name, Dec(d.data)];
    CommaForm("set", name, [Dec(d.data)], syms, Body(7, CanonicalLow(d)));
    assert CoreTokens(d) == ["set", name, ","] + [Dec(d.data)];
  }

  lemma PushPullAssembles(d: PioInstr, syms: Symbols)
    requires d.op == PUSH || d.op == PULL
    ensures Assembles(CoreTokens(d), syms, Body(4, CanonicalLow(d)))
  {
    hide EncPushPull, Lower, BlockToken, Assembles, Plain, NoComma;
    if d.op == PULL {
      FlagForm("pull", true, d.ifEmpty, d.block, syms, 128);
    } else {
      FlagForm("push", false, d.ifFull, d.block, syms, 0);
    }
  }

  lemma FlagForm(m: string, pull: bool, flagged: bool, block: bool, syms: Symbols, base: nat)
    requires m == if pull then "pull" else "push"
    requires base == if pull then 128 else 0
    ensures Assembles([m] + (if flagged then [if pull then "ifempty" else "iffull"] else []) + [BlockToken(block)],
        syms,
                      Body(4, base + (if flagged then 64 else 0) + if block then 32 else 0))
  {
    hide EncPushPull, Lower, BlockToken, Assembles, Plain, NoComma;
    var flags := if flagged then [if pull then "ifempty" else "iffull"] else [];
    var body := Body(4, base + (if flagged then 64 else 0) + if block then 32 else 0);
    Mnemonic(m);
    FlagsPlain(pull, flagged, block);
    FlagsEncode(pull, flagged, block);
    PlainForm(m, flags + [BlockToken(block)], syms, body);
    assert [m] + flags + [BlockToken(block)] == [m] + (flags + [BlockToken(block)]);
  }

  lemma FlagsPlain(pull: bool, flagged: bool, block: bool)
    ensures var flags := if flagged then [if pull then "ifempty" else "iffull"] else [];
            Plain(flags + [BlockToken(block)]) && NoComma(flags + [BlockToken(block)])
  {
    Mnemonic(BlockToken(block));
    Mnemonic("ifempty");
    Mnemonic("iffull");
  }

  lemma MovAssembles(d: PioInstr, syms: Symbols)
    requires d.op == MOV && InRange(d) && !Reserved(d)
    ensures Assembles(CoreTokens(d), syms, Body(5, CanonicalLow(d)))
  {
    hide EncMov, Lower, Assembles, MovDestination, MovSource, MovOpTokens;
    MovDestinationNames(d.destination);
    MovSourceNames(d.source);
    MovForm(MovDestinationName(d.destination), d.destination, d.movOp, MovSourceName(d.source), d.source, syms);
  }

  lemma MovForm(destination: string, d: nat, op: nat, source: string, s: nat, syms: Symbols)
    requires MovDestination(Lower(destination)) == Some(d) && MovSource(Lower(source)) == Some(s)
    requires d < 8 && s < 8 && op < 4
    requires IsLowerWord(destination) && destination != "side" && IsLowerWord(source) && source != "side"
    ensures Assembles(["mov", destination, ","] + MovOpTokens(op) + [source], syms,
                      Body(5, 32 * d + (if op == 3 then 0 else 8 * op) + s))
  {
    hide EncMov, Lower, Assembles, MovDestination, MovSource, MovOpTokens, Plain, NoComma;
    var rest := MovOpTokens(op) + [source];
    var body := Body(5, 32 * d + (if op == 3 then 0 else 8 * op) + s);
    MovEncodes(destination, d, op, source, s);
    Mnemonic("mov");
    MovPlain(op, source);
    assert [destination] + MovOpTokens(op) + [source] == [destination] + rest;
    CommaForm("mov", destination, rest, syms, body);
    assert ["mov", destination, ","] + rest == ["mov", destination, ","] + MovOpTokens(op) + [source];
  }

  lemma MovPlain(op: nat, source: string)
    requires IsLowerWord(source) && source != "side"
    ensures var rest := MovOpTokens(op) + [source];
            Plain(rest) && NoComma(rest)
  {
    Mnemonic(source);
    assert Lower("~") == "~" && Lower("::") == "::" && source[0] != '[' && source[0] != ',';

  }

  lemma IrqAssembles(d: PioInstr, syms: Symbols)
    requires d.op == IRQ && InRange(d)
    ensures Assembles(CoreTokens(d), syms, Body(6, CanonicalLow(d)))
  {
    hide EncIrq, Dec, Lower, Assembles, RelToken, Plain, NoComma;
    var rel := d.index / 16 % 2 == 1;
    var operands := [IrqMode(d), Dec(d.index % 16)] + RelToken(rel);
    Mnemonic("irq");
    IrqPlain(IrqMode(d), d.index % 16, rel);
    IrqEncodes(IrqMode(d), d.index % 16, rel, syms);
    PlainForm("irq", operands, syms, Body(6, CanonicalLow(d)));
    assert CoreTokens(d) == ["irq"] + operands;
  }

  lemma IrqPlain(mode: string, index: nat, rel: bool)
    requires mode == "clear" || mode == "wait" || mode == "set"
    ensures Plain([mode, Dec(index)] + RelToken(rel)) && NoComma([mode, Dec(index)] + RelToken(rel))
  {
    hide Dec;
    DecPlain(index);
    Mnemonic(mode);
    Mnemonic("rel");
  }

  /** Every printed instruction without a reserved selector assembles, whatever the symbols. */
  lemma CoreAssembles(d: PioInstr, syms: Symbols)
    requires InRange(d) && !Reserved(d)
    ensures Assembles(CoreTokens(d), syms, Body(OpcodeOf(d.op), CanonicalLow(d)))
  {
    hide Assembles, CoreTokens, CanonicalLow, InRange, Reserved;
    match d.op
    case JMP => JmpAssembles(d, syms);
    case WAIT => WaitAssembles(d, syms);
    case IN => InAssembles(d, syms);
    case OUT => OutAssembles(d, syms);
    case PUSH => PushPullAssembles(d, syms);
    case PULL => PushPullAssembles(d, syms);
    case MOV => MovAssembles(d, syms);
    case IRQ => IrqAssembles(d, syms);
    case SET => SetAssembles(d, syms);
  }
}
