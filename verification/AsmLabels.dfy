/** Where `jmp label` goes: to the number of instructions before the label,
    exactly when no later `.define` gives the name another value. */
module AsmLabels {
  import opened AsmText
  import opened AsmTextLemmas
  import opened AsmExpr
  import opened AsmEncode
  import opened Words
  import opened PioIsa
  import opened PioReadBack
  import opened AsmEmitted
  import opened AsmPasses

  /** The operands of an instruction line. */
  function OperandsOf(s: State, raw: string): Result<Operands>
    requires SplitLine(raw).Ok?
  {
    Extract(SplitLine(raw).value.toks, s.symbols, Operands([], None, 0))
  }

  /** A JMP, under any condition, delay and side-set value, whose target is just `name`. */
  predicate JumpsTo(s: State, raw: string, name: string) {
    && InstructionLine(raw) && OperandsOf(s, raw).Ok?
    && var core := OperandsOf(s, raw).value.core;
    && core != [] && Lower(core[0]) == "jmp"
    && var a := DropCommas(core[1..]);
    && a[Condition(a).1..] == [name]
  }

  lemma SymbolAlone(name: string, syms: Symbols)
    requires StartsLabel(name) && name in syms
    ensures Sum([name], syms) == Ok(Parsed(syms[name], []))
  {
    var ts := [name];
    assert ts[1..] == [];
    assert name[0] != '-' && name[0] != '~' && name[0] != ':' && name[0] != '(' && !IsDigit(name[0]);
    assert Unary(ts, syms) == Atom(ts, syms) == Ok(Parsed(syms[name], []));
    assert Product(ts, syms) == ProductLoop(syms[name], [], syms) == Ok(Parsed(syms[name], []));
    assert Sum(ts, syms) == SumLoop(syms[name], [], syms);
  }

  /** For every accepted program: `jmp name` decodes to the number of instructions
      before the line that declares `name`, if and only if the last `.define` of
      the name from that line on, if there is one, gives it that same value. */
  lemma JumpFindsLabel(lines: seq<string>, i: nat, j: nat, name: string)
    requires Assemble(lines).Ok? && i < |lines| && j < |lines|
    requires Declares(lines[i], name) && JumpsTo(Assemble(lines).value.state, lines[j], name)
    ensures Scan(INITIAL, lines[..i]).Ok?
    ensures var a := Assemble(lines).value;
            var at := InstructionsIn(lines[..j]);
            && at < |a.instructions|
            && Decode(a.instructions[at]).op == JMP
            && var redefined := LastDefined(Scan(INITIAL, lines[..i]).value, lines[i..], name);
            Decode(a.instructions[at]).address == InstructionsIn(lines[..i])
            <==> redefined == None || redefined == Some(InstructionsIn(lines[..i]))
  {
    hide Scan, Emit, InstructionsIn, Extract, EncodeBody, DelaySideset, Decode, Sum, Condition, DropCommas, Tokens,
         LastDefined, Close;
    var s := Assemble(lines).value.state;
    LabelCountsInstructions(lines, i, name);
    EmitPlaces(s, lines, [], j);
    DecodeReturnsOperands(s.layout, s.symbols, OperandsOf(s, lines[j]).value);
    SymbolAlone(name, s.symbols);
  }

  // ------------------------------------------------------- the failing family

  const REDEFINED: seq<string> := ["l: nop", ".define l 5", "jmp l"]

  lemma NoTokens()
    ensures Tokens("") == Ok([])
  {
  }

  lemma LabelTokens()
    ensures Tokens(REDEFINED[0]) == Ok(["l", ":", "nop"])
  {
    hide Tokens;
    TokensWord("nop");
    TokensPunct(':', "");
    assert [':'] + "" == ":" && [":"] + [] == [":"];
    NoTokens();
    TokensWordThen("l", ":");
    assert "l" + ":" == "l:" && ["l"] + [":"] == ["l", ":"];
    TokensSpace("l:", "nop");
    assert "l:" + " " + "nop" == "l: nop" && ["l", ":"] + ["nop"] == ["l", ":", "nop"];
  }

  lemma DefineTokens()
    ensures Tokens(REDEFINED[1]) == Ok([".define", "l", "5"])
  {
    hide Tokens;
    TokensWord("l");
    TokensWord(".define");
    TokensWord("5");
    TokensSpace("l", "5");
    assert "l" + " " + "5" == "l 5" && ["l"] + ["5"] == ["l", "5"];
    TokensSpace(".define", "l 5");
    assert ".define" + " " + "l 5" == ".define l 5" && [".define"] + ["l", "5"] == [".define", "l", "5"];
  }

  lemma JumpTokens()
    ensures Tokens(REDEFINED[2]) == Ok(["jmp", "l"])
  {
    hide Tokens;
    TokensWord("l");
    TokensWord("jmp");
    TokensSpace("jmp", "l");
    assert "jmp" + " " + "l" == "jmp l" && ["jmp"] + ["l"] == ["jmp", "l"];
  }

  lemma RedefinedLines()
    ensures SplitLine(REDEFINED[0]) == Ok(Line(Some("l"), ["nop"]))
    ensures SplitLine(REDEFINED[1]) == Ok(Line(None, [".define", "l", "5"]))
    ensures SplitLine(REDEFINED[2]) == Ok(Line(None, ["jmp", "l"]))
  {
    hide Tokens;
    LabelTokens();
    DefineTokens();
    JumpTokens();
    assert ["l", ":", "nop"][2..] == ["nop"];
    assert [".define", "l", "5"][0..] == [".define", "l", "5"];
    assert ["jmp", "l"][0..] == ["jmp", "l"];
    assert Lower("l") == "l" && Lower(".define") == ".define" && Lower("jmp") == "jmp";
  }

  lemma FiveAlone(syms: Symbols)
    ensures Sum(["5"], syms) == Ok(Parsed(5, []))
  {
    assert Dec(5) == "5";
    NumberReads(5, [], syms);
    assert [Dec(5)] + [] == ["5"];
  }

  const AFTER_LABEL := INITIAL.(pc := 1, symbols := map["l" := 0], labels := map["l" := 0])
  const AFTER_DEFINE := AFTER_LABEL.(symbols := map["l" := 5])
  const AFTER_JUMP := AFTER_DEFINE.(pc := 2)

  lemma RedefinedScan()
    ensures FirstLine(INITIAL, REDEFINED[0]) == Ok(AFTER_LABEL)
    ensures FirstLine(AFTER_LABEL, REDEFINED[1]) == Ok(AFTER_DEFINE)
    ensures FirstLine(AFTER_DEFINE, REDEFINED[2]) == Ok(AFTER_JUMP)
    ensures DefinedBy(AFTER_LABEL, REDEFINED[1], "l") == Some(5)
  {
    hide SplitLine, Sum;
    RedefinedLines();
    FiveAlone(AFTER_LABEL.symbols);
    assert [".define", "l", "5"][2..] == ["5"];
    assert Lower("l") == "l" && Lower(".define") == ".define";
    assert map["l" := 0]["l" := 5] == map["l" := 5];
  }

  lemma NopEncodes(l: Layout, syms: Symbols)
    requires l == Layout(0, false)
    ensures Encode(l, syms, ["nop"]).Ok?
  {
    var found := Operands([], None, 0);
    assert Lower("nop") == "nop";
    assert ["nop"][1..] == [] && [] + ["nop"] == ["nop"];
    assert Extract(["nop"], syms, found) == Extract([], syms, found.(core := ["nop"]));
  }

  lemma JumpEncodes(l: Layout, syms: Symbols)
    requires l == Layout(0, false) && "l" in syms && 0 <= syms["l"] < 32
    ensures Extract(["jmp", "l"], syms, Operands([], None, 0)) == Ok(Operands(["jmp", "l"], None, 0))
    ensures DropCommas(["l"]) == ["l"] && Condition(["l"]) == (0, 0)
    ensures Encode(l, syms, ["jmp", "l"]).Ok?
  {
    hide Sum;
    var found := Operands([], None, 0);
    assert Lower("jmp") == "jmp" && Lower("l") == "l";
    assert [] + ["jmp"] == ["jmp"] && ["jmp", "l"][1..] == ["l"] && ["l"][1..] == [] && ["l"][0..] == ["l"];
    assert Extract(["jmp", "l"], syms, found) == Extract(["l"], syms, found.(core := ["jmp"]));
    assert ["jmp"] + ["l"] == ["jmp", "l"];
    assert Extract(["l"], syms, found.(core := ["jmp"])) == Extract([], syms, found.(core := ["jmp", "l"]));
    SymbolAlone("l", syms);
  }

  lemma ThreeLines(s0: State, l0: string, s1: State, l1: string, s2: State, l2: string, s3: State, name: string)
    requires FirstLine(s0, l0) == Ok(s1) && FirstLine(s1, l1) == Ok(s2) && FirstLine(s2, l2) == Ok(s3)
    ensures Scan(s0, [l0, l1, l2]) == Ok(s3)
    ensures DefinedBy(s2, l2, name) == None && DefinedBy(s1, l1, name).Some?
        ==> LastDefined(s0, [l0, l1, l2], name) == DefinedBy(s1, l1, name)
  {
    hide FirstLine, DefinedBy;
    assert [l0, l1, l2][1..] == [l1, l2] && [l1, l2][1..] == [l2] && [l2][1..] == [];
    assert Scan(s2, [l2]) == Scan(s3, []);
    assert Scan(s1, [l1, l2]) == Scan(s2, [l2]);
    assert LastDefined(s2, [l2], name) == DefinedBy(s2, l2, name);
  }

  lemma ThreeEmitted(s: State, l0: string, l1: string, l2: string)
    requires SplitLine(l0) == Ok(Line(Some("l"), ["nop"])) && SplitLine(l1) == Ok(Line(None, [".define", "l", "5"]))
    requires SplitLine(l2) == Ok(Line(None, ["jmp", "l"]))
    requires Encode(s.layout, s.symbols, ["nop"]).Ok? && Encode(s.layout, s.symbols, ["jmp", "l"]).Ok?
    ensures Emit(s, [l0, l1, l2], []).Ok?
    ensures InstructionsIn([l0, l1]) == 1
  {
    hide SplitLine, Encode;
    assert [l0, l1, l2][1..] == [l1, l2] && [l1, l2][1..] == [l2] && [l2][1..] == [];
    assert [l0, l1][1..] == [l1] && [l1][1..] == [];
    var w := [] + [Encode(s.layout, s.symbols, ["nop"]).value];
    assert Emit(s, [l1, l2], w) == Emit(s, [l2], w);
    assert InstructionsIn([l1]) == 0;
  }

  lemma JumpDefinesNothing()
    ensures DefinedBy(AFTER_DEFINE, REDEFINED[2], "l") == None
  {
    hide SplitLine;
    RedefinedLines();
    assert Lower("jmp") == "jmp";
  }

  lemma NothingScanned(s: State)
    ensures Scan(s, []) == Ok(s) && InstructionsIn([]) == 0
  {
  }

  lemma RedefinedAssembles()
    ensures Scan(INITIAL, REDEFINED) == Ok(AFTER_JUMP)
    ensures LastDefined(INITIAL, REDEFINED, "l") == Some(5)
    ensures Emit(AFTER_JUMP.(wrap := 1), REDEFINED, []).Ok?
    ensures InstructionsIn(REDEFINED[..2]) == 1
  {
    hide FirstLine, Encode, Scan, LastDefined, Emit, SplitLine, InstructionsIn, DefinedBy;
    var (l0, l1, l2) := (REDEFINED[0], REDEFINED[1], REDEFINED[2]);
    assert REDEFINED == [l0, l1, l2] && REDEFINED[..2] == [l0, l1];
    RedefinedScan();
    RedefinedLines();
    JumpDefinesNothing();
    ThreeLines(INITIAL, l0, AFTER_LABEL, l1, AFTER_DEFINE, l2, AFTER_JUMP, "l");
    var s := AFTER_JUMP.(wrap := 1);
    NopEncodes(s.layout, s.symbols);
    JumpEncodes(s.layout, s.symbols);
    ThreeEmitted(s, l0, l1, l2);
  }

  /** The second instruction jumps, and not to the label. */
  predicate Misled(a: Assembly) {
    && |a.instructions| == 2 && Decode(a.instructions[1]).op == JMP
    && "l" in a.state.labels && Decode(a.instructions[1]).address != a.state.labels["l"]
  }

  /** The condition is needed: this accepted program jumps past its label. */
  lemma RedefinitionMisleads()
    ensures Assemble(REDEFINED).Ok? && Misled(Assemble(REDEFINED).value)
  {
    hide Scan, Emit, Tokens, Extract, Encode, Condition, DropCommas, FirstLine, Decode, InstructionsIn, LastDefined,
         SplitLine;
    RedefinedAssembles();
    RedefinedLines();
    var s := Assemble(REDEFINED).value.state;
    assert s == AFTER_JUMP.(wrap := 1, wrapTarget := 0);
    JumpEncodes(s.layout, s.symbols);
    PassesCountAlike(REDEFINED);
    assert REDEFINED[..0] == [] && REDEFINED[0..] == REDEFINED;
    NothingScanned(INITIAL);
    JumpFindsLabel(REDEFINED, 0, 2, "l");
  }
}
