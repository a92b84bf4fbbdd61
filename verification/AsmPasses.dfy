/** The two passes over a program's lines, and what they agree on: the number of
    instructions, and where a label points. */
module AsmPasses {
  import opened AsmText
  import opened AsmExpr
  import opened AsmEncode
  import opened Words
  import opened PioIsa
  import opened AsmEmitted

  type AcceptedLayout = l: Layout | l.Accepted() witness Layout(0, false)

  /** A source line: an optional label, and a mnemonic or a directive with its operands. */
  datatype Line = Line(name: Option<string>, toks: seq<string>)

  predicate StartsLabel(t: string) { t != "" && (IsAlpha(t[0]) || t[0] == '_') }

  function SplitTokens(toks: seq<string>): Line {
    var start := if |toks| >= 2 && Lower(toks[0]) == "public" then 1 else 0;
    if |toks| >= start + 2 && toks[start + 1] == ":" && StartsLabel(toks[start])
    then Line(Some(toks[start]), toks[start + 2..])
    else Line(None, toks[start..])
  }

  function SplitLine(raw: string): Result<Line> {
    match Tokens(raw)
    case Err(e) => Err(e)
    case Ok(toks) => Ok(SplitTokens(toks))
  }

  predicate IsDirective(toks: seq<string>) { toks != [] && toks[0] != "" && toks[0][0] == '.' }

  predicate IsInstruction(l: Line) { l.toks != [] && !IsDirective(l.toks) }

  // ------------------------------------------------------------- first pass

  datatype State = State(
    pc: nat,
    symbols: Symbols,
    labels: map<string, nat>,
    layout: AcceptedLayout,
    programSeen: bool,
    wrap: nat,
    wrapTarget: nat,
    wrapSeen: bool,
    wrapTargetSeen: bool)

  const INITIAL := State(0, map[], map[], Layout(0, false), false, 0, 0, false, false)

  const IGNORED: seq<string> :=
    [".lang_opt", ".pio_version", ".clock_div", ".fifo", ".mov_status", ".set", ".out", ".in"]

  /** The place of the symbol in a `.define`, behind an optional `public`. */
  function DefineAt(toks: seq<string>): nat {
    if |toks| > 1 && Lower(toks[1]) == "public" then 2 else 1
  }

  function Define(s: State, toks: seq<string>): Result<State> {
    var at := DefineAt(toks);
    if at + 1 >= |toks| then Err(MissingOperand)
    else
      match Sum(toks[at + 1..], s.symbols)
      case Err(e) => Err(e)
      case Ok(p) => Ok(s.(symbols := s.symbols[toks[at] := p.value]))
  }

  predicate SideSetOptions(rest: seq<string>) {
    forall i :: 0 <= i < |rest| ==> Lower(rest[i]) == "opt" || Lower(rest[i]) == "pindirs"
  }

  function SideSet(s: State, toks: seq<string>): Result<State>
    requires toks != []
  {
    match Sum(toks[1..], s.symbols)
    case Err(e) => Err(e)
    case Ok(p) =>
      var opt := s.layout.opt || exists i :: 0 <= i < |p.rest| && Lower(p.rest[i]) == "opt";
      var layout := Layout(Wrap(p.value), opt);
      if !SideSetOptions(p.rest) then Err(BadDirective(toks[0]))
      else if !layout.Accepted() then Err(OutOfRange)
      else Ok(s.(layout := layout))
  }

  function Directive(s: State, toks: seq<string>): Result<State>
    requires IsDirective(toks)
  {
    var d := Lower(toks[0]);
    if d == ".program" then
      if s.programSeen || |toks| < 2 then Err(BadDirective(toks[0])) else Ok(s.(programSeen := true))
    else if d == ".define" then Define(s, toks)
    else if d == ".origin" then
      match Sum(toks[1..], s.symbols)
      case Err(e) => Err(e)
      case Ok(_) => Ok(s)
    else if d == ".side_set" then SideSet(s, toks)
    else if d == ".wrap_target" then Ok(s.(wrapTarget := s.pc, wrapTargetSeen := true))
    else if d == ".wrap" then
      if s.pc == 0 then Err(BadDirective(toks[0])) else Ok(s.(wrap := s.pc - 1, wrapSeen := true))
    else if d in IGNORED then Ok(s)
    else Err(BadDirective(toks[0]))
  }

  function Declare(s: State, name: Option<string>): Result<State> {
    if name.None? then Ok(s)
    else if name.value in s.symbols || name.value in s.labels then Err(DuplicateLabel(name.value))
    else Ok(s.(labels := s.labels[name.value := s.pc], symbols := s.symbols[name.value := s.pc]))
  }

  function Content(s: State, toks: seq<string>): Result<State> {
    if toks == [] then Ok(s)
    else if IsDirective(toks) then Directive(s, toks)
    else Ok(s.(pc := s.pc + 1))
  }

  function FirstLine(s: State, raw: string): Result<State> {
    match SplitLine(raw)
    case Err(e) => Err(e)
    case Ok(l) =>
      match Declare(s, l.name)
      case Err(e) => Err(e)
      case Ok(t) => Content(t, l.toks)
  }

  function Scan(s: State, lines: seq<string>): Result<State>
    decreases |lines|
  {
    if lines == [] then Ok(s)
    else
      match FirstLine(s, lines[0])
      case Err(e) => Err(e)
      case Ok(t) => Scan(t, lines[1..])
  }

  /** The wrap defaults once every line is read. */
  function Close(s: State): Result<State> {
    if s.pc == 0 then Err(NoInstructions)
    else
      Ok(s.(wrap := if s.wrapSeen then s.wrap else s.pc - 1,
            wrapTarget := if s.wrapTargetSeen then s.wrapTarget else 0))
  }

  function FirstPass(lines: seq<string>): Result<State> {
    match Scan(INITIAL, lines)
    case Err(e) => Err(e)
    case Ok(s) => Close(s)
  }

  // ------------------------------------------------------------ second pass

  function Emit(s: State, lines: seq<string>, emitted: seq<Half>): Result<seq<Half>>
    decreases |lines|
  {
    if lines == [] then Ok(emitted)
    else
      match SplitLine(lines[0])
      case Err(e) => Err(e)
      case Ok(l) =>
        if !IsInstruction(l) then Emit(s, lines[1..], emitted)
        else
          match Encode(s.layout, s.symbols, l.toks)
          case Err(e) => Err(e)
          case Ok(w) => Emit(s, lines[1..], emitted + [w])
  }

  datatype Assembly = Assembly(state: State, instructions: seq<Half>)

  function Assemble(lines: seq<string>): Result<Assembly> {
    match FirstPass(lines)
    case Err(e) => Err(e)
    case Ok(s) =>
      match Emit(s, lines, [])
      case Err(e) => Err(e)
      case Ok(ws) => Ok(Assembly(s, ws))
  }

  // --------------------------------------------------- both passes count alike

  predicate InstructionLine(raw: string) { SplitLine(raw).Ok? && IsInstruction(SplitLine(raw).value) }

  function InstructionsIn(lines: seq<string>): nat {
    if lines == [] then 0 else (if InstructionLine(lines[0]) then 1 else 0) + InstructionsIn(lines[1..])
  }

  /** A line adds one to the counter if it is an instruction, and nothing otherwise. */
  lemma LineCounts(s: State, raw: string)
    requires FirstLine(s, raw).Ok?
    ensures FirstLine(s, raw).value.pc == s.pc + if InstructionLine(raw) then 1 else 0
  {
    hide Tokens, SplitTokens, Directive;
    var l := SplitLine(raw).value;
    if IsDirective(l.toks) {
      DirectiveKeeps(Declare(s, l.name).value, l.toks);
    }
  }

  lemma DirectiveKeeps(s: State, toks: seq<string>)
    requires IsDirective(toks) && Directive(s, toks).Ok?
    ensures Directive(s, toks).value.pc == s.pc && Directive(s, toks).value.labels == s.labels
  {
    hide Lower, Define, SideSet;
    if Lower(toks[0]) == ".define" {
      DefineKeeps(s, toks);
    } else if Lower(toks[0]) == ".side_set" {
      SideSetKeeps(s, toks);
    }
  }

  lemma DefineKeeps(s: State, toks: seq<string>)
    requires Define(s, toks).Ok?
    ensures Define(s, toks).value.pc == s.pc && Define(s, toks).value.labels == s.labels
  {
    hide Lower, Sum;
  }

  lemma SideSetKeeps(s: State, toks: seq<string>)
    requires toks != [] && SideSet(s, toks).Ok?
    ensures SideSet(s, toks).value == s.(layout := SideSet(s, toks).value.layout)
  {
    hide Lower, Sum, SideSetOptions;
  }

  lemma {:induction false} ScanCounts(s: State, lines: seq<string>)
    requires Scan(s, lines).Ok?
    ensures Scan(s, lines).value.pc == s.pc + InstructionsIn(lines)
    decreases |lines|
  {
    hide FirstLine, InstructionLine;
    if lines != [] {
      LineCounts(s, lines[0]);
      ScanCounts(FirstLine(s, lines[0]).value, lines[1..]);
    }
  }

  lemma {:induction false} EmitCounts(s: State, lines: seq<string>, emitted: seq<Half>)
    requires Emit(s, lines, emitted).Ok?
    ensures var r := Emit(s, lines, emitted).value;
            |r| == |emitted| + InstructionsIn(lines) && r[..|emitted|] == emitted
  {
    hide Encode, Tokens, SplitTokens;
    if lines != [] {
      var l := SplitLine(lines[0]).value;
      if IsInstruction(l) {
        var w := Encode(s.layout, s.symbols, l.toks).value;
        EmitCounts(s, lines[1..], emitted + [w]);
        var r := Emit(s, lines, emitted).value;
        assert r[..|emitted|] == r[..|emitted + [w]|][..|emitted|];
      } else {
        EmitCounts(s, lines[1..], emitted);
      }
    }
  }

  /** Both passes of an accepted program count the same instructions. */
  lemma PassesCountAlike(lines: seq<string>)
    requires Assemble(lines).Ok?
    ensures var a := Assemble(lines).value;
            |a.instructions| == a.state.pc == InstructionsIn(lines)
  {
    hide Scan, Emit, InstructionsIn;
    ScanCounts(INITIAL, lines);
    EmitCounts(FirstPass(lines).value, lines, []);
  }

  /** The words of the second pass stand in the order of the instruction lines. */
  lemma {:induction false} EmitPlaces(s: State, lines: seq<string>, emitted: seq<Half>, i: nat)
    requires Emit(s, lines, emitted).Ok? && i < |lines| && InstructionLine(lines[i])
    ensures var r := Emit(s, lines, emitted).value;
            var at := |emitted| + InstructionsIn(lines[..i]);
            at < |r| && Encode(s.layout, s.symbols, SplitLine(lines[i]).value.toks) == Ok(r[at])
    decreases |lines|
  {
    hide Encode, Tokens, SplitTokens, IsDirective;
    var l := SplitLine(lines[0]).value;
    var r := Emit(s, lines, emitted).value;
    var next := if IsInstruction(l) then emitted + [Encode(s.layout, s.symbols, l.toks).value] else emitted;
    assert Emit(s, lines, emitted) == Emit(s, lines[1..], next);
    if i == 0 {
      EmitCounts(s, lines[1..], next);
      assert r[|emitted|] == r[..|next|][|emitted|];
    } else {
      EmitPlaces(s, lines[1..], next, i - 1);
      assert lines[..i][0] == lines[0] && lines[..i][1..] == lines[1..][..i - 1];
    }
  }

  // -------------------------------------------------------------------- labels

  predicate Declares(raw: string, name: string) { SplitLine(raw).Ok? && SplitLine(raw).value.name == Some(name) }

  /** The value a `.define` on this line gives to `name`. */
  function DefinedBy(s: State, raw: string, name: string): Option<int> {
    if SplitLine(raw).Err? || Declare(s, SplitLine(raw).value.name).Err? then None
    else
      var (l, t) := (SplitLine(raw).value, Declare(s, SplitLine(raw).value.name).value);
      if IsDirective(l.toks) && Lower(l.toks[0]) == ".define" && Define(t, l.toks).Ok?
          && l.toks[DefineAt(l.toks)] == name
      then Some(Define(t, l.toks).value.symbols[name]) else None
  }

  /** The value of the last `.define` of `name` in these lines. */
  function LastDefined(s: State, lines: seq<string>, name: string): Option<int>
    decreases |lines|
  {
    if lines == [] || FirstLine(s, lines[0]).Err? then None
    else
      var later := LastDefined(FirstLine(s, lines[0]).value, lines[1..], name);
      if later.Some? then later else DefinedBy(s, lines[0], name)
  }

  /** A line leaves a declared label's index alone, and changes its symbol only by a `.define`. */
  lemma LineKeepsLabel(s: State, raw: string, name: string)
    requires FirstLine(s, raw).Ok? && name in s.labels && name in s.symbols
    ensures var t := FirstLine(s, raw).value;
            && name in t.labels && t.labels[name] == s.labels[name] && name in t.symbols
            && t.symbols[name]
                == if DefinedBy(s, raw, name).Some? then DefinedBy(s, raw, name).value else s.symbols[name]
  {
    hide Tokens, SplitTokens, Sum, SideSetOptions, Lower, Directive;
    var l := SplitLine(raw).value;
    var t := Declare(s, l.name).value;
    assert t.labels[name] == s.labels[name] && t.symbols[name] == s.symbols[name];
    if IsDirective(l.toks) {
      DirectiveKeeps(t, l.toks);
      DirectiveSymbols(t, l.toks);
    }
  }

  lemma DirectiveSymbols(s: State, toks: seq<string>)
    requires IsDirective(toks) && Directive(s, toks).Ok?
    ensures if Lower(toks[0]) == ".define" then Directive(s, toks) == Define(s, toks)
            else Directive(s, toks).value.symbols == s.symbols
  {
    hide Lower, Define, SideSet;
    if Lower(toks[0]) == ".side_set" {
      SideSetKeeps(s, toks);
    }
  }

  lemma {:induction false} ScanKeepsLabel(s: State, lines: seq<string>, name: string)
    requires Scan(s, lines).Ok? && name in s.labels && name in s.symbols
    ensures var t := Scan(s, lines).value;
            && name in t.labels && t.labels[name] == s.labels[name] && name in t.symbols
            && t.symbols[name]
                == if LastDefined(s, lines, name).Some? then LastDefined(s, lines, name).value else s.symbols[name]
    decreases |lines|
  {
    hide FirstLine, DefinedBy;
    if lines != [] {
      LineKeepsLabel(s, lines[0], name);
      ScanKeepsLabel(FirstLine(s, lines[0]).value, lines[1..], name);
    }
  }

  lemma {:induction false} ScanSplits(s: State, lines: seq<string>, i: nat)
    requires Scan(s, lines).Ok? && i <= |lines|
    ensures Scan(s, lines[..i]).Ok? && Scan(Scan(s, lines[..i]).value, lines[i..]) == Scan(s, lines)
    decreases |lines|
  {
    hide FirstLine;
    if i == 0 {
      assert lines[..0] == [] && lines[0..] == lines;
    } else {
      ScanSplits(FirstLine(s, lines[0]).value, lines[1..], i - 1);
      assert lines[..i][0] == lines[0] && lines[..i][1..] == lines[1..][..i - 1] && lines[1..][i - 1..] == lines[i..];
    }
  }

  lemma DeclaredHere(s: State, raw: string, name: string)
    requires FirstLine(s, raw).Ok? && Declares(raw, name)
    ensures var t := FirstLine(s, raw).value;
            && name in t.labels && t.labels[name] == s.pc && name in t.symbols
            && t.symbols[name] == if DefinedBy(s, raw, name).Some? then DefinedBy(s, raw, name).value else s.pc
  {
    hide Tokens, SplitTokens, Sum, SideSetOptions, Lower, Directive;
    var l := SplitLine(raw).value;
    var t := Declare(s, l.name).value;
    if IsDirective(l.toks) {
      DirectiveKeeps(t, l.toks);
      DirectiveSymbols(t, l.toks);
    }
  }

  /** A label is the number of instructions before it, whatever comes after; its
      symbol is too unless a `.define` on its own or a later line says otherwise. */
  lemma LabelCountsInstructions(lines: seq<string>, i: nat, name: string)
    requires FirstPass(lines).Ok? && i < |lines| && Declares(lines[i], name)
    ensures var before := Scan(INITIAL, lines[..i]);
            && before.Ok?
            && var s := FirstPass(lines).value;
            && name in s.labels && s.labels[name] == InstructionsIn(lines[..i]) && name in s.symbols
            && s.symbols[name] == (match LastDefined(before.value, lines[i..], name)
                                   case None => InstructionsIn(lines[..i])
                                   case Some(v) => v)
  {
    hide FirstLine, DefinedBy, InstructionsIn;
    ScanSplits(INITIAL, lines, i);
    ScanCounts(INITIAL, lines[..i]);
    var s := Scan(INITIAL, lines[..i]).value;
    var rest := lines[i..];
    DeclaredHere(s, rest[0], name);
    ScanKeepsLabel(FirstLine(s, rest[0]).value, rest[1..], name);
  }
}
