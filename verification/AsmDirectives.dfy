/** What the directives of a program decide. */
module AsmDirectives {
  // Read off the program's text: the last `.wrap` stands after the instruction the
  // program wraps from, the last `.wrap_target` before the one it wraps to, and the
  // last `.side_set` says how many side-set bits there are.
  import opened AsmText
  import opened AsmExpr
  import opened AsmEncode
  import opened AsmPasses

  /** The line holds this directive, behind an optional label. */
  predicate Holds(raw: string, name: string) {
    && SplitLine(raw).Ok?
    && var toks := SplitLine(raw).value.toks;
       IsDirective(toks) && Lower(toks[0]) == name
  }

  /** No line from `i` on holds it. */
  predicate NoneFrom(lines: seq<string>, name: string, i: nat) {
    forall j :: i <= j < |lines| ==> !Holds(lines[j], name)
  }

  predicate LastAt(lines: seq<string>, name: string, i: nat) {
    i < |lines| && Holds(lines[i], name) && NoneFrom(lines, name, i + 1)
  }

  /** What the wrap fields are after one more line. */
  predicate Follows(s: State, t: State, atWrap: bool, atTarget: bool) {
    && t.wrapSeen == (s.wrapSeen || atWrap) && t.wrapTargetSeen == (s.wrapTargetSeen || atTarget)
    && t.wrap == (if atWrap then s.pc - 1 else s.wrap)
    && t.wrapTarget == (if atTarget then s.pc else s.wrapTarget)
  }

  lemma DefineFollows(s: State, toks: seq<string>)
    requires Define(s, toks).Ok?
    ensures Follows(s, Define(s, toks).value, false, false)
  {
    hide Sum, DefineAt;
  }

  lemma DirectiveFollows(s: State, toks: seq<string>)
    requires IsDirective(toks) && Directive(s, toks).Ok?
    ensures Follows(s, Directive(s, toks).value, Lower(toks[0]) == ".wrap", Lower(toks[0]) == ".wrap_target")
  {
    hide Lower, Define, SideSet;
    if Lower(toks[0]) == ".define" {
      DefineFollows(s, toks);
    } else if Lower(toks[0]) == ".side_set" {
      SideSetKeeps(s, toks);
    }
  }

  lemma LineFollows(s: State, raw: string)
    requires FirstLine(s, raw).Ok?
    ensures Follows(s, FirstLine(s, raw).value, Holds(raw, ".wrap"), Holds(raw, ".wrap_target"))
  {
    hide Tokens, SplitTokens, Directive, Lower;
    var l := SplitLine(raw).value;
    if IsDirective(l.toks) {
      DirectiveFollows(Declare(s, l.name).value, l.toks);
    }
  }

  lemma TailNone(lines: seq<string>, name: string)
    requires lines != [] && NoneFrom(lines, name, 0)
    ensures !Holds(lines[0], name) && NoneFrom(lines[1..], name, 0)
  {
    hide Holds;
  }

  lemma {:induction false} ScanKeepsWrap(s: State, lines: seq<string>)
    requires Scan(s, lines).Ok?
    ensures var t := Scan(s, lines).value;
            && (NoneFrom(lines, ".wrap", 0) ==> t.wrap == s.wrap && t.wrapSeen == s.wrapSeen)
            && (NoneFrom(lines, ".wrap_target", 0) ==>
                  t.wrapTarget == s.wrapTarget && t.wrapTargetSeen == s.wrapTargetSeen)
    decreases |lines|
  {
    hide FirstLine, Holds, NoneFrom;
    if lines != [] {
      LineFollows(s, lines[0]);
      ScanKeepsWrap(FirstLine(s, lines[0]).value, lines[1..]);
      if NoneFrom(lines, ".wrap", 0) {
        TailNone(lines, ".wrap");
      }
      if NoneFrom(lines, ".wrap_target", 0) {
        TailNone(lines, ".wrap_target");
      }
    }
  }

  lemma AfterLast(lines: seq<string>, name: string, i: nat)
    requires LastAt(lines, name, i)
    ensures NoneFrom(lines[i..][1..], name, 0) && lines[i..][0] == lines[i]
  {
    hide Holds;
    assert lines[i..][1..] == lines[i + 1..];
  }

  /** At the last such directive, the wrap fields are set for good. */
  lemma ScanPlaces(lines: seq<string>, i: nat)
    requires Scan(INITIAL, lines).Ok? && i < |lines|
    ensures var t := Scan(INITIAL, lines).value;
            && (LastAt(lines, ".wrap", i) ==> t.wrapSeen && t.wrap == InstructionsIn(lines[..i]) - 1)
            && (LastAt(lines, ".wrap_target", i) ==> t.wrapTargetSeen && t.wrapTarget == InstructionsIn(lines[..i]))
  {
    hide FirstLine, Holds, NoneFrom, InstructionsIn;
    ScanSplits(INITIAL, lines, i);
    ScanCounts(INITIAL, lines[..i]);
    var s := Scan(INITIAL, lines[..i]).value;
    var rest := lines[i..];
    LineFollows(s, rest[0]);
    ScanKeepsWrap(FirstLine(s, rest[0]).value, rest[1..]);
    if LastAt(lines, ".wrap", i) {
      AfterLast(lines, ".wrap", i);
    }
    if LastAt(lines, ".wrap_target", i) {
      AfterLast(lines, ".wrap_target", i);
    }
  }

  /** The instruction before the last `.wrap`, or the last of all. */
  predicate WrapsFrom(lines: seq<string>, wrap: int) {
    && (forall i :: 0 <= i < |lines| && LastAt(lines, ".wrap", i) ==> wrap == InstructionsIn(lines[..i]) - 1)
    && (NoneFrom(lines, ".wrap", 0) ==> wrap == InstructionsIn(lines) - 1)
  }

  /** The instruction after the last `.wrap_target`, or the first of all. */
  predicate WrapsTo(lines: seq<string>, target: nat) {
    && (forall i :: 0 <= i < |lines| && LastAt(lines, ".wrap_target", i) ==> target == InstructionsIn(lines[..i]))
    && (NoneFrom(lines, ".wrap_target", 0) ==> target == 0)
  }

  /** Every accepted program wraps from the instruction before its last `.wrap`, or
      from its last instruction if it has none, to the instruction after its last
      `.wrap_target`, or to the first; the addresses count the lines that hold
      instructions. */
  lemma WrapMeans(lines: seq<string>)
    requires Assemble(lines).Ok?
    ensures var a := Assemble(lines).value;
            && WrapsFrom(lines, a.state.wrap) && WrapsTo(lines, a.state.wrapTarget)
            && |a.instructions| == InstructionsIn(lines)
  {
    hide Scan, Emit, NoneFrom, InstructionsIn, LastAt;
    PassesCountAlike(lines);
    ScanKeepsWrap(INITIAL, lines);
    ScanCounts(INITIAL, lines);
    forall i | 0 <= i < |lines|
      ensures var a := Assemble(lines).value;
              && (LastAt(lines, ".wrap", i) ==> a.state.wrap == InstructionsIn(lines[..i]) - 1)
              && (LastAt(lines, ".wrap_target", i) ==> a.state.wrapTarget == InstructionsIn(lines[..i]))
    {
      ScanPlaces(lines, i);
    }
  }

  // ------------------------------------------------------------------ side-set

  /** The operands of a directive, parsed with the symbols known before its line. */
  function Argument(s: State, raw: string): Result<Parsed> {
    if SplitLine(raw).Err? then Err(SplitLine(raw).error)
    else
      var l := SplitLine(raw).value;
      match Declare(s, l.name)
      case Err(e) => Err(e)
      case Ok(t) => if l.toks == [] then Err(MissingOperand) else Sum(l.toks[1..], t.symbols)
  }

  /** The line is a `.side_set` with the option `opt`. */
  predicate SaysOpt(s: State, raw: string) {
    && Holds(raw, ".side_set") && Argument(s, raw).Ok?
    && var rest := Argument(s, raw).value.rest;
       exists j :: 0 <= j < |rest| && Lower(rest[j]) == "opt"
  }

  lemma SideSetIs(s: State, toks: seq<string>)
    requires toks != [] && SideSet(s, toks).Ok?
    ensures var t := SideSet(s, toks).value;
            && Sum(toks[1..], s.symbols).Ok?
            && var p := Sum(toks[1..], s.symbols).value;
            && t.layout.count == p.value % 0x1_0000_0000
            && (t.layout.opt <==> s.layout.opt || exists j :: 0 <= j < |p.rest| && Lower(p.rest[j]) == "opt")
  {
    hide Lower, Sum, SideSetOptions;
  }

  lemma DefineLayout(s: State, toks: seq<string>)
    requires Define(s, toks).Ok?
    ensures Define(s, toks).value.layout == s.layout
  {
    hide Sum, DefineAt;
  }

  lemma DirectiveLayout(s: State, toks: seq<string>)
    requires IsDirective(toks) && Directive(s, toks).Ok? && Lower(toks[0]) != ".side_set"
    ensures Directive(s, toks).value.layout == s.layout
  {
    hide Lower, Define, SideSet;
    if Lower(toks[0]) == ".define" {
      DefineLayout(s, toks);
    }
  }

  lemma LineLayout(s: State, raw: string)
    requires FirstLine(s, raw).Ok?
    ensures var t := FirstLine(s, raw).value;
            if Holds(raw, ".side_set")
            then Argument(s, raw).Ok? && t.layout.count == Argument(s, raw).value.value % 0x1_0000_0000
            else t.layout == s.layout
    ensures FirstLine(s, raw).value.layout.opt <==> s.layout.opt || SaysOpt(s, raw)
  {
    hide Tokens, SplitTokens, Lower, Sum, Define, SideSet;
    var l := SplitLine(raw).value;
    var t := Declare(s, l.name).value;
    if IsDirective(l.toks) {
      if Lower(l.toks[0]) == ".side_set" {
        SideSetIs(t, l.toks);
      } else {
        hide Directive;
        DirectiveLayout(t, l.toks);
      }
    }
  }

  /** Later lines keep a layout they do not name, and never take `opt` back. */
  lemma {:induction false} ScanKeepsLayout(s: State, lines: seq<string>)
    requires Scan(s, lines).Ok?
    ensures var t := Scan(s, lines).value;
            && (NoneFrom(lines, ".side_set", 0) ==> t.layout == s.layout)
            && (s.layout.opt ==> t.layout.opt)
    decreases |lines|
  {
    hide FirstLine, Holds, NoneFrom, Argument, SaysOpt;
    if lines != [] {
      LineLayout(s, lines[0]);
      ScanKeepsLayout(FirstLine(s, lines[0]).value, lines[1..]);
      if NoneFrom(lines, ".side_set", 0) {
        TailNone(lines, ".side_set");
      }
    }
  }

  /** The state before line `i` of an accepted program. */
  function Before(lines: seq<string>, i: nat): State
    requires Scan(INITIAL, lines).Ok? && i <= |lines|
  {
    ScanSplits(INITIAL, lines, i);
    Scan(INITIAL, lines[..i]).value
  }

  lemma ScanLayout(lines: seq<string>, i: nat)
    requires Scan(INITIAL, lines).Ok? && i < |lines|
    ensures var (s, t) := (Before(lines, i), Scan(INITIAL, lines).value);
            && (LastAt(lines, ".side_set", i) ==>
                  Argument(s, lines[i]).Ok? && t.layout.count == Argument(s, lines[i]).value.value % 0x1_0000_0000)
            && (SaysOpt(s, lines[i]) ==> t.layout.opt)
  {
    hide FirstLine, Holds, NoneFrom, Argument, SaysOpt;
    ScanSplits(INITIAL, lines, i);
    var s := Before(lines, i);
    var rest := lines[i..];
    LineLayout(s, rest[0]);
    ScanKeepsLayout(FirstLine(s, rest[0]).value, rest[1..]);
    if LastAt(lines, ".side_set", i) {
      AfterLast(lines, ".side_set", i);
    }
  }

  /** A program whose layout ends up optional has a line that says so. */
  lemma {:induction false} OptIsSaid(lines: seq<string>, n: nat) returns (i: nat)
    requires Scan(INITIAL, lines).Ok? && n <= |lines| && Before(lines, n).layout.opt
    ensures i < n && SaysOpt(Before(lines, i), lines[i])
    decreases n
  {
    hide FirstLine, SaysOpt, Argument, Holds;
    FirstState(lines);
    var s := Before(lines, n - 1);
    OneLineOn(lines, n - 1);
    LineLayout(s, lines[n - 1]);
    if SaysOpt(s, lines[n - 1]) {
      i := n - 1;
    } else {
      i := OptIsSaid(lines, n - 1);
    }
  }

  lemma FirstState(lines: seq<string>)
    requires Scan(INITIAL, lines).Ok?
    ensures Before(lines, 0) == INITIAL
  {
    assert lines[..0] == [];
  }

  lemma OneLineOn(lines: seq<string>, k: nat)
    requires Scan(INITIAL, lines).Ok? && k < |lines|
    ensures FirstLine(Before(lines, k), lines[k]) == Ok(Before(lines, k + 1))
  {
    hide FirstLine;
    ScanSplits(INITIAL, lines, k + 1);
    ScanSplits(INITIAL, lines[..k + 1], k);
    assert lines[..k + 1][..k] == lines[..k] && lines[..k + 1][k..] == [lines[k]];
    assert [lines[k]][1..] == [];
  }

  /** The layout follows from the `.side_set` lines. */
  predicate LaidOut(lines: seq<string>, layout: Layout)
    requires Scan(INITIAL, lines).Ok?
  {
    && (forall i :: 0 <= i < |lines| && LastAt(lines, ".side_set", i) ==>
          && Argument(Before(lines, i), lines[i]).Ok?
          && layout.count == Argument(Before(lines, i), lines[i]).value.value % 0x1_0000_0000)
    && (NoneFrom(lines, ".side_set", 0) ==> layout.count == 0)
    && (layout.opt <==> exists i :: 0 <= i < |lines| && SaysOpt(Before(lines, i), lines[i]))
  }

  /** The side-set bits of an accepted program are counted by its last `.side_set`, none
      without one, and are optional exactly if any of them says `opt`. */
  lemma LayoutMeans(lines: seq<string>)
    requires Assemble(lines).Ok?
    ensures Scan(INITIAL, lines).Ok? && LaidOut(lines, Assemble(lines).value.state.layout)
  {
    hide Scan, Emit, NoneFrom, LastAt, Argument, SaysOpt, Before;
    var t := Scan(INITIAL, lines).value;
    ScanKeepsLayout(INITIAL, lines);
    forall i | 0 <= i < |lines|
      ensures LastAt(lines, ".side_set", i) ==>
                && Argument(Before(lines, i), lines[i]).Ok?
                && t.layout.count == Argument(Before(lines, i), lines[i]).value.value % 0x1_0000_0000
      ensures SaysOpt(Before(lines, i), lines[i]) ==> t.layout.opt
    {
      ScanLayout(lines, i);
    }
    if t.layout.opt {
      AllLines(lines);
      var i := OptIsSaid(lines, |lines|);
    }
  }

  lemma AllLines(lines: seq<string>)
    requires Scan(INITIAL, lines).Ok?
    ensures Before(lines, |lines|) == Scan(INITIAL, lines).value
  {
    assert lines[..|lines|] == lines;
  }

  // --------------------------------------------------------- labels and defines

  /** A label is a name and a colon in front, `public` before it or not; without a
      colon there is none, and only a leading `public` goes. */
  lemma LabelMeans(name: string, marker: string, rest: seq<string>)
    requires StartsLabel(name) && Lower(marker) == "public"
    ensures Lower(name) != "public" ==> SplitTokens([name, ":"] + rest) == Line(Some(name), rest)
    ensures SplitTokens([marker, name, ":"] + rest) == Line(Some(name), rest)
  {
    hide Lower;
    assert ([name, ":"] + rest)[2..] == rest && ([marker, name, ":"] + rest)[3..] == rest;
  }

  lemma NoLabelMeans(toks: seq<string>)
    requires forall i :: 0 <= i < |toks| ==> toks[i] != ":"
    ensures SplitTokens(toks) == Line(None, if |toks| >= 2 && Lower(toks[0]) == "public" then toks[1..] else toks)
  {
    hide Lower;
  }

  /** The line is `.define name ...` or `.define public name ...`. */
  predicate Binds(raw: string, name: string) {
    && Holds(raw, ".define")
    && var toks := SplitLine(raw).value.toks;
       var at := if |toks| > 1 && Lower(toks[1]) == "public" then 2 else 1;
       at < |toks| && toks[at] == name
  }

  /** The value behind the name in a `.define`, with the symbols known before its line. */
  function Bound(s: State, raw: string): Result<Parsed> {
    if SplitLine(raw).Err? then Err(SplitLine(raw).error)
    else
      var l := SplitLine(raw).value;
      match Declare(s, l.name)
      case Err(e) => Err(e)
      case Ok(t) =>
        var at := if |l.toks| > 1 && Lower(l.toks[1]) == "public" then 2 else 1;
        if at >= |l.toks| then Err(MissingOperand) else Sum(l.toks[at + 1..], t.symbols)
  }

  lemma LineBinds(s: State, raw: string, name: string)
    requires FirstLine(s, raw).Ok?
    ensures var t := FirstLine(s, raw).value;
            && (Binds(raw, name) ==>
                  Bound(s, raw).Ok? && name in t.symbols && t.symbols[name] == Bound(s, raw).value.value)
            && (!Binds(raw, name) && name in s.symbols ==> name in t.symbols && t.symbols[name] == s.symbols[name])
  {
    hide Tokens, SplitTokens, Lower, Sum, SideSet;
    var l := SplitLine(raw).value;
    var t := Declare(s, l.name).value;
    if IsDirective(l.toks) {
      if Lower(l.toks[0]) != ".define" {
        hide Directive, Define;
        DirectiveSymbols(t, l.toks);
      }
    }
  }

  lemma {:induction false} ScanKeepsSymbol(s: State, lines: seq<string>, name: string)
    requires Scan(s, lines).Ok? && name in s.symbols && forall j :: 0 <= j < |lines| ==> !Binds(lines[j], name)
    ensures var t := Scan(s, lines).value;
            name in t.symbols && t.symbols[name] == s.symbols[name]
    decreases |lines|
  {
    hide FirstLine, Binds, Bound;
    if lines != [] {
      LineBinds(s, lines[0], name);
      ScanKeepsSymbol(FirstLine(s, lines[0]).value, lines[1..], name);
    }
  }

  /** In an accepted program a name stands for the value its last `.define` gives it,
      worked out with the symbols known before that line. */
  lemma DefineMeans(lines: seq<string>, i: nat, name: string)
    requires Assemble(lines).Ok? && i < |lines| && Binds(lines[i], name)
    requires forall j :: i < j < |lines| ==> !Binds(lines[j], name)
    ensures Scan(INITIAL, lines).Ok? && Bound(Before(lines, i), lines[i]).Ok?
    ensures var symbols := Assemble(lines).value.state.symbols;
            name in symbols && symbols[name] == Bound(Before(lines, i), lines[i]).value.value
  {
    hide FirstLine, Binds, Bound, Emit;
    ScanSplits(INITIAL, lines, i);
    var s := Before(lines, i);
    var rest := lines[i..];
    LineBinds(s, rest[0], name);
    ScanKeepsSymbol(FirstLine(s, rest[0]).value, rest[1..], name);
  }

  // --------------------------------------------------------- what is accepted

  const KNOWN: seq<string> :=
    [".program", ".define", ".origin", ".side_set", ".wrap_target", ".wrap", ".lang_opt", ".pio_version",
     ".clock_div", ".fifo", ".mov_status", ".set", ".out", ".in"]

  /** What an accepted line says about `.program`, `.wrap` and unknown directives. */
  predicate Allowed(s: State, raw: string) {
    && SplitLine(raw).Ok?
    && var toks := SplitLine(raw).value.toks;
       && (IsDirective(toks) ==> Lower(toks[0]) in KNOWN)
       && (Holds(raw, ".program") ==> |toks| >= 2 && !s.programSeen)
       && (Holds(raw, ".wrap") ==> s.pc > 0)
  }

  lemma DirectiveAllowed(s: State, toks: seq<string>)
    requires IsDirective(toks) && Directive(s, toks).Ok?
    ensures Lower(toks[0]) in KNOWN
    ensures Lower(toks[0]) == ".program" ==> |toks| >= 2 && !s.programSeen
    ensures Lower(toks[0]) == ".wrap" ==> s.pc > 0
    ensures Directive(s, toks).value.programSeen == (s.programSeen || Lower(toks[0]) == ".program")
  {
    hide Lower, Define, SideSet;
    if Lower(toks[0]) == ".define" {
      DefineSeen(s, toks);
    } else if Lower(toks[0]) == ".side_set" {
      SideSetKeeps(s, toks);
    }
  }

  lemma DefineSeen(s: State, toks: seq<string>)
    requires Define(s, toks).Ok?
    ensures Define(s, toks).value.programSeen == s.programSeen
  {
    hide Sum, DefineAt;
  }

  lemma LineAllowed(s: State, raw: string)
    requires FirstLine(s, raw).Ok?
    ensures Allowed(s, raw) && FirstLine(s, raw).value.programSeen == (s.programSeen || Holds(raw, ".program"))
  {
    hide Tokens, SplitTokens, Directive, Lower, KNOWN;
    var l := SplitLine(raw).value;
    if IsDirective(l.toks) {
      DirectiveAllowed(Declare(s, l.name).value, l.toks);
    }
  }

  lemma {:induction false} SeenStays(lines: seq<string>, i: nat, j: nat)
    requires Scan(INITIAL, lines).Ok? && i < j <= |lines| && Holds(lines[i], ".program")
    ensures Before(lines, j).programSeen
    decreases j
  {
    hide FirstLine, Holds, Allowed, Before;
    OneLineOn(lines, j - 1);
    LineAllowed(Before(lines, j - 1), lines[j - 1]);
    if i < j - 1 {
      SeenStays(lines, i, j - 1);
    }
  }

  /** In an accepted program every directive is a known one, `.program` has a name and
      occurs once at most, and an instruction precedes every `.wrap`. */
  lemma AcceptedMeans(lines: seq<string>, i: nat)
    requires Assemble(lines).Ok? && i < |lines|
    ensures SplitLine(lines[i]).Ok?
    ensures var toks := SplitLine(lines[i]).value.toks;
            && (IsDirective(toks) ==> Lower(toks[0]) in KNOWN)
            && (Holds(lines[i], ".program") ==>
                  |toks| >= 2 && forall j :: i < j < |lines| ==> !Holds(lines[j], ".program"))
            && (Holds(lines[i], ".wrap") ==> InstructionsIn(lines[..i]) > 0)
  {
    hide FirstLine, Holds, Emit, Before, KNOWN, Tokens, SplitTokens, InstructionsIn;
    OneLineOn(lines, i);
    LineAllowed(Before(lines, i), lines[i]);
    BeforeCounts(lines, i);
    forall j | i < j < |lines| && Holds(lines[i], ".program")
      ensures !Holds(lines[j], ".program")
    {
      SeenStays(lines, i, j);
      OneLineOn(lines, j);
      LineAllowed(Before(lines, j), lines[j]);
    }
  }

  lemma BeforeCounts(lines: seq<string>, i: nat)
    requires Scan(INITIAL, lines).Ok? && i <= |lines|
    ensures Before(lines, i).pc == InstructionsIn(lines[..i])
  {
    hide Scan, InstructionsIn;
    ScanSplits(INITIAL, lines, i);
    ScanCounts(INITIAL, lines[..i]);
  }
}
