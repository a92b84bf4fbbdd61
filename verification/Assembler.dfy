/** The assembler as an object: two passes over a text. */
module AssemblerObject {
  // Its tables are changed in place, line by line.  A method that can throw
  // returns the error, or `None`.
  import opened AsmText
  import opened AsmExpr
  import opened AsmEncode
  import opened PioIsa
  import opened Words
  import opened AsmPasses

  class Assembler {
    const lines: seq<string>
    var symbols: Symbols
    var labels: map<string, nat>
    var layout: AcceptedLayout
    var programSeen: bool
    var wrap: nat
    var wrapTarget: nat
    var wrapSeen: bool
    var wrapTargetSeen: bool
    var instructions: seq<Half>

    constructor (lines: seq<string>)
      ensures this.lines == lines && Snapshot(0) == INITIAL
    {
      this.lines := lines;
      symbols, labels, layout := map[], map[], Layout(0, false);
      programSeen, wrap, wrapTarget, wrapSeen, wrapTargetSeen := false, 0, 0, false, false;
      instructions := [];
    }

    /** The fields of the first pass, with its instruction counter. */
    ghost function Snapshot(pc: nat): State
      reads this
    {
      State(pc, symbols, labels, layout, programSeen, wrap, wrapTarget, wrapSeen, wrapTargetSeen)
    }

    /** The object is where the specification says, or has failed as it says. */
    ghost predicate Reached(spec: Result<State>, failure: Option<AsmError>, pc: nat)
      reads this
    {
      match spec
      case Ok(s) => failure == None && Snapshot(pc) == s
      case Err(e) => failure == Some(e)
    }

    method Split(raw: string) returns (r: Result<Line>)
      ensures r == SplitLine(raw)
    {
      var tokens := Tokenise(raw);
      if tokens.Err? {
        return Err(tokens.error);
      }
      var toks := tokens.value;
      var start := 0;
      if |toks| >= 2 && Lower(toks[0]) == "public" {
        start := 1;
      }
      var name: Option<string> := None;
      if |toks| >= start + 2 && toks[start + 1] == ":" && StartsLabel(toks[start]) {
        name := Some(toks[start]);
        start := start + 2;
      }
      return Ok(Line(name, toks[start..]));
    }

    /** Evaluate from token `from` on; `p` is the first token not read. */
    method Eval(toks: seq<string>, from: nat) returns (r: Result<int>, p: nat)
      requires from <= |toks|
      ensures match Sum(toks[from..], symbols)
              case Err(e) => r == Err(e)
              case Ok(parsed) => r == Ok(parsed.value) && from < p <= |toks| && toks[p..] == parsed.rest
    {
      var eval := new ExprEval(toks, from, symbols);
      r := eval.ParseSum();
      p := eval.pos;
    }

    method ExtractSideDelay(toks: seq<string>) returns (r: Result<Operands>)
      ensures r == Extract(toks, symbols, Operands([], None, 0))
    {
      hide Sum, Lower;
      var core: seq<string>, side: Option<int>, delay := [], None, 0;
      var i := 0;
      assert toks[0..] == toks;
      while i < |toks|
        invariant i <= |toks|
        invariant Extract(toks, symbols, Operands([], None, 0))
            == Extract(toks[i..], symbols, Operands(core, side, delay))
      {
        ghost var rest := toks[i..];
        assert rest[0] == toks[i] && rest[1..] == toks[i + 1..];
        if Lower(toks[i]) == "side" {
          var v, p := Eval(toks, i + 1);
          if v.Err? {
            return Err(v.error);
          }
          side, i := Some(v.value), p;
        } else if toks[i] == "[" {
          var v, p := Eval(toks, i + 1);
          if v.Err? {
            return Err(v.error);
          }
          if p >= |toks| || toks[p] != "]" {
            return Err(ExpectedCloseBracket);
          }
          assert toks[p..][1..] == toks[p + 1..];
          delay, i := v.value, p + 1;
        } else {
          core, i := core + [toks[i]], i + 1;
        }
      }
      return Ok(Operands(core, side, delay));
    }

    method EncodeLine(toks: seq<string>) returns (r: Result<Half>)
      ensures r == Encode(layout, symbols, toks)
    {
      hide Extract;
      var o := ExtractSideDelay(toks);
      if o.Err? {
        return Err(o.error);
      }
      return EncodeOperands(layout, symbols, o.value);
    }

    method HandleDefine(toks: seq<string>, ghost pc: nat) returns (failure: Option<AsmError>)
      requires toks != []
      modifies this`symbols
      ensures Reached(Define(old(Snapshot(pc)), toks), failure, pc)
    {
      hide Sum;
      var i := 1;
      if i < |toks| && Lower(toks[i]) == "public" {
        i := i + 1;
      }
      if i + 1 >= |toks| {
        return Some(MissingOperand);
      }
      var name := toks[i];
      var v, p := Eval(toks, i + 1);
      if v.Err? {
        return Some(v.error);
      }
      symbols := symbols[name := v.value];
      return None;
    }

    method HandleSideSet(toks: seq<string>, ghost pc: nat) returns (failure: Option<AsmError>)
      requires toks != []
      modifies this`layout
      ensures Reached(SideSet(old(Snapshot(pc)), toks), failure, pc)
    {
      hide Sum, Lower;
      var v, p := Eval(toks, 1);
      if v.Err? {
        return Some(v.error);
      }
      var opt := layout.opt;
      ghost var rest := toks[p..];
      var k := p;
      while k < |toks|
        invariant p <= k <= |toks|
        invariant opt == (layout.opt || exists i :: 0 <= i < k - p && Lower(rest[i]) == "opt")
        invariant forall i :: 0 <= i < k - p ==> Lower(rest[i]) == "opt" || Lower(rest[i]) == "pindirs"
      {
        assert rest[k - p] == toks[k];
        if Lower(toks[k]) == "opt" {
          opt := true;
        } else if Lower(toks[k]) != "pindirs" {
          return Some(BadDirective(toks[0]));
        }
        k := k + 1;
      }
      var declared := Layout(Wrap(v.value), opt);
      if Wrap(declared.count + declared.OptBit()) > 5 {
        return Some(OutOfRange);
      }
      layout := declared;
      return None;
    }

    method HandleDirective(toks: seq<string>, pc: nat) returns (failure: Option<AsmError>)
      requires IsDirective(toks)
      modifies this
      ensures Reached(Directive(old(Snapshot(pc)), toks), failure, pc)
      ensures instructions == old(instructions)
    {
      hide Sum, Lower, Define, SideSet;
      failure := None;
      var d := Lower(toks[0]);
      if d == ".program" {
        if programSeen || |toks| < 2 {
          return Some(BadDirective(toks[0]));
        }
        programSeen := true;
      } else if d == ".define" {
        failure := HandleDefine(toks, pc);
      } else if d == ".origin" {
        var v, p := Eval(toks, 1);
        if v.Err? {
          return Some(v.error);
        }
      } else if d == ".side_set" {
        failure := HandleSideSet(toks, pc);
      } else if d == ".wrap_target" {
        wrapTarget, wrapTargetSeen := pc, true;
      } else if d == ".wrap" {
        if pc == 0 {
          return Some(BadDirective(toks[0]));
        }
        wrap, wrapSeen := pc - 1, true;
      } else if d !in IGNORED {
        return Some(BadDirective(toks[0]));
      }
    }

    method FirstPassLine(raw: string, pc: nat) returns (failure: Option<AsmError>, next: nat)
      modifies this
      ensures Reached(FirstLine(old(Snapshot(pc)), raw), failure, next)
      ensures instructions == old(instructions)
    {
      hide Tokens, SplitTokens, Directive;
      next := pc;
      failure := None;
      var l := Split(raw);
      if l.Err? {
        return Some(l.error), pc;
      }
      if l.value.name.Some? {
        var name := l.value.name.value;
        if name in symbols || name in labels {
          return Some(DuplicateLabel(name)), pc;
        }
        labels := labels[name := pc];
        symbols := symbols[name := pc];
      }
      if l.value.toks == [] {
      } else if IsDirective(l.value.toks) {
        ghost var before := Snapshot(pc);
        failure := HandleDirective(l.value.toks, pc);
        if failure.None? {
          DirectiveKeeps(before, l.value.toks);
        }
      } else {
        next := pc + 1;
      }
    }

    /** The first pass from a fresh object. */
    method Pass1() returns (failure: Option<AsmError>, count: nat)
      requires Snapshot(0) == INITIAL
      modifies this
      ensures Reached(FirstPass(lines), failure, count)
      ensures instructions == old(instructions)
    {
      hide FirstLine;
      failure, count := None, 0;
      var k := 0;
      assert lines[0..] == lines;
      while k < |lines|
        invariant k <= |lines| && failure == None
        invariant Scan(INITIAL, lines) == Scan(Snapshot(count), lines[k..])
        invariant instructions == old(instructions)
      {
        ghost var before := Snapshot(count);
        failure, count := FirstPassLine(lines[k], count);
        assert lines[k..][0] == lines[k] && lines[k..][1..] == lines[k + 1..];
        if failure.Some? {
          assert Scan(before, lines[k..]) == Err(failure.value);
          return;
        }
        k := k + 1;
      }
      if count == 0 {
        return Some(NoInstructions), count;
      }
      if !wrapSeen {
        wrap := count - 1;
      }
      if !wrapTargetSeen {
        wrapTarget := 0;
      }
    }

    /** The second pass, with the tables the first one left. */
    method Pass2(ghost count: nat) returns (failure: Option<AsmError>)
      modifies this`instructions
      ensures match Emit(Snapshot(count), lines, [])
              case Ok(ws) => failure == None && instructions == ws
              case Err(e) => failure == Some(e)
    {
      hide Encode, Tokens, SplitTokens;
      instructions := [];
      var k := 0;
      assert lines[0..] == lines;
      while k < |lines|
        invariant k <= |lines|
        invariant Emit(Snapshot(count), lines, []) == Emit(Snapshot(count), lines[k..], instructions)
      {
        assert lines[k..][0] == lines[k] && lines[k..][1..] == lines[k + 1..];
        var l := Split(lines[k]);
        if l.Err? {
          return Some(l.error);
        }
        if IsInstruction(l.value) {
          var w := EncodeLine(l.value.toks);
          if w.Err? {
            return Some(w.error);
          }
          instructions := instructions + [w.value];
        }
        k := k + 1;
      }
      return None;
    }

    /** Both passes; the object ends as the specification's assembly. */
    method Run() returns (failure: Option<AsmError>, ghost count: nat)
      requires Snapshot(0) == INITIAL
      modifies this
      ensures match Assemble(lines)
              case Ok(a) => failure == None && Snapshot(count) == a.state && instructions == a.instructions
              case Err(e) => failure == Some(e)
    {
      hide FirstPass, Emit;
      var n;
      failure, n := Pass1();
      count := n;
      if failure.Some? {
        return;
      }
      failure := Pass2(n);
    }
  }
}
