/** The recursive-descent expression evaluator, and what it computes. */
module AsmExpr {
  // It computes the value of the expression tree whose tokens it reads.  The
  // specification works on the tokens that are left; `ExprEval` keeps a cursor
  // into the whole list.  Values are unbounded integers.
  import opened AsmText
  import opened AsmTextLemmas
  import opened Words
  import opened WordLemmas

  type Symbols = map<string, int>

  datatype Parsed = Parsed(value: int, rest: seq<string>)

  // --------------------------------------------------------------- grammar

  predicate Starts(ts: seq<string>, t: string) { ts != [] && ts[0] == t }

  /** `::`, on the low 32 bits of the operand */
  function Reversed(v: int): int { Rev(Wrap(v), 32) }

  function Sum(ts: seq<string>, syms: Symbols): (r: Result<Parsed>)
    ensures r.Ok? ==> |r.value.rest| < |ts|
    decreases |ts|, 3
  {
    match Product(ts, syms)
    case Err(e) => Err(e)
    case Ok(p) => SumLoop(p.value, p.rest, syms)
  }

  function SumLoop(v: int, ts: seq<string>, syms: Symbols): (r: Result<Parsed>)
    ensures r.Ok? ==> |r.value.rest| <= |ts|
    decreases |ts|, 4
  {
    if Starts(ts, "+") || Starts(ts, "-") then
      match Product(ts[1..], syms)
      case Err(e) => Err(e)
      case Ok(p) => SumLoop(if ts[0] == "-" then v - p.value else v + p.value, p.rest, syms)
    else Ok(Parsed(v, ts))
  }

  function Product(ts: seq<string>, syms: Symbols): (r: Result<Parsed>)
    ensures r.Ok? ==> |r.value.rest| < |ts|
    decreases |ts|, 2
  {
    match Unary(ts, syms)
    case Err(e) => Err(e)
    case Ok(p) => ProductLoop(p.value, p.rest, syms)
  }

  function ProductLoop(v: int, ts: seq<string>, syms: Symbols): (r: Result<Parsed>)
    ensures r.Ok? ==> |r.value.rest| <= |ts|
    decreases |ts|, 3
  {
    if Starts(ts, "*") then
      match Unary(ts[1..], syms)
      case Err(e) => Err(e)
      case Ok(p) => ProductLoop(v * p.value, p.rest, syms)
    else Ok(Parsed(v, ts))
  }

  function Unary(ts: seq<string>, syms: Symbols): (r: Result<Parsed>)
    ensures r.Ok? ==> |r.value.rest| < |ts|
    decreases |ts|, 1
  {
    if Starts(ts, "-") || Starts(ts, "~") || Starts(ts, "::") then
      match Unary(ts[1..], syms)
      case Err(e) => Err(e)
      case Ok(p) => Ok(p.(value := Apply(ts[0], p.value)))
    else Atom(ts, syms)
  }

  function Apply(op: string, v: int): int {
    if op == "-" then -v else if op == "~" then -v - 1 else Reversed(v)
  }

  function Atom(ts: seq<string>, syms: Symbols): (r: Result<Parsed>)
    ensures r.Ok? ==> |r.value.rest| < |ts|
    decreases |ts|, 0
  {
    if Starts(ts, "(") then
      match Sum(ts[1..], syms)
      case Err(e) => Err(e)
      case Ok(p) => if Starts(p.rest, ")") then Ok(p.(rest := p.rest[1..])) else Err(ExpectedCloseParen)
    else if ts == [] || ts[0] == "" then Err(ExpectedExpression)
    else
      match Leaf(ts[0], syms)
      case Err(e) => Err(e)
      case Ok(v) => Ok(Parsed(v, ts[1..]))
  }

  function Leaf(t: string, syms: Symbols): Result<int>
    requires t != ""
  {
    if IsDigit(t[0]) then ParseNumber(t)
    else if t in syms then Ok(syms[t])
    else Err(UndefinedSymbol(t))
  }

  // --------------------------------------------------- trees and their meaning

  datatype Expr =
    | Num(n: nat)
    | Sym(name: string)
    | Negate(e: Expr)
    | Complement(e: Expr)
    | Reverse(e: Expr)
    | Add(l: Expr, r: Expr)
    | Sub(l: Expr, r: Expr)
    | Mul(l: Expr, r: Expr)

  /** The tree's value, or the error of its leftmost bad leaf. */
  function Denote(e: Expr, syms: Symbols): Result<int> {
    match e
    case Num(n) => if n <= INT64_MAX then Ok(n) else Err(BadNumber(Dec(n)))
    case Sym(name) => if name in syms then Ok(syms[name]) else Err(UndefinedSymbol(name))
    case Negate(x) => Prefix(-1, 0, Denote(x, syms))
    case Complement(x) => Prefix(-1, -1, Denote(x, syms))
    case Reverse(x) =>
      (match Denote(x, syms)
       case Err(error) => Err(error)
       case Ok(v) => Ok(BitReverse(Wrap(v))))
    case Add(l, r) => Infix("+", Denote(l, syms), Denote(r, syms))
    case Sub(l, r) => Infix("-", Denote(l, syms), Denote(r, syms))
    case Mul(l, r) => Infix("*", Denote(l, syms), Denote(r, syms))
  }

  /** `scale * a + offset` */
  function Prefix(scale: int, offset: int, a: Result<int>): Result<int> {
    if a.Ok? then Ok(scale * a.value + offset) else a
  }

  /** Left operand first: its error wins. */
  function Infix(op: string, a: Result<int>, b: Result<int>): Result<int> {
    if a.Err? then a
    else if b.Err? then b
    else Ok(if op == "+" then a.value + b.value else if op == "-" then a.value - b.value else a.value * b.value)
  }

  predicate WellNamed(e: Expr) {
    match e
    case Num(_) => true
    case Sym(name) => IsWord(name) && StartsName(name[0])
    case Negate(x) => WellNamed(x)
    case Complement(x) => WellNamed(x)
    case Reverse(x) => WellNamed(x)
    case Add(l, r) => WellNamed(l) && WellNamed(r)
    case Sub(l, r) => WellNamed(l) && WellNamed(r)
    case Mul(l, r) => WellNamed(l) && WellNamed(r)
  }

  const SUM: nat := 0
  const PRODUCT: nat := 1
  const UNARY: nat := 2

  function Binding(e: Expr): nat {
    if e.Add? || e.Sub? then SUM else if e.Mul? then PRODUCT else UNARY
  }

  /** The tokens of a tree where the grammar asks for `level`, with parentheses
      only where the tree binds more weakly. */
  function Show(e: Expr, level: nat): (ts: seq<string>)
    decreases e, 1
  {
    if Binding(e) < level then ["("] + Bare(e) + [")"] else Bare(e)
  }

  function Bare(e: Expr): (ts: seq<string>)
    decreases e, 0
  {
    match e
    case Num(n) => [Dec(n)]
    case Sym(name) => [name]
    case Negate(x) => ["-"] + Show(x, UNARY)
    case Complement(x) => ["~"] + Show(x, UNARY)
    case Reverse(x) => ["::"] + Show(x, UNARY)
    case Add(l, r) => Show(l, SUM) + ["+"] + Show(r, PRODUCT)
    case Sub(l, r) => Show(l, SUM) + ["-"] + Show(r, PRODUCT)
    case Mul(l, r) => Show(l, PRODUCT) + ["*"] + Show(r, UNARY)
  }

  // ----------------------------------------------------- parsing undoes printing

  function Parse(level: nat, ts: seq<string>, syms: Symbols): Result<Parsed> {
    if level == SUM then Sum(ts, syms) else if level == PRODUCT then Product(ts, syms) else Unary(ts, syms)
  }

  /** What is left to do after an operand of value `d` was read at `level`. */
  function Resume(level: nat, d: Result<int>, rest: seq<string>, syms: Symbols): Result<Parsed> {
    match d
    case Err(e) => Err(e)
    case Ok(v) =>
      if level == SUM then SumLoop(v, rest, syms)
      else if level == PRODUCT then ProductLoop(v, rest, syms)
      else Ok(Parsed(v, rest))
  }

  /** Reading at a weaker level what a stronger level reads first. */
  lemma Climb(level: nat, ts: seq<string>, d: Result<int>, rest: seq<string>, syms: Symbols)
    requires level < UNARY && Parse(level + 1, ts, syms) == Resume(level + 1, d, rest, syms)
    requires level == SUM ==> !Starts(rest, "*")
    ensures Parse(level, ts, syms) == Resume(level, d, rest, syms)
  {
  }

  lemma {:induction false} ShowParses(e: Expr, level: nat, rest: seq<string>, syms: Symbols)
    requires WellNamed(e) && level <= UNARY
    requires level == SUM ==> !Starts(rest, "*")
    ensures Parse(level, Show(e, level) + rest, syms) == Resume(level, Denote(e, syms), rest, syms)
    decreases e, if Binding(e) < level then 5 else 4 - level
  {
    hide Parse, Resume, Denote, WellNamed, Bare;
    var ts := Show(e, level) + rest;
    if Binding(e) < level {
      var inner := [")"] + rest;
      ShowParses(e, SUM, inner, syms);
      ParenParses(ts, Bare(e), Denote(e, syms), rest, syms);
      if level == PRODUCT {
        Climb(level, ts, Denote(e, syms), rest, syms);
      }
    } else if level < Binding(e) {
      ShowParses(e, level + 1, rest, syms);
      Climb(level, ts, Denote(e, syms), rest, syms);
    } else {
      BareParses(e, rest, syms);
    }
  }

  lemma ParenParses(ts: seq<string>, bare: seq<string>, d: Result<int>, rest: seq<string>, syms: Symbols)
    requires ts == ["("] + bare + [")"] + rest
    requires Parse(SUM, bare + ([")"] + rest), syms) == Resume(SUM, d, [")"] + rest, syms)
    ensures Parse(UNARY, ts, syms) == Resume(UNARY, d, rest, syms)
  {
    assert ts[1..] == bare + ([")"] + rest);
    assert ([")"] + rest)[1..] == rest;
    assert Unary(ts, syms) == Atom(ts, syms);
  }

  lemma {:induction false} BareParses(e: Expr, rest: seq<string>, syms: Symbols)
    requires WellNamed(e)
    requires Binding(e) == SUM ==> !Starts(rest, "*")
    ensures Parse(Binding(e), Bare(e) + rest, syms) == Resume(Binding(e), Denote(e, syms), rest, syms)
    decreases e, 0
  {
    hide Show;
    match e
    case Num(n) =>
      ParseDec(n);
      DecIsWord(n);
      LeafParses(Dec(n), rest, syms);
    case Sym(name) =>
      LeafParses(name, rest, syms);
    case Negate(x) =>
      ShowParses(x, UNARY, rest, syms);
      PrefixParses("-", Show(x, UNARY), Denote(x, syms), rest, syms);
    case Complement(x) =>
      ShowParses(x, UNARY, rest, syms);
      PrefixParses("~", Show(x, UNARY), Denote(x, syms), rest, syms);
    case Reverse(x) =>
      ShowParses(x, UNARY, rest, syms);
      PrefixParses("::", Show(x, UNARY), Denote(x, syms), rest, syms);
      if Denote(x, syms).Ok? {
        BitReverseIsRev(Wrap(Denote(x, syms).value));
      }
    case Add(l, r) =>
      var right := Show(r, PRODUCT);
      ShowParses(l, SUM, ["+"] + right + rest, syms);
      ShowParses(r, PRODUCT, rest, syms);
      TermParses(Show(l, SUM), "+", right, Denote(l, syms), Denote(r, syms), rest, syms);
    case Sub(l, r) =>
      var right := Show(r, PRODUCT);
      ShowParses(l, SUM, ["-"] + right + rest, syms);
      ShowParses(r, PRODUCT, rest, syms);
      TermParses(Show(l, SUM), "-", right, Denote(l, syms), Denote(r, syms), rest, syms);
    case Mul(l, r) =>
      var right := Show(r, UNARY);
      ShowParses(l, PRODUCT, ["*"] + right + rest, syms);
      ShowParses(r, UNARY, rest, syms);
      FactorParses(Show(l, PRODUCT), right, Denote(l, syms), Denote(r, syms), rest, syms);
  }

  lemma LeafParses(t: string, rest: seq<string>, syms: Symbols)
    requires IsWord(t)
    ensures Parse(UNARY, [t] + rest, syms) == Resume(UNARY, Leaf(t, syms), rest, syms)
  {
    var ts := [t] + rest;
    assert ts[1..] == rest;
    assert t[0] != '-' && t[0] != '~' && t[0] != ':' && t[0] != '(';
    assert Unary(ts, syms) == Atom(ts, syms);
  }

  lemma PrefixParses(op: string, operand: seq<string>, d: Result<int>, rest: seq<string>, syms: Symbols)
    requires op == "-" || op == "~" || op == "::"
    requires Parse(UNARY, operand + rest, syms) == Resume(UNARY, d, rest, syms)
    ensures Parse(UNARY, [op] + operand + rest, syms)
        == Resume(UNARY, if d.Ok? then Ok(Apply(op, d.value)) else d, rest, syms)
  {
    assert ([op] + operand + rest)[1..] == operand + rest;
  }

  lemma TermParses(left: seq<string>, op: string, right: seq<string>,
                   dl: Result<int>, dr: Result<int>, rest: seq<string>, syms: Symbols)
    requires (op == "+" || op == "-") && !Starts(rest, "*")
    requires Parse(SUM, left + ([op] + right + rest), syms) == Resume(SUM, dl, [op] + right + rest, syms)
    requires Parse(PRODUCT, right + rest, syms) == Resume(PRODUCT, dr, rest, syms)
    ensures Parse(SUM, left + [op] + right + rest, syms) == Resume(SUM, Infix(op, dl, dr), rest, syms)
  {
    assert left + [op] + right + rest == left + ([op] + right + rest);
    assert ([op] + right + rest)[1..] == right + rest;
  }

  lemma FactorParses(left: seq<string>, right: seq<string>,
                     dl: Result<int>, dr: Result<int>, rest: seq<string>, syms: Symbols)
    requires Parse(PRODUCT, left + (["*"] + right + rest), syms) == Resume(PRODUCT, dl, ["*"] + right + rest, syms)
    requires Parse(UNARY, right + rest, syms) == Resume(UNARY, dr, rest, syms)
    ensures Parse(PRODUCT, left + ["*"] + right + rest, syms) == Resume(PRODUCT, Infix("*", dl, dr), rest, syms)
  {
    assert left + ["*"] + right + rest == left + (["*"] + right + rest);
    assert (["*"] + right + rest)[1..] == right + rest;
  }

  /** The value, or the error, with `rest` not read. */
  function Leaving(d: Result<int>, rest: seq<string>): Result<Parsed> {
    if d.Ok? then Ok(Parsed(d.value, rest)) else Err(d.error)
  }

  predicate Continued(rest: seq<string>) { Starts(rest, "*") || Starts(rest, "+") || Starts(rest, "-") }

  /** Evaluating the printed tokens of any tree uses up exactly those tokens and
      gives the tree's value, precedence and left association included, or the
      tree's error. */
  lemma EvaluatorReadsTree(e: Expr, rest: seq<string>, syms: Symbols)
    requires WellNamed(e) && !Continued(rest)
    ensures Sum(Show(e, SUM) + rest, syms) == Leaving(Denote(e, syms), rest)
  {
    ShowParses(e, SUM, rest, syms);
  }

  // ------------------------------------------------------ the same from text

  /** Tokens written out with a space after each. */
  function Spaced(ts: seq<string>): string {
    if ts == [] then "" else ts[0] + " " + Spaced(ts[1..])
  }

  predicate SelfToken(t: string) { Tokens(t) == Ok([t]) }

  predicate SelfTokens(ts: seq<string>) { forall i :: 0 <= i < |ts| ==> SelfToken(ts[i]) }

  lemma {:induction false} SpacedTokens(ts: seq<string>)
    requires SelfTokens(ts)
    ensures Tokens(Spaced(ts)) == Ok(ts)
  {
    if ts != [] {
      assert SelfToken(ts[0]);
      SpacedTokens(ts[1..]);
      TokensSpace(ts[0], Spaced(ts[1..]));
      assert [ts[0]] + ts[1..] == ts;
    }
  }

  lemma Joined(a: seq<string>, t: string, b: seq<string>)
    requires SelfTokens(a) && SelfToken(t) && SelfTokens(b)
    ensures SelfTokens(a + [t] + b)
  {
  }

  lemma OperatorTokens()
    ensures SelfToken("(") && SelfToken(")") && SelfToken("+") && SelfToken("-") && SelfToken("*")
    ensures SelfToken("~") && SelfToken("::")
  {
    forall c: char | c == '(' || c == ')' || c == '+' || c == '-' || c == '*' || c == '~'
      ensures SelfToken([c])
    {
      assert [c] + "" == [c];
      TokensPunct(c, "");
      assert [[c]] + [] == [[c]];
    }
    assert SelfToken(['(']) && SelfToken([')']) && SelfToken(['+']) && SelfToken(['-']) && SelfToken(['*'])
        && SelfToken(['~']);
    assert "::" + "" == "::";
    TokensDouble("::", "");
    assert ["::"] + [] == ["::"];
  }

  lemma WordSelf(w: string)
    requires IsWord(w)
    ensures SelfTokens([w])
  {
    TokensWord(w);
  }

  lemma {:induction false} BareTokens(e: Expr)
    requires WellNamed(e)
    ensures SelfTokens(Bare(e))
    decreases e, 0
  {
    hide SelfToken, SelfTokens, Show;
    OperatorTokens();
    match e
    case Num(n) => DecIsWord(n); WordSelf(Dec(n));
    case Sym(name) => WordSelf(name);
    case Negate(x) => OneOperand("-", x);
    case Complement(x) => OneOperand("~", x);
    case Reverse(x) => OneOperand("::", x);
    case Add(l, r) => ShowTokens(l, SUM); ShowTokens(r, PRODUCT); Joined(Show(l, SUM), "+", Show(r, PRODUCT));
    case Sub(l, r) => ShowTokens(l, SUM); ShowTokens(r, PRODUCT); Joined(Show(l, SUM), "-", Show(r, PRODUCT));
    case Mul(l, r) => ShowTokens(l, PRODUCT); ShowTokens(r, UNARY); Joined(Show(l, PRODUCT), "*", Show(r, UNARY));
  }

  lemma {:induction false} OneOperand(op: string, x: Expr)
    requires WellNamed(x) && SelfToken(op)
    ensures SelfTokens([op] + Show(x, UNARY))
    decreases x, 2
  {
    ShowTokens(x, UNARY);
  }

  lemma {:induction false} ShowTokens(e: Expr, level: nat)
    requires WellNamed(e)
    ensures SelfTokens(Show(e, level))
    decreases e, 1
  {
    hide SelfToken, Bare;
    BareTokens(e);
    OperatorTokens();
  }

  /** From text to value: writing a tree out, tokenising the text and evaluating
      the tokens gives the tree's value. */
  lemma TextReadsTree(e: Expr, syms: Symbols)
    requires WellNamed(e)
    ensures var ts := Tokens(Spaced(Show(e, SUM)));
            ts.Ok? && Sum(ts.value, syms) == Leaving(Denote(e, syms), [])
  {
    ShowTokens(e, SUM);
    SpacedTokens(Show(e, SUM));
    EvaluatorReadsTree(e, [], syms);
    assert Show(e, SUM) + [] == Show(e, SUM);
  }

  // ------------------------------------------------------- the cursor machine

  class ExprEval {
    const toks: seq<string>
    const syms: Symbols
    var pos: nat

    constructor (toks: seq<string>, pos: nat, syms: Symbols)
      ensures this.toks == toks && this.pos == pos && this.syms == syms
    {
      this.toks, this.pos, this.syms := toks, pos, syms;
    }

    /** The method's outcome and the cursor are what the specification says of the tokens left. */
    ghost predicate Follows(spec: Result<Parsed>, r: Result<int>)
      reads this
    {
      match spec
      case Err(e) => r == Err(e)
      case Ok(p) => r == Ok(p.value) && pos <= |toks| && toks[pos..] == p.rest
    }

    function Peek(): string
      reads this
    {
      if pos < |toks| then toks[pos] else ""
    }

    method Take() returns (t: string)
      modifies this
      ensures t == old(Peek()) && pos == if old(pos) < |toks| then old(pos) + 1 else old(pos)
    {
      t := Peek();
      if pos < |toks| {
        pos := pos + 1;
      }
    }

    method ParseSum() returns (r: Result<int>)
      requires pos <= |toks|
      modifies this
      ensures Follows(Sum(old(toks[pos..]), syms), r)
      decreases |toks| - pos, 3
    {
      ghost var start := toks[pos..];
      var first := ParseProduct();
      if first.Err? {
        return first;
      }
      var v := first.value;
      while Peek() == "+" || Peek() == "-"
        invariant old(pos) < pos <= |toks|
        invariant Sum(start, syms) == SumLoop(v, toks[pos..], syms)
        decreases |toks| - pos
      {
        ghost var before := toks[pos..];
        var op := Take();
        assert before[1..] == toks[pos..];
        var term := ParseProduct();
        if term.Err? {
          return term;
        }
        v := if op == "-" then v - term.value else v + term.value;
      }
      return Ok(v);
    }

    method ParseProduct() returns (r: Result<int>)
      requires pos <= |toks|
      modifies this
      ensures Follows(Product(old(toks[pos..]), syms), r)
      decreases |toks| - pos, 2
    {
      ghost var start := toks[pos..];
      var first := ParseUnary();
      if first.Err? {
        return first;
      }
      var v := first.value;
      while Peek() == "*"
        invariant old(pos) < pos <= |toks|
        invariant Product(start, syms) == ProductLoop(v, toks[pos..], syms)
        decreases |toks| - pos
      {
        ghost var before := toks[pos..];
        var op := Take();
        assert before[1..] == toks[pos..];
        var factor := ParseUnary();
        if factor.Err? {
          return factor;
        }
        v := v * factor.value;
      }
      return Ok(v);
    }

    method ParseUnary() returns (r: Result<int>)
      requires pos <= |toks|
      modifies this
      ensures Follows(Unary(old(toks[pos..]), syms), r)
      decreases |toks| - pos, 1
    {
      ghost var start := toks[pos..];
      if Peek() == "-" || Peek() == "~" || Peek() == "::" {
        var op := Take();
        assert start[1..] == toks[pos..];
        r := ParseUnary();
        if r.Ok? {
          if op == "::" {
            var reversed := BitRev32(r.value);
            r := Ok(reversed);
          } else {
            r := Ok(if op == "-" then -r.value else -r.value - 1);
          }
        }
      } else {
        r := ParseAtom();
      }
    }

    method ParseAtom() returns (r: Result<int>)
      requires pos <= |toks|
      modifies this
      ensures Follows(Atom(old(toks[pos..]), syms), r)
      decreases |toks| - pos, 0
    {
      ghost var start := toks[pos..];
      if Peek() == "(" {
        var open := Take();
        assert start[1..] == toks[pos..];
        r := ParseSum();
        if r.Ok? {
          ghost var before := toks[pos..];
          var close := Take();
          if close != ")" {
            return Err(ExpectedCloseParen);
          }
          assert before[1..] == toks[pos..];
        }
      } else {
        var t := Take();
        if t == "" {
          return Err(ExpectedExpression);
        }
        assert start[1..] == toks[pos..];
        r := Leaf(t, syms);
      }
    }
  }

  /** The bit-by-bit loop: 32 times, the lowest bit of `x` enters the result at the bottom. */
  method BitRev32(v: int) returns (r: int)
    ensures r == Reversed(v)
    ensures r == BitReverse(Wrap(v))
  {
    var x: nat := Wrap(v);
    r := 0;
    for i := 0 to 32
      invariant r == Rev(Wrap(v), i)
      invariant x == Wrap(v) / Pow2(i)
    {
      RevSnoc(Wrap(v), i);
      DivDiv(Wrap(v), Pow2(i), 2);
      DivLe(x, 2);
      assert Pow2(i + 1) == 2 * Pow2(i);
      r := 2 * r + x % 2;
      x := x / 2;
    }
    BitReverseIsRev(Wrap(v));
  }
}
