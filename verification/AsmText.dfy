/** Assembler source text: character classes, decimal printing, numeric
    literals and the tokeniser.  A thrown assembler error is an `Err`. */
module AsmText {

  datatype AsmError =
    | UnexpectedCharacter(c: char)
    | ExpectedCloseParen
    | ExpectedExpression
    | BadNumber(text: string)
    | UndefinedSymbol(name: string)
    | ExpectedCloseBracket
    | DelayOutOfRange
    | SideUndeclared
    | SideOutOfRange
    | SideRequired
    | EmptyInstruction
    | UnknownMnemonic(name: string)
    | TrailingTokens
    | MissingOperand
    | BadOperand(text: string)
    | OutOfRange
    | DuplicateLabel(name: string)
    | BadDirective(name: string)
    | NoInstructions

  datatype Result<+T> = Ok(value: T) | Err(error: AsmError)

  // ------------------------------------------------------------ characters

  predicate IsSpace(c: char) { c == ' ' || 9 <= c as int <= 13 }

  predicate IsDigit(c: char) { '0' <= c <= '9' }

  predicate IsUpper(c: char) { 'A' <= c <= 'Z' }

  predicate IsAlpha(c: char) { 'a' <= c <= 'z' || IsUpper(c) }

  predicate IsAlnum(c: char) { IsAlpha(c) || IsDigit(c) }

  predicate IsPunct(c: char) {
    c == ',' || c == '(' || c == ')' || c == '[' || c == ']' || c == '+' || c == '-' || c == '*'
    || c == '!' || c == '~' || c == ':'
  }

  predicate StartsName(c: char) { IsAlpha(c) || c == '_' || c == '$' || c == '.' }

  /** The characters that continue a token begun by a name character, or by a digit. */
  predicate Continues(c: char, name: bool) {
    IsAlnum(c) || (name && (c == '_' || c == '$' || c == '.'))
  }

  function LowerChar(c: char): char {
    if IsUpper(c) then (c as int + 32) as char else c
  }

  function Lower(s: string): (t: string)
    ensures |t| == |s|
    ensures (forall i :: 0 <= i < |s| ==> !IsUpper(s[i])) ==> t == s
  {
    seq(|s|, i requires 0 <= i < |s| => LowerChar(s[i]))
  }

  // --------------------------------------------------------------- numbers

  const INT64_MAX: int := 0x7FFF_FFFF_FFFF_FFFF

  function Digit(n: nat): (c: char)
    requires n < 10
    ensures IsDigit(c)
  {
    ('0' as int + n) as char
  }

  /** The decimal numeral of `n`. */
  function Dec(n: nat): (s: string)
    ensures |s| > 0 && forall i :: 0 <= i < |s| ==> IsDigit(s[i])
  {
    if n < 10 then [Digit(n)] else Dec(n / 10) + [Digit(n % 10)]
  }

  function DigitValue(c: char): (v: nat)
    ensures IsDigit(c) ==> v == c as int - '0' as int
  {
    if IsDigit(c) then c as int - '0' as int
    else if 'a' <= c <= 'z' then c as int - 'a' as int + 10
    else if IsUpper(c) then c as int - 'A' as int + 10
    else 36
  }

  /** The value of the longest run of base-`radix` digits at the front of `s`, after `acc`. */
  function Accumulate(s: string, radix: nat, acc: nat): nat {
    if s == "" || DigitValue(s[0]) >= radix then acc
    else Accumulate(s[1..], radix, acc * radix + DigitValue(s[0]))
  }

  /** `std::stoll`: an optional second 0x in base 16, at least one digit, text
      after the digits ignored, a value that fits 64 bits. */
  function ParseRun(text: string, s: string, radix: nat): Result<int> {
    var hexPrefix := radix == 16 && |s| > 2 && s[0] == '0' && (s[1] == 'x' || s[1] == 'X') && DigitValue(s[2]) < 16;
    var digits := if hexPrefix then s[2..] else s;
    if digits == "" || DigitValue(digits[0]) >= radix || Accumulate(digits, radix, 0) > INT64_MAX
    then Err(BadNumber(text))
    else Ok(Accumulate(digits, radix, 0))
  }

  function ParseNumber(s: string): Result<int> {
    if |s| > 2 && (s[1] == 'x' || s[1] == 'X') then ParseRun(s, s[2..], 16)
    else if |s| > 2 && (s[1] == 'b' || s[1] == 'B') then ParseRun(s, s[2..], 2)
    else ParseRun(s, s, 10)
  }

  // ------------------------------------------------------------- tokeniser

  /** How many characters at the front of `s` continue a name (or a number). */
  function Span(s: string, name: bool): (n: nat)
    ensures n <= |s|
    ensures s != "" && Continues(s[0], name) ==> n > 0
  {
    if s == "" || !Continues(s[0], name) then 0 else 1 + Span(s[1..], name)
  }

  predicate DoubleOperator(s: string) {
    |s| >= 2 && ((s[0] == ':' && s[1] == ':') || (s[0] == '!' && s[1] == '=') || (s[0] == '-' && s[1] == '-'))
  }

  /** The length of the token `s` starts with; 0 when no token starts there. */
  function TokenLength(s: string): (n: nat)
    requires s != ""
    ensures n <= |s|
  {
    if DoubleOperator(s) then 2
    else if IsPunct(s[0]) then 1
    else if StartsName(s[0]) then Span(s, true)
    else if IsDigit(s[0]) then Span(s, false)
    else 0
  }

  function Prefixed(before: seq<string>, r: Result<seq<string>>): Result<seq<string>> {
    match r
    case Ok(after) => Ok(before + after)
    case Err(e) => Err(e)
  }

  function Tokens(s: string): Result<seq<string>>
    decreases |s|
  {
    if s == "" then Ok([])
    else if IsSpace(s[0]) then Tokens(s[1..])
    else
      var n := TokenLength(s);
      if n == 0 then Err(UnexpectedCharacter(s[0])) else Prefixed([s[..n]], Tokens(s[n..]))
  }

  /** The scan of a name or a number that starts at `i`. */
  method SpanEnd(line: string, i: nat, name: bool) returns (j: nat)
    requires i <= |line|
    ensures i <= j <= |line| && j - i == Span(line[i..], name)
  {
    j := i;
    while j < |line| && Continues(line[j], name)
      invariant i <= j <= |line|
      invariant j - i + Span(line[j..], name) == Span(line[i..], name)
    {
      assert line[j..][1..] == line[j + 1..];
      j := j + 1;
    }
  }

  method Tokenise(line: string) returns (r: Result<seq<string>>)
    ensures r == Tokens(line)
  {
    hide Tokens, Span;
    var t: seq<string>, i := [], 0;
    Start(line);
    while i < |line|
      invariant 0 <= i <= |line|
      invariant Tokens(line) == Prefixed(t, Tokens(line[i..]))
    {
      var c := line[i];
      if IsSpace(c) {
        Skip(line, i);
        i := i + 1;
        continue;
      }
      var j := i + 1;
      if j < |line| && ((c == ':' && line[j] == ':') || (c == '!' && line[j] == '=') || (c == '-' && line[j] == '-')) {
        j := i + 2;
      } else if IsPunct(c) {
      } else if StartsName(c) {
        j := SpanEnd(line, i, true);
      } else if IsDigit(c) {
        j := SpanEnd(line, i, false);
      } else {
        Reject(line, i);
        return Err(UnexpectedCharacter(c));
      }
      Accept(line, t, i, j);
      t := t + [line[i..j]];
      i := j;
    }
    assert line[i..] == "";
    Finish(t);
    return Ok(t);
  }

  lemma Start(line: string)
    ensures Tokens(line) == Prefixed([], Tokens(line[0..]))
  {
    assert line[0..] == line;
    if Tokens(line).Ok? {
      assert [] + Tokens(line).value == Tokens(line).value;
    }
  }

  lemma Finish(t: seq<string>)
    ensures Prefixed(t, Tokens("")) == Ok(t)
  {
    assert t + [] == t;
  }

  lemma Skip(line: string, i: nat)
    requires i < |line| && IsSpace(line[i])
    ensures Tokens(line[i..]) == Tokens(line[i + 1..])
  {
    assert line[i..][1..] == line[i + 1..];
  }

  lemma Reject(line: string, i: nat)
    requires i < |line|
    requires !IsSpace(line[i]) && !IsPunct(line[i]) && !StartsName(line[i]) && !IsDigit(line[i])
    ensures Tokens(line[i..]) == Err(UnexpectedCharacter(line[i]))
  {
    assert line[i..][0] == line[i];
  }

  lemma Accept(line: string, t: seq<string>, i: nat, j: nat)
    requires i < |line| && !IsSpace(line[i]) && j == i + TokenLength(line[i..]) && i < j
    ensures Prefixed(t, Tokens(line[i..])) == Prefixed(t + [line[i..j]], Tokens(line[j..]))
  {
    var rest := line[i..];
    assert rest[..j - i] == line[i..j] && rest[j - i..] == line[j..];
    PrefixedTwice(t, [line[i..j]], Tokens(line[j..]));
  }

  lemma PrefixedTwice(a: seq<string>, b: seq<string>, r: Result<seq<string>>)
    ensures Prefixed(a, Prefixed(b, r)) == Prefixed(a + b, r)
  {
    if r.Ok? {
      assert a + (b + r.value) == a + b + r.value;
    }
  }
}
