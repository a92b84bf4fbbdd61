/** What the assembler's numerals stand for. */
module AsmNumerals {
  // Decimal, hexadecimal and binary numerals against positional notation, with the
  // figures written out.
  import opened AsmText

  /** The character is the figure for `v`, in either case. */
  predicate IsFigure(c: char, v: nat) {
    v < 16 && (c == "0123456789abcdef"[v] || c == "0123456789ABCDEF"[v])
  }

  /** `s` spells these figures, each below the radix. */
  predicate Spells(s: string, ds: seq<nat>, radix: nat) {
    |s| == |ds| && forall i :: 0 <= i < |ds| ==> ds[i] < radix && IsFigure(s[i], ds[i])
  }

  /** Positional notation, the last figure counting ones. */
  function Positional(ds: seq<nat>, radix: nat): nat {
    if ds == [] then 0 else Positional(ds[..|ds| - 1], radix) * radix + ds[|ds| - 1]
  }

  lemma FigureIs(c: char, v: nat)
    requires IsFigure(c, v)
    ensures DigitValue(c) == v && c != 'x' && c != 'X' && (v < 10 ==> c != 'b' && c != 'B')
  {
  }

  lemma {:induction false} OneMoreFigure(s: string, c: char, radix: nat, acc: nat)
    requires DigitValue(c) < radix && forall i :: 0 <= i < |s| ==> DigitValue(s[i]) < radix
    ensures Accumulate(s + [c], radix, acc) == Accumulate(s, radix, acc) * radix + DigitValue(c)
  {
    var t := s + [c];
    hide DigitValue;
    if s == "" {
      assert t[1..] == "" && t[0] == c;
    } else {
      assert t[1..] == s[1..] + [c];
      OneMoreFigure(s[1..], c, radix, acc * radix + DigitValue(s[0]));
    }
  }

  lemma {:induction false} RunIsPositional(s: string, ds: seq<nat>, radix: nat)
    requires Spells(s, ds, radix)
    ensures Accumulate(s, radix, 0) == Positional(ds, radix)
    decreases |s|
  {
    hide IsFigure, DigitValue;
    if s != "" {
      var (p, k) := (s[..|s| - 1], |s| - 1);
      forall i | 0 <= i < |s|
        ensures DigitValue(s[i]) == ds[i]
      {
        FigureIs(s[i], ds[i]);
      }
      RunIsPositional(p, ds[..k], radix);
      OneMoreFigure(p, s[k], radix, 0);
      assert p + [s[k]] == s;
    }
  }

  /** A value that does not fit into 64 bits is an error. */
  function Fitting(text: string, v: nat): Result<int> {
    if v < 0x8000_0000_0000_0000 then Ok(v) else Err(BadNumber(text))
  }

  lemma RunReads(text: string, s: string, ds: seq<nat>, radix: nat)
    requires s != "" && Spells(s, ds, radix)
    ensures ParseRun(text, s, radix) == Fitting(text, Positional(ds, radix))
  {
    hide Accumulate, IsFigure, DigitValue, Positional;
    RunIsPositional(s, ds, radix);
    FigureIs(s[0], ds[0]);
    if |s| > 1 {
      FigureIs(s[1], ds[1]);
    }
  }

  /** Every numeral stands for its positional value: in base 16 behind an x, in base 2
      behind a b, in base 10 otherwise; the letters may be of either case. */
  lemma NumeralsMean(c: char, s: string, ds: seq<nat>)
    requires s != ""
    ensures forall x :: x in {'x', 'X'} && Spells(s, ds, 16)
              ==> ParseNumber([c, x] + s) == Fitting([c, x] + s, Positional(ds, 16))
    ensures forall b :: b in {'b', 'B'} && Spells(s, ds, 2)
              ==> ParseNumber([c, b] + s) == Fitting([c, b] + s, Positional(ds, 2))
    ensures Spells(s, ds, 10) ==> ParseNumber(s) == Fitting(s, Positional(ds, 10))
  {
    hide ParseRun, IsFigure, Positional, Fitting;
    forall x | x in {'x', 'X'} && Spells(s, ds, 16)
      ensures ParseNumber([c, x] + s) == Fitting([c, x] + s, Positional(ds, 16))
    {
      assert ([c, x] + s)[2..] == s;
      RunReads([c, x] + s, s, ds, 16);
    }
    forall b | b in {'b', 'B'} && Spells(s, ds, 2)
      ensures ParseNumber([c, b] + s) == Fitting([c, b] + s, Positional(ds, 2))
    {
      assert ([c, b] + s)[2..] == s;
      RunReads([c, b] + s, s, ds, 2);
    }
    if Spells(s, ds, 10) {
      RunReads(s, s, ds, 10);
      if |s| > 2 {
        FigureIs(s[1], ds[1]);
      }
    }
  }
}
