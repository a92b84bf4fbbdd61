/** What the tokeniser and the numeral reader do with pieces of text: words,
    punctuation and blanks one after another come out as their tokens, and a
    decimal numeral reads back. */
module AsmTextLemmas {
  import opened AsmText

  // ------------------------------------------------------------ tokens of pieces

  function Then(a: Result<seq<string>>, b: Result<seq<string>>): Result<seq<string>> {
    if a.Err? then a else Prefixed(a.value, b)
  }

  lemma {:induction false} SpanStops(s: string, tail: string, name: bool)
    requires tail == "" || !Continues(tail[0], name)
    ensures Span(s + tail, name) == Span(s, name)
  {
    if s == "" {
      assert s + tail == tail;
    } else {
      assert (s + tail)[1..] == s[1..] + tail;
      SpanStops(s[1..], tail, name);
    }
  }

  /** A space ends whatever token is before it: text splits into tokens piece by piece. */
  lemma {:induction false} TokensSpace(a: string, b: string)
    ensures Tokens(a + " " + b) == Then(Tokens(a), Tokens(b))
    decreases |a|
  {
    var whole := a + " " + b;
    if a == "" {
      assert whole[1..] == b;
      if Tokens(b).Ok? {
        assert [] + Tokens(b).value == Tokens(b).value;
      }
    } else if IsSpace(a[0]) {
      assert whole[1..] == a[1..] + " " + b;
      TokensSpace(a[1..], b);
    } else {
      var n := TokenLength(a);
      LengthBeforeSpace(a, b);
      if n > 0 {
        assert whole[..n] == a[..n] && whole[n..] == a[n..] + " " + b;
        TokensSpace(a[n..], b);
        SplitPrefix([a[..n]], Tokens(a[n..]), Tokens(b));
      }
    }
  }

  lemma LengthBeforeSpace(a: string, b: string)
    requires a != ""
    ensures TokenLength(a + " " + b) == TokenLength(a)
  {
    var tail := " " + b;
    assert a + " " + b == a + tail;
    SpanStops(a, tail, true);
    SpanStops(a, tail, false);
    assert DoubleOperator(a + tail) == DoubleOperator(a) by {
      if |a| == 1 {
        assert (a + tail)[1] == ' ';
      } else {
        assert (a + tail)[1] == a[1];
      }
    }
  }

  lemma SplitPrefix(t: seq<string>, a: Result<seq<string>>, b: Result<seq<string>>)
    ensures Then(Prefixed(t, a), b) == Prefixed(t, Then(a, b))
  {
    if a.Ok? {
      PrefixedTwice(t, a.value, b);
    }
  }

  /** Characters that all continue a token, with nothing after them, are one token. */
  predicate IsWord(w: string) {
    && w != ""
    && (StartsName(w[0]) || IsDigit(w[0]))
    && forall i :: 0 <= i < |w| ==> Continues(w[i], StartsName(w[0]))
  }

  lemma {:induction false} SpanAll(s: string, name: bool)
    requires forall i :: 0 <= i < |s| ==> Continues(s[i], name)
    ensures Span(s, name) == |s|
  {
    if s != "" {
      SpanAll(s[1..], name);
    }
  }

  lemma TokensWordThen(w: string, tail: string)
    requires IsWord(w)
    requires tail == "" || (!Continues(tail[0], true))
    ensures Tokens(w + tail) == Prefixed([w], Tokens(tail))
  {
    var name := StartsName(w[0]);
    SpanAll(w, name);
    SpanStops(w, tail, name);
    var s := w + tail;
    assert s[0] == w[0];
    assert s[..|w|] == w && s[|w|..] == tail;
    assert TokenLength(s) == |w|;
  }

  lemma TokensWord(w: string)
    requires IsWord(w)
    ensures Tokens(w) == Ok([w])
  {
    assert w + "" == w;
    TokensWordThen(w, "");
    assert [w] + [] == [w];
  }

  /** A one-character operator in front of a text it does not merge with. */
  lemma TokensPunct(c: char, tail: string)
    requires IsPunct(c) && !DoubleOperator([c] + tail)
    ensures Tokens([c] + tail) == Prefixed([[c]], Tokens(tail))
  {
    var s := [c] + tail;
    assert s[..1] == [c] && s[1..] == tail;
    assert TokenLength(s) == 1;
  }

  lemma TokensDouble(op: string, tail: string)
    requires op == "::" || op == "!=" || op == "--"
    ensures Tokens(op + tail) == Prefixed([op], Tokens(tail))
  {
    var s := op + tail;
    assert s[0] == op[0] && s[1] == op[1];
    assert s[..2] == op && s[2..] == tail;
  }

  // ---------------------------------------------------------------- numerals

  lemma {:induction false} AccumulateAppend(s: string, d: nat, radix: nat, acc: nat)
    requires d < 10 <= radix
    requires forall i :: 0 <= i < |s| ==> IsDigit(s[i])
    ensures Accumulate(s + [Digit(d)], radix, acc) == Accumulate(s, radix, acc) * radix + d
  {
    var t := s + [Digit(d)];
    if s == "" {
      assert t[1..] == "";
      assert t[0] == Digit(d);
    } else {
      assert t[1..] == s[1..] + [Digit(d)];
      AccumulateAppend(s[1..], d, radix, acc * radix + DigitValue(s[0]));
    }
  }

  lemma {:induction false} AccumulateDec(n: nat)
    ensures Accumulate(Dec(n), 10, 0) == n
  {
    if n < 10 {
      assert Dec(n)[1..] == "";
    } else {
      AccumulateDec(n / 10);
      AccumulateAppend(Dec(n / 10), n % 10, 10, 0);
    }
  }

  /** The numeral of every number that fits 64 bits reads back as that number. */
  lemma ParseDec(n: nat)
    ensures ParseNumber(Dec(n)) == if n <= INT64_MAX then Ok(n) else Err(BadNumber(Dec(n)))
  {
    AccumulateDec(n);
    var s := Dec(n);
    assert IsDigit(s[0]);
    if |s| > 2 {
      assert IsDigit(s[1]);
    }
  }

  lemma DecIsWord(n: nat)
    ensures IsWord(Dec(n)) && Lower(Dec(n)) == Dec(n) && IsDigit(Dec(n)[0])
  {
    var s := Dec(n);
    forall i | 0 <= i < |s|
      ensures !IsUpper(s[i]) && Continues(s[i], false)
    {
      assert IsDigit(s[i]);
    }
  }
}
