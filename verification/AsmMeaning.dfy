/** What the names, conditions, indices and side-set operands of the assembler stand for. */
module AsmMeaning {
  import opened AsmText
  import opened AsmExpr
  import opened AsmEncode
  import opened Words
  import opened WordLemmas

  // --------------------------------------------------------------------- names

  /** The code of a name is its place in the table; an empty entry is reserved. */
  predicate Lists(table: seq<string>, s: string, code: Option<nat>) {
    match code
    case Some(k) => k < |table| && s != "" && table[k] == s
    case None => s == "" || forall k :: 0 <= k < |table| ==> table[k] != s
  }

  const OUT_NAMES := ["pins", "x", "y", "null", "pindirs", "pc", "isr", "exec"]
  const IN_NAMES := ["pins", "x", "y", "null", "", "", "isr", "osr"]
  const MOV_TO := ["pins", "x", "y", "", "exec", "pc", "isr", "osr"]
  const MOV_FROM := ["pins", "x", "y", "null", "", "status", "isr", "osr"]
  const SET_NAMES := ["pins", "x", "y", "", "pindirs"]
  const WAIT_NAMES := ["gpio", "pin", "irq"]

  lemma OutNames(s: string)
    ensures Lists(OUT_NAMES, s, OutCode(s))
  {
  }

  lemma InNames(s: string)
    ensures Lists(IN_NAMES, s, InCode(s))
  {
  }

  lemma MovNames(s: string)
    ensures Lists(MOV_TO, s, MovDestination(s)) && Lists(MOV_FROM, s, MovSource(s))
  {
  }

  lemma SetAndWaitNames(s: string)
    ensures Lists(SET_NAMES, s, SetCode(s)) && Lists(WAIT_NAMES, s, WaitSource(s))
  {
  }

  // ---------------------------------------------------------------- conditions

  /** The tokens of the JMP conditions, by code; none for "always". */
  const CONDITIONS: seq<seq<string>> :=
    [[], ["!", "x"], ["x", "--"], ["!", "y"], ["y", "--"], ["x", "!=", "y"], ["pin"], ["!", "osre"]]

  predicate StartsWith(a: seq<string>, words: seq<string>) {
    |words| <= |a| && forall i :: 0 <= i < |words| ==> Lower(a[i]) == words[i]
  }

  lemma OneToken(a: seq<string>, w: string)
    ensures StartsWith(a, [w]) <==> |a| >= 1 && Lower(a[0]) == w
  {
    assert [w][0] == w;
  }

  lemma TwoTokens(a: seq<string>, w: string, v: string)
    ensures StartsWith(a, [w, v]) <==> |a| >= 2 && Lower(a[0]) == w && Lower(a[1]) == v
  {
    assert [w, v][0] == w && [w, v][1] == v;
  }

  lemma ThreeTokens(a: seq<string>, w: string, v: string, u: string)
    ensures StartsWith(a, [w, v, u]) <==> |a| >= 3 && Lower(a[0]) == w && Lower(a[1]) == v && Lower(a[2]) == u
  {
    assert [w, v, u][0] == w && [w, v, u][1] == v && [w, v, u][2] == u;
  }

  /** The condition is the one whose tokens come first, in either case of letters,
      and "always" exactly if none of the others does. */
  lemma ConditionsMean(a: seq<string>)
    ensures forall c :: 1 <= c < 8 ==> (Condition(a) == (c, |CONDITIONS[c]|) <==> StartsWith(a, CONDITIONS[c]))
    ensures Condition(a) == (0, 0) <==> forall c :: 1 <= c < 8 ==> !StartsWith(a, CONDITIONS[c])
  {
    TwoTokens(a, "!", "x");
    TwoTokens(a, "x", "--");
    TwoTokens(a, "!", "y");
    TwoTokens(a, "y", "--");
    ThreeTokens(a, "x", "!=", "y");
    OneToken(a, "pin");
    TwoTokens(a, "!", "osre");
    hide Lower, StartsWith;
    forall c | 1 <= c < 8
      ensures Condition(a) == (c, |CONDITIONS[c]|) <==> StartsWith(a, CONDITIONS[c])
    {
    }
    if Condition(a) != (0, 0) {
      assert StartsWith(a, CONDITIONS[Condition(a).0]);
    }
  }

  // ----------------------------------------------------------- operands, indices

  /** An operand is taken exactly if it uses up its tokens and lies in range, and is its value. */
  lemma OperandMeans(a: seq<string>, syms: Symbols, lo: int, hi: int, v: int)
    ensures Operand(a, syms, lo, hi) == Ok(v) <==> Sum(a, syms) == Ok(Parsed(v, [])) && lo <= v <= hi
  {
    hide Sum;
  }

  /** An index that stands alone, or behind `rel`, which sets bit 4 of an index below 32. */
  lemma IndexMeans(a: seq<string>, syms: Symbols, v: int, rest: seq<string>)
    requires Sum(a, syms) == Ok(Parsed(v, rest))
    ensures rest == [] ==> Index(a, syms, true) == if 0 <= v < 32 then Ok(v) else Err(OutOfRange)
    ensures |rest| == 1 && Lower(rest[0]) == "rel" ==>
              Index(a, syms, true) == if 0 <= v < 32 then Ok(v % 16 + 16) else Err(OutOfRange)
    ensures |rest| > 1 || (|rest| == 1 && Lower(rest[0]) != "rel") ==> Index(a, syms, true) == Err(TrailingTokens)
    ensures Index(a, syms, false) == if rest != [] then Err(TrailingTokens)
                                     else if 0 <= v < 32 then Ok(v) else Err(OutOfRange)
  {
    hide Lower, Sum, SetBit4;
    Bit4(v);
  }

  lemma Bit4(v: int)
    ensures 0 <= v < 32 ==> SetBit4(v) == v % 16 + 16
    ensures 0 <= SetBit4(v) < 32 <==> 0 <= v < 32
  {
  }

  // --------------------------------------------------------- delay and side-set

  /** Exactly which delays and side-set values a layout takes. */
  predicate Takes(l: Layout, n: nat, side: Option<int>, delay: int) {
    && 0 <= delay < Pow2(n)
    && match side
       case None => l.count == 0 || l.opt
       case Some(v) => (l.count > 0 || l.opt) && 0 <= v < Pow2(l.count)
  }

  /** The field: the delay in its low bits, the side-set value above, and in an
      optional layout bit 4 telling whether there is one. */
  predicate Packs(l: Layout, n: nat, side: Option<int>, delay: int, field: nat) {
    && field < 32 && field % Pow2(n) == delay
    && field / Pow2(n) % Pow2(l.count) == (match side case None => 0 case Some(v) => v)
    && (l.opt ==> (field / 16 == 1 <==> side.Some?))
  }

  lemma FieldMeans(l: Layout, n: nat, side: Option<int>, delay: int)
    requires l.count + (if l.opt then 1 else 0) + n == 5
    ensures match DelaySideset(l, side, delay)
            case Ok(field) => Takes(l, n, side, delay) && Packs(l, n, side, delay, field)
            case Err(_) => !Takes(l, n, side, delay)
  {
    LayoutBits(l, n);
    FieldSum(l, n, side, delay);
    hide DelaySideset, Layout.DelayBits, Layout.Accepted, Layout.Fits, Pow2;
    if Takes(l, n, side, delay) {
      Fields(delay, if side.Some? then side.value else 0, n, l.count, l.opt && side.Some?);
    }
  }

  lemma LayoutBits(l: Layout, n: nat)
    requires l.count + (if l.opt then 1 else 0) + n == 5
    ensures l.Accepted() && l.Fits() && l.DelayBits() == n
  {
  }

  lemma FieldSum(l: Layout, n: nat, side: Option<int>, delay: int)
    requires l.Accepted() && l.Fits() && l.DelayBits() == n
    ensures match DelaySideset(l, side, delay)
            case Ok(field) =>
              && Takes(l, n, side, delay)
              && field == delay + (if side.Some? then side.value * Pow2(n) + (if l.opt then 16 else 0) else 0)
            case Err(_) => !Takes(l, n, side, delay)
  {
    assert Pow2(0) == 1;
    hide Pow2, Layout.DelayBits, Layout.Accepted;
  }

  /** Two fields and a top bit. */
  lemma Fields(lo: nat, hi: nat, n: nat, m: nat, top: bool)
    requires n + m <= 5 && (top ==> n + m == 4) && lo < Pow2(n) && hi < Pow2(m)
    ensures var f := lo + hi * Pow2(n) + if top then 16 else 0;
            && f < 32 && f % Pow2(n) == lo && f / Pow2(n) % Pow2(m) == hi
            && (n + m == 4 ==> (f / 16 == 1 <==> top))
  {
    Packed(lo, hi, n, m);
    Pow2Values();
    Pow2Sum(n, m);
    assert Pow2(n + m) <= 32;
    hide Pow2;
    TwoDigits(lo, hi, Pow2(n), Pow2(m), if top then 1 else 0);
  }

  lemma TwoDigits(lo: nat, hi: nat, p: nat, q: nat, t: nat)
    requires lo < p && hi < q
    ensures var f := lo + hi * p + p * q * t; p * q * t >= 0 && f % p == lo && f / p % q == hi
  {
    var u := hi + q * t;
    assert lo + hi * p + p * q * t == p * u + lo by {
      Distrib(p, hi, q * t);
      Assoc(p, q, t);
    }
    DivUnique(p * u + lo, p, u, lo);
    DivUnique(u, q, t, hi);
  }

  // --------------------------------------------- side-set and delay in the text

  /** Tokens that are neither the word `side` nor an opening bracket. */
  predicate Plain(ts: seq<string>) {
    forall i :: 0 <= i < |ts| ==> Lower(ts[i]) != "side" && ts[i] != "["
  }

  lemma {:induction false} PlainStays(ts: seq<string>, tail: seq<string>, syms: Symbols, found: Operands)
    requires Plain(ts)
    ensures Extract(ts + tail, syms, found) == Extract(tail, syms, found.(core := found.core + ts))
    decreases |ts|
  {
    hide Lower, Sum;
    if ts == [] {
      assert ts + tail == tail && found.core + ts == found.core;
    } else {
      var next := found.(core := found.core + [ts[0]]);
      assert (ts + tail)[0] == ts[0] && (ts + tail)[1..] == ts[1..] + tail;
      PlainStays(ts[1..], tail, syms, next);
      assert found.core + [ts[0]] + ts[1..] == found.core + ts;
    }
  }

  lemma SideTaken(word: string, ts: seq<string>, syms: Symbols, found: Operands, p: Parsed)
    requires Lower(word) == "side" && Sum(ts, syms) == Ok(p)
    ensures Extract([word] + ts, syms, found) == Extract(p.rest, syms, found.(side := Some(p.value)))
  {
    hide Lower, Sum;
    assert ([word] + ts)[0] == word && ([word] + ts)[1..] == ts;
  }

  lemma DelayTaken(ts: seq<string>, syms: Symbols, found: Operands, v: int)
    requires Sum(ts, syms) == Ok(Parsed(v, ["]"]))
    ensures Extract(["["] + ts, syms, found) == Ok(found.(delay := v))
  {
    assert Lower("[") == "[";
    hide Lower, Sum;
    assert (["["] + ts)[0] == "[" && (["["] + ts)[1..] == ts && ["]"][1..] == [];
  }

  /** Operands, then `side` and an expression, then a delay in brackets, either or both
      of which may be absent: each comes out as written. */
  lemma ExtractMeans(ts: seq<string>, word: string, st: seq<string>, dt: seq<string>, syms: Symbols, v: int, w: int)
    requires Plain(ts) && Lower(word) == "side"
    requires Sum(dt + ["]"], syms) == Ok(Parsed(w, ["]"]))
    ensures Extract(ts, syms, Operands([], None, 0)) == Ok(Operands(ts, None, 0))
    ensures Extract(ts + (["["] + (dt + ["]"])), syms, Operands([], None, 0)) == Ok(Operands(ts, None, w))
    ensures Sum(st, syms) == Ok(Parsed(v, []))
        ==> Extract(ts + ([word] + st), syms, Operands([], None, 0)) == Ok(Operands(ts, Some(v), 0))
    ensures var tail := ["["] + (dt + ["]"]);
            Sum(st + tail, syms) == Ok(Parsed(v, tail)) ==>
              Extract(ts + ([word] + (st + tail)), syms, Operands([], None, 0)) == Ok(Operands(ts, Some(v), w))
  {
    hide Sum, Lower, Extract;
    var none := Operands([], None, 0);
    var tail := ["["] + (dt + ["]"]);
    assert none.core + ts == ts && ts + [] == ts;
    PlainStays(ts, [], syms, none);
    NoneLeft(syms, Operands(ts, None, 0));
    PlainStays(ts, tail, syms, none);
    DelayTaken(dt + ["]"], syms, Operands(ts, None, 0), w);
    PlainStays(ts, [word] + st, syms, none);
    if Sum(st, syms) == Ok(Parsed(v, [])) {
      SideTaken(word, st, syms, Operands(ts, None, 0), Parsed(v, []));
      NoneLeft(syms, Operands(ts, Some(v), 0));
    }
    PlainStays(ts, [word] + (st + tail), syms, none);
    if Sum(st + tail, syms) == Ok(Parsed(v, tail)) {
      SideTaken(word, st + tail, syms, Operands(ts, None, 0), Parsed(v, tail));
      DelayTaken(dt + ["]"], syms, Operands(ts, Some(v), 0), w);
    }
  }

  lemma NoneLeft(syms: Symbols, found: Operands)
    ensures Extract([], syms, found) == Ok(found)
  {
  }
}
