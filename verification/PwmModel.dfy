/** A PWM slice: one count forward or backward, its period, its interrupt and
    the pulse width of its outputs. */
module PwmModel {
  import opened WordLemmas

  /** `down` is the phase-correct direction flag, `wraps` counts raised wrap interrupts. */
  datatype Slice = Slice(phaseCorrect: bool, ctr: nat, top: nat, down: bool, wraps: nat) {
    predicate Valid() { top < 0x1_0000 && ctr <= top }
  }

  // the 16-bit counter
  function Inc(v: nat): nat { (v + 1) % 0x1_0000 }

  function Dec(v: nat): nat { if v == 0 then 0xFFFF else v - 1 }

  /** One PWM clock forward. */
  function Advance(s: Slice): Slice {
    if !s.phaseCorrect then
      if s.ctr >= s.top then s.(ctr := 0, wraps := s.wraps + 1) else s.(ctr := Inc(s.ctr))
    else if !s.down then
      if s.ctr >= s.top then s.(down := true, ctr := Dec(s.ctr)) else s.(ctr := Inc(s.ctr))
    else if s.ctr == 0 then s.(down := false, wraps := s.wraps + 1, ctr := Inc(s.ctr))
    else s.(ctr := Dec(s.ctr))
  }

  /** One count backward, without an interrupt. */
  function Retard(s: Slice): Slice {
    if !s.phaseCorrect then
      if s.ctr == 0 then s.(ctr := s.top) else s.(ctr := Dec(s.ctr))
    else if !s.down then
      if s.ctr == 0 then s.(down := true, ctr := Inc(s.ctr)) else s.(ctr := Dec(s.ctr))
    else if s.ctr >= s.top then s.(down := false, ctr := Dec(s.ctr))
    else s.(ctr := Inc(s.ctr))
  }

  function Advances(s: Slice, n: nat): Slice
    decreases n
  {
    if n == 0 then s else Advance(Advances(s, n - 1))
  }

  /** The same count and, where the direction shows, the same direction: at 0 and
      at TOP a phase-correct slice turns round whichever way its flag points. */
  predicate SamePhase(a: Slice, b: Slice) {
    && a.phaseCorrect == b.phaseCorrect && a.top == b.top && a.ctr == b.ctr
    && (a.phaseCorrect && 0 < a.ctr < a.top ==> a.down == b.down)
  }

  /** Every slice but a phase-correct one with TOP 0. */
  predicate Proper(s: Slice) { s.Valid() && (s.phaseCorrect ==> s.top >= 1) }

  // ------------------------------------------------------ forward and backward

  /** The counter stays within TOP for exactly the slices that are not
      phase-correct with TOP 0, going either way. */
  lemma StaysInRange(s: Slice)
    requires s.Valid()
    ensures Advance(s).Valid() <==> Proper(s)
    ensures Retard(s).Valid() <==> Proper(s)
  {
  }

  /** Retarding undoes advancing and advancing undoes retarding. */
  lemma RetardInverts(s: Slice)
    requires Proper(s)
    ensures SamePhase(Retard(Advance(s)), s) && SamePhase(Advance(Retard(s)), s)
  {
    hide Inc, Dec;
    Neighbours(s);
    Neighbours(Advance(s));
    Neighbours(Retard(s));
  }

  /** One count forward and one back, without the 16-bit arithmetic. */
  lemma Neighbours(s: Slice)
    requires s.top < 0x1_0000
    ensures s.ctr < 0xFFFF ==> Inc(s.ctr) == s.ctr + 1
    ensures s.ctr > 0 ==> Dec(s.ctr) == s.ctr - 1
  {
  }

  // ------------------------------------------------------------------- periods

  /** The place on the up-and-down way 0, 1, ..., TOP, ..., 1, 0. */
  function Place(s: Slice): int { if s.down then 2 * s.top - s.ctr else s.ctr }

  lemma CountMoves(s: Slice)
    requires s.Valid() && !s.phaseCorrect
    ensures Advance(s) == if s.ctr + 1 == s.top + 1 then s.(ctr := 0, wraps := s.wraps + 1) else s.(ctr := s.ctr + 1)
  {
    Neighbours(s);
  }

  /** Counting up to TOP: the count and the interrupts after n clocks. */
  lemma {:induction false} TrailingEdgeRuns(s: Slice, n: nat)
    requires s.Valid() && !s.phaseCorrect
    ensures var (x, p) := (s.ctr + n, s.top + 1);
            x / p >= 0 && Advances(s, n) == s.(ctr := x % p, wraps := s.wraps + x / p)
    decreases n
  {
    hide Advance;
    var (x, p) := (s.ctr + n, s.top + 1);
    if n == 0 {
      DivUnique(x, p, 0, x);
    } else {
      TrailingEdgeRuns(s, n - 1);
      var before := s.(ctr := (x - 1) % p, wraps := s.wraps + (x - 1) / p);
      DivMod(x - 1, p);
      CountMoves(before);
      CountOn(x - 1, p);
      assert Advances(s, n) == Advance(before);
    }
  }

  /** One step on the up-and-down way. */
  lemma PlaceMoves(s: Slice)
    requires s.Valid() && s.phaseCorrect && s.top >= 1
    ensures var t := Advance(s);
            && t.Valid() && t.top == s.top && t.phaseCorrect
            && Place(t) == (if Place(s) == 2 * s.top then 1 else Place(s) + 1)
            && t.wraps == s.wraps + if Place(s) == 2 * s.top then 1 else 0
  {
    Neighbours(s);
  }

  /** Phase-correct counting: the place and the interrupts after n clocks. */
  lemma {:induction false} PhaseCorrectRuns(s: Slice, n: nat)
    requires s.Valid() && s.phaseCorrect && s.top >= 1 && n >= 1
    ensures var (r, x, p) := (Advances(s, n), Place(s) + n - 1, 2 * s.top);
            && x >= 0 && x / p >= 0
            && r.Valid() && r.top == s.top && r.phaseCorrect
            && Place(r) == x % p + 1 && r.wraps == s.wraps + x / p
    decreases n
  {
    hide Advance;
    var (x, p) := (Place(s) + n - 1, 2 * s.top);
    DivMod(x, p);
    var before := Advances(s, n - 1);
    if n == 1 {
      PlaceMoves(s);
      if Place(s) == p {
        DivUnique(x, p, 1, 0);
      } else {
        DivUnique(x, p, 0, x);
      }
    } else {
      PhaseCorrectRuns(s, n - 1);
      PlaceMoves(before);
      CountOn(x - 1, p);
    }
  }

  function Period(s: Slice): nat { if s.phaseCorrect then 2 * s.top else s.top + 1 }

  /** A period brings the slice back to its phase with one wrap interrupt; a
      phase-correct slice that starts at 0 counting up has its first one only
      at the start of its second period. */
  lemma PeriodReturns(s: Slice)
    requires Proper(s)
    ensures SamePhase(Advances(s, Period(s)), s)
    ensures Advances(s, Period(s)).wraps == s.wraps + if s.phaseCorrect && s.ctr == 0 && !s.down then 0 else 1
  {
    if s.phaseCorrect {
      PhaseCorrectReturns(s);
    } else {
      TrailingEdgeReturns(s);
    }
  }

  lemma FullTurn(c: nat, p: nat)
    requires c < p
    ensures (c + p) % p == c && (c + p) / p == 1
  {
    DivUnique(c + p, p, 1, c);
  }

  lemma TrailingEdgeReturns(s: Slice)
    requires s.Valid() && !s.phaseCorrect
    ensures Advances(s, s.top + 1) == s.(wraps := s.wraps + 1)
  {
    hide Advances;
    TrailingEdgeRuns(s, s.top + 1);
    FullTurn(s.ctr, s.top + 1);
    assert (s.ctr + (s.top + 1)) % (s.top + 1) == s.ctr;
  }

  lemma PhaseCorrectReturns(s: Slice)
    requires s.Valid() && s.top >= 1 && s.phaseCorrect
    ensures SamePhase(Advances(s, 2 * s.top), s)
    ensures Advances(s, 2 * s.top).wraps == s.wraps + if Place(s) == 0 then 0 else 1
  {
    hide Advances;
    PhaseCorrectRuns(s, 2 * s.top);
    TurnOver(Place(s), 2 * s.top);
  }

  lemma TurnOver(place: nat, p: nat)
    requires place <= p && p >= 1
    ensures (place + p - 1) % p + 1 == (if place == 0 then p else place)
    ensures (place + p - 1) / p == if place == 0 then 0 else 1
  {
    if place == 0 {
      DivUnique(p - 1, p, 0, p - 1);
    } else {
      DivUnique(place + p - 1, p, 1, place - 1);
    }
  }

  // --------------------------------------------------------------- pulse width

  /** The output compare, with the channel's inversion. */
  predicate High(s: Slice, cc: nat, inverted: bool) { (s.ctr < cc) != inverted }

  /** In how many of `n` clocks the output is high. */
  function HighClocks(s: Slice, cc: nat, inverted: bool, n: nat): nat
    decreases n
  {
    if n == 0 then 0
    else HighClocks(s, cc, inverted, n - 1) + if High(Advances(s, n - 1), cc, inverted) then 1 else 0
  }

  lemma {:induction false} InvertedClocks(s: Slice, cc: nat, n: nat)
    ensures HighClocks(s, cc, true, n) == n - HighClocks(s, cc, false, n)
    decreases n
  {
    hide Advances;
    if n > 0 {
      InvertedClocks(s, cc, n - 1);
    }
  }

  lemma {:induction false} AdvancesShift(s: Slice, n: nat)
    ensures Advances(Advance(s), n) == Advances(s, n + 1)
    decreases n
  {
    hide Advance;
    if n > 0 {
      AdvancesShift(s, n - 1);
    }
  }

  /** Starting a clock later drops the first and adds the last. */
  lemma {:induction false} ClocksShift(s: Slice, cc: nat, n: nat)
    ensures HighClocks(Advance(s), cc, false, n) + (if High(s, cc, false) then 1 else 0)
        == HighClocks(s, cc, false, n + 1)
    decreases n
  {
    hide Advance, High;
    if n > 0 {
      ClocksShift(s, cc, n - 1);
      AdvancesShift(s, n - 1);
    } else {
      assert HighClocks(s, cc, false, 0) == 0 && Advances(s, 0) == s;
    }
  }

  lemma OneClockMore(s: Slice, cc: nat, n: nat)
    ensures HighClocks(s, cc, false, n + 1)
         == HighClocks(s, cc, false, n) + if High(Advances(s, n), cc, false) then 1 else 0
  {
  }

  lemma NoAdvance(s: Slice)
    ensures Advances(s, 0) == s
  {
  }

  lemma AdvanceKeeps(s: Slice)
    requires Proper(s)
    ensures var t := Advance(s);
            t.Valid() && t.top == s.top && t.phaseCorrect == s.phaseCorrect
  {
  }

  /** Over a period it does not matter where the count starts. */
  lemma {:induction false} AnyStart(s: Slice, cc: nat, k: nat)
    requires Proper(s)
    ensures var t := Advances(s, k);
            && t.Valid() && t.top == s.top && t.phaseCorrect == s.phaseCorrect
            && HighClocks(t, cc, false, Period(t)) == HighClocks(s, cc, false, Period(s))
    decreases k
  {
    hide Advance, HighClocks;
    if k > 0 {
      AnyStart(s, cc, k - 1);
      var t := Advances(s, k - 1);
      AdvanceKeeps(t);
      ClocksShift(t, cc, Period(t));
      PeriodReturns(t);
      OneClockMore(t, cc, Period(t));
    }
  }

  function Least(a: int, b: int): int { if a < b then a else b }

  function Most(a: int, b: int): int { if a > b then a else b }

  lemma CountsUp(s: Slice, n: nat)
    requires Proper(s) && s.ctr == 0 && n <= s.top
    ensures Advances(s, n).ctr == n
  {
    hide Advances;
    if n == 0 {
      NoAdvance(s);
    } else if !s.phaseCorrect {
      TrailingEdgeRuns(s, n);
      DivUnique(n, s.top + 1, 0, n);
    } else {
      PhaseCorrectRuns(s, n);
      PlaceFromZero(s, n);
    }
  }

  lemma PlaceFromZero(s: Slice, n: nat)
    requires s.Valid() && s.ctr == 0 && s.top >= 1 && 1 <= n <= 2 * s.top
    ensures (Place(s) + n - 1) % (2 * s.top) + 1 == n
  {
    if s.down {
      DivUnique(2 * s.top + n - 1, 2 * s.top, 1, n - 1);
    } else {
      DivUnique(n - 1, 2 * s.top, 0, n - 1);
    }
  }

  /** Counting up from 0: high for the first CC counts. */
  lemma {:induction false} UpFromZero(s: Slice, cc: nat, n: nat)
    requires Proper(s) && s.ctr == 0 && n <= s.top + 1
    ensures HighClocks(s, cc, false, n) == Least(cc, n)
    decreases n
  {
    hide Advances;
    if n > 0 {
      UpFromZero(s, cc, n - 1);
      CountsUp(s, n - 1);
    }
  }

  /** And down again from TOP: high once the count has fallen below CC. */
  lemma {:induction false} DownToZero(s: Slice, cc: nat, n: nat)
    requires s.Valid() && s.ctr == 0 && s.phaseCorrect && s.top >= 1 && s.top + 1 <= n <= 2 * s.top
    ensures HighClocks(s, cc, false, n)
         == Least(cc, s.top + 1) + Least(n - 1 - s.top, Most(0, n + cc - 1 - 2 * s.top))
    decreases n
  {
    hide Advances;
    if n == s.top + 1 {
      UpFromZero(s, cc, n);
    } else {
      DownToZero(s, cc, n - 1);
      PhaseCorrectRuns(s, n - 1);
      PlaceFromZero(s, n - 1);
    }
  }

  /** From any phase the count comes to 0 within a period. */
  lemma ReachesZero(s: Slice) returns (k: nat)
    requires Proper(s)
    ensures Advances(s, k).ctr == 0
  {
    hide Advances;
    if !s.phaseCorrect {
      k := s.top + 1 - s.ctr;
      TrailingEdgeRuns(s, k);
      DivUnique(s.top + 1, s.top + 1, 1, 0);
    } else if s.ctr == 0 {
      k := 0;
      NoAdvance(s);
    } else {
      k := 2 * s.top - Place(s);
      PhaseCorrectRuns(s, k);
      DivUnique(2 * s.top - 1, 2 * s.top, 0, 2 * s.top - 1);
    }
  }

  /** In how many clocks of each period an output without inversion is high. */
  function PulseWidth(s: Slice, cc: nat): nat {
    if !s.phaseCorrect then Least(cc, s.top + 1)
    else if cc == 0 then 0
    else if cc <= s.top then 2 * cc - 1
    else 2 * s.top
  }

  /** From every phase, a period has exactly the pulse width in high clocks, and
      an inverted output the rest of the period. */
  lemma PulseWidths(s: Slice, cc: nat)
    requires Proper(s)
    ensures HighClocks(s, cc, false, Period(s)) == PulseWidth(s, cc)
    ensures HighClocks(s, cc, true, Period(s)) == Period(s) - PulseWidth(s, cc)
  {
    hide Advances, HighClocks;
    var k := ReachesZero(s);
    AnyStart(s, cc, k);
    var zero := Advances(s, k);
    if s.phaseCorrect {
      DownToZero(zero, cc, 2 * s.top);
    } else {
      UpFromZero(zero, cc, s.top + 1);
    }
    InvertedClocks(s, cc, Period(s));
  }
}
