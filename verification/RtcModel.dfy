/** The real-time clock: the calendar step and its meaning as a count of
    seconds, and the two dividers that drive it. */
module RtcModel {
  import opened Words
  import opened WordLemmas

  datatype DateTime = DateTime(year: nat, month: nat, day: nat, dotw: nat, hour: nat, min: nat, sec: nat)

  const MONTH_DAYS: seq<nat> := [31, 28, 31, 30, 31, 30, 31, 31, 30, 31, 30, 31]

  predicate Leap(year: nat) { year % 4 == 0 && (year % 100 != 0 || year % 400 == 0) }

  function DaysInMonth(year: nat, month: nat): (d: nat)
    ensures 28 <= d <= 31
  {
    if month == 2 && Leap(year) then 29 else MONTH_DAYS[Wrap(month - 1) % 12]
  }

  predicate ValidDate(t: DateTime) {
    && 1 <= t.month <= 12 && 1 <= t.day <= DaysInMonth(t.year, t.month)
    && t.dotw < 7 && t.hour < 24 && t.min < 60 && t.sec < 60
  }

  /** The odometer: each field that is full returns to its start and carries. */
  function TickSecond(t: DateTime): DateTime {
    if t.sec + 1 < 60 then t.(sec := t.sec + 1)
    else
      var t1 := t.(sec := 0);
      if t.min + 1 < 60 then t1.(min := t.min + 1)
      else
        var t2 := t1.(min := 0);
        if t.hour + 1 < 24 then t2.(hour := t.hour + 1)
        else
          var t3 := t2.(hour := 0, dotw := (t.dotw + 1) % 7);
          if t.day + 1 <= DaysInMonth(t.year, t.month) then t3.(day := t.day + 1)
          else
            var t4 := t3.(day := 1);
            if t.month + 1 <= 12 then t4.(month := t.month + 1)
            else t4.(month := 1, year := t.year + 1)
  }

  function TickSeconds(t: DateTime, n: nat): DateTime
    decreases n
  {
    if n == 0 then t else TickSecond(TickSeconds(t, n - 1))
  }

  // ------------------------------------------------------- the Gregorian count

  /** Days before January 1st of `year`, counted from year 0: 365 a year and one
      more for each leap year among 0, 1, ..., year - 1. */
  function DaysBeforeYear(year: nat): nat {
    365 * year + (year + 3) / 4 - (year + 99) / 100 + (year + 399) / 400
  }

  function DaysBeforeMonth(year: nat, month: nat): nat
    decreases month
  {
    if month <= 1 then 0 else DaysBeforeMonth(year, month - 1) + DaysInMonth(year, month - 1)
  }

  /** The day number of a date. */
  function DayOf(year: nat, month: nat, day: nat): nat {
    DaysBeforeYear(year) + DaysBeforeMonth(year, month) + if day == 0 then 0 else day - 1
  }

  function DayNumber(t: DateTime): nat { DayOf(t.year, t.month, t.day) }

  function SecondOfDay(t: DateTime): nat { 3600 * t.hour + 60 * t.min + t.sec }

  /** Seconds since midnight of January 1st of year 0. */
  function EpochSeconds(t: DateTime): nat { 86400 * DayNumber(t) + SecondOfDay(t) }

  lemma TwoMonths(year: nat, month: nat)
    requires 1 <= month
    ensures DaysBeforeMonth(year, month + 2)
         == DaysBeforeMonth(year, month) + DaysInMonth(year, month) + DaysInMonth(year, month + 1)
  {
    hide DaysInMonth;
    assert DaysBeforeMonth(year, month + 2) == DaysBeforeMonth(year, month + 1) + DaysInMonth(year, month + 1);
  }

  lemma FirstMonth(year: nat)
    ensures DaysBeforeMonth(year, 2) == DaysInMonth(year, 1)
  {
    hide DaysInMonth;
    assert DaysBeforeMonth(year, 1) == 0;
  }

  lemma MonthLengths(year: nat)
    ensures DaysInMonth(year, 2) == if Leap(year) then 29 else 28
    ensures DaysInMonth(year, 1) == DaysInMonth(year, 3) == DaysInMonth(year, 5) == DaysInMonth(year, 7) == 31
    ensures DaysInMonth(year, 8) == DaysInMonth(year, 10) == DaysInMonth(year, 12) == 31
    ensures DaysInMonth(year, 4) == DaysInMonth(year, 6) == DaysInMonth(year, 9) == DaysInMonth(year, 11) == 30
  {
    hide Leap;
  }

  /** The length of a year, summed over its months. */
  lemma YearLength(year: nat)
    ensures DaysBeforeMonth(year, 12) + DaysInMonth(year, 12) == if Leap(year) then 366 else 365
  {
    hide DaysBeforeMonth, DaysInMonth, Leap;
    MonthLengths(year);
    TwoMonths(year, 2);
    TwoMonths(year, 4);
    TwoMonths(year, 6);
    TwoMonths(year, 8);
    TwoMonths(year, 10);
    FirstMonth(year);
  }

  lemma CeilStep(year: nat, k: nat)
    requires k == 4 || k == 100 || k == 400
    ensures (year + 1 + (k - 1)) / k == (year + (k - 1)) / k + if year % k == 0 then 1 else 0
  {
  }

  lemma NextYear(year: nat)
    ensures DaysBeforeYear(year + 1) == DaysBeforeYear(year) + if Leap(year) then 366 else 365
  {
    CeilStep(year, 4);
    CeilStep(year, 100);
    CeilStep(year, 400);
    LeapCounts(year);
  }

  lemma LeapCounts(year: nat)
    ensures (if year % 4 == 0 then 1 else 0) - (if year % 100 == 0 then 1 else 0) + (if year % 400 == 0 then 1 else 0)
         == if Leap(year) then 1 else 0
  {
    assert year % 400 == 0 ==> year % 100 == 0;
    assert year % 100 == 0 ==> year % 4 == 0;
  }

  lemma NextDayOf(year: nat, month: nat, day: nat)
    requires 1 <= month <= 12 && 1 <= day <= DaysInMonth(year, month)
    ensures day + 1 <= DaysInMonth(year, month) ==> DayOf(year, month, day + 1) == DayOf(year, month, day) + 1
    ensures day + 1 > DaysInMonth(year, month) && month < 12
        ==> DayOf(year, month + 1, 1) == DayOf(year, month, day) + 1
    ensures day + 1 > DaysInMonth(year, month) && month == 12 ==> DayOf(year + 1, 1, 1) == DayOf(year, month, day) + 1
  {
    hide DaysBeforeYear, DaysInMonth, Leap;
    NextYear(year);
    YearLength(year);
  }

  /** Either only the time of day moves, or it is midnight and the day moves. */
  lemma TickTurns(t: DateTime)
    requires ValidDate(t)
    ensures ValidDate(TickSecond(t))
    ensures var n := TickSecond(t);
            if SecondOfDay(t) < 86399
            then n.year == t.year && n.month == t.month && n.day == t.day && n.dotw == t.dotw
                 && SecondOfDay(n) == SecondOfDay(t) + 1
            else SecondOfDay(n) == 0 && SecondOfDay(t) == 86399 && n.dotw == (t.dotw + 1) % 7
                 && DayNumber(n) == DayNumber(t) + 1
  {
    hide DayOf, DaysInMonth;
    NextDayOf(t.year, t.month, t.day);
  }

  /** From a valid date, a tick leads to a valid date one second later, and the
      day of the week moves exactly with the day number. */
  lemma TickAddsOneSecond(t: DateTime)
    requires ValidDate(t)
    ensures ValidDate(TickSecond(t))
    ensures EpochSeconds(TickSecond(t)) == EpochSeconds(t) + 1
    ensures DayNumber(t) <= DayNumber(TickSecond(t)) <= DayNumber(t) + 1
    ensures TickSecond(t).dotw == (t.dotw + DayNumber(TickSecond(t)) - DayNumber(t)) % 7
  {
    hide DayOf, TickSecond, DaysInMonth;
    TickTurns(t);
  }

  lemma ValidDotw(t: DateTime)
    requires ValidDate(t)
    ensures t.dotw % 7 == t.dotw
  {
  }

  /** The same for any number of seconds. */
  lemma {:induction false} TicksAddSeconds(t: DateTime, n: nat)
    requires ValidDate(t)
    ensures ValidDate(TickSeconds(t, n))
    ensures EpochSeconds(TickSeconds(t, n)) == EpochSeconds(t) + n
    ensures DayNumber(TickSeconds(t, n)) >= DayNumber(t)
    ensures TickSeconds(t, n).dotw == (t.dotw + DayNumber(TickSeconds(t, n)) - DayNumber(t)) % 7
    decreases n
  {
    hide TickSecond, DayNumber, ValidDate, EpochSeconds;
    if n == 0 {
      ValidDotw(t);
    } else {
      var before := TickSeconds(t, n - 1);
      TicksAddSeconds(t, n - 1);
      TickAddsOneSecond(before);
      WeekAdds(t.dotw, DayNumber(before) - DayNumber(t), DayNumber(TickSecond(before)) - DayNumber(before));
    }
  }

  lemma WeekAdds(start: nat, a: nat, b: nat)
    ensures ((start + a) % 7 + b) % 7 == (start + a + b) % 7
  {
  }

  // --------------------------------------------------- the count names the date

  lemma {:induction false} YearsApart(a: nat, b: nat)
    requires a < b
    ensures DaysBeforeYear(a) + (if Leap(a) then 366 else 365) <= DaysBeforeYear(b)
    decreases b
  {
    hide DaysBeforeYear, Leap;
    if a + 1 < b {
      YearsApart(a, b - 1);
      NextYear(b - 1);
    } else {
      NextYear(a);
    }
  }

  lemma {:induction false} MonthsApart(year: nat, a: nat, b: nat)
    requires 1 <= a < b
    ensures DaysBeforeMonth(year, a) + DaysInMonth(year, a) <= DaysBeforeMonth(year, b)
    decreases b
  {
    hide DaysInMonth;
    if a + 1 < b {
      MonthsApart(year, a, b - 1);
    }
  }

  lemma DayInYear(year: nat, month: nat, day: nat)
    requires 1 <= month <= 12 && 1 <= day <= DaysInMonth(year, month)
    ensures DaysBeforeYear(year) <= DayOf(year, month, day) < DaysBeforeYear(year) + if Leap(year) then 366 else 365
  {
    hide DaysBeforeYear, DaysInMonth, Leap;
    YearLength(year);
    if month < 12 {
      MonthsApart(year, month, 12);
    }
  }

  /** Two valid dates with the same second count are the same moment, so the
      calendar never shows a moment twice and never skips one. */
  lemma EpochNamesDate(a: DateTime, b: DateTime)
    requires ValidDate(a) && ValidDate(b) && EpochSeconds(a) == EpochSeconds(b)
    ensures a == b.(dotw := a.dotw)
  {
    hide DaysInMonth, Leap, DaysBeforeYear, DaysBeforeMonth;
    SameDay(a, b);
    SameTime(a, b);
    DayInYear(a.year, a.month, a.day);
    DayInYear(b.year, b.month, b.day);
    if a.year < b.year {
      YearsApart(a.year, b.year);
    } else if b.year < a.year {
      YearsApart(b.year, a.year);
    } else if a.month < b.month {
      MonthsApart(a.year, a.month, b.month);
    } else if b.month < a.month {
      MonthsApart(a.year, b.month, a.month);
    }
  }

  lemma SameDay(a: DateTime, b: DateTime)
    requires ValidDate(a) && ValidDate(b) && EpochSeconds(a) == EpochSeconds(b)
    ensures DayNumber(a) == DayNumber(b) && SecondOfDay(a) == SecondOfDay(b)
  {
    hide DayNumber, DaysInMonth;
    DivUnique(EpochSeconds(a), 86400, DayNumber(a), SecondOfDay(a));
    DivUnique(EpochSeconds(b), 86400, DayNumber(b), SecondOfDay(b));
  }

  lemma SameTime(a: DateTime, b: DateTime)
    requires ValidDate(a) && ValidDate(b) && SecondOfDay(a) == SecondOfDay(b)
    ensures a.hour == b.hour && a.min == b.min && a.sec == b.sec
  {
    hide DaysInMonth;
  }

  // ------------------------------------------------------------------ dividers

  datatype Rtc = Rtc(
    now: DateTime, enabled: bool, clkdivM1: nat, rtcHz: nat, sysHz: nat, subAccum: nat, divCounter: nat)
  {
    predicate Valid() { sysHz >= 1 }
  }

  /** One tick of the RTC clock. */
  function RtcTick(r: Rtc): Rtc {
    if r.divCounter + 1 > r.clkdivM1 then r.(divCounter := 0, now := TickSecond(r.now))
    else r.(divCounter := r.divCounter + 1)
  }

  function RtcTicks(r: Rtc, n: nat): Rtc
    decreases n
  {
    if n == 0 then r else RtcTick(RtcTicks(r, n - 1))
  }

  /** `amount` more in the first accumulator. */
  function Advance(r: Rtc, amount: nat): Rtc
    requires r.Valid()
  {
    DivMod(r.subAccum + amount, r.sysHz);
    RtcTicks(r.(subAccum := (r.subAccum + amount) % r.sysHz), (r.subAccum + amount) / r.sysHz)
  }

  function OnCycles(r: Rtc, cycles: nat): Rtc
    requires r.Valid()
  {
    if !r.enabled then r else Advance(r, cycles * r.rtcHz)
  }

  /** RTC ticks divided by CLKDIV_M1 + 1 are seconds, the rest stays in the counter. */
  lemma {:induction false} TicksDivide(r: Rtc, n: nat)
    requires r.divCounter <= r.clkdivM1
    ensures var (x, p) := (r.divCounter + n, r.clkdivM1 + 1);
            && x / p >= 0 && x % p >= 0
            && RtcTicks(r, n) == r.(now := TickSeconds(r.now, x / p), divCounter := x % p)
    decreases n
  {
    hide TickSecond;
    var (x, p) := (r.divCounter + n, r.clkdivM1 + 1);
    DivMod(x, p);
    if n == 0 {
      DivUnique(x, p, 0, x);
    } else {
      TicksDivide(r, n - 1);
      CountOn(x - 1, p);
    }
  }

  /** A counter above CLKDIV_M1, left there when a smaller value was written,
      carries at the next tick as one that stands at it. */
  function Capped(r: Rtc): nat { if r.divCounter > r.clkdivM1 then r.clkdivM1 else r.divCounter }

  lemma {:induction false} TicksFromCapped(r: Rtc, n: nat)
    ensures n > 0 ==> RtcTicks(r, n) == RtcTicks(r.(divCounter := Capped(r)), n)
    decreases n
  {
    hide TickSecond;
    if n == 1 {
      assert RtcTicks(r, 0) == r;
      assert RtcTicks(r.(divCounter := Capped(r)), 0) == r.(divCounter := Capped(r));
    } else if n > 1 {
      TicksFromCapped(r, n - 1);
    }
  }

  /** The nested floor law, and with it calendar time: after `cycles` system
      clocks the date is exactly that many seconds on. */
  lemma CyclesAreSeconds(r: Rtc, cycles: nat)
    requires r.Valid() && r.enabled && ValidDate(r.now)
    ensures var ticks := (r.subAccum + cycles * r.rtcHz) / r.sysHz;
            && ticks >= 0
            && var seconds := (Capped(r) + ticks) / (r.clkdivM1 + 1);
            && seconds >= 0
            && OnCycles(r, cycles).now == TickSeconds(r.now, seconds)
            && ValidDate(OnCycles(r, cycles).now)
            && EpochSeconds(OnCycles(r, cycles).now) == EpochSeconds(r.now) + seconds
  {
    hide ValidDate, EpochSeconds, TickSecond;
    var due := r.subAccum + cycles * r.rtcHz;
    DivMod(due, r.sysHz);
    var (r1, n) := (r.(subAccum := due % r.sysHz), due / r.sysHz);
    TicksFromCapped(r1, n);
    TicksDivide(r1.(divCounter := Capped(r)), n);
    TicksAddSeconds(r.now, (Capped(r) + n) / (r.clkdivM1 + 1));
    if n == 0 {
      DivUnique(Capped(r), r.clkdivM1 + 1, 0, Capped(r));
    }
  }

  lemma {:induction false} TicksIgnoreAccum(r: Rtc, k: nat, n: nat)
    ensures RtcTicks(r.(subAccum := k), n) == RtcTicks(r, n).(subAccum := k)
    decreases n
  {
    hide TickSecond;
    if n > 0 {
      TicksIgnoreAccum(r, k, n - 1);
    }
  }

  lemma {:induction false} TicksAdd(r: Rtc, m: nat, n: nat)
    ensures RtcTicks(RtcTicks(r, m), n) == RtcTicks(r, m + n)
    decreases n
  {
    hide RtcTick;
    if n > 0 {
      TicksAdd(r, m, n - 1);
    }
  }

  lemma {:induction false} TicksKeep(r: Rtc, n: nat)
    ensures RtcTicks(r, n) == r.(now := RtcTicks(r, n).now, divCounter := RtcTicks(r, n).divCounter)
    decreases n
  {
    hide TickSecond;
    if n > 0 {
      TicksKeep(r, n - 1);
    }
  }

  lemma AdvanceIs(r: Rtc, amount: nat)
    requires r.Valid()
    ensures var (n, k) := ((r.subAccum + amount) / r.sysHz, (r.subAccum + amount) % r.sysHz);
            n >= 0 && k >= 0 && Advance(r, amount) == RtcTicks(r, n).(subAccum := k)
    ensures Advance(r, amount).sysHz == r.sysHz && Advance(r, amount).rtcHz == r.rtcHz
        && Advance(r, amount).enabled == r.enabled
  {
    hide RtcTicks;
    var (n, k) := ((r.subAccum + amount) / r.sysHz, (r.subAccum + amount) % r.sysHz);
    DivMod(r.subAccum + amount, r.sysHz);
    TicksIgnoreAccum(r, k, n);
    TicksKeep(r, n);
  }

  lemma AdvanceTwice(r: Rtc, x: nat, y: nat)
    requires r.Valid()
    ensures Advance(r, x).Valid() && Advance(Advance(r, x), y) == Advance(r, x + y)
  {
    hide RtcTicks, Advance;
    AdvanceIs(r, x);
    AdvanceIs(Advance(r, x), y);
    AdvanceIs(r, x + y);
    var (m, k) := ((r.subAccum + x) / r.sysHz, (r.subAccum + x) % r.sysHz);
    var n := (k + y) / r.sysHz;
    Carried(r.subAccum + x, y, r.sysHz);
    TicksIgnoreAccum(RtcTicks(r, m), k, n);
    TicksAdd(r, m, n);
  }

  /** Clocking a and then b system cycles is clocking a + b of them, whatever
      the date and the counters hold. */
  lemma CyclesAdd(r: Rtc, a: nat, b: nat)
    requires r.Valid()
    ensures OnCycles(r, a).Valid() && OnCycles(OnCycles(r, a), b) == OnCycles(r, a + b)
  {
    if r.enabled {
      hide Advance;
      AdvanceIs(r, a * r.rtcHz);
      AdvanceTwice(r, a * r.rtcHz, b * r.rtcHz);
      Distrib(r.rtcHz, a, b);
    }
  }
}
