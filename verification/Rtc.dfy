/** The real-time clock as an object. */
module RtcObject {
  import opened Words
  import opened WordLemmas
  import M = RtcModel
  import opened RtcModel

  class Rtc {
    var now: DateTime
    var enabled: bool
    var clkdivM1: nat
    var rtcHz: nat
    var sysHz: nat
    var subAccum: nat
    var divCounter: nat

    ghost function View(): M.Rtc
      reads this
    {
      M.Rtc(now, enabled, clkdivM1, rtcHz, sysHz, subAccum, divCounter)
    }

    constructor (rtcHz: nat, sysHz: nat)
      ensures View() == M.Rtc(DateTime(0, 1, 1, 0, 0, 0, 0), false, 46874, rtcHz, sysHz, 0, 0)
    {
      now, enabled, clkdivM1 := DateTime(0, 1, 1, 0, 0, 0, 0), false, 46874;
      this.rtcHz, this.sysHz, subAccum, divCounter := rtcHz, sysHz, 0, 0;
    }

    /** Carry from field to field, stopping at the first that is not full. */
    method TickDate()
      modifies this`now
      ensures now == TickSecond(old(now))
    {
      now := now.(sec := now.sec + 1);
      if now.sec < 60 {
        return;
      }
      now := now.(sec := 0, min := now.min + 1);
      if now.min < 60 {
        return;
      }
      now := now.(min := 0, hour := now.hour + 1);
      if now.hour < 24 {
        return;
      }
      now := now.(hour := 0, dotw := (now.dotw + 1) % 7, day := now.day + 1);
      if now.day <= DaysInMonth(now.year, now.month) {
        return;
      }
      now := now.(day := 1, month := now.month + 1);
      if now.month <= 12 {
        return;
      }
      now := now.(month := 1, year := now.year + 1);
    }

    method OnCycles(cycles: nat)
      requires sysHz >= 1
      modifies this`now, this`subAccum, this`divCounter
      ensures View() == M.OnCycles(old(View()), cycles)
    {
      hide TickSecond;
      if !enabled {
        return;
      }
      ghost var start := View();
      subAccum := subAccum + cycles * rtcHz;
      ghost var due := subAccum;
      ghost var n := 0;
      while subAccum >= sysHz
        invariant due == sysHz * n + subAccum
        invariant View() == RtcTicks(start, n).(subAccum := subAccum)
        decreases subAccum
      {
        subAccum := subAccum - sysHz;
        Distrib(sysHz, n, 1);
        divCounter := divCounter + 1;
        if divCounter > clkdivM1 {
          divCounter := 0;
          TickDate();
        }
        n := n + 1;
      }
      DivUnique(due, sysHz, n, subAccum);
      TicksIgnoreAccum(start, subAccum, n);
    }
  }
}
