/** The rate law of a DMA channel: how many elements it has moved some clocks
    after its trigger, whatever the other channels do. */
module DmaRate {
  import opened Words
  import opened WordLemmas
  import opened MemoryBus
  import opened DmaTransfer
  import opened DmaCopy
  import opened DmaModel
  import opened DmaRuns

  /** No other channel starts `x`.  Only the channels of `live` can ever run: they
      include the busy ones and every enabled channel that one of them chains to,
      and none of them but `x` names `x`.  What idle channels name does not matter. */
  predicate Unchained(d: Dma, x: nat, live: set<nat>) {
    && x < |d.chan|
    && (forall i :: 0 <= i < |d.chan| && d.chan[i].ctrl.busy ==> i in live)
    && (forall i :: 0 <= i < |d.chan| && i in live ==> LinksInside(d, i, x, live))
  }

  predicate LinksInside(d: Dma, i: nat, x: nat, live: set<nat>)
    requires i < |d.chan|
  {
    var next := d.chan[i].ctrl.chainTo;
    && (i != x ==> next != x)
    && (next < |d.chan| && next != i && d.chan[next].ctrl.en ==> next in live)
  }

  /** Configuration is never changed by the controller itself, and only channels of `live` are started. */
  predicate SameRoutes(d: Dma, e: Dma, live: set<nat>) {
    && |d.chan| == |e.chan| && e.timers == d.timers && e.divisor == d.divisor
    && (forall i :: 0 <= i < |d.chan| ==> Config(e.chan[i].ctrl) == Config(d.chan[i].ctrl))
    && OnlyStarts(d, e, live)
  }

  predicate OnlyStarts(d: Dma, e: Dma, live: set<nat>)
    requires |d.chan| == |e.chan|
  {
    forall i :: 0 <= i < |d.chan| && e.chan[i].ctrl.busy ==> d.chan[i].ctrl.busy || i in live
  }

  lemma RoutesSelf(d: Dma, live: set<nat>)
    ensures SameRoutes(d, d, live)
  {
  }

  /** Counters and accumulators are no routes. */
  lemma RoutesCounter(d: Dma, ch: nat, c: Channel, live: set<nat>)
    requires ch < |d.chan| && c.ctrl == d.chan[ch].ctrl
    ensures SameRoutes(d, d.(chan := d.chan[ch := c]), live)
  {
  }

  lemma RoutesTrans(d: Dma, e: Dma, f: Dma, live: set<nat>)
    requires SameRoutes(d, e, live) && SameRoutes(e, f, live)
    ensures SameRoutes(d, f, live)
  {
  }

  lemma RoutesUnchained(d: Dma, e: Dma, x: nat, live: set<nat>)
    requires SameRoutes(d, e, live) && Unchained(d, x, live)
    ensures Unchained(e, x, live)
  {
    forall i | 0 <= i < |e.chan| && i in live
      ensures LinksInside(e, i, x, live)
    {
      SameLinks(d, e, i);
      assert LinksInside(d, i, x, live);
      if e.chan[i].ctrl.chainTo < |e.chan| {
        SameLinks(d, e, e.chan[i].ctrl.chainTo);
      }
    }
  }

  lemma SameLinks(d: Dma, e: Dma, i: nat)
    requires |d.chan| == |e.chan| && i < |d.chan| && Config(e.chan[i].ctrl) == Config(d.chan[i].ctrl)
    ensures e.chan[i].ctrl.chainTo == d.chan[i].ctrl.chainTo && e.chan[i].ctrl.en == d.chan[i].ctrl.en
  {
    assert Config(e.chan[i].ctrl).chainTo == Config(d.chan[i].ctrl).chainTo;
    assert Config(e.chan[i].ctrl).en == Config(d.chan[i].ctrl).en;
  }

  lemma SameButRoutes(d: Dma, e: Dma, live: set<nat>)
    requires d.Valid() && e.Valid() && SameBut(d, e) && OnlyStarts(d, e, live)
    ensures SameRoutes(d, e, live)
  {
    forall i | 0 <= i < CHANNELS
      ensures Config(e.chan[i].ctrl) == Config(d.chan[i].ctrl)
    {
      assert Stripped(d.chan[i]).ctrl == Stripped(e.chan[i]).ctrl;
    }
  }

  /** With all other channels as reset leaves them no one starts channel `x`, channel 0
      included, whatever `x` itself chains to. */
  lemma AloneAfterReset(d: Dma, x: nat)
    requires d.Valid() && x < CHANNELS && forall i :: 0 <= i < CHANNELS && i != x ==> d.chan[i] == RESET_CHANNEL
    ensures Unchained(d, x, {x})
  {
    var next := d.chan[x].ctrl.chainTo;
    assert next < CHANNELS && next != x ==> !d.chan[next].ctrl.en;
  }

  // -------------------------------------------------- the others do not matter

  lemma {:induction false} TriggerSpares(d: Dma, ch: nat, x: nat, live: set<nat>)
    requires d.Valid() && Unchained(d, x, live) && ch != x
    requires ch < CHANNELS && d.chan[ch].ctrl.en ==> ch in live
    ensures Trigger(d, ch).chan[x] == d.chan[x] && OnlyStarts(d, Trigger(d, ch), live)
    decreases CHANNELS + 1 - d.depth, 1
  {
    hide Unchained, Complete;
    if ch < CHANNELS && d.chan[ch].ctrl.en {
      ArmSpares(d, ch, x, live);
      var armed := Arm(d, ch).(depth := d.depth + 1);
      if armed.chan[ch].remaining == 0 && d.depth <= CHANNELS {
        CompleteSpares(armed, ch, false, x, live);
        hide Arm;
        OnlyStartsTwice(d, armed, Complete(armed, ch, false), live);
      }
    }
  }

  lemma ArmSpares(d: Dma, ch: nat, x: nat, live: set<nat>)
    requires d.Valid() && Unchained(d, x, live) && ch != x && ch < CHANNELS && ch in live
    ensures var e := Arm(d, ch).(depth := d.depth + 1);
            Unchained(e, x, live) && OnlyStarts(d, e, live) && e.chan[x] == d.chan[x] && x < CHANNELS
  {
    KeepsLinks(d, Arm(d, ch).(depth := d.depth + 1), x, live);
  }

  lemma OnlyStartsTwice(d: Dma, e: Dma, f: Dma, live: set<nat>)
    requires |d.chan| == |e.chan| == |f.chan| && OnlyStarts(d, e, live) && OnlyStarts(e, f, live)
    ensures OnlyStarts(d, f, live)
  {
  }

  lemma {:induction false} CompleteSpares(d: Dma, ch: nat, error: bool, x: nat, live: set<nat>)
    requires d.Valid() && Unchained(d, x, live) && ch < CHANNELS && ch in live
    ensures Complete(d, ch, error).chan[x] == if ch == x then Finished(d.chan[x]) else d.chan[x]
    ensures OnlyStarts(d, Complete(d, ch, error), live)
    decreases CHANNELS + 1 - d.depth, 2
  {
    var done := Done(d, ch, error);
    var next := done.chan[ch].ctrl.chainTo;
    assert LinksInside(d, ch, x, live);
    if !error && next != ch && next < CHANNELS {
      KeepsLinks(d, done, x, live);
      TriggerSpares(done, next, x, live);
    }
  }

  /** Starting channels of `live` and finishing any keeps what is asked of the links. */
  lemma KeepsLinks(d: Dma, e: Dma, x: nat, live: set<nat>)
    requires d.Valid() && e.Valid() && Unchained(d, x, live) && OnlyStarts(d, e, live)
    requires forall i :: 0 <= i < CHANNELS
               ==> e.chan[i].ctrl.chainTo == d.chan[i].ctrl.chainTo && e.chan[i].ctrl.en == d.chan[i].ctrl.en
    ensures Unchained(e, x, live)
  {
    forall i | 0 <= i < |e.chan| && i in live
      ensures LinksInside(e, i, x, live)
    {
      assert LinksInside(d, i, x, live);
    }
  }

  /** A busy channel is one of `live`. */
  lemma BusyIsLive(d: Dma, x: nat, live: set<nat>, ch: nat)
    requires Unchained(d, x, live) && ch < |d.chan| && d.chan[ch].ctrl.busy
    ensures ch in live
  {
  }

  lemma TransferRoutes(d: Dma, ch: nat, live: set<nat>)
    requires d.Valid() && ch < CHANNELS
    ensures SameRoutes(d, TransferOne(d, ch).0, live)
  {
    hide Store, ReadStatus, WriteStatus, Loaded, SniffFeed, NextAddress;
  }

  /** One move of channel `ch`, seen from channel `x`. */
  lemma MoveSpares(d: Dma, ch: nat, x: nat, live: set<nat>)
    requires d.Valid() && Unchained(d, x, live) && ch < CHANNELS && ch in live && d.chan[ch].remaining > 0
    ensures SameRoutes(d, MoveOne(d, ch).0, live)
    ensures ch != x ==> MoveOne(d, ch).0.chan[x] == d.chan[x]
    ensures ch == x && ElementOk(d.chan[x], 0) ==> MoveOne(d, x).1 == (d.chan[x].remaining > 1)
    ensures ch == x && ElementOk(d.chan[x], 0) ==> MoveOne(d, x).0.chan[x] == Progress(d.chan[x], 1)
  {
    hide TransferOne, Complete, SameRoutes, Unchained, SameBut, Advanced, ElementOk;
    var (t, ok) := TransferOne(d, ch);
    TransferRoutes(d, ch, live);
    RoutesUnchained(d, t, x, live);
    TransferKeepsCounters(d, ch);
    if ch == x && ElementOk(d.chan[x], 0) {
      OwnTransfer(d, x);
    }
    if !ok {
      CompleteKeeps(t, ch, true);
      CompleteSpares(t, ch, true, x, live);
      SameButRoutes(t, Complete(t, ch, true), live);
      RoutesTrans(d, t, Complete(t, ch, true), live);
    } else {
      var left := t.(chan := t.chan[ch := t.chan[ch].(remaining := t.chan[ch].remaining - 1)]);
      RoutesCounter(t, ch, t.chan[ch].(remaining := t.chan[ch].remaining - 1), live);
      RoutesTrans(d, t, left, live);
      RoutesUnchained(t, left, x, live);
      if left.chan[ch].remaining == 0 {
        CompleteKeeps(left, ch, false);
        CompleteSpares(left, ch, false, x, live);
        SameButRoutes(left, Complete(left, ch, false), live);
        RoutesTrans(d, left, Complete(left, ch, false), live);
      }
    }
  }

  lemma OwnTransfer(d: Dma, x: nat)
    requires d.Valid() && x < CHANNELS && ElementOk(d.chan[x], 0)
    ensures TransferOne(d, x).1 && TransferOne(d, x).0.chan[x] == After(d.chan[x], 1)
  {
    hide Store, ReadStatus, WriteStatus, SniffFeed, Loaded, Advanced;
    assert After(d.chan[x], 0) == d.chan[x];
    assert After(d.chan[x], 1) == Advanced(d.chan[x]);
  }

  /** A channel after `k` of its remaining elements; the last one finishes it. */
  function Progress(c: Channel, k: nat): Channel
    requires k <= c.remaining
  {
    if k == 0 then c
    else if k == c.remaining then Finished(After(c, k))
    else After(c, k).(remaining := c.remaining - k)
  }

  lemma {:induction false} AfterShift(c: Channel, remaining: Word, k: nat)
    ensures After(After(c, 1).(remaining := remaining), k) == After(c, k + 1).(remaining := remaining)
    decreases k
  {
    if k > 0 {
      AfterShift(c, remaining, k - 1);
      AdvancedKeeps(After(c, k), remaining);
    }
  }

  lemma AdvancedKeeps(c: Channel, remaining: Word)
    ensures Advanced(c.(remaining := remaining)) == Advanced(c).(remaining := remaining)
  {
  }

  lemma NoProgress(c: Channel)
    ensures Progress(c, 0) == c
  {
  }

  lemma FirstOk(c: Channel, n: nat)
    requires ErrorFree(c, n) && n > 0
    ensures ElementOk(c, 0)
  {
  }

  lemma ProgressTwice(c: Channel, k: nat)
    requires 0 < k < c.remaining
    ensures Progress(c, 1).remaining == c.remaining - 1
    ensures Progress(Progress(c, 1), k) == Progress(c, k + 1)
  {
    hide Advanced;
    AfterShift(c, c.remaining - 1, k);
  }

  lemma {:induction false} ErrorFreeShift(c: Channel, n: nat, remaining: Word)
    requires ErrorFree(c, n) && n > 0
    ensures ErrorFree(After(c, 1).(remaining := remaining), n - 1)
  {
    hide ReadStatus, WriteStatus, Advanced;
    var next := After(c, 1).(remaining := remaining);
    forall k | 0 <= k < n - 1
      ensures ElementOk(next, k)
    {
      AfterShift(c, remaining, k);
      assert ElementOk(c, k + 1);
    }
  }

  lemma {:induction false} BurstSpares(d: Dma, ch: nat, budget: nat, x: nat, live: set<nat>)
    requires d.Valid() && Unchained(d, x, live) && ch < CHANNELS && ch in live && ch != x
    ensures SameRoutes(d, Burst(d, ch, budget), live) && Burst(d, ch, budget).chan[x] == d.chan[x]
    decreases budget
  {
    hide MoveOne, SameRoutes, Unchained;
    if budget == 0 || d.chan[ch].remaining == 0 {
      RoutesSelf(d, live);
    } else {
      MoveSpares(d, ch, x, live);
      var (next, more) := MoveOne(d, ch);
      RoutesUnchained(d, next, x, live);
      if more {
        BurstSpares(next, ch, budget - 1, x, live);
        RoutesTrans(d, next, Burst(next, ch, budget - 1), live);
      }
    }
  }

  function Least(a: nat, b: nat): nat { if a < b then a else b }

  /** A channel's own burst moves as many elements as the budget and the count allow. */
  lemma {:induction false} OwnBurst(d: Dma, x: nat, budget: nat, live: set<nat>)
    requires d.Valid() && x < CHANNELS && x in live && Unchained(d, x, live)
        && ErrorFree(d.chan[x], Least(budget, d.chan[x].remaining))
    ensures SameRoutes(d, Burst(d, x, budget), live)
    ensures Burst(d, x, budget).chan[x] == Progress(d.chan[x], Least(budget, d.chan[x].remaining))
    decreases budget
  {
    hide MoveOne, SameRoutes, Unchained, Finished, After, ErrorFree;
    var c := d.chan[x];
    if budget == 0 || c.remaining == 0 {
      RoutesSelf(d, live);
    } else {
      FirstOk(c, Least(budget, c.remaining));
      MoveSpares(d, x, x, live);
      var (next, more) := MoveOne(d, x);
      RoutesUnchained(d, next, x, live);
      if more && budget > 1 {
        ErrorFreeShift(c, Least(budget, c.remaining), c.remaining - 1);
        OwnBurst(next, x, budget - 1, live);
        RoutesTrans(d, next, Burst(next, x, budget - 1), live);
        ProgressTwice(c, Least(budget, c.remaining) - 1);
      } else if more {
        assert Burst(next, x, 0) == next;
      }
    }
  }

  // -------------------------------------------------------------- one clock

  /** How many elements channel `x` may move in this clock, and its next accumulator. */
  function Turn(d: Dma, c: Channel, ready: Ready): (r: (nat, nat))
    requires d.Valid()
  {
    if !c.ctrl.busy || c.remaining == 0 then (0, c.paceAccum)
    else if c.ctrl.treqSel < DREQS && ready.Source? then (if ready.ready then 1 else 0, c.paceAccum)
    else
      var (num, den) := Rate(d, c.ctrl.treqSel);
      if num == 0 then (0, c.paceAccum)
      else
        DivMod(c.paceAccum + num, den);
        ((c.paceAccum + num) / den, (c.paceAccum + num) % den)
  }

  /** The channel's next state, which depends on itself alone. */
  function Clocked(d: Dma, c: Channel, ready: Ready): Channel
    requires d.Valid()
  {
    var (budget, pace) := Turn(d, c, ready);
    Progress(c.(paceAccum := pace), Least(budget, c.remaining))
  }

  lemma {:induction false} ErrorFreePaced(c: Channel, n: nat, pace: nat)
    requires ErrorFree(c, n)
    ensures ErrorFree(c.(paceAccum := pace), n)
  {
    hide ReadStatus, WriteStatus, Advanced;
    forall k | 0 <= k < n
      ensures ElementOk(c.(paceAccum := pace), k)
    {
      AfterPaced(c, pace, k);
      assert ElementOk(c, k);
    }
  }

  lemma {:induction false} AfterPaced(c: Channel, pace: nat, k: nat)
    ensures After(c.(paceAccum := pace), k) == After(c, k).(paceAccum := pace)
    decreases k
  {
    if k > 0 {
      AfterPaced(c, pace, k - 1);
      AdvancedPaced(After(c, k - 1), pace);
    }
  }

  lemma AdvancedPaced(c: Channel, pace: nat)
    ensures Advanced(c.(paceAccum := pace)) == Advanced(c).(paceAccum := pace)
  {
  }

  lemma OthersClock(d: Dma, ch: nat, ready: Ready, x: nat, live: set<nat>)
    requires d.Valid() && Unchained(d, x, live) && ch < CHANNELS && ch != x && x < CHANNELS
    ensures SameRoutes(d, ClockChannel(d, ch, ready), live) && ClockChannel(d, ch, ready).chan[x] == d.chan[x]
  {
    hide MoveOne, Burst, Rate, Unchained, SameRoutes;
    RoutesSelf(d, live);
    var c := d.chan[ch];
    if c.ctrl.busy && c.remaining != 0 {
      BusyIsLive(d, x, live, ch);
      if c.ctrl.treqSel < DREQS && ready.Source? {
        MoveSpares(d, ch, x, live);
      } else {
        var (num, den) := Rate(d, c.ctrl.treqSel);
        if num != 0 {
          DivMod(c.paceAccum + num, den);
          var paced := d.(chan := d.chan[ch := c.(paceAccum := (c.paceAccum + num) % den)]);
          RoutesCounter(d, ch, paced.chan[ch], live);
          RoutesUnchained(d, paced, x, live);
          BurstSpares(paced, ch, (c.paceAccum + num) / den, x, live);
          RoutesTrans(d, paced, Burst(paced, ch, (c.paceAccum + num) / den), live);
        }
      }
    }
  }

  lemma OwnClock(d: Dma, x: nat, ready: Ready, live: set<nat>)
    requires d.Valid() && x < CHANNELS && Unchained(d, x, live) && ErrorFree(d.chan[x], d.chan[x].remaining)
    ensures SameRoutes(d, ClockChannel(d, x, ready), live)
    ensures ClockChannel(d, x, ready).chan[x] == Clocked(d, d.chan[x], ready)
  {
    hide MoveOne, Burst, Rate, Unchained, SameRoutes, ErrorFree, Progress;
    RoutesSelf(d, live);
    var c := d.chan[x];
    assert c.(paceAccum := c.paceAccum) == c;
    if !c.ctrl.busy || c.remaining == 0 {
      NoProgress(c);
    } else if c.ctrl.treqSel < DREQS && ready.Source? {
      NoProgress(c);
      BusyIsLive(d, x, live, x);
      FirstOk(c, c.remaining);
      MoveSpares(d, x, x, live);
    } else {
      var (num, den) := Rate(d, c.ctrl.treqSel);
      if num == 0 {
        NoProgress(c);
      } else {
        DivMod(c.paceAccum + num, den);
        var (budget, pace) := ((c.paceAccum + num) / den, (c.paceAccum + num) % den);
        var paced := d.(chan := d.chan[x := c.(paceAccum := pace)]);
        BusyIsLive(d, x, live, x);
        RoutesCounter(d, x, paced.chan[x], live);
        RoutesUnchained(d, paced, x, live);
        Fewer(c, c.remaining, Least(budget, c.remaining));
        ErrorFreePaced(c, Least(budget, c.remaining), pace);
        OwnBurst(paced, x, budget, live);
        RoutesTrans(d, paced, Burst(paced, x, budget), live);
      }
    }
  }

  /** A clock gives channel `x` exactly one turn, on its own state. */
  lemma {:induction false} ClockGives(d: Dma, answers: Answers, from: nat, x: nat, live: set<nat>)
    requires d.Valid() && x < CHANNELS && Unchained(d, x, live) && ErrorFree(d.chan[x], d.chan[x].remaining)
    ensures SameRoutes(d, ClockFrom(d, answers, from), live)
    ensures ClockFrom(d, answers, from).chan[x] == if from <= x then Clocked(d, d.chan[x], answers[x]) else d.chan[x]
    decreases CHANNELS - from
  {
    hide ClockChannel, Clocked, SameRoutes, Unchained, ErrorFree;
    if from >= CHANNELS {
      RoutesSelf(d, live);
    } else {
      var e := ClockChannel(d, from, answers[from]);
      if from == x {
        OwnClock(d, x, answers[x], live);
        RoutesUnchained(d, e, x, live);
        ClockPast(e, answers, from + 1, x, live);
      } else {
        OthersClock(d, from, answers[from], x, live);
        RoutesUnchained(d, e, x, live);
        ClockGives(e, answers, from + 1, x, live);
        SameRates(d, e, d.chan[x], answers[x], live);
      }
      RoutesTrans(d, e, ClockFrom(e, answers, from + 1), live);
    }
  }

  lemma SameRates(d: Dma, e: Dma, c: Channel, ready: Ready, live: set<nat>)
    requires d.Valid() && e.Valid() && SameRoutes(d, e, live)
    ensures Clocked(d, c, ready) == Clocked(e, c, ready)
  {
  }

  /** Once its turn is over, the rest of the clock leaves channel `x` alone. */
  lemma {:induction false} ClockPast(d: Dma, answers: Answers, from: nat, x: nat, live: set<nat>)
    requires d.Valid() && x < CHANNELS && Unchained(d, x, live) && x < from
    ensures SameRoutes(d, ClockFrom(d, answers, from), live) && ClockFrom(d, answers, from).chan[x] == d.chan[x]
    decreases CHANNELS - from
  {
    hide ClockChannel, SameRoutes, Unchained;
    if from >= CHANNELS {
      RoutesSelf(d, live);
    } else {
      OthersClock(d, from, answers[from], x, live);
      var e := ClockChannel(d, from, answers[from]);
      RoutesUnchained(d, e, x, live);
      ClockPast(e, answers, from + 1, x, live);
      RoutesTrans(d, e, ClockFrom(e, answers, from + 1), live);
    }
  }

  // ------------------------------------------------------------------ the law

  /** Channel `x` stands after `moved` of the elements it was armed with. */
  predicate Stands(c: Channel, armed: Channel, moved: nat, pace: nat) {
    if moved < armed.remaining
    then c == After(armed, moved).(remaining := armed.remaining - moved, paceAccum := pace)
    else
      && c.remaining == 0 && !c.ctrl.busy
      && c.readAddr == ReadAt(armed, armed.remaining) && c.writeAddr == WriteAt(armed, armed.remaining)
  }

  lemma StandsAtStart(armed: Channel)
    requires armed.remaining > 0
    ensures Stands(armed, armed, 0, armed.paceAccum)
  {
    assert After(armed, 0) == armed;
  }

  /** A turn moves the standing on by its budget. */
  lemma StandsOn(d: Dma, c: Channel, armed: Channel, moved: nat, pace: nat, ready: Ready)
    requires d.Valid() && Stands(c, armed, moved, pace) && armed.ctrl.busy
    ensures var (budget, next) := Turn(d, c, ready);
            if moved >= armed.remaining then Clocked(d, c, ready) == c
            else Stands(Clocked(d, c, ready), armed, moved + budget, next)
  {
    hide Advanced, Rate;
    if moved < armed.remaining {
      var (budget, next) := Turn(d, c, ready);
      var n := Least(budget, c.remaining);
      AfterMany(armed, c.remaining, next, moved, n);
    }
  }

  lemma {:induction false} AfterMany(c: Channel, remaining: Word, pace: nat, m: nat, n: nat)
    ensures After(After(c, m).(remaining := remaining, paceAccum := pace), n)
         == After(c, m + n).(remaining := remaining, paceAccum := pace)
    decreases n
  {
    hide NextAddress;
    if n > 0 {
      AfterMany(c, remaining, pace, m, n - 1);
      var before := After(c, m + n - 1);
      AdvancedKeeps(before.(paceAccum := pace), remaining);
      AdvancedPaced(before, pace);
    }
  }

  lemma {:induction false} ErrorFreeStands(c: Channel, armed: Channel, moved: nat, pace: nat)
    requires Stands(c, armed, moved, pace) && ErrorFree(armed, armed.remaining)
    ensures ErrorFree(c, c.remaining)
  {
    hide ReadStatus, WriteStatus, Advanced;
    if moved < armed.remaining {
      forall k | 0 <= k < c.remaining
        ensures ElementOk(c, k)
      {
        AfterMany(armed, c.remaining, pace, moved, k);
        assert ElementOk(armed, moved + k);
      }
    }
  }

  /** No trace answer for channel `x` comes from a registered DREQ source. */
  predicate Unregistered(trace: seq<Answers>, x: nat)
    requires x < CHANNELS
  {
    forall t :: 0 <= t < |trace| ==> trace[t][x] == NoSource
  }

  /** Elements earned in `t` clocks at `num / den` each. */
  function Earned(t: nat, num: nat, den: nat): nat
    requires den >= 1
  {
    DivMod(t * num, den);
    t * num / den
  }

  /** What the accumulator holds then. */
  function Carry(t: nat, num: nat, den: nat): nat
    requires den >= 1
  {
    DivMod(t * num, den);
    t * num % den
  }

  lemma EarnedIs(t: nat, num: nat, den: nat, v: nat)
    requires den >= 1 && v == t * num
    ensures v / den >= 0 && v % den >= 0 && Earned(t, num, den) == v / den && Carry(t, num, den) == v % den
  {
    DivMod(v, den);
  }

  lemma EarnedAtStart(num: nat, den: nat)
    requires den >= 1
    ensures Earned(0, num, den) == 0 && Carry(0, num, den) == 0
  {
    DivUnique(0, den, 0, 0);
  }

  lemma SmallCarry(r: nat, den: nat)
    requires r < den
    ensures r / den == 0 && r % den == r
  {
    DivUnique(r, den, 0, r);
  }

  lemma EarnedStep(t: nat, num: nat, den: nat)
    requires den >= 1
    ensures var r := Carry(t, num, den);
            && (r + num) / den >= 0
            && Earned(t + 1, num, den) == Earned(t, num, den) + (r + num) / den
            && Carry(t + 1, num, den) == (r + num) % den
            && r / den == 0 && r % den == r
  {
    hide Earned, Carry;
    var v := t * num;
    Distrib(num, t, 1);
    EarnedIs(t, num, den, v);
    EarnedIs(t + 1, num, den, v + num);
    Carried(v, num, den);
    DivMod(v, den);
    SmallCarry(v % den, den);
    DivLe(v % den + num, den);
  }

  /** The rate law of a paced channel, seen inside a run of all twelve: armed
      with `count` elements that meet no bus error and started by no other
      channel, after T clocks it has moved min(count, floor(T * num / den)). */
  lemma {:induction false} PacedRate(d: Dma, trace: seq<Answers>, x: nat, live: set<nat>)
    requires d.Valid() && x < CHANNELS && Unchained(d, x, live) && Unregistered(trace, x)
    requires var c := d.chan[x];
             c.ctrl.busy && c.remaining > 0 && c.paceAccum == 0 && ErrorFree(c, c.remaining)
    ensures var (num, den) := Rate(d, d.chan[x].ctrl.treqSel);
            Stands(Clocks(d, trace).chan[x], d.chan[x], Earned(|trace|, num, den), Carry(|trace|, num, den))
    ensures SameRoutes(d, Clocks(d, trace), live)
    decreases |trace|
  {
    hide ClockFrom, Clocked, SameRoutes, Unchained, ErrorFree, Stands, Rate, Turn, Earned, Carry;
    var (num, den) := Rate(d, d.chan[x].ctrl.treqSel);
    if trace == [] {
      RoutesSelf(d, live);
      EarnedAtStart(num, den);
      assert After(d.chan[x], 0) == d.chan[x];
      StandsAtStart(d.chan[x]);
    } else {
      var (prefix, last) := (trace[..|trace| - 1], trace[|trace| - 1]);
      forall t | 0 <= t < |prefix|
        ensures prefix[t][x] == NoSource
      {
        assert prefix[t] == trace[t];
      }
      PacedRate(d, prefix, x, live);
      var e := Clocks(d, prefix);
      PacedStep(d, e, last, x, |prefix|, num, den, live);
    }
  }

  lemma SameRate(d: Dma, e: Dma, sel: nat, live: set<nat>)
    requires d.Valid() && e.Valid() && SameRoutes(d, e, live)
    ensures Rate(e, sel) == Rate(d, sel)
  {
  }

  lemma PacedStep(d: Dma, e: Dma, last: Answers, x: nat, t: nat, num: nat, den: nat, live: set<nat>)
    requires d.Valid() && e.Valid() && x < CHANNELS && Unchained(d, x, live) && SameRoutes(d, e, live)
        && last[x] == NoSource
    requires (num, den) == Rate(d, d.chan[x].ctrl.treqSel) && d.chan[x].ctrl.busy
        && ErrorFree(d.chan[x], d.chan[x].remaining)
    requires den >= 1 && Stands(e.chan[x], d.chan[x], Earned(t, num, den), Carry(t, num, den))
    ensures Stands(Clock(e, last).chan[x], d.chan[x], Earned(t + 1, num, den), Carry(t + 1, num, den))
    ensures SameRoutes(d, Clock(e, last), live)
  {
    hide ClockFrom, Clocked, SameRoutes, Unchained, ErrorFree, After, Rate, Earned, Carry;
    var (armed, c) := (d.chan[x], e.chan[x]);
    RoutesUnchained(d, e, x, live);
    ErrorFreeStands(c, armed, Earned(t, num, den), Carry(t, num, den));
    ClockGives(e, last, 0, x, live);
    RoutesTrans(d, e, Clock(e, last), live);
    EarnedStep(t, num, den);
    StandsOn(e, c, armed, Earned(t, num, den), Carry(t, num, den), last[x]);
    SameRate(d, e, armed.ctrl.treqSel, live);
  }

  /** The same law for the counter the program reads back. */
  lemma PacedRemaining(d: Dma, trace: seq<Answers>, x: nat, live: set<nat>)
    requires d.Valid() && x < CHANNELS && Unchained(d, x, live) && Unregistered(trace, x)
    requires var c := d.chan[x];
             c.ctrl.busy && c.remaining > 0 && c.paceAccum == 0 && ErrorFree(c, c.remaining)
    ensures var (num, den) := Rate(d, d.chan[x].ctrl.treqSel);
            Clocks(d, trace).chan[x].remaining
              == d.chan[x].remaining - Least(d.chan[x].remaining, Earned(|trace|, num, den))
  {
    hide Clocks, After, ReadAt, WriteAt, ErrorFree, Earned, Carry;
    PacedRate(d, trace, x, live);
  }

  /** In how many clocks the registered source of channel `x` was ready. */
  function ReadyClocks(trace: seq<Answers>, x: nat): nat
    requires x < CHANNELS
  {
    if trace == [] then 0
    else ReadyClocks(trace[..|trace| - 1], x) + if trace[|trace| - 1][x] == Source(true) then 1 else 0
  }

  /** A channel with a registered DREQ source has moved min(count, ready clocks) elements. */
  lemma {:induction false} DreqRate(d: Dma, trace: seq<Answers>, x: nat, live: set<nat>)
    requires d.Valid() && x < CHANNELS && Unchained(d, x, live)
    requires forall t :: 0 <= t < |trace| ==> trace[t][x] != NoSource
    requires var c := d.chan[x];
             c.ctrl.busy && c.remaining > 0 && c.ctrl.treqSel < DREQS && ErrorFree(c, c.remaining)
    ensures Stands(Clocks(d, trace).chan[x], d.chan[x], ReadyClocks(trace, x), d.chan[x].paceAccum)
    ensures SameRoutes(d, Clocks(d, trace), live)
    decreases |trace|
  {
    hide ClockFrom, Clocked, SameRoutes, Unchained, ErrorFree, Stands, Turn;
    var armed := d.chan[x];
    if trace == [] {
      RoutesSelf(d, live);
      assert After(armed, 0) == armed;
      StandsAtStart(armed);
    } else {
      var (prefix, last) := (trace[..|trace| - 1], trace[|trace| - 1]);
      forall t | 0 <= t < |prefix|
        ensures prefix[t][x] != NoSource
      {
        assert prefix[t] == trace[t];
      }
      DreqRate(d, prefix, x, live);
      assert trace[|trace| - 1][x] != NoSource;
      DreqStep(d, Clocks(d, prefix), last, x, ReadyClocks(prefix, x), live);
    }
  }

  lemma DreqStep(d: Dma, e: Dma, last: Answers, x: nat, moved: nat, live: set<nat>)
    requires d.Valid() && e.Valid() && x < CHANNELS && Unchained(d, x, live) && SameRoutes(d, e, live)
        && last[x] != NoSource
    requires var c := d.chan[x];
             c.ctrl.busy && c.remaining > 0 && c.ctrl.treqSel < DREQS && ErrorFree(c, c.remaining)
    requires Stands(e.chan[x], d.chan[x], moved, d.chan[x].paceAccum)
    ensures var more := if last[x] == Source(true) then 1 else 0;
            Stands(Clock(e, last).chan[x], d.chan[x], moved + more, d.chan[x].paceAccum)
    ensures SameRoutes(d, Clock(e, last), live)
  {
    hide ClockFrom, Clocked, SameRoutes, Unchained, ErrorFree, After;
    var (armed, c) := (d.chan[x], e.chan[x]);
    RoutesUnchained(d, e, x, live);
    ErrorFreeStands(c, armed, moved, armed.paceAccum);
    ClockGives(e, last, 0, x, live);
    RoutesTrans(d, e, Clock(e, last), live);
    StandsOn(e, c, armed, moved, armed.paceAccum, last[x]);
  }
}
