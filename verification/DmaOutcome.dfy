/** What memory holds after a run of the DMA controller. */
module DmaOutcome {
  // Rates, interleaving, copies and addresses put together: how many elements of
  // a channel a run has moved, and where each of them lies.
  import opened Words
  import opened WordLemmas
  import opened MemoryBus
  import opened DmaTransfer
  import opened DmaCopy
  import opened DmaModel
  import opened DmaRuns
  import opened DmaRate

  // --------------------------------------------- the log and the counter agree

  /** The elements still to move and those moved: what a run conserves. */
  function Tally(d: Dma, x: nat): nat
    requires d.Valid() && x < CHANNELS
  {
    d.chan[x].remaining + Turns(d.log, x)
  }

  lemma MoveLogs(d: Dma, ch: nat)
    requires d.Valid() && ch < CHANNELS && d.chan[ch].remaining > 0
    ensures MoveOne(d, ch).0.log == if Transfer(d.mem, d.chan[ch]).ok then d.log + [ch] else d.log
  {
    hide Transfer, SniffFeed, Complete, Stripped;
    var (t, ok) := TransferOne(d, ch);
    if !ok {
      CompleteKeeps(t, ch, true);
    } else {
      TransferKeepsCounters(d, ch);
      var left := t.(chan := t.chan[ch := t.chan[ch].(remaining := t.chan[ch].remaining - 1)]);
      if left.chan[ch].remaining == 0 {
        CompleteKeeps(left, ch, false);
      }
    }
  }

  lemma MoveTallies(d: Dma, ch: nat, x: nat, live: set<nat>)
    requires d.Valid() && Unchained(d, x, live) && ch < CHANNELS && ch in live && d.chan[ch].remaining > 0
    requires ch == x ==> ElementOk(d.chan[x], 0)
    ensures Tally(MoveOne(d, ch).0, x) == Tally(d, x)
  {
    hide MoveOne, Transfer, ElementOk, Unchained, SameRoutes, After, Advanced;
    MoveLogs(d, ch);
    MoveSpares(d, ch, x, live);
    TurnCounts(d.log, ch);
    if ch == x {
      FirstSucceeds(d.mem, d.chan[x]);
    }
  }

  lemma FirstSucceeds(m: Mem, c: Channel)
    requires m.Valid() && ElementOk(c, 0)
    ensures Transfer(m, c).ok
  {
    TransferIsOk(m, c, 0);
    hide Transfer;
    assert After(c, 0) == c;
  }

  lemma {:induction false} BurstTallies(d: Dma, ch: nat, budget: nat, x: nat, live: set<nat>)
    requires d.Valid() && Unchained(d, x, live) && ch < CHANNELS && ch in live
    requires ch == x ==> ErrorFree(d.chan[x], Least(budget, d.chan[x].remaining))
    ensures Tally(Burst(d, ch, budget), x) == Tally(d, x)
    decreases budget
  {
    hide MoveOne, SameRoutes, Unchained, After, ErrorFree, Tally, Finished, ElementOk;
    var c := d.chan[ch];
    if budget > 0 && c.remaining > 0 {
      if ch == x {
        FirstOk(c, Least(budget, c.remaining));
      }
      MoveTallies(d, ch, x, live);
      MoveSpares(d, ch, x, live);
      var (next, more) := MoveOne(d, ch);
      RoutesUnchained(d, next, x, live);
      if more {
        if ch == x {
          ErrorFreeShift(c, Least(budget, c.remaining), c.remaining - 1);
        }
        BurstTallies(next, ch, budget - 1, x, live);
      }
    }
  }

  lemma PacedTally(d: Dma, ch: nat, pace: nat, x: nat)
    requires d.Valid() && ch < CHANNELS && x < CHANNELS
    ensures Tally(d.(chan := d.chan[ch := d.chan[ch].(paceAccum := pace)]), x) == Tally(d, x)
  {
  }

  lemma ClockTallies(d: Dma, ch: nat, ready: Ready, x: nat, live: set<nat>)
    requires d.Valid() && Unchained(d, x, live) && ch < CHANNELS && x < CHANNELS
    requires ch == x ==> ErrorFree(d.chan[x], d.chan[x].remaining)
    ensures Tally(ClockChannel(d, ch, ready), x) == Tally(d, x)
  {
    hide MoveOne, Burst, Rate, Unchained, SameRoutes, ErrorFree, Tally, ElementOk;
    var c := d.chan[ch];
    if c.ctrl.busy && c.remaining != 0 {
      BusyIsLive(d, x, live, ch);
      if c.ctrl.treqSel < DREQS && ready.Source? {
        if ch == x {
          FirstOk(c, c.remaining);
        }
        MoveTallies(d, ch, x, live);
      } else {
        var (num, den) := Rate(d, c.ctrl.treqSel);
        if num != 0 {
          DivMod(c.paceAccum + num, den);
          var (budget, pace) := ((c.paceAccum + num) / den, (c.paceAccum + num) % den);
          var paced := d.(chan := d.chan[ch := c.(paceAccum := pace)]);
          PacedTally(d, ch, pace, x);
          RoutesCounter(d, ch, c.(paceAccum := pace), live);
          RoutesUnchained(d, paced, x, live);
          if ch == x {
            Fewer(c, c.remaining, Least(budget, c.remaining));
            ErrorFreePaced(c, Least(budget, c.remaining), pace);
          }
          BurstTallies(paced, ch, budget, x, live);
        }
      }
    }
  }

  lemma {:induction false} ClockFromTallies(d: Dma, answers: Answers, from: nat, x: nat, live: set<nat>)
    requires d.Valid() && Unchained(d, x, live) && x < CHANNELS
    requires from <= x ==> ErrorFree(d.chan[x], d.chan[x].remaining)
    ensures Tally(ClockFrom(d, answers, from), x) == Tally(d, x)
    decreases CHANNELS - from
  {
    hide ClockChannel, Unchained, SameRoutes, ErrorFree, Tally;
    if from < CHANNELS {
      ClockTallies(d, from, answers[from], x, live);
      var e := ClockChannel(d, from, answers[from]);
      if from == x {
        OwnClock(d, x, answers[x], live);
      } else {
        OthersClock(d, from, answers[from], x, live);
      }
      RoutesUnchained(d, e, x, live);
      ClockFromTallies(e, answers, from + 1, x, live);
    }
  }

  /** A channel that is armed, meets no bus error and is started by no other. */
  predicate Started(d: Dma, x: nat, live: set<nat>)
    requires d.Valid() && x < CHANNELS
  {
    Unchained(d, x, live) && d.chan[x].ctrl.busy && d.chan[x].remaining > 0 && ErrorFree(d.chan[x], d.chan[x].remaining)
  }

  /** Whatever paces it, such a channel stands somewhere on its way. */
  lemma {:induction false} StandsSomewhere(d: Dma, trace: seq<Answers>, x: nat, live: set<nat>)
    returns (moved: nat, pace: nat)
    requires d.Valid() && x < CHANNELS && Started(d, x, live)
    ensures Stands(Clocks(d, trace).chan[x], d.chan[x], moved, pace)
    ensures SameRoutes(d, Clocks(d, trace), live) && Tally(Clocks(d, trace), x) == Tally(d, x)
    decreases |trace|
  {
    hide ClockFrom, Clocked, SameRoutes, Unchained, ErrorFree, Stands, Turn, Tally;
    var armed := d.chan[x];
    if trace == [] {
      RoutesSelf(d, live);
      moved, pace := 0, armed.paceAccum;
      StandsAtStart(armed);
    } else {
      var (prefix, last) := (trace[..|trace| - 1], trace[|trace| - 1]);
      moved, pace := StandsSomewhere(d, prefix, x, live);
      var e := Clocks(d, prefix);
      RoutesUnchained(d, e, x, live);
      ErrorFreeStands(e.chan[x], armed, moved, pace);
      ClockGives(e, last, 0, x, live);
      ClockFromTallies(e, last, 0, x, live);
      RoutesTrans(d, e, Clock(e, last), live);
      StandsOn(e, e.chan[x], armed, moved, pace, last[x]);
      if moved < armed.remaining {
        var (budget, next) := Turn(e, e.chan[x], last[x]);
        moved, pace := moved + budget, next;
      }
    }
  }

  /** How many elements of channel `x` a run has moved, by its counter. */
  function MovedBy(d: Dma, trace: seq<Answers>, x: nat): int
    requires d.Valid() && x < CHANNELS
  {
    d.chan[x].remaining - Clocks(d, trace).chan[x].remaining
  }

  lemma {:induction false} TurnsAppend(s: seq<nat>, t: seq<nat>, x: nat)
    ensures Turns(s + t, x) == Turns(s, x) + Turns(t, x)
    decreases |t|
  {
    if t == [] {
      assert s + t == s;
    } else {
      assert (s + t)[..|s + t| - 1] == s + t[..|t| - 1];
      TurnsAppend(s, t[..|t| - 1], x);
    }
  }

  /** The counter tells how many transfers the run has logged. */
  lemma CounterCounts(d: Dma, trace: seq<Answers>, x: nat, live: set<nat>)
    requires d.Valid() && x < CHANNELS && Started(d, x, live)
    ensures Turns(NewLog(d, Clocks(d, trace)), x) == MovedBy(d, trace, x)
    ensures 0 <= MovedBy(d, trace, x) <= d.chan[x].remaining
  {
    hide Clocks, Stands, Started, Interleave, Succeeds;
    var moved, pace := StandsSomewhere(d, trace, x, live);
    RunsAreInterleavings(d, trace);
    var e := Clocks(d, trace);
    TurnsAppend(d.log, NewLog(d, e), x);
    assert e.log == d.log + NewLog(d, e);
  }

  // ------------------------------------------------------------ where things lie

  /** Where element `k` is read, and written, in closed form. */
  function SourceOf(c: Channel, k: nat): Word
    requires c.ctrl.ringSize <= 15
  {
    Address(c.readAddr, c.ctrl.incrRead, Step(c.ctrl), ReadRing(c.ctrl), k)
  }

  function TargetOf(c: Channel, k: nat): Word
    requires c.ctrl.ringSize <= 15
  {
    Address(c.writeAddr, c.ctrl.incrWrite, Step(c.ctrl), WriteRing(c.ctrl), k)
  }

  /** The element at `a`, as channel `c` writes it. */
  function Element(m: Mem, c: Channel, a: Word): Word
    requires m.Valid()
  {
    Shaped(c.ctrl, Loaded(m, c.(readAddr := a)))
  }

  /** No later one of `n` elements goes over the place of element `k`. */
  predicate Kept(c: Channel, n: nat, k: nat)
    requires c.ctrl.ringSize <= 15
  {
    forall j :: k < j < n ==> Apart(TargetOf(c, k), TargetOf(c, j), Step(c.ctrl))
  }

  /** No earlier element goes over the source of element `k`. */
  predicate Unspoilt(c: Channel, k: nat)
    requires c.ctrl.ringSize <= 15
  {
    forall j :: 0 <= j < k ==> Apart(TargetOf(c, j), SourceOf(c, k), Step(c.ctrl))
  }

  lemma ClosedForms(c: Channel, k: nat)
    requires c.ctrl.ringSize <= 15
    ensures ReadAt(Stripped(c), k) == SourceOf(c, k) && WriteAt(Stripped(c), k) == TargetOf(c, k)
    ensures Step(Stripped(c).ctrl) == Step(c.ctrl)
  {
    AddressesAreClosed(Stripped(c), k);
    hide ReadAt, WriteAt, Address;
  }

  lemma KeptSurvives(c: Channel, n: nat, k: nat)
    requires c.ctrl.ringSize <= 15 && Kept(c, n, k)
    ensures Survives(Stripped(c), n, k)
  {
    hide ReadAt, WriteAt, TargetOf, SourceOf, Stripped, Step;
    forall j | k < j < n
      ensures Apart(WriteAt(Stripped(c), k), WriteAt(Stripped(c), j), Step(Stripped(c).ctrl))
    {
      ClosedForms(c, k);
      ClosedForms(c, j);
    }
  }

  lemma UnspoiltUntouched(c: Channel, k: nat)
    requires c.ctrl.ringSize <= 15 && Unspoilt(c, k)
    ensures Untouched(Stripped(c), k)
  {
    hide ReadAt, WriteAt, TargetOf, SourceOf, Stripped, Step;
    forall j | 0 <= j < k
      ensures Apart(WriteAt(Stripped(c), j), ReadAt(Stripped(c), k), Step(Stripped(c).ctrl))
    {
      ClosedForms(c, k);
      ClosedForms(c, j);
    }
  }

  /** A stripped channel reads its `k`-th element at its closed-form source. */
  lemma ElementIs(m: Mem, c: Channel, k: nat)
    requires m.Valid() && c.ctrl.ringSize <= 15
    ensures ElementAt(m, Stripped(c), k) == Element(m, c, SourceOf(c, k))
  {
    hide ValueAt, ByteSwap, SourceOf, After;
    ClosedForms(c, k);
  }

  /** What the other channels write in this run, channel `i` neither reads nor writes in it. */
  ghost predicate Unharmed(d: Dma, trace: seq<Answers>, i: nat)
    requires d.Valid() && i < CHANNELS
  {
    Undisturbed(AllStripped(d.chan), Counts(NewLog(d, Clocks(d, trace)), CHANNELS), i)
  }

  /** Windows that stay apart for at least as many elements as a run moves stay apart in that run. */
  lemma UnharmedBefore(d: Dma, trace: seq<Answers>, bounds: seq<nat>, i: nat)
    requires d.Valid() && |bounds| == CHANNELS && i < CHANNELS && Undisturbed(AllStripped(d.chan), bounds, i)
    requires var log := NewLog(d, Clocks(d, trace));
             forall j :: 0 <= j < CHANNELS ==> Turns(log, j) <= bounds[j]
    ensures Unharmed(d, trace, i)
  {
    hide Clocks, Written, Reads, AllStripped, Turns;
    var (cs, counts) := (AllStripped(d.chan), Counts(NewLog(d, Clocks(d, trace)), CHANNELS));
    forall j, a: nat | 0 <= j < |cs| && j != i && Written(cs[j], counts[j], a)
      ensures !Written(cs[i], counts[i], a) && !Reads(cs[i], counts[i], a)
    {
      WindowGrows(cs[i], counts[i], bounds[i], a);
      WindowGrows(cs[j], counts[j], bounds[j], a);
    }
  }

  lemma WindowGrows(c: Channel, n: nat, bound: nat, a: nat)
    requires n <= bound
    ensures Written(c, n, a) ==> Written(c, bound, a)
    ensures Reads(c, n, a) ==> Reads(c, bound, a)
  {
  }

  /** The copy, end to end, for any channel in any run in which the others write
      nothing that it reads or writes: an element it has transferred that it did
      not write over itself lies at its closed-form address, and is what memory
      held at its closed-form source when the run began, unless the channel had
      written over that source itself. */
  lemma RunCopies(d: Dma, trace: seq<Answers>, i: nat, k: nat)
    requires d.Valid() && i < CHANNELS && d.chan[i].ctrl.ringSize <= 15 && Unharmed(d, trace, i)
    requires var n := Turns(NewLog(d, Clocks(d, trace)), i);
             k < n && Kept(d.chan[i], n, k)
    ensures ErrorFree(Stripped(d.chan[i]), k)
    ensures var (c, e) := (d.chan[i], Clocks(d, trace));
            && ValueAt(e.mem, TargetOf(c, k), Step(c.ctrl)) == Element(Copied(d.mem, Stripped(c), k), c, SourceOf(c, k))
            && (Unspoilt(c, k) ==> ValueAt(e.mem, TargetOf(c, k), Step(c.ctrl)) == Element(d.mem, c, SourceOf(c, k)))
  {
    hide Clocks, Undisturbed, Copied, ElementAt, Kept, Unspoilt, Survives, Untouched, ValueAt, ByteAt, Turns, ElementOk,
         Element, SourceOf, TargetOf, WriteAt, ReadAt, After, Step, Stripped, Interleave;
    var (e, cs) := (Clocks(d, trace), AllStripped(d.chan));
    var log := NewLog(d, e);
    var (c, n) := (d.chan[i], Turns(log, i));
    var counts := Counts(log, CHANNELS);
    RunsAreScheduled(d, trace);
    assert cs[i] == Stripped(c) && counts[i] == n && ErrorFree(Stripped(c), n);
    Fewer(Stripped(c), n, k);
    KeptSurvives(c, n, k);
    SurvivorStays(d.mem, Stripped(c), n, k);
    ClosedForms(c, k);
    ElementIs(Copied(d.mem, Stripped(c), k), c, k);
    ElementIs(d.mem, c, k);
    AloneAt(d.mem, cs, counts, log, i, k);
    if Unspoilt(c, k) {
      UnspoiltUntouched(c, k);
      ReadsOriginal(d.mem, Stripped(c), k);
    }
  }

  /** An element of one channel on the shared memory is that of the channel alone. */
  lemma AloneAt(m: Mem, cs: seq<Channel>, counts: seq<nat>, log: seq<nat>, i: nat, k: nat)
    requires m.Valid() && Scheduled(cs, counts, log) && i < |cs| && Undisturbed(cs, counts, i)
    requires k < counts[i] == Turns(log, i)
    ensures ErrorFree(cs[i], counts[i])
    ensures ValueAt(Interleave(m, cs, log).mem, WriteAt(cs[i], k), Step(cs[i].ctrl))
         == ValueAt(Copied(m, cs[i], counts[i]), WriteAt(cs[i], k), Step(cs[i].ctrl))
  {
    hide Written, Copied, ByteAt, ValueAt, WriteAt, ReadAt, After, ErrorFree, Undisturbed, Interleave;
    var (a, s) := (WriteAt(cs[i], k), Step(cs[i].ctrl));
    var r := Interleave(m, cs, log);
    forall x | a <= x < a + s
      ensures ByteAt(r.mem, x) == ByteAt(Copied(m, cs[i], counts[i]), x)
    {
      WritesElement(cs[i], counts[i], k, x);
      OneAsAlone(m, cs, counts, log, i, x);
    }
    AgreeValue(r.mem, Copied(m, cs[i], counts[i]), a, s);
  }

  /** Bytes that no completed transfer wrote are as they were, after every run,
      whatever the windows. */
  lemma RestUnchanged(d: Dma, trace: seq<Answers>, a: nat)
    requires d.Valid()
    requires var log := NewLog(d, Clocks(d, trace));
             forall i :: 0 <= i < CHANNELS ==> !Written(Stripped(d.chan[i]), Turns(log, i), a)
    ensures ByteAt(Clocks(d, trace).mem, a) == ByteAt(d.mem, a)
  {
    hide Clocks, Written, ByteAt, Turns, Stripped, ErrorFree, Interleave;
    RunsAreScheduled(d, trace);
    var log := NewLog(d, Clocks(d, trace));
    InterleaveOutside(d.mem, AllStripped(d.chan), Counts(log, CHANNELS), log, a);
  }

  /** A paced channel, from its trigger to memory: T clocks later exactly
      min(count, floor(T * num / den)) elements have been copied, each to its
      closed-form address. */
  lemma PacedCopies(d: Dma, trace: seq<Answers>, x: nat, k: nat, live: set<nat>)
    requires d.Valid() && x < CHANNELS && d.chan[x].ctrl.ringSize <= 15 && Started(d, x, live)
        && d.chan[x].paceAccum == 0
    requires Unregistered(trace, x) && Unharmed(d, trace, x)
    requires var (num, den) := Rate(d, d.chan[x].ctrl.treqSel);
             var n := Least(d.chan[x].remaining, Earned(|trace|, num, den));
             k < n && Kept(d.chan[x], n, k) && Unspoilt(d.chan[x], k)
    ensures var (c, e) := (d.chan[x], Clocks(d, trace));
            ValueAt(e.mem, TargetOf(c, k), Step(c.ctrl)) == Element(d.mem, c, SourceOf(c, k))
  {
    CounterCounts(d, trace, x, live);
    PacedRemaining(d, trace, x, live);
    hide *;
    MovedIs(d, trace, x);
    RunCopies(d, trace, x, k);
  }

  lemma MovedIs(d: Dma, trace: seq<Answers>, x: nat)
    requires d.Valid() && x < CHANNELS
    ensures MovedBy(d, trace, x) == d.chan[x].remaining - Clocks(d, trace).chan[x].remaining
  {
  }

  /** The same for a channel whose DREQ has a source: one element a ready clock. */
  lemma DreqCopies(d: Dma, trace: seq<Answers>, x: nat, k: nat, live: set<nat>)
    requires d.Valid() && x < CHANNELS && d.chan[x].ctrl.ringSize <= 15 && Started(d, x, live)
        && d.chan[x].ctrl.treqSel < DREQS
    requires (forall t :: 0 <= t < |trace| ==> trace[t][x] != NoSource) && Unharmed(d, trace, x)
    requires var n := Least(d.chan[x].remaining, ReadyClocks(trace, x));
             k < n && Kept(d.chan[x], n, k) && Unspoilt(d.chan[x], k)
    ensures var (c, e) := (d.chan[x], Clocks(d, trace));
            ValueAt(e.mem, TargetOf(c, k), Step(c.ctrl)) == Element(d.mem, c, SourceOf(c, k))
  {
    CounterCounts(d, trace, x, live);
    DreqRate(d, trace, x, live);
    StandsRemaining(Clocks(d, trace).chan[x], d.chan[x], ReadyClocks(trace, x), d.chan[x].paceAccum);
    hide *;
    MovedIs(d, trace, x);
    LeastIs(d.chan[x].remaining, ReadyClocks(trace, x));
    RunCopies(d, trace, x, k);
  }

  lemma StandsRemaining(c: Channel, armed: Channel, moved: nat, pace: nat)
    requires Stands(c, armed, moved, pace)
    ensures armed.remaining - c.remaining == Least(armed.remaining, moved)
  {
  }

  lemma LeastIs(a: nat, b: nat)
    ensures Least(a, b) == if a < b then a else b
  {
  }
}
