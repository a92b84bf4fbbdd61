/** Whole runs of the DMA controller: chaining ends, every run is an
    interleaving of single transfers, and a channel keeps its rate. */
module DmaRuns {
  import opened Words
  import opened WordLemmas
  import opened MemoryBus
  import opened DmaTransfer
  import opened DmaCopy
  import opened DmaModel

  // ------------------------------------------------------- chaining is a walk

  lemma {:induction false} WalkIgnoresDepth(d: Dma, k: nat, ch: nat, fuel: nat)
    requires d.Valid()
    ensures Walk(d.(depth := k), ch, fuel) == Walk(d, ch, fuel).(depth := k)
    decreases fuel
  {
    if ch < CHANNELS && d.chan[ch].ctrl.en && fuel > 0 && d.chan[ch].transCount == 0 {
      var done := Done(Arm(d, ch), ch, false);
      assert Done(Arm(d.(depth := k), ch), ch, false) == done.(depth := k);
      var next := done.chan[ch].ctrl.chainTo;
      if next != ch {
        WalkIgnoresDepth(done, k, next, fuel - 1);
      }
    }
  }

  /** For every CHAIN_TO graph, cycles and empty transfers included, the mutual
      recursion of trigger and complete is a walk of at most `13 - depth`
      completions, and the depth counter comes back to its entry value. */
  lemma {:induction false} TriggerIsWalk(d: Dma, ch: nat)
    requires d.Valid() && d.depth <= CHANNELS + 1
    ensures Trigger(d, ch) == Walk(d, ch, CHANNELS + 1 - d.depth)
    ensures Trigger(d, ch).depth == d.depth
    decreases CHANNELS + 1 - d.depth
  {
    if ch < CHANNELS && d.chan[ch].ctrl.en && d.depth <= CHANNELS && d.chan[ch].transCount == 0 {
      hide Arm, Done;
      var (armed, k) := (Arm(d, ch), d.depth + 1);
      var done := Done(armed, ch, false);
      DoneDeeper(armed, ch, k);
      var next := done.chan[ch].ctrl.chainTo;
      if next == ch {
        assert Trigger(d, ch) == done.(depth := k).(depth := d.depth);
      } else if next >= CHANNELS {
        assert Trigger(d, ch) == done.(depth := k).(depth := d.depth);
        assert Walk(done, next, CHANNELS - d.depth) == done;
      } else {
        TriggerIsWalk(done.(depth := k), next);
        WalkIgnoresDepth(done, k, next, CHANNELS - d.depth);
        DepthKept(d, ch, CHANNELS + 1 - d.depth);
      }
    }
  }

  lemma DoneDeeper(d: Dma, ch: nat, k: nat)
    requires d.Valid() && ch < CHANNELS
    ensures Done(d.(depth := k), ch, false) == Done(d, ch, false).(depth := k)
  {
  }

  lemma {:induction false} DepthKept(d: Dma, ch: nat, fuel: nat)
    requires d.Valid()
    ensures Walk(d, ch, fuel).depth == d.depth
    decreases fuel
  {
    hide Arm, Done;
    if ch < CHANNELS && d.chan[ch].ctrl.en && fuel > 0 {
      var done := Done(Arm(d, ch), ch, false);
      DepthKept(done, done.chan[ch].ctrl.chainTo, fuel - 1);
    }
  }

  // ------------------------------------------------------------ what stays put

  function Config(ctrl: Ctrl): Ctrl { ctrl.(busy := false, writeError := false, readError := false) }

  /** A channel without its counters and status flags: addresses and configuration. */
  function Stripped(c: Channel): Channel {
    c.(transCount := 0, remaining := 0, paceAccum := 0, ctrl := Config(c.ctrl))
  }

  function AllStripped(cs: seq<Channel>): (r: seq<Channel>)
    ensures |r| == |cs|
  {
    seq(|cs|, i requires 0 <= i < |cs| => Stripped(cs[i]))
  }

  /** Triggering and completing touch counters and flags only. */
  predicate SameBut(d: Dma, e: Dma)
    requires d.Valid() && e.Valid()
  {
    && d.mem == e.mem && d.log == e.log && d.sniff == e.sniff && d.timers == e.timers && d.divisor == e.divisor
    && (forall i :: 0 <= i < CHANNELS ==> Stripped(d.chan[i]) == Stripped(e.chan[i]))
  }

  lemma ArmKeeps(d: Dma, ch: nat)
    requires d.Valid() && ch < CHANNELS
    ensures SameBut(d, Arm(d, ch))
  {
  }

  lemma DoneKeeps(d: Dma, ch: nat, error: bool)
    requires d.Valid() && ch < CHANNELS
    ensures SameBut(d, Done(d, ch, error))
  {
  }

  lemma {:induction false} TriggerKeeps(d: Dma, ch: nat)
    requires d.Valid()
    ensures SameBut(d, Trigger(d, ch))
    decreases CHANNELS + 1 - d.depth, 1
  {
    if ch < CHANNELS && d.chan[ch].ctrl.en {
      hide Arm, Done, Stripped;
      ArmKeeps(d, ch);
      if Arm(d, ch).chan[ch].remaining == 0 && d.depth <= CHANNELS {
        CompleteKeeps(Arm(d, ch).(depth := d.depth + 1), ch, false);
      }
    }
  }

  lemma {:induction false} CompleteKeeps(d: Dma, ch: nat, error: bool)
    requires d.Valid() && ch < CHANNELS
    ensures SameBut(d, Complete(d, ch, error))
    decreases CHANNELS + 1 - d.depth, 2
  {
    hide Arm, Done, Stripped;
    DoneKeeps(d, ch, error);
    var done := Done(d, ch, error);
    var next := done.chan[ch].ctrl.chainTo;
    if !error && next != ch && next < CHANNELS {
      TriggerKeeps(done, next);
    }
  }

  // ----------------------------------------------------- runs are interleavings

  /** `e` comes from `d` by the transfers its log has more, one at a time on the shared memory. */
  predicate Interleaves(d: Dma, e: Dma)
    requires d.Valid() && e.Valid()
  {
    && |d.log| <= |e.log| && e.log[..|d.log|] == d.log
    && (forall k :: |d.log| <= k < |e.log| ==> e.log[k] < CHANNELS)
    && e.timers == d.timers && e.divisor == d.divisor
    && Interleave(d.mem, AllStripped(d.chan), e.log[|d.log|..]) == Shared(e.mem, AllStripped(e.chan))
    && Succeeds(d.mem, AllStripped(d.chan), e.log[|d.log|..])
  }

  lemma SameInterleaves(d: Dma, e: Dma)
    requires d.Valid() && e.Valid() && SameBut(d, e)
    ensures Interleaves(d, e)
  {
    assert e.log[|d.log|..] == [];
    assert AllStripped(d.chan) == AllStripped(e.chan);
  }

  lemma InterleavesTrans(d: Dma, e: Dma, f: Dma)
    requires d.Valid() && e.Valid() && f.Valid() && Interleaves(d, e) && Interleaves(e, f)
    ensures Interleaves(d, f)
  {
    hide Interleave, Succeeds, AllStripped;
    var (s, t) := (e.log[|d.log|..], f.log[|e.log|..]);
    InterleaveAppend(d.mem, AllStripped(d.chan), s, t);
    SucceedsAppend(d.mem, AllStripped(d.chan), s, t);
    assert f.log == e.log + t by {
      assert f.log == f.log[..|e.log|] + t;
    }
    assert f.log[|d.log|..] == s + t;
    assert f.log[..|d.log|] == e.log[..|d.log|];
    forall k | |d.log| <= k < |f.log|
      ensures f.log[k] < CHANNELS
    {
      if k < |e.log| {
        assert f.log[k] == e.log[k];
      }
    }
  }

  lemma StrippedReads(m: Mem, c: Channel)
    requires m.Valid()
    ensures Step(Stripped(c).ctrl) == Step(c.ctrl) && Loaded(m, Stripped(c)) == Loaded(m, c)
    ensures Shaped(Stripped(c).ctrl, Loaded(m, c)) == Shaped(c.ctrl, Loaded(m, c))
    ensures Stripped(c).readAddr == c.readAddr && Stripped(c).writeAddr == c.writeAddr
  {
    hide ValueAt, ByteSwap;
  }

  lemma StrippedAdvances(c: Channel)
    ensures Stripped(Advanced(c)) == Advanced(Stripped(c))
    ensures Stripped(c.(ctrl := c.ctrl.(readError := true))) == Stripped(c)
    ensures Stripped(c.(ctrl := c.ctrl.(writeError := true))) == Stripped(c)
  {
    hide NextAddress;
  }

  /** Counters and flags do not matter to a transfer. */
  lemma TransferStripped(m: Mem, c: Channel)
    requires m.Valid()
    ensures Transfer(m, Stripped(c)).ok == Transfer(m, c).ok
    ensures Transfer(m, Stripped(c)).mem == Transfer(m, c).mem
    ensures Stripped(Transfer(m, c).channel)
         == if Transfer(m, c).ok then Transfer(m, Stripped(c)).channel else Stripped(c)
  {
    hide Store, ReadStatus, WriteStatus, Loaded, Shaped, Step, Stripped, Advanced;
    StrippedReads(m, c);
    StrippedAdvances(c);
  }

  lemma TransferOneInterleaves(d: Dma, ch: nat)
    requires d.Valid() && ch < CHANNELS
    ensures Interleaves(d, TransferOne(d, ch).0)
  {
    hide Transfer, Stripped, SniffFeed;
    var (e, ok) := TransferOne(d, ch);
    var (c, cs) := (d.chan[ch], AllStripped(d.chan));
    TransferStripped(d.mem, c);
    if ok {
      assert e.log[|d.log|..] == [ch] && e.log[..|d.log|] == d.log;
      assert [ch][..0] == [];
      assert Interleave(d.mem, cs, []) == Shared(d.mem, cs);
      var moved := Transfer(d.mem, cs[ch]);
      assert Interleave(d.mem, cs, [ch]) == Shared(moved.mem, cs[ch := moved.channel]);
      assert AllStripped(e.chan) == cs[ch := moved.channel];
      assert Succeeds(d.mem, cs, []) && Succeeds(d.mem, cs, [ch]);
    } else {
      assert e.mem == d.mem by { FailedTransfer(d.mem, c); }
      assert e.log[|d.log|..] == [];
      assert AllStripped(e.chan) == cs;
    }
  }

  lemma FailedTransfer(m: Mem, c: Channel)
    requires m.Valid() && !Transfer(m, c).ok
    ensures Transfer(m, c).mem == m
  {
    hide Store, ReadStatus, WriteStatus;
  }

  lemma MoveOneInterleaves(d: Dma, ch: nat)
    requires d.Valid() && ch < CHANNELS && d.chan[ch].remaining > 0
    ensures Interleaves(d, MoveOne(d, ch).0)
  {
    hide Interleaves, TransferOne, Complete;
    var (t, ok) := TransferOne(d, ch);
    TransferOneInterleaves(d, ch);
    if !ok {
      CompleteKeeps(t, ch, true);
      SameInterleaves(t, Complete(t, ch, true));
      InterleavesTrans(d, t, Complete(t, ch, true));
    } else {
      TransferKeepsCounters(d, ch);
      var left := t.(chan := t.chan[ch := t.chan[ch].(remaining := t.chan[ch].remaining - 1)]);
      SameInterleaves(t, left);
      InterleavesTrans(d, t, left);
      if left.chan[ch].remaining == 0 {
        CompleteKeeps(left, ch, false);
        SameInterleaves(left, Complete(left, ch, false));
        InterleavesTrans(d, left, Complete(left, ch, false));
      }
    }
  }

  lemma TransferKeepsCounters(d: Dma, ch: nat)
    requires d.Valid() && ch < CHANNELS
    ensures var t := TransferOne(d, ch).0;
            && t.chan[ch].remaining == d.chan[ch].remaining
            && (forall i :: 0 <= i < CHANNELS && i != ch ==> t.chan[i] == d.chan[i])
  {
    hide Store, ReadStatus, WriteStatus, Loaded, SniffFeed;
  }

  lemma {:induction false} BurstInterleaves(d: Dma, ch: nat, budget: nat)
    requires d.Valid() && ch < CHANNELS
    ensures Interleaves(d, Burst(d, ch, budget))
    decreases budget
  {
    hide Interleaves, MoveOne;
    if budget == 0 || d.chan[ch].remaining == 0 {
      SameInterleaves(d, d);
    } else {
      MoveOneInterleaves(d, ch);
      var (next, more) := MoveOne(d, ch);
      if more {
        BurstInterleaves(next, ch, budget - 1);
        InterleavesTrans(d, next, Burst(next, ch, budget - 1));
      }
    }
  }

  lemma ChannelInterleaves(d: Dma, ch: nat, ready: Ready)
    requires d.Valid() && ch < CHANNELS
    ensures Interleaves(d, ClockChannel(d, ch, ready))
  {
    hide Interleaves, MoveOne, Burst, Rate;
    var c := d.chan[ch];
    SameInterleaves(d, d);
    if c.ctrl.busy && c.remaining != 0 {
      if c.ctrl.treqSel < DREQS && ready.Source? {
        if ready.ready {
          MoveOneInterleaves(d, ch);
        }
      } else {
        var (num, den) := Rate(d, c.ctrl.treqSel);
        if num != 0 {
          DivMod(c.paceAccum + num, den);
          var paced := d.(chan := d.chan[ch := c.(paceAccum := (c.paceAccum + num) % den)]);
          SameInterleaves(d, paced);
          BurstInterleaves(paced, ch, (c.paceAccum + num) / den);
          InterleavesTrans(d, paced, Burst(paced, ch, (c.paceAccum + num) / den));
        }
      }
    }
  }

  lemma {:induction false} ClockInterleaves(d: Dma, answers: Answers, from: nat)
    requires d.Valid()
    ensures Interleaves(d, ClockFrom(d, answers, from))
    decreases CHANNELS - from
  {
    hide Interleaves, ClockChannel;
    if from >= CHANNELS {
      SameInterleaves(d, d);
    } else {
      ChannelInterleaves(d, from, answers[from]);
      var e := ClockChannel(d, from, answers[from]);
      ClockInterleaves(e, answers, from + 1);
      InterleavesTrans(d, e, ClockFrom(e, answers, from + 1));
    }
  }

  /** Every run of the controller, whatever the pacing, the bus errors and the
      chaining, is the interleaving of its logged transfers; so the laws of
      interleaved channels hold of it. */
  lemma {:induction false} RunsAreInterleavings(d: Dma, trace: seq<Answers>)
    requires d.Valid()
    ensures Interleaves(d, Clocks(d, trace))
    decreases |trace|
  {
    hide Interleaves, ClockFrom;
    if trace == [] {
      SameInterleaves(d, d);
    } else {
      var e := Clocks(d, trace[..|trace| - 1]);
      RunsAreInterleavings(d, trace[..|trace| - 1]);
      ClockInterleaves(e, trace[|trace| - 1], 0);
      InterleavesTrans(d, e, ClockFrom(e, trace[|trace| - 1], 0));
    }
  }

  /** The transfers a run has completed. */
  function NewLog(d: Dma, e: Dma): seq<nat> { if |d.log| <= |e.log| then e.log[|d.log|..] else [] }

  /** Every run is a schedule of its channels in which nothing fails. */
  lemma RunsAreScheduled(d: Dma, trace: seq<Answers>)
    requires d.Valid()
    ensures var (e, cs) := (Clocks(d, trace), AllStripped(d.chan));
            var log := NewLog(d, e);
            && Scheduled(cs, Counts(log, CHANNELS), log)
            && Interleave(d.mem, cs, log) == Shared(e.mem, AllStripped(e.chan))
  {
    hide Clocks, Interleave, Succeeds, ErrorFree, Turns;
    RunsAreInterleavings(d, trace);
    SucceedsIff(d.mem, AllStripped(d.chan), NewLog(d, Clocks(d, trace)));
  }

  /** Hence channels with disjoint windows end with the bytes and the addresses
      each would have reached alone, after any run of the controller. */
  lemma RunsCopyAsAlone(d: Dma, trace: seq<Answers>)
    requires d.Valid()
    requires DisjointWindows(AllStripped(d.chan), Counts(NewLog(d, Clocks(d, trace)), CHANNELS))
    ensures var (e, cs) := (Clocks(d, trace), AllStripped(d.chan));
            var log := NewLog(d, e);
            && Scheduled(cs, Counts(log, CHANNELS), log)
            && AsAlone(d.mem, cs, Counts(log, CHANNELS), log, Shared(e.mem, AllStripped(e.chan)))
  {
    hide AsAlone, DisjointWindows, Scheduled, Clocks, Interleave, Turns;
    RunsAreScheduled(d, trace);
    var (e, cs) := (Clocks(d, trace), AllStripped(d.chan));
    var log := NewLog(d, e);
    InterleavingHarmless(d.mem, cs, Counts(log, CHANNELS), log);
  }
}
