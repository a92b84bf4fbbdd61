/** What a run of transfers copies, and interleaved channels. */
module DmaCopy {
  import opened Words
  import opened MemoryBus
  import opened DmaTransfer

  // ---------------------------------------------------- one channel's run

  /** Whether element `k` meets no bus error: a matter of its addresses alone. */
  predicate ElementOk(c: Channel, k: nat) {
    var n := Step(c.ctrl);
    ReadStatus(ReadAt(c, k), n) == Ok && WriteStatus(WriteAt(c, k), n) == Ok
  }

  predicate ErrorFree(c: Channel, n: nat) { forall k :: 0 <= k < n ==> ElementOk(c, k) }

  /** The memory after the first `n` elements. */
  function Copied(m: Mem, c: Channel, n: nat): (m': Mem)
    requires m.Valid() && ErrorFree(c, n)
    ensures m'.Valid()
    decreases n
  {
    if n == 0 then m
    else
      assert ElementOk(c, n - 1);
      Store(Copied(m, c, n - 1), WriteAt(c, n - 1), ElementAt(Copied(m, c, n - 1), c, n - 1), Step(c.ctrl))
  }

  /** The `k`-th element as channel `c` would write it now. */
  function ElementAt(m: Mem, c: Channel, k: nat): Word
    requires m.Valid()
  {
    Shaped(c.ctrl, Loaded(m, After(c, k)))
  }

  /** Transferring element by element is `Copied` on the memory and `After` on the channel. */
  lemma TransferCopies(m: Mem, c: Channel, n: nat)
    requires m.Valid() && ErrorFree(c, n + 1)
    ensures Transfer(Copied(m, c, n), After(c, n))
         == Moved(Copied(m, c, n + 1), After(c, n + 1), true, ElementAt(Copied(m, c, n), c, n))
  {
    hide Store, ReadStatus, WriteStatus, Loaded, Shaped, Advanced;
    assert ElementOk(c, n);
  }

  /** `n` transfers of one channel, one after another. */
  function Repeated(m: Mem, c: Channel, n: nat): (r: (Mem, Channel))
    requires m.Valid()
    ensures r.0.Valid()
    decreases n
  {
    if n == 0 then (m, c)
    else
      var (before, at) := Repeated(m, c, n - 1);
      (Transfer(before, at).mem, Transfer(before, at).channel)
  }

  /** `Copied` and `After` are what `n` transfers without a bus error leave. */
  lemma {:induction false} RepeatedCopies(m: Mem, c: Channel, n: nat)
    requires m.Valid() && ErrorFree(c, n)
    ensures Repeated(m, c, n) == (Copied(m, c, n), After(c, n))
    decreases n
  {
    hide Transfer, Store, ReadStatus, WriteStatus, ElementAt, Advanced;
    if n > 0 {
      RepeatedCopies(m, c, n - 1);
      TransferCopies(m, c, n - 1);
    }
  }

  predicate Apart(a: nat, b: nat, n: nat) { a + n <= b || b + n <= a }

  /** No later one of the `n` elements is written over element `k`. */
  predicate Survives(c: Channel, n: nat, k: nat) {
    forall j :: k < j < n ==> Apart(WriteAt(c, k), WriteAt(c, j), Step(c.ctrl))
  }

  /** No earlier element is written over what element `k` reads. */
  predicate Untouched(c: Channel, k: nat) {
    forall j :: 0 <= j < k ==> Apart(WriteAt(c, j), ReadAt(c, k), Step(c.ctrl))
  }

  predicate Written(c: Channel, n: nat, a: nat) {
    exists k :: 0 <= k < n && WriteAt(c, k) <= a < WriteAt(c, k) + Step(c.ctrl)
  }

  lemma {:induction false} OutsideUnchanged(m: Mem, c: Channel, n: nat, a: nat)
    requires m.Valid() && ErrorFree(c, n) && !Written(c, n, a)
    ensures ByteAt(Copied(m, c, n), a) == ByteAt(m, a)
    decreases n
  {
    hide Store, ByteAt, ElementAt, ReadAt, WriteAt;
    if n > 0 {
      assert ElementOk(c, n - 1);
      assert !Written(c, n - 1, a);
      OutsideUnchanged(m, c, n - 1, a);
      StoreByte(Copied(m, c, n - 1), WriteAt(c, n - 1), ElementAt(Copied(m, c, n - 1), c, n - 1), Step(c.ctrl), a);
    }
  }

  /** An element that nothing was written over is read as memory held it at the start. */
  lemma ReadsOriginal(m: Mem, c: Channel, n: nat)
    requires m.Valid() && ErrorFree(c, n) && Untouched(c, n)
    ensures ElementAt(Copied(m, c, n), c, n) == ElementAt(m, c, n)
  {
    hide ByteAt, Copied, WriteAt;
    var s := Step(c.ctrl);
    var m' := Copied(m, c, n);
    forall a | ReadAt(c, n) <= a < ReadAt(c, n) + s
      ensures ByteAt(m', a) == ByteAt(m, a)
    {
      forall k | 0 <= k < n
        ensures !(WriteAt(c, k) <= a < WriteAt(c, k) + s)
      {
        assert Apart(WriteAt(c, k), ReadAt(c, n), s);
      }
      OutsideUnchanged(m, c, n, a);
    }
    AgreeValue(m', m, ReadAt(c, n), s);
  }

  lemma ShapedFits(m: Mem, c: Channel)
    requires m.Valid()
    ensures Shaped(c.ctrl, Loaded(m, c)) < Power256(Step(c.ctrl))
  {
    PowersOf256();
    ValueBound(m, c.readAddr, Step(c.ctrl));
  }

  /** The last of the elements written at an address survives: accesses are
      aligned, so two elements coincide or lie apart. */
  lemma {:induction false} SomeSurvives(c: Channel, n: nat, a: nat) returns (k: nat)
    requires ErrorFree(c, n) && Written(c, n, a)
    ensures k < n && Survives(c, n, k) && WriteAt(c, k) <= a < WriteAt(c, k) + Step(c.ctrl)
    decreases n
  {
    hide ReadAt, WriteAt;
    var s := Step(c.ctrl);
    assert ElementOk(c, n - 1);
    if WriteAt(c, n - 1) <= a < WriteAt(c, n - 1) + s {
      k := n - 1;
    } else {
      k := SomeSurvives(c, n - 1, a);
      assert ElementOk(c, k);
      AlignedApart(WriteAt(c, k), WriteAt(c, n - 1), s, a);
    }
  }

  lemma AlignedApart(p: nat, q: nat, s: nat, a: nat)
    requires s in {1, 2, 4} && Aligned(p, s) && Aligned(q, s) && p <= a < p + s && !(q <= a < q + s)
    ensures Apart(p, q, s)
  {
  }

  lemma {:induction false} SurvivorStays(m: Mem, c: Channel, n: nat, k: nat)
    requires m.Valid() && ErrorFree(c, n) && k < n && Survives(c, n, k)
    ensures ValueAt(Copied(m, c, n), WriteAt(c, k), Step(c.ctrl)) == ElementAt(Copied(m, c, k), c, k)
    decreases n
  {
    hide Store, ByteAt, ElementAt, ReadAt, WriteAt, ValueAt;
    var s := Step(c.ctrl);
    var before := Copied(m, c, n - 1);
    var (at, v) := (WriteAt(c, n - 1), ElementAt(before, c, n - 1));
    assert ElementOk(c, n - 1);
    ElementFits(before, c, n - 1);
    if k == n - 1 {
      ReadBack(before, at, v, s);
    } else {
      SurvivorStays(m, c, n - 1, k);
      assert Apart(WriteAt(c, k), at, s);
      StoreElsewhere(before, at, v, s, WriteAt(c, k), s);
      AgreeValue(before, Copied(m, c, n), WriteAt(c, k), s);
    }
  }

  /** Copy meaning, for every error-free run, with rings, fixed addresses and
      overlaps: an element that no later one is written over lies at its generated
      address as its transfer read it, byte-swapped when BSWAP is set; it was read
      as memory held it at the start unless an earlier element was written over it;
      at every address written, one such element is the last writer; and every
      other byte is as it was. */
  lemma CopyMeaning(m: Mem, c: Channel, n: nat)
    requires m.Valid() && ErrorFree(c, n)
    ensures forall k :: 0 <= k < n && Survives(c, n, k)
              ==> ValueAt(Copied(m, c, n), WriteAt(c, k), Step(c.ctrl)) == ElementAt(Copied(m, c, k), c, k)
    ensures forall k :: 0 <= k < n && Untouched(c, k) ==> ElementAt(Copied(m, c, k), c, k) == ElementAt(m, c, k)
    ensures forall a: nat :: Written(c, n, a)
              ==> exists k :: 0 <= k < n && Survives(c, n, k) && WriteAt(c, k) <= a < WriteAt(c, k) + Step(c.ctrl)
    ensures forall a: nat :: !Written(c, n, a) ==> ByteAt(Copied(m, c, n), a) == ByteAt(m, a)
  {
    hide Store, ByteAt, ElementAt, ElementOk, ReadAt, WriteAt, ValueAt, Written, Survives, Untouched, Copied;
    forall k | 0 <= k < n && Survives(c, n, k)
      ensures ValueAt(Copied(m, c, n), WriteAt(c, k), Step(c.ctrl)) == ElementAt(Copied(m, c, k), c, k)
    {
      SurvivorStays(m, c, n, k);
    }
    forall k | 0 <= k < n && Untouched(c, k)
      ensures ElementAt(Copied(m, c, k), c, k) == ElementAt(m, c, k)
    {
      ReadsOriginal(m, c, k);
    }
    forall a: nat | Written(c, n, a)
      ensures exists k :: 0 <= k < n && Survives(c, n, k) && WriteAt(c, k) <= a < WriteAt(c, k) + Step(c.ctrl)
    {
      var k := SomeSurvives(c, n, a);
    }
    forall a: nat | !Written(c, n, a)
      ensures ByteAt(Copied(m, c, n), a) == ByteAt(m, a)
    {
      OutsideUnchanged(m, c, n, a);
    }
  }

  lemma ElementFits(m: Mem, c: Channel, k: nat)
    requires m.Valid()
    ensures ElementAt(m, c, k) < Power256(Step(c.ctrl))
  {
    ShapedFits(m, After(c, k));
  }

  // ------------------------------------------------------ interleaved channels

  /** The bytes a channel's first `n` elements read, and write. */
  predicate Reads(c: Channel, n: nat, a: nat) {
    exists k :: 0 <= k < n && ReadAt(c, k) <= a < ReadAt(c, k) + Step(c.ctrl)
  }

  /** Nothing one channel writes is read or written by another. */
  ghost predicate DisjointWindows(cs: seq<Channel>, counts: seq<nat>)
    requires |cs| == |counts|
  {
    forall i, j, a: nat :: 0 <= i < |cs| && 0 <= j < |cs| && i != j && Written(cs[i], counts[i], a)
      ==> !Written(cs[j], counts[j], a) && !Reads(cs[j], counts[j], a)
  }

  /** How often channel `i` has its turn. */
  function Turns(schedule: seq<nat>, i: nat): nat {
    if schedule == [] then 0
    else Turns(schedule[..|schedule| - 1], i) + if schedule[|schedule| - 1] == i then 1 else 0
  }

  datatype Shared = Shared(mem: Mem, channels: seq<Channel>)

  /** The channels of `cs` on one memory, one transfer at a time in the order of the schedule. */
  function Interleave(m: Mem, cs: seq<Channel>, schedule: seq<nat>): (r: Shared)
    requires m.Valid() && forall k :: 0 <= k < |schedule| ==> schedule[k] < |cs|
    ensures r.mem.Valid() && |r.channels| == |cs|
    decreases |schedule|
  {
    if schedule == [] then Shared(m, cs)
    else
      var before := Interleave(m, cs, schedule[..|schedule| - 1]);
      var i := schedule[|schedule| - 1];
      var moved := Transfer(before.mem, before.channels[i]);
      Shared(moved.mem, before.channels[i := moved.channel])
  }

  /** Every transfer of the schedule succeeds. */
  predicate Succeeds(m: Mem, cs: seq<Channel>, schedule: seq<nat>)
    requires m.Valid() && forall k :: 0 <= k < |schedule| ==> schedule[k] < |cs|
    decreases |schedule|
  {
    schedule == [] ||
    var prefix := schedule[..|schedule| - 1];
    var before := Interleave(m, cs, prefix);
    Succeeds(m, cs, prefix) && Transfer(before.mem, before.channels[schedule[|schedule| - 1]]).ok
  }

  /** How often each channel has its turn. */
  function Counts(schedule: seq<nat>, n: nat): (counts: seq<nat>)
    ensures |counts| == n
  {
    seq<nat>(n, i requires 0 <= i < n => Turns(schedule, i))
  }

  /** A schedule succeeds exactly if no channel's turns reach a bus error: the
      transfers of the others do not matter. */
  lemma {:induction false} SucceedsIff(m: Mem, cs: seq<Channel>, schedule: seq<nat>)
    requires m.Valid() && forall k :: 0 <= k < |schedule| ==> schedule[k] < |cs|
    ensures Succeeds(m, cs, schedule) <==> forall i :: 0 <= i < |cs| ==> ErrorFree(cs[i], Turns(schedule, i))
    ensures Succeeds(m, cs, schedule)
        ==> forall i :: 0 <= i < |cs| ==> Interleave(m, cs, schedule).channels[i] == After(cs[i], Turns(schedule, i))
    decreases |schedule|
  {
    hide Store, ReadStatus, WriteStatus, Loaded, Shaped, Advanced, ElementOk;
    if schedule != [] {
      var (prefix, i) := (schedule[..|schedule| - 1], schedule[|schedule| - 1]);
      SucceedsIff(m, cs, prefix);
      var before := Interleave(m, cs, prefix);
      var (c, k) := (cs[i], Turns(prefix, i));
      if Succeeds(m, cs, prefix) {
        TransferIsOk(before.mem, c, k);
        OneElementMore(c, k);
      }
      hide Transfer;
      forall j | 0 <= j < |cs| && j != i
        ensures Turns(schedule, j) == Turns(prefix, j)
      {
      }
    }
  }

  lemma OneElementMore(c: Channel, k: nat)
    ensures ErrorFree(c, k + 1) <==> ErrorFree(c, k) && ElementOk(c, k)
  {
  }

  lemma TransferIsOk(m: Mem, c: Channel, k: nat)
    requires m.Valid()
    ensures Transfer(m, After(c, k)).ok <==> ElementOk(c, k)
    ensures ElementOk(c, k) ==> Transfer(m, After(c, k)).channel == After(c, k + 1)
  {
    hide Store, ReadStatus, WriteStatus, Loaded, Shaped, Advanced;
  }

  lemma SucceedsStep(m: Mem, cs: seq<Channel>, s: seq<nat>, i: nat)
    requires m.Valid() && (forall k :: 0 <= k < |s| ==> s[k] < |cs|) && i < |cs|
    ensures var r := Interleave(m, cs, s);
            Succeeds(m, cs, s + [i]) <==> Succeeds(m, cs, s) && Transfer(r.mem, r.channels[i]).ok
  {
    hide Transfer, Interleave;
    assert (s + [i])[..|s|] == s;
  }

  lemma {:induction false} SucceedsAppend(m: Mem, cs: seq<Channel>, s: seq<nat>, t: seq<nat>)
    requires m.Valid() && (forall k :: 0 <= k < |s| ==> s[k] < |cs|) && (forall k :: 0 <= k < |t| ==> t[k] < |cs|)
    requires Succeeds(m, cs, s)
    requires var r := Interleave(m, cs, s); Succeeds(r.mem, r.channels, t)
    ensures Succeeds(m, cs, s + t)
    decreases |t|
  {
    hide Transfer, Interleave, Succeeds;
    if t == [] {
      assert s + t == s;
    } else {
      var (p, i) := (t[..|t| - 1], t[|t| - 1]);
      var r := Interleave(m, cs, s);
      assert p + [i] == t && s + p + [i] == s + t;
      SucceedsStep(r.mem, r.channels, p, i);
      SucceedsAppend(m, cs, s, p);
      InterleaveAppend(m, cs, s, p);
      SucceedsStep(m, cs, s + p, i);
    }
  }

  lemma {:induction false} InterleaveAppend(m: Mem, cs: seq<Channel>, s: seq<nat>, t: seq<nat>)
    requires m.Valid() && (forall k :: 0 <= k < |s| ==> s[k] < |cs|) && (forall k :: 0 <= k < |t| ==> t[k] < |cs|)
    ensures var r := Interleave(m, cs, s);
            Interleave(m, cs, s + t) == Interleave(r.mem, r.channels, t)
    decreases |t|
  {
    if t == [] {
      assert s + t == s;
    } else {
      hide Transfer;
      var p := t[..|t| - 1];
      InterleaveAppend(m, cs, s, p);
      assert (s + t)[..|s + t| - 1] == s + p;
    }
  }

  predicate Scheduled(cs: seq<Channel>, counts: seq<nat>, schedule: seq<nat>) {
    && |counts| == |cs|
    && (forall k :: 0 <= k < |schedule| ==> schedule[k] < |cs|)
    && (forall i :: 0 <= i < |cs| ==> Turns(schedule, i) <= counts[i] && ErrorFree(cs[i], counts[i]))
  }

  lemma Fewer(c: Channel, n: nat, k: nat)
    requires ErrorFree(c, n) && k <= n
    ensures ErrorFree(c, k)
  {
  }

  /** The memory after channel `i` alone has had its turns. */
  function Alone(m: Mem, cs: seq<Channel>, counts: seq<nat>, schedule: seq<nat>, i: nat): (r: Mem)
    requires m.Valid() && i < |cs| && Scheduled(cs, counts, schedule)
    ensures r.Valid()
  {
    Fewer(cs[i], counts[i], Turns(schedule, i));
    Copied(m, cs[i], Turns(schedule, i))
  }

  /** The shared memory holds what each channel alone would have made of its
      own bytes, and the channels stand where they would alone. */
  ghost predicate AsAlone(m: Mem, cs: seq<Channel>, counts: seq<nat>, schedule: seq<nat>, r: Shared)
    requires m.Valid() && r.mem.Valid() && |r.channels| == |cs|
    requires Scheduled(cs, counts, schedule)
  {
    && (forall i :: 0 <= i < |cs| ==> r.channels[i] == After(cs[i], Turns(schedule, i)))
    && (forall i, a: nat :: 0 <= i < |cs| && (Written(cs[i], counts[i], a) || Reads(cs[i], counts[i], a)) ==>
          ByteAt(r.mem, a) == ByteAt(Alone(m, cs, counts, schedule, i), a))
    && (forall a: nat :: (forall i :: 0 <= i < |cs| ==> !Written(cs[i], counts[i], a)) ==>
          ByteAt(r.mem, a) == ByteAt(m, a))
  }

  /** The transfer of an interleaved channel, on a memory that holds what it reads. */
  lemma SameTransfer(shared: Mem, alone: Mem, c: Channel, k: nat)
    requires shared.Valid() && alone.Valid() && ElementOk(c, k)
    requires forall a: nat :: ReadAt(c, k) <= a < ReadAt(c, k) + Step(c.ctrl) ==> ByteAt(shared, a) == ByteAt(alone, a)
    ensures Transfer(shared, After(c, k))
         == Moved(Store(shared, WriteAt(c, k), ElementAt(alone, c, k), Step(c.ctrl)),
                  After(c, k + 1), true, ElementAt(alone, c, k))
  {
    hide Store, ReadStatus, WriteStatus, Shaped, Advanced, ByteAt;
    AgreeValue(shared, alone, ReadAt(c, k), Step(c.ctrl));
  }

  /** One more turn, seen at one address. */
  lemma TurnAt(shared: Mem, alone: Mem, c: Channel, k: nat, v: Word, a: nat)
    requires shared.Valid() && alone.Valid() && ElementOk(c, k)
    ensures ByteAt(shared, a) == ByteAt(alone, a) || WriteAt(c, k) <= a < WriteAt(c, k) + Step(c.ctrl)
        ==> (ByteAt(Store(shared, WriteAt(c, k), v, Step(c.ctrl)), a)
             == ByteAt(Store(alone, WriteAt(c, k), v, Step(c.ctrl)), a))
    ensures !(WriteAt(c, k) <= a < WriteAt(c, k) + Step(c.ctrl))
        ==> ByteAt(Store(shared, WriteAt(c, k), v, Step(c.ctrl)), a) == ByteAt(shared, a)
  {
    hide Store, ByteAt;
    StoreByte(shared, WriteAt(c, k), v, Step(c.ctrl), a);
    StoreByte(alone, WriteAt(c, k), v, Step(c.ctrl), a);
  }

  lemma ScheduledPrefix(cs: seq<Channel>, counts: seq<nat>, schedule: seq<nat>)
    requires Scheduled(cs, counts, schedule) && schedule != []
    ensures Scheduled(cs, counts, schedule[..|schedule| - 1])
  {
    hide ErrorFree;
    var prefix := schedule[..|schedule| - 1];
    forall k | 0 <= k < |prefix|
      ensures prefix[k] < |cs|
    {
      assert prefix[k] == schedule[k];
    }
  }

  lemma ReadsElement(c: Channel, n: nat, k: nat, a: nat)
    requires k < n && ReadAt(c, k) <= a < ReadAt(c, k) + Step(c.ctrl)
    ensures Reads(c, n, a)
  {
  }

  lemma WritesElement(c: Channel, n: nat, k: nat, a: nat)
    requires k < n && WriteAt(c, k) <= a < WriteAt(c, k) + Step(c.ctrl)
    ensures Written(c, n, a)
  {
  }

  /** Before the first turn. */
  lemma NothingDone(m: Mem, cs: seq<Channel>, counts: seq<nat>)
    requires m.Valid() && Scheduled(cs, counts, [])
    ensures AsAlone(m, cs, counts, [], Shared(m, cs))
  {
    hide ByteAt, Written, Reads;
  }

  /** A turn of channel `i` keeps every channel's bytes as they would be alone. */
  lemma TurnKeeps(m: Mem, cs: seq<Channel>, counts: seq<nat>, schedule: seq<nat>, i: nat, before: Shared)
    requires m.Valid() && before.mem.Valid() && |before.channels| == |cs| && i < |cs|
    requires Scheduled(cs, counts, schedule) && Scheduled(cs, counts, schedule + [i]) && DisjointWindows(cs, counts)
    requires AsAlone(m, cs, counts, schedule, before)
    ensures var moved := Transfer(before.mem, before.channels[i]);
            AsAlone(m, cs, counts, schedule + [i], Shared(moved.mem, before.channels[i := moved.channel]))
  {
    hide Store, ByteAt, ElementAt, ReadAt, WriteAt, Transfer, ReadStatus, WriteStatus, Written, Reads, Copied, After,
         Turns;
    var (c, k) := (cs[i], Turns(schedule, i));
    TurnCounts(schedule, i);
    assert k < counts[i] && ElementOk(c, k);
    Fewer(c, counts[i], k + 1);
    CopiedStep(m, c, k);
    var alone := Alone(m, cs, counts, schedule, i);
    forall a: nat | ReadAt(c, k) <= a < ReadAt(c, k) + Step(c.ctrl)
      ensures ByteAt(before.mem, a) == ByteAt(alone, a)
    {
      ReadsElement(c, counts[i], k, a);
    }
    SameTransfer(before.mem, alone, c, k);
    var v := ElementAt(alone, c, k);
    var after := Store(before.mem, WriteAt(c, k), v, Step(c.ctrl));
    forall a: nat | WriteAt(c, k) <= a < WriteAt(c, k) + Step(c.ctrl)
      ensures Written(c, counts[i], a)
    {
      WritesElement(c, counts[i], k, a);
    }
    forall j, a: nat | 0 <= j < |cs| && (Written(cs[j], counts[j], a) || Reads(cs[j], counts[j], a))
      ensures ByteAt(after, a) == ByteAt(Alone(m, cs, counts, schedule + [i], j), a)
    {
      TurnAt(before.mem, alone, c, k, v, a);
    }
    forall a: nat | forall j :: 0 <= j < |cs| ==> !Written(cs[j], counts[j], a)
      ensures ByteAt(after, a) == ByteAt(m, a)
    {
      TurnAt(before.mem, alone, c, k, v, a);
      assert !Written(cs[i], counts[i], a);
    }
  }

  lemma TurnCounts(schedule: seq<nat>, i: nat)
    ensures forall j :: Turns(schedule + [i], j) == Turns(schedule, j) + if j == i then 1 else 0
  {
    var longer := schedule + [i];
    assert longer[..|longer| - 1] == schedule;
  }

  lemma CopiedStep(m: Mem, c: Channel, k: nat)
    requires m.Valid() && ErrorFree(c, k + 1)
    ensures InSram(WriteAt(c, k), Step(c.ctrl))
    ensures Copied(m, c, k + 1) == Store(Copied(m, c, k), WriteAt(c, k), ElementAt(Copied(m, c, k), c, k), Step(c.ctrl))
  {
    hide Store, ElementAt, WriteAt, ReadAt;
    assert ElementOk(c, k);
  }

  /** Whatever the interleaving, every channel with a disjoint window makes of
      its bytes, and of itself, what it would alone, and nothing else changes. */
  lemma {:induction false} InterleavingHarmless(m: Mem, cs: seq<Channel>, counts: seq<nat>, schedule: seq<nat>)
    requires m.Valid() && Scheduled(cs, counts, schedule) && DisjointWindows(cs, counts)
    ensures AsAlone(m, cs, counts, schedule, Interleave(m, cs, schedule))
    decreases |schedule|
  {
    hide ByteAt, Transfer, DisjointWindows, AsAlone;
    if schedule == [] {
      NothingDone(m, cs, counts);
    } else {
      var prefix, i := schedule[..|schedule| - 1], schedule[|schedule| - 1];
      assert prefix + [i] == schedule;
      ScheduledPrefix(cs, counts, schedule);
      InterleavingHarmless(m, cs, counts, prefix);
      TurnKeeps(m, cs, counts, prefix, i, Interleave(m, cs, prefix));
    }
  }

  /** Two schedules with the same number of turns for every channel, one of
      which may run the channels one after another, end in the same bytes and
      the same channels. */
  lemma OrderDoesNotMatter(m: Mem, cs: seq<Channel>, counts: seq<nat>, s: seq<nat>, t: seq<nat>)
    requires m.Valid() && Scheduled(cs, counts, s) && Scheduled(cs, counts, t) && DisjointWindows(cs, counts)
    requires forall i :: 0 <= i < |cs| ==> Turns(s, i) == Turns(t, i)
    ensures Interleave(m, cs, s).channels == Interleave(m, cs, t).channels
    ensures forall a: nat :: ByteAt(Interleave(m, cs, s).mem, a) == ByteAt(Interleave(m, cs, t).mem, a)
  {
    hide ByteAt, Interleave, Written, Reads, Copied, DisjointWindows, After, Turns;
    var (r, q) := (Interleave(m, cs, s), Interleave(m, cs, t));
    InterleavingHarmless(m, cs, counts, s);
    InterleavingHarmless(m, cs, counts, t);
    forall a: nat
      ensures ByteAt(r.mem, a) == ByteAt(q.mem, a)
    {
      if exists i :: 0 <= i < |cs| && Written(cs[i], counts[i], a) {
        var i :| 0 <= i < |cs| && Written(cs[i], counts[i], a);
        assert Alone(m, cs, counts, s, i) == Alone(m, cs, counts, t, i);
      }
    }
  }

  // ------------------------------------------------------- one channel of many

  /** What the others write, channel `i` neither reads nor writes.  It may well
      write what they read. */
  ghost predicate Undisturbed(cs: seq<Channel>, counts: seq<nat>, i: nat)
    requires |cs| == |counts| && i < |cs|
  {
    forall j, a: nat :: 0 <= j < |cs| && j != i && Written(cs[j], counts[j], a)
      ==> !Written(cs[i], counts[i], a) && !Reads(cs[i], counts[i], a)
  }

  predicate InWindow(c: Channel, n: nat, a: nat) { Written(c, n, a) || Reads(c, n, a) }

  lemma OwnTurn(shared: Mem, alone: Mem, c: Channel, n: nat, k: nat, a: nat)
    requires shared.Valid() && alone.Valid() && k < n && ElementOk(c, k)
    requires forall b: nat :: InWindow(c, n, b) ==> ByteAt(shared, b) == ByteAt(alone, b)
    requires InWindow(c, n, a)
    ensures InSram(WriteAt(c, k), Step(c.ctrl))
    ensures ByteAt(Transfer(shared, After(c, k)).mem, a)
         == ByteAt(Store(alone, WriteAt(c, k), ElementAt(alone, c, k), Step(c.ctrl)), a)
  {
    hide Store, ByteAt, ElementAt, Transfer, Written, Reads, WriteAt, ReadAt;
    forall b: nat | ReadAt(c, k) <= b < ReadAt(c, k) + Step(c.ctrl)
      ensures ByteAt(shared, b) == ByteAt(alone, b)
    {
      ReadsElement(c, n, k, b);
    }
    SameTransfer(shared, alone, c, k);
    TurnAt(shared, alone, c, k, ElementAt(alone, c, k), a);
  }

  lemma OthersTurn(shared: Mem, c: Channel, n: nat, k: nat, a: nat)
    requires shared.Valid() && k < n && ElementOk(c, k) && !Written(c, n, a)
    ensures ByteAt(Transfer(shared, After(c, k)).mem, a) == ByteAt(shared, a)
  {
    hide Store, ByteAt, ElementAt, Transfer, Written, WriteAt, ReadAt;
    SameTransfer(shared, shared, c, k);
    TurnAt(shared, shared, c, k, ElementAt(shared, c, k), a);
    if WriteAt(c, k) <= a < WriteAt(c, k) + Step(c.ctrl) {
      WritesElement(c, n, k, a);
    }
  }

  /** A channel whose windows no other writes makes of them what it would alone. */
  lemma {:induction false} OneAsAlone(m: Mem, cs: seq<Channel>, counts: seq<nat>, schedule: seq<nat>, i: nat, a: nat)
    requires m.Valid() && i < |cs| && Scheduled(cs, counts, schedule) && Undisturbed(cs, counts, i)
    requires InWindow(cs[i], counts[i], a)
    ensures ByteAt(Interleave(m, cs, schedule).mem, a) == ByteAt(Alone(m, cs, counts, schedule, i), a)
    decreases |schedule|
  {
    hide ByteAt, Transfer, Copied, InWindow, After, ElementOk, Store;
    if schedule == [] {
      NothingCopied(m, cs[i]);
    } else {
      var prefix, j := schedule[..|schedule| - 1], schedule[|schedule| - 1];
      assert prefix + [j] == schedule;
      ScheduledPrefix(cs, counts, schedule);
      TurnsAreAfter(m, cs, counts, prefix, j);
      var shared := Interleave(m, cs, prefix).mem;
      var k := Turns(prefix, j);
      assert ElementOk(cs[j], k) by { TurnIsOk(cs, counts, prefix, j); }
      forall b: nat | InWindow(cs[i], counts[i], b)
        ensures ByteAt(shared, b) == ByteAt(Alone(m, cs, counts, prefix, i), b)
      {
        OneAsAlone(m, cs, counts, prefix, i, b);
      }
      if j == i {
        Fewer(cs[i], counts[i], k + 1);
        CopiedStep(m, cs[i], k);
        OwnTurn(shared, Alone(m, cs, counts, prefix, i), cs[i], counts[i], k, a);
      } else {
        NotWritten(cs, counts, i, j, a);
        OthersTurn(shared, cs[j], counts[j], k, a);
      }
    }
  }

  lemma NothingCopied(m: Mem, c: Channel)
    requires m.Valid()
    ensures Copied(m, c, 0) == m
  {
  }

  lemma NotWritten(cs: seq<Channel>, counts: seq<nat>, i: nat, j: nat, a: nat)
    requires |cs| == |counts| && i < |cs| && j < |cs| && i != j && Undisturbed(cs, counts, i)
    requires InWindow(cs[i], counts[i], a)
    ensures !Written(cs[j], counts[j], a)
  {
    hide Written, Reads;
  }

  lemma TurnIsOk(cs: seq<Channel>, counts: seq<nat>, prefix: seq<nat>, j: nat)
    requires Scheduled(cs, counts, prefix + [j]) && j < |cs|
    ensures Turns(prefix, j) < counts[j] && ElementOk(cs[j], Turns(prefix, j))
  {
    TurnCounts(prefix, j);
    hide ElementOk, Turns;
  }

  /** In a schedule without bus errors each channel stands where its turns have taken it. */
  lemma TurnsAreAfter(m: Mem, cs: seq<Channel>, counts: seq<nat>, schedule: seq<nat>, j: nat)
    requires m.Valid() && j < |cs| && Scheduled(cs, counts, schedule)
    ensures Interleave(m, cs, schedule).channels[j] == After(cs[j], Turns(schedule, j))
  {
    hide ElementOk, Turns, Interleave, Succeeds, After;
    SucceedsIff(m, cs, schedule);
    forall i | 0 <= i < |cs|
      ensures ErrorFree(cs[i], Turns(schedule, i))
    {
      Fewer(cs[i], counts[i], Turns(schedule, i));
    }
  }

  /** Bytes that no turn writes stay, whatever the windows. */
  lemma {:induction false} InterleaveOutside(m: Mem, cs: seq<Channel>, counts: seq<nat>, schedule: seq<nat>, a: nat)
    requires m.Valid() && Scheduled(cs, counts, schedule)
    requires forall i :: 0 <= i < |cs| ==> !Written(cs[i], counts[i], a)
    ensures ByteAt(Interleave(m, cs, schedule).mem, a) == ByteAt(m, a)
    decreases |schedule|
  {
    hide ByteAt, Transfer, Written, After, ElementOk;
    if schedule != [] {
      var prefix, j := schedule[..|schedule| - 1], schedule[|schedule| - 1];
      assert prefix + [j] == schedule;
      ScheduledPrefix(cs, counts, schedule);
      InterleaveOutside(m, cs, counts, prefix, a);
      TurnsAreAfter(m, cs, counts, prefix, j);
      TurnIsOk(cs, counts, prefix, j);
      OthersTurn(Interleave(m, cs, prefix).mem, cs[j], counts[j], Turns(prefix, j), a);
    }
  }
}
