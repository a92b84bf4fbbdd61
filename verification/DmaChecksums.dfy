/** What the sniffer's checksums are. */
module DmaChecksums {
  // The CRC modes as the serial register of the textbooks, which takes one bit at a
  // time; the sum and exclusive-or modes and both byte swaps in bytes of memory.
  import opened Words
  import opened WordLemmas
  import opened Xors
  import opened MemoryBus
  import opened DmaTransfer
  import opened DmaCopy
  import opened DmaSniffer
  import opened DmaModel
  import opened DmaSniffRuns
  import opened DmaMeaning

  // ---------------------------------------------------------------- serial CRC

  /** The serial register: a bit that differs from the last one feeds the taps back. */
  function Shifted(s: Word, bit: bool, taps: Word): Word {
    if (s % 2 == 1) != bit then WordXor(s / 2, taps) else s / 2
  }

  function Serial(s: Word, bits: seq<bool>, taps: Word): Word
    decreases |bits|
  {
    if bits == [] then s else Shifted(Serial(s, bits[..|bits| - 1], taps), bits[|bits| - 1], taps)
  }

  /** Bits 0 to `n - 1` of a number, lowest first. */
  function BitsOf(v: nat, n: nat): (bits: seq<bool>)
    ensures |bits| == n
  {
    seq(n, i requires 0 <= i < n => v / Pow2(i) % 2 == 1)
  }

  /** A shift takes the low bit of a number that is folded in, and leaves the rest for later. */
  lemma OneShift(t: Word, rest: Word, taps: Word)
    requires t < WORD_SIZE && Xor(t, rest) < WORD_SIZE
    ensures Xor(Shifted(t, rest % 2 == 1, taps), rest / 2) == ReflectedShift(WordXor(t, rest), taps)
  {
    XorStep(t, rest);
    var h := Xor(t / 2, rest / 2);
    assert WordXor(t, rest) / 2 == h;
    if (t % 2 == 1) != (rest % 2 == 1) {
      hide Xor;
      XorAssoc(t / 2, taps, rest / 2);
      XorComm(taps, rest / 2);
      XorAssoc(t / 2, rest / 2, taps);
    }
  }

  lemma BitsMore(v: nat, k: nat)
    ensures v / Pow2(k) >= 0
    ensures BitsOf(v, k + 1)[..k] == BitsOf(v, k) && BitsOf(v, k + 1)[k] == (v / Pow2(k) % 2 == 1)
    ensures v / Pow2(k + 1) == v / Pow2(k) / 2
  {
    DivDiv(v, Pow2(k), 2);
  }

  /** Folding a byte in at once and shifting is taking its bits one by one. */
  lemma {:induction false} ShiftsAreSerial(s: Word, v: Word, taps: Word, k: nat)
    ensures v / Pow2(k) >= 0
    ensures ReflectedShifts(WordXor(s, v), taps, k) == Xor(Serial(s, BitsOf(v, k), taps), v / Pow2(k))
    decreases k
  {
    hide Xor, BitsOf, Shifted, ReflectedShift;
    if k == 0 {
      assert v / Pow2(0) == v;
    } else {
      ShiftsAreSerial(s, v, taps, k - 1);
      BitsMore(v, k - 1);
      DivLe(v, Pow2(k - 1));
      OneShift(Serial(s, BitsOf(v, k - 1), taps), v / Pow2(k - 1), taps);
    }
  }

  lemma {:induction false} SerialAppend(s: Word, a: seq<bool>, b: seq<bool>, taps: Word)
    ensures Serial(s, a + b, taps) == Serial(Serial(s, a, taps), b, taps)
    decreases |b|
  {
    hide Shifted;
    if b == [] {
      assert a + b == a;
    } else {
      var k := |b| - 1;
      assert (a + b)[..|a + b| - 1] == a + b[..k] && (a + b)[|a + b| - 1] == b[k];
      SerialAppend(s, a, b[..k], taps);
    }
  }

  /** The bits of a message, byte by byte, each lowest bit first. */
  function MessageBits(bytes: seq<Byte>): seq<bool> {
    if bytes == [] then [] else BitsOf(bytes[0], 8) + MessageBits(bytes[1..])
  }

  /** The taps of the two reflected modes. */
  function TapsOf(mode: nat): Word { if mode == 1 then POLY_32_REFLECTED else POLY_16_REFLECTED }

  /** Exponent e of a polynomial of degree n is the tap at bit n - 1 - e: the taps are those of
      x^32 + x^26 + x^23 + x^22 + x^16 + x^12 + x^11 + x^10 + x^8 + x^7 + x^5 + x^4 + x^2 + x + 1
      and of x^16 + x^12 + x^5 + 1. */
  lemma TapsAre()
    ensures TapsOf(1)
         == Pow2(31 - 26) + Pow2(31 - 23) + Pow2(31 - 22) + Pow2(31 - 16) + Pow2(31 - 12) + Pow2(31 - 11)
          + Pow2(31 - 10) + Pow2(31 - 8) + Pow2(31 - 7) + Pow2(31 - 5) + Pow2(31 - 4) + Pow2(31 - 2) + Pow2(31 - 1)
          + Pow2(31 - 0)
    ensures TapsOf(3) == Pow2(15 - 12) + Pow2(15 - 5) + Pow2(15 - 0)
  {
    Powers();
    Pow2Sum(16, 3);
    Pow2Sum(16, 4);
    Pow2Sum(16, 5);
    Pow2Sum(16, 7);
    Pow2Sum(16, 8);
    Pow2Sum(16, 10);
    Pow2Sum(16, 11);
    Pow2Sum(16, 13);
    Pow2Sum(16, 14);
    Pow2Sum(16, 15);
    hide Pow2;
  }

  lemma SmallShift(s: Word, bit: bool, taps: Word)
    requires s < 0x1_0000 && taps < 0x1_0000
    ensures Shifted(s, bit, taps) < 0x1_0000
  {
    hide Xor;
    Powers();
    XorBound(s / 2, taps, 16);
  }

  lemma {:induction false} SerialStaysSmall(s: Word, bits: seq<bool>, taps: Word)
    requires s < 0x1_0000 && taps < 0x1_0000
    ensures Serial(s, bits, taps) < 0x1_0000
    decreases |bits|
  {
    hide Shifted;
    if bits != [] {
      SerialStaysSmall(s, bits[..|bits| - 1], taps);
      SmallShift(Serial(s, bits[..|bits| - 1], taps), bits[|bits| - 1], taps);
    }
  }

  lemma ByteIsSerial(mode: nat, s: Word, b: Byte)
    requires mode == 1 || (mode == 3 && s < 0x1_0000)
    ensures FeedByte(mode, s, b) == Serial(s, BitsOf(b, 8), TapsOf(mode))
    ensures mode == 3 ==> FeedByte(mode, s, b) < 0x1_0000
  {
    hide Xor, BitsOf, Serial, ReflectedShifts;
    ShiftsAreSerial(s, b, TapsOf(mode), 8);
    Powers();
    assert b / Pow2(8) == 0;
    XorZero(Serial(s, BitsOf(b, 8), TapsOf(mode)));
    if mode == 3 {
      SerialStaysSmall(s, BitsOf(b, 8), TapsOf(mode));
    }
  }

  /** A reflected mode is the serial register of its polynomial, over any message
      and from any start. */
  lemma {:induction false} CrcIsSerial(mode: nat, s: Word, bytes: seq<Byte>)
    requires mode == 1 || (mode == 3 && s < 0x1_0000)
    ensures Feed(mode, s, bytes) == Serial(s, MessageBits(bytes), TapsOf(mode))
    decreases |bytes|
  {
    hide FeedByte, BitsOf;
    if bytes == [] {
      assert MessageBits(bytes) == [];
    } else {
      ByteIsSerial(mode, s, bytes[0]);
      CrcIsSerial(mode, FeedByte(mode, s, bytes[0]), bytes[1..]);
      SerialAppend(s, BitsOf(bytes[0], 8), MessageBits(bytes[1..]), TapsOf(mode));
    }
  }

  /** A normal mode is the same register read from its other end, over the message
      with the bits of every byte turned round. */
  lemma NormalIsSerial(mode: nat, s: Word, bytes: seq<Byte>)
    requires mode == 0 || (mode == 2 && s < 0x1_0000)
    ensures var w := if mode == 0 then 32 else 16;
            && Rev(s, w) < WORD_SIZE
            && Rev(Feed(mode, s, bytes), w)
               == Serial(Rev(s, w), MessageBits(ReverseBytes(bytes)), TapsOf(mode + 1))
  {
    Powers();
    hide Feed, Serial, MessageBits, Rev, ReverseByte, Pow2;
    CrcReflects(mode, s, bytes);
    RevFits(s, Width(mode));
    RevBound(s, Width(mode));
    CrcIsSerial(mode + 1, Rev(s, Width(mode)), ReverseBytes(bytes));
  }

  // ------------------------------------------------------------------- residue

  /** A register fed its own bits runs empty. */
  lemma {:induction false} OwnBits(t: Word, taps: Word, k: nat)
    ensures t / Pow2(k) >= 0 && Serial(t, BitsOf(t, k), taps) == t / Pow2(k)
    decreases k
  {
    hide BitsOf;
    if k > 0 {
      BitsMore(t, k - 1);
      OwnBits(t, taps, k - 1);
    }
  }

  lemma BitAbove(b: Byte, h: nat, i: nat, p: nat)
    requires p == Pow2(i)
    ensures p >= 1 && Pow2(i + 8) == 256 * p && (b + 256 * h) / (256 * p) == h / p
  {
    Powers();
    Pow2Sum(i, 8);
    DivDiv(b + 256 * h, 256, p);
    DivUnique(b + 256 * h, 256, h, b);
  }

  lemma BitInside(b: Byte, h: nat, i: nat, p: nat)
    requires i < 8 && p == Pow2(i)
    ensures p >= 1 && b / p >= 0 && (b + 256 * h) / p % 2 == b / p % 2
  {
    var q := Pow2(7 - i);
    Pow2Sum(i, 7 - i);
    Powers();
    hide Pow2;
    Assoc(p, q, h);
    DivMod(b, p);
    HighPart(b, h, p, q * h, b / p, b % p);
    SameParity(b / p, q * h);
  }

  lemma HighPart(b: nat, h: nat, p: nat, k: nat, d: nat, r: nat)
    requires p * k == 128 * h && b == p * d + r && r < p
    ensures (b + 256 * h) / p == d + 2 * k
  {
    Distrib(p, d, 2 * k);
    Distrib(p, k, k);
    DivUnique(b + 256 * h, p, d + 2 * k, r);
  }

  lemma SameParity(d: nat, k: nat)
    ensures (d + 2 * k) % 2 == d % 2
  {
  }

  /** The bits of a number that has `b` as its low byte. */
  lemma ByteBits(b: Byte, h: nat, n: nat)
    ensures BitsOf(b + 256 * h, 8 + n) == BitsOf(b, 8) + BitsOf(h, n)
  {
    forall i | 0 <= i < 8 + n
      ensures BitsOf(b + 256 * h, 8 + n)[i] == (BitsOf(b, 8) + BitsOf(h, n))[i]
    {
      if i < 8 {
        BitInside(b, h, i, Pow2(i));
      } else {
        BitAbove(b, h, i - 8, Pow2(i - 8));
      }
    }
  }

  lemma {:induction false} ValueBits(v: nat, n: nat)
    ensures MessageBits(BytesOf(v, n)) == BitsOf(v, 8 * n)
    decreases n
  {
    if n > 0 {
      hide BitsOf;
      ByteBits(v % 256, v / 256, 8 * (n - 1));
      ValueBits(v / 256, n - 1);
    }
  }

  lemma RunsEmpty(mode: nat, t: Word, n: nat)
    requires mode == 1 || (mode == 3 && t < 0x1_0000)
    requires t < Pow2(8 * n)
    ensures Feed(mode, t, BytesOf(t, n)) == 0
  {
    hide Feed, BytesOf, BitsOf, Serial, MessageBits, Pow2;
    CrcIsSerial(mode, t, BytesOf(t, n));
    ValueBits(t, n);
    OwnBits(t, TapsOf(mode), 8 * n);
    DivUnique(t, Pow2(8 * n), 0, t);
  }

  /** A message followed by its own checksum, lowest byte first, checks to 0. */
  lemma Residue(mode: nat, s: Word, bytes: seq<Byte>)
    requires mode == 1 || (mode == 3 && s < 0x1_0000)
    ensures var n := if mode == 1 then 4 else 2;
            Feed(mode, s, bytes + BytesOf(Feed(mode, s, bytes), n)) == 0
  {
    Powers();
    Pow2Of32();
    hide Feed, BytesOf, Serial, MessageBits, Pow2;
    var n := if mode == 1 then 4 else 2;
    var t := Feed(mode, s, bytes);
    if mode == 3 {
      CrcIsSerial(mode, s, bytes);
      SerialStaysSmall(s, MessageBits(bytes), TapsOf(mode));
    }
    FeedAppend(mode, s, bytes, BytesOf(t, n));
    RunsEmpty(mode, t, n);
  }

  // -------------------------------------------------- what the sniffer is fed

  /** The bytes of an element as the sniffer sees them: turned round once for each BSWAP. */
  function FedBytes(m: Mem, a: nat, n: nat, turned: bool): (bytes: seq<Byte>)
    requires m.Valid()
    ensures |bytes| == n
  {
    seq(n, j requires 0 <= j < n => ByteAt(m, a + Within(turned, n, j)))
  }

  /** The number that bytes make, the first counting ones. */
  function LittleEndian(bytes: seq<Byte>): nat {
    if bytes == [] then 0 else bytes[0] + 256 * LittleEndian(bytes[1..])
  }

  lemma {:induction false} BytesMake(v: nat, bytes: seq<Byte>)
    requires v < Power256(|bytes|) && forall j :: 0 <= j < |bytes| ==> ByteOf(v, j) == bytes[j]
    ensures BytesOf(v, |bytes|) == bytes && LittleEndian(bytes) == v
    decreases |bytes|
  {
    if bytes != [] {
      assert v % 256 == ByteOf(v, 0);
      forall j | 0 <= j < |bytes| - 1
        ensures ByteOf(v / 256, j) == bytes[1..][j]
      {
        assert ByteOf(v, j + 1) == bytes[j + 1];
      }
      BytesMake(v / 256, bytes[1..]);
    }
  }

  lemma SwapFits(v: Word, n: nat)
    requires n in {1, 2, 4} && v < Power256(n)
    ensures ByteSwap(v, n) < Power256(n)
  {
    PowersOf256();
  }

  /** What the sniffer is fed for element `k`. */
  function FedValue(m: Mem, c: Channel, k: nat, swapAgain: bool): Word
    requires m.Valid()
  {
    if swapAgain then ByteSwap(ElementAt(m, c, k), Step(c.ctrl)) else ElementAt(m, c, k)
  }

  lemma FedIs(m: Mem, c: Channel, k: nat, swapAgain: bool)
    requires m.Valid()
    ensures var (n, v) := (Step(c.ctrl), FedValue(m, c, k, swapAgain));
            var bytes := FedBytes(m, ReadAt(c, k), n, c.ctrl.bswap != swapAgain);
            BytesOf(v, n) == bytes && LittleEndian(bytes) == v
  {
    hide ByteSwap, ByteAt, After, Power256, ByteOf, BytesOf, LittleEndian;
    var (n, e) := (Step(c.ctrl), ElementAt(m, c, k));
    var bytes := FedBytes(m, ReadAt(c, k), n, c.ctrl.bswap != swapAgain);
    var v := FedValue(m, c, k, swapAgain);
    ShapedFits(m, After(c, k));
    SwapFits(e, n);
    forall j | 0 <= j < n
      ensures ByteOf(v, j) == bytes[j]
    {
      ElementDigits(m, c, k, j);
      ElementDigits(m, c, k, n - 1 - j);
      SwappedDigits(e, n, j);
    }
    BytesMake(v, bytes);
  }

  lemma ElementDigits(m: Mem, c: Channel, k: nat, j: nat)
    requires m.Valid() && j < Step(c.ctrl)
    ensures ByteOf(ElementAt(m, c, k), j) == ByteAt(m, ReadAt(c, k) + Within(c.ctrl.bswap, Step(c.ctrl), j))
  {
    hide ByteAt, ByteOf, ByteSwap, ValueAt, After;
    ElementBytes(m, c, ReadAt(c, k), j);
  }

  /** The checksum of the first `n` elements: the sum mode adds them modulo 2^32, the
      exclusive-or mode combines them, the CRC modes take their bytes one by one, and
      a reserved mode does nothing. */
  function Checksum(mode: nat, start: Word, m: Mem, c: Channel, n: nat, turned: bool): Word
    requires m.Valid()
    decreases n
  {
    if n == 0 then start
    else
      var before := Checksum(mode, start, m, c, n - 1, turned);
      var bytes := FedBytes(m, ReadAt(c, n - 1), Step(c.ctrl), turned);
      if mode == 15 then (before + LittleEndian(bytes)) % 0x1_0000_0000
      else if mode == 14 then Xor(before, LittleEndian(bytes)) % 0x1_0000_0000
      else Feed(mode, before, bytes)
  }

  /** The sniffer is on, looks at this channel, and the channel lets it. */
  predicate Sniffed(d: Dma, ch: nat)
    requires d.Valid() && ch < CHANNELS
  {
    d.sniff.en && d.sniff.channel == ch && d.chan[ch].ctrl.sniffEn
  }

  lemma FoldsIn(m: Mem, c: Channel, k: nat, s: Sniff, ch: nat, start: Word)
    requires m.Valid() && ErrorFree(c, k) && Untouched(c, k) && s.en && s.channel == ch
    requires s.data == Checksum(s.mode, start, m, c, k, c.ctrl.bswap != s.bswap)
    ensures SniffFeed(s, ch, true, ElementAt(Copied(m, c, k), c, k), Step(c.ctrl))
         == s.(data := Checksum(s.mode, start, m, c, k + 1, c.ctrl.bswap != s.bswap))
  {
    hide Feed, BytesOf, Copied, ElementAt, Step, FedBytes, LittleEndian, ByteSwap, Xor, ReadAt, Untouched;
    ReadsOriginal(m, c, k);
    FedIs(m, c, k, s.bswap);
    ModSmall(WordXor(s.data, FedValue(m, c, k, s.bswap)));
  }

  lemma ModSmall(w: Word)
    ensures w % 0x1_0000_0000 == w
  {
  }

  /** In every mode, with either byte swap, the register holds the checksum of the
      bytes the channel reads, and stays as it is when the sniffer does not watch. */
  lemma {:induction false} TransfersCheck(d: Dma, ch: nat, n: nat)
    requires d.Valid() && ch < CHANNELS && ReadsBuffer(d.chan[ch], n)
    ensures var (e, c, s) := (Transfers(d, ch, n), d.chan[ch], d.sniff);
            && e.mem == Copied(d.mem, c, n) && e.chan[ch] == After(c, n)
            && e.sniff == if Sniffed(d, ch)
                          then s.(data := Checksum(s.mode, s.data, d.mem, c, n, c.ctrl.bswap != s.bswap)) else s
    decreases n
  {
    hide Transfer, SniffFeed, Copied, ElementAt, Untouched, ErrorFree, FedBytes, LittleEndian, Feed;
    var c := d.chan[ch];
    if n == 0 {
      NothingRead(d.mem, c);
    } else {
      Fewer(c, n, n - 1);
      TransfersCheck(d, ch, n - 1);
      var e := Transfers(d, ch, n - 1);
      TransferCopies(d.mem, c, n - 1);
      if Sniffed(d, ch) {
        FoldsIn(d.mem, c, n - 1, e.sniff, ch, d.sniff.data);
      } else {
        NotWatching(e.sniff, ch, c.ctrl.sniffEn, ElementAt(Copied(d.mem, c, n - 1), c, n - 1), Step(c.ctrl));
      }
    }
  }

  lemma NotWatching(s: Sniff, ch: nat, watched: bool, value: Word, size: nat)
    requires !s.en || s.channel != ch || !watched
    ensures SniffFeed(s, ch, watched, value, size) == s
  {
  }
}
