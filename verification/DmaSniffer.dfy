/** The DMA sniffer's CRC modes. */
module DmaSniffer {
  // One register is folded over the bytes of what is transferred, eight shifts a
  // byte.  The bit-reversed modes are the normal modes read backwards
  // (`CrcReflects`), and every mode is linear over exclusive or (`CrcLinear`).
  import opened Words
  import opened WordLemmas
  import opened Xors
  import opened MemoryBus

  const POLY_32: nat := 0x04C1_1DB7
  const POLY_32_REFLECTED: nat := 0xEDB8_8320
  const POLY_16: nat := 0x1021
  const POLY_16_REFLECTED: nat := 0x8408

  // SNIFF_CTRL.CALC
  const CRC_32: nat := 0
  const CRC_32_REFLECTED: nat := 1
  const CRC_16: nat := 2
  const CRC_16_REFLECTED: nat := 3
  const XOR_ALL: nat := 14
  const SUM_ALL: nat := 15

  function WordXor(a: Word, b: Word): (w: Word)
    ensures w == Xor(a, b)
  {
    Pow2Of32();
    XorBound(a, b, 32);
    Xor(a, b)
  }

  // ------------------------------------------------------------- one shift

  /** `s = (s & top) ? (s << 1) ^ poly : (s << 1)`, `top` being bit `width - 1` */
  function NormalShift(s: Word, width: nat, poly: Word): Word
    requires 0 < width
  {
    var doubled := s * 2 % WORD_SIZE;
    if s / Pow2(width - 1) % 2 == 1 then WordXor(doubled, poly) else doubled
  }

  /** `s = (s & 1) ? (s >> 1) ^ poly : (s >> 1)` */
  function ReflectedShift(s: Word, poly: Word): Word {
    if s % 2 == 1 then WordXor(s / 2, poly) else s / 2
  }

  function NormalShifts(s: Word, width: nat, poly: Word, k: nat): Word
    requires 0 < width
    decreases k
  {
    if k == 0 then s else NormalShift(NormalShifts(s, width, poly, k - 1), width, poly)
  }

  function ReflectedShifts(s: Word, poly: Word, k: nat): Word
    decreases k
  {
    if k == 0 then s else ReflectedShift(ReflectedShifts(s, poly, k - 1), poly)
  }

  // -------------------------------------------------------------- one byte

  /** The register with one byte folded in.  The 16-bit modes keep bits 15:0;
      a reserved mode does nothing. */
  function FeedByte(mode: nat, s: Word, b: Byte): Word {
    if mode == CRC_32 then NormalShifts(WordXor(s, b * 0x100_0000), 32, POLY_32, 8)
    else if mode == CRC_32_REFLECTED then ReflectedShifts(WordXor(s, b), POLY_32_REFLECTED, 8)
    else if mode == CRC_16 then NormalShifts(WordXor(s % 0x1_0000, b * 0x100), 16, POLY_16, 8) % 0x1_0000
    else if mode == CRC_16_REFLECTED then ReflectedShifts(WordXor(s % 0x1_0000, b), POLY_16_REFLECTED, 8) % 0x1_0000
    else s
  }

  function Feed(mode: nat, s: Word, bytes: seq<Byte>): Word
    decreases |bytes|
  {
    if bytes == [] then s else Feed(mode, FeedByte(mode, s, bytes[0]), bytes[1..])
  }

  /** The bytes of an element, lowest first. */
  function BytesOf(v: nat, n: nat): (bs: seq<Byte>)
    ensures |bs| == n
    decreases n
  {
    if n == 0 then [] else [v % 256] + BytesOf(v / 256, n - 1)
  }

  // ------------------------------------------------------------ reflection

  lemma {:induction false} RevLow(v: nat, n: nat)
    ensures Rev(LowBits(v, n), n) == Rev(v, n)
    decreases n
  {
    if n > 0 {
      LowStep(v, n);
      Halves(LowBits(v, n), LowBits(v / 2, n - 1), v % 2);
      RevLow(v / 2, n - 1);
    }
  }

  /** Reversing `n` bits does not look above them. */
  lemma RevMod(v: nat, n: nat)
    ensures Rev(v % Pow2(n), n) == Rev(v, n)
  {
    RevLow(v, n);
    LowBitsIs(v, n);
  }

  lemma RevWrap(v: nat, n: nat)
    requires n <= 32
    ensures Rev(v % WORD_SIZE, n) == Rev(v, n)
  {
    var w := v % WORD_SIZE;
    Pow2Of32();
    Pow2Sum(n, 32 - n);
    DivDiv(v, Pow2(n), Pow2(32 - n));
    DivUnique(w, Pow2(n), v / Pow2(n) % Pow2(32 - n), v % Pow2(n));
    RevMod(v, n);
    RevMod(w, n);
  }

  lemma {:induction false} RevScaled(b: nat, k: nat, n: nat)
    ensures Rev(b * Pow2(k), k + n) == Rev(b, n)
    decreases k
  {
    if k > 0 {
      Scaled(b, k);
      Halves(b * Pow2(k), b * Pow2(k - 1), 0);
      RevScaled(b, k - 1, n);
    }
  }

  /** Shifting left and reversing is reversing and shifting right. */
  lemma ShiftReflects(s: Word, width: nat, poly: Word, reflected: Word)
    requires 0 < width <= 32 && reflected == Rev(poly, width)
    ensures Rev(s, width) < WORD_SIZE
    ensures Rev(NormalShift(s, width, poly), width) == ReflectedShift(Rev(s, width), reflected)
  {
    hide Xor;
    RevFits(s, width);
    var doubled := s * 2 % WORD_SIZE;
    RevWrap(s * 2, width);
    Halves(s * 2, s, 0);
    assert Rev(s * 2, width) == Rev(s, width - 1);
    RevSnoc(s, width - 1);
    Halves(Rev(s, width), Rev(s, width - 1), s / Pow2(width - 1) % 2);
    XorRev(doubled, poly, width);
  }

  lemma RevFits(s: nat, width: nat)
    requires width <= 32
    ensures Rev(s, width) < WORD_SIZE
  {
    RevBound(s, width);
    Pow2Of32();
    Pow2Sum(width, 32 - width);
    MulLe(Pow2(width), Pow2(32 - width));
  }

  lemma {:induction false} ShiftsReflect(s: Word, width: nat, poly: Word, reflected: Word, k: nat)
    requires 0 < width <= 32 && reflected == Rev(poly, width)
    ensures Rev(s, width) < WORD_SIZE
    ensures Rev(NormalShifts(s, width, poly, k), width) == ReflectedShifts(Rev(s, width), reflected, k)
    decreases k
  {
    hide NormalShift, ReflectedShift, Rev;
    RevFits(s, width);
    if k > 0 {
      ShiftsReflect(s, width, poly, reflected, k - 1);
      ShiftReflects(NormalShifts(s, width, poly, k - 1), width, poly, reflected);
    }
  }

  lemma FourBits(v: nat, n: nat)
    ensures Rev(v, n + 4)
        == v % 2 * Pow2(n + 3) + v / 2 % 2 * Pow2(n + 2) + v / 4 % 2 * Pow2(n + 1) + v / 8 % 2 * Pow2(n)
                             + Rev(v / 16, n)
  {
    var (v1, v2, v3) := (v / 2, v / 4, v / 8);
    assert v1 / 2 == v2 && v2 / 2 == v3 && v3 / 2 == v / 16;
    assert Rev(v3, n + 1) == v3 % 2 * Pow2(n) + Rev(v / 16, n);
    assert Rev(v2, n + 2) == v2 % 2 * Pow2(n + 1) + Rev(v3, n + 1);
    assert Rev(v1, n + 3) == v1 % 2 * Pow2(n + 2) + Rev(v2, n + 2);
  }

  lemma Powers()
    ensures Pow2(0) == 0x1 && Pow2(1) == 0x2 && Pow2(2) == 0x4 && Pow2(3) == 0x8 && Pow2(4) == 0x10
    ensures Pow2(5) == 0x20 && Pow2(6) == 0x40 && Pow2(7) == 0x80 && Pow2(8) == 0x100 && Pow2(9) == 0x200
    ensures Pow2(10) == 0x400 && Pow2(11) == 0x800 && Pow2(12) == 0x1000 && Pow2(13) == 0x2000
    ensures Pow2(14) == 0x4000 && Pow2(15) == 0x8000 && Pow2(16) == 0x1_0000
  {
  }

  /** The lowest digit in base 16 goes to the top. */
  lemma DigitReflects(v: nat, d: nat, rest: nat, n: nat)
    requires d < 16 && v == d + 16 * rest
    ensures Rev(v, 4 + n) == Rev(d, 4) * Pow2(n) + Rev(rest, n)
  {
    hide Rev, Pow2;
    Powers();
    assert v % 16 == d && d % 16 == d && v / 16 == rest;
    RevMod(v, 4);
    RevMod(d, 4);
    RevSplit(v, 4, n);
  }

  /** Sixteen bits, four at a time; the digits of `v` in base 16 are given. */
  lemma SixteenBits(v: nat, d0: nat, d1: nat, d2: nat, d3: nat)
    requires d0 < 16 && d1 < 16 && d2 < 16 && d3 < 16 && v == d0 + 16 * d1 + 256 * d2 + 4096 * d3
    ensures Rev(v, 16) == 4096 * Rev(d0, 4) + 256 * Rev(d1, 4) + 16 * Rev(d2, 4) + Rev(d3, 4)
  {
    hide Rev, Pow2;
    Powers();
    var (v1, v2) := (d1 + 16 * d2 + 256 * d3, d2 + 16 * d3);
    DigitReflects(v, d0, v1, 12);
    DigitReflects(v1, d1, v2, 8);
    DigitReflects(v2, d2, d3, 4);
  }

  lemma Nibbles()
    ensures Rev(0x0, 4) == 0x0 && Rev(0x1, 4) == 0x8 && Rev(0x2, 4) == 0x4 && Rev(0x4, 4) == 0x2
    ensures Rev(0x7, 4) == 0xE && Rev(0xB, 4) == 0xD && Rev(0xC, 4) == 0x3 && Rev(0xD, 4) == 0xB
  {
    Powers();
    forall d: nat | d < 16
      ensures Rev(d, 4) == d % 2 * 8 + d / 2 % 2 * 4 + d / 4 % 2 * 2 + d / 8 % 2
    {
      FourBits(d, 0);
    }
  }

  /** The reflected polynomials are the normal ones read backwards. */
  lemma PolynomialsReflect()
    ensures Rev(POLY_32, 32) == POLY_32_REFLECTED
    ensures Rev(POLY_16, 16) == POLY_16_REFLECTED
  {
    hide Rev;
    Powers();
    Nibbles();
    SixteenBits(POLY_16, 1, 2, 0, 1);
    SixteenBits(0x1DB7, 7, 0xB, 0xD, 1);
    SixteenBits(0x04C1, 1, 0xC, 4, 0);
    RevSplit(POLY_32, 16, 16);
    assert POLY_32 / 0x1_0000 == 0x04C1 && POLY_32 % 0x1_0000 == 0x1DB7;
    RevMod(POLY_32, 16);
  }

  function ReverseByte(b: Byte): Byte {
    RevBound(b, 8);
    Rev(b, 8)
  }

  function ReverseBytes(bytes: seq<Byte>): seq<Byte> {
    seq(|bytes|, i requires 0 <= i < |bytes| => ReverseByte(bytes[i]))
  }

  /** The register width of a normal mode; its reflected partner is `mode + 1`. */
  function Width(mode: nat): nat { if mode == CRC_32 then 32 else 16 }

  lemma ByteReflects(mode: nat, s: Word, b: Byte)
    requires mode == CRC_32 || mode == CRC_16
    ensures Rev(s, Width(mode)) < WORD_SIZE
    ensures FeedByte(mode + 1, Rev(s, Width(mode)), ReverseByte(b)) == Rev(FeedByte(mode, s, b), Width(mode))
  {
    hide NormalShifts, ReflectedShifts, Rev, Xor;
    Powers();
    PolynomialsReflect();
    RevFits(s, Width(mode));
    if mode == CRC_32 {
      assert Pow2(24) == 0x100_0000 by { Pow2Sum(8, 16); }
      RevScaled(b, 24, 8);
      XorRev(s, b * 0x100_0000, 32);
      ShiftsReflect(WordXor(s, b * 0x100_0000), 32, POLY_32, POLY_32_REFLECTED, 8);
    } else {
      var kept := s % 0x1_0000;
      RevScaled(b, 8, 8);
      RevMod(s, 16);
      RevBound(s, 16);
      XorRev(kept, b * 0x100, 16);
      ShiftsReflect(WordXor(kept, b * 0x100), 16, POLY_16, POLY_16_REFLECTED, 8);
      var out := NormalShifts(WordXor(kept, b * 0x100), 16, POLY_16, 8);
      RevMod(out, 16);
      RevBound(out, 16);
    }
  }

  /** For every seed and every byte sequence, the bit-reversed mode run on
      reversed bytes from the reversed seed ends in the normal mode's register
      read backwards: CRC-32 over 32 bits, CRC-16 over 16. */
  lemma {:induction false} CrcReflects(mode: nat, s: Word, bytes: seq<Byte>)
    requires mode == CRC_32 || mode == CRC_16
    ensures Rev(s, Width(mode)) < WORD_SIZE
    ensures Feed(mode + 1, Rev(s, Width(mode)), ReverseBytes(bytes)) == Rev(Feed(mode, s, bytes), Width(mode))
    decreases |bytes|
  {
    hide FeedByte, Rev, ReverseByte;
    RevFits(s, Width(mode));
    if bytes != [] {
      ByteReflects(mode, s, bytes[0]);
      CrcReflects(mode, FeedByte(mode, s, bytes[0]), bytes[1..]);
      assert ReverseBytes(bytes)[1..] == ReverseBytes(bytes[1..]);
    }
  }

  // --------------------------------------------------------------- linearity

  function When(bit: bool, poly: Word): Word { if bit then poly else 0 }

  lemma WhenXor(p: bool, q: bool, poly: Word)
    ensures Xor(When(p, poly), When(q, poly)) == When(p != q, poly)
  {
    hide Xor;
    XorSelf(poly);
    XorZero(poly);
    XorZero(0);
  }

  lemma NormalShiftLinear(s: Word, t: Word, width: nat, poly: Word)
    requires 0 < width
    ensures NormalShift(WordXor(s, t), width, poly) == WordXor(NormalShift(s, width, poly), NormalShift(t, width, poly))
  {
    hide Xor, NormalShift, Doubled, TopBit;
    var (p, q) := (TopBit(s, width), TopBit(t, width));
    NormalIs(s, width, poly);
    NormalIs(t, width, poly);
    NormalIs(WordXor(s, t), width, poly);
    DoubledLinear(s, t);
    TopBitLinear(s, t, width);
    WhenXor(p, q, poly);
    XorRegroup(Doubled(s), Doubled(t), When(p, poly), When(q, poly));
  }

  predicate TopBit(s: Word, width: nat)
    requires 0 < width
  {
    s / Pow2(width - 1) % 2 == 1
  }

  function Doubled(s: Word): Word { s * 2 % WORD_SIZE }

  lemma NormalIs(s: Word, width: nat, poly: Word)
    requires 0 < width
    ensures NormalShift(s, width, poly) == Xor(Doubled(s), When(TopBit(s, width), poly))
  {
    hide Xor;
    XorZero(Doubled(s));
  }

  lemma DoubledLinear(s: Word, t: Word)
    ensures Doubled(WordXor(s, t)) == Xor(Doubled(s), Doubled(t))
  {
    hide Xor;
    Pow2Of32();
    XorDouble(s, t);
    XorMod(2 * s, 2 * t, 32);
  }

  lemma TopBitLinear(s: Word, t: Word, width: nat)
    requires 0 < width
    ensures TopBit(WordXor(s, t), width) == (TopBit(s, width) != TopBit(t, width))
  {
    hide Xor;
    XorBit(s, t, width - 1);
  }

  lemma ReflectedShiftLinear(s: Word, t: Word, poly: Word)
    ensures ReflectedShift(WordXor(s, t), poly) == WordXor(ReflectedShift(s, poly), ReflectedShift(t, poly))
  {
    hide Xor;
    var (p, q) := (s % 2 == 1, t % 2 == 1);
    XorZero(s / 2);
    XorZero(t / 2);
    XorStep(s, t);
    XorZero(Xor(s / 2, t / 2));
    assert ReflectedShift(WordXor(s, t), poly) == Xor(Xor(s / 2, t / 2), When(p != q, poly));
    WhenXor(p, q, poly);
    XorRegroup(s / 2, t / 2, When(p, poly), When(q, poly));
  }

  lemma {:induction false} ShiftsLinear(s: Word, t: Word, width: nat, normal: Word, reflected: Word, k: nat)
    requires 0 < width
    ensures NormalShifts(WordXor(s, t), width, normal, k)
         == WordXor(NormalShifts(s, width, normal, k), NormalShifts(t, width, normal, k))
    ensures ReflectedShifts(WordXor(s, t), reflected, k)
         == WordXor(ReflectedShifts(s, reflected, k), ReflectedShifts(t, reflected, k))
    decreases k
  {
    hide NormalShift, ReflectedShift, WordXor;
    if k > 0 {
      ShiftsLinear(s, t, width, normal, reflected, k - 1);
      NormalShiftLinear(NormalShifts(s, width, normal, k - 1), NormalShifts(t, width, normal, k - 1), width, normal);
      ReflectedShiftLinear(ReflectedShifts(s, reflected, k - 1), ReflectedShifts(t, reflected, k - 1), reflected);
    }
  }

  function ByteXor(a: Byte, b: Byte): Byte {
    assert Pow2(8) == 0x100;
    XorBound(a, b, 8);
    Xor(a, b)
  }

  lemma ByteLinear(mode: nat, s: Word, t: Word, b: Byte, c: Byte)
    requires mode <= CRC_16_REFLECTED
    ensures FeedByte(mode, WordXor(s, t), ByteXor(b, c)) == WordXor(FeedByte(mode, s, b), FeedByte(mode, t, c))
  {
    hide Xor, NormalShifts, ReflectedShifts;
    Powers();
    XorMod(s, t, 16);
    if mode == CRC_32 {
      assert Pow2(24) == 0x100_0000 by { Pow2Sum(8, 16); }
      XorScale(b, c, 24);
      XorRegroup(s, t, b * 0x100_0000, c * 0x100_0000);
      ShiftsLinear(WordXor(s, b * 0x100_0000), WordXor(t, c * 0x100_0000), 32, POLY_32, 0, 8);
    } else if mode == CRC_32_REFLECTED {
      XorRegroup(s, t, b, c);
      ShiftsLinear(WordXor(s, b), WordXor(t, c), 1, 0, POLY_32_REFLECTED, 8);
    } else if mode == CRC_16 {
      var (s', t') := (s % 0x1_0000, t % 0x1_0000);
      XorScale(b, c, 8);
      XorRegroup(s', t', b * 0x100, c * 0x100);
      ShiftsLinear(WordXor(s', b * 0x100), WordXor(t', c * 0x100), 16, POLY_16, 0, 8);
      XorMod(NormalShifts(WordXor(s', b * 0x100), 16, POLY_16, 8),
        NormalShifts(WordXor(t', c * 0x100), 16, POLY_16, 8), 16);
    } else {
      var (s', t') := (s % 0x1_0000, t % 0x1_0000);
      XorRegroup(s', t', b, c);
      ShiftsLinear(WordXor(s', b), WordXor(t', c), 1, 0, POLY_16_REFLECTED, 8);
      XorMod(ReflectedShifts(WordXor(s', b), POLY_16_REFLECTED, 8),
        ReflectedShifts(WordXor(t', c), POLY_16_REFLECTED, 8), 16);
    }
  }

  function XorBytes(a: seq<Byte>, b: seq<Byte>): seq<Byte>
    requires |a| == |b|
  {
    seq(|a|, i requires 0 <= i < |a| => ByteXor(a[i], b[i]))
  }

  /** Each CRC mode is linear: the checksum of an exclusive or is the exclusive or of the checksums. */
  lemma {:induction false} CrcLinear(mode: nat, s: Word, t: Word, a: seq<Byte>, b: seq<Byte>)
    requires mode <= CRC_16_REFLECTED && |a| == |b|
    ensures Feed(mode, WordXor(s, t), XorBytes(a, b)) == WordXor(Feed(mode, s, a), Feed(mode, t, b))
    decreases |a|
  {
    hide FeedByte, WordXor, ByteXor;
    if a != [] {
      ByteLinear(mode, s, t, a[0], b[0]);
      CrcLinear(mode, FeedByte(mode, s, a[0]), FeedByte(mode, t, b[0]), a[1..], b[1..]);
      assert XorBytes(a, b)[1..] == XorBytes(a[1..], b[1..]);
    }
  }

  // ------------------------------------------------------------ bytes in memory

  function MemoryBytes(m: Mem, a: nat, n: nat): seq<Byte>
    requires m.Valid()
  {
    seq<Byte>(n, i requires 0 <= i < n => ByteAt(m, a + i))
  }

  lemma {:induction false} ValueBytes(m: Mem, a: nat, n: nat)
    requires m.Valid()
    ensures BytesOf(ValueAt(m, a, n), n) == MemoryBytes(m, a, n)
    decreases n
  {
    if n > 0 {
      var (v, rest) := (ValueAt(m, a, n), ValueAt(m, a + 1, n - 1));
      assert v % 256 == ByteAt(m, a) && v / 256 == rest;
      ValueBytes(m, a + 1, n - 1);
    }
  }

  lemma {:induction false} FeedAppend(mode: nat, s: Word, a: seq<Byte>, b: seq<Byte>)
    ensures Feed(mode, s, a + b) == Feed(mode, Feed(mode, s, a), b)
    decreases |a|
  {
    hide FeedByte;
    if a == [] {
      assert a + b == b;
    } else {
      assert (a + b)[1..] == a[1..] + b;
      FeedAppend(mode, FeedByte(mode, s, a[0]), a[1..], b);
    }
  }

  lemma FeedNothing(mode: nat, s: Word)
    ensures Feed(mode, s, []) == s
  {
  }
}
