/** Slices of a word moving between the two shift registers, `n` bits at a time:
    what the OSR and ISR hold when `k` bits of a word have crossed. */
module PioSlices {
  import opened Words
  import opened WordLemmas
  import opened PioMachine

  /** What comes out for a word that went in. */
  function Echo(cfg: Config, v: Word): Word {
    if cfg.inRight == cfg.outRight then v else BitReverse(v)
  }

  /** The OSR once `k` bits of `w` have left it. */
  function OsrAt(cfg: Config, w: Word, k: nat): Word {
    if cfg.outRight then Shr(w, k) else Shl(w, k)
  }

  /** The ISR once those `k` bits have entered it. */
  function IsrAt(cfg: Config, w: Word, k: nat): nat
    requires k <= 32
  {
    if cfg.outRight && cfg.inRight then Shl(w, 32 - k)
    else if cfg.outRight then Rev(w, k)
    else if cfg.inRight then Times(Rev(Shr(w, 32 - k), k), Pow2(32 - k))
    else Shr(w, 32 - k)
  }

  lemma ThreePowers(k: nat, n: nat)
    requires k + n <= 32
    ensures Pow2(k) * (Pow2(n) * Pow2(32 - k - n)) == WORD_SIZE
    ensures Pow2(n) * Pow2(32 - k - n) == Pow2(32 - k)
    ensures Pow2(k) * Pow2(32 - k - n) == Pow2(32 - n)
    ensures Pow2(k) * Pow2(n) == Pow2(k + n)
  {
    Pow2Sum(n, 32 - k - n);
    Pow2Sum(k, 32 - k);
    Pow2Sum(k, 32 - k - n);
    Pow2Sum(k, n);
    Pow2Of32();
  }

  /** `x << (32 - k)` keeps the low `k` bits, moved to the top. */
  lemma ShlTop(v: Word, k: nat)
    requires k <= 32
    ensures Shl(v, 32 - k) == v % Pow2(k) * Pow2(32 - k)
  {
    ShlIs(v, 32 - k);
    Pow2Sum(k, 32 - k);
    Pow2Of32();
    ModScale(v, Pow2(k), Pow2(32 - k));
  }

  lemma MulDiv(a: nat, b: nat)
    requires b >= 1
    ensures a * b / b == a
  {
    DivUnique(a * b, b, a, 0);
  }

  lemma Collect(a: nat, A: nat, c: nat, M: nat)
    ensures a * M + c * (A * M) == (a + A * c) * M
  {
    Assoc(c, A, M);
    Distrib(M, a, A * c);
  }

  /** Right to right: a slice leaves at the bottom and enters at the top. */
  lemma SliceRight(w: Word, k: nat, n: nat)
    requires k + n <= 32 && 1 <= n
    ensures Shr(Shl(w, 32 - k), n) + Shl(LowBits(Shr(w, k), n), 32 - n) == Shl(w, 32 - k - n)
  {
    var (A, N, M) := (Pow2(k), Pow2(n), Pow2(32 - k - n));
    ThreePowers(k, n);
    ShlTop(w, k);
    ShlTop(w, k + n);
    ShrIs(Shl(w, 32 - k), n);
    ShrIs(w, k);
    DivMod(w, A);
    var bits := LowBits(Shr(w, k), n);
    LowBitsIs(Shr(w, k), n);
    DivMod(w / A, N);
    ShlTop(bits, n);
    DivUnique(bits, N, 0, bits);
    DivDiv(w, A, N);
    hide Shr, Shl, LowBits, Pow2;
    SliceRightSum(w % A, A, N, M, bits);
  }

  lemma SliceRightSum(a: nat, A: nat, N: nat, M: nat, bits: nat)
    requires N >= 1
    ensures a * (N * M) / N + bits * (A * M) == (a + A * bits) * M
  {
    Assoc(a, M, N);
    MulDiv(a * M, N);
    Collect(a, A, bits, M);
  }

  /** The top slice of what is left of `w`. */
  lemma TopSlice(w: Word, k: nat, n: nat)
    requires k + n <= 32
    ensures Shr(Shl(w, k), 32 - n) == Shr(w, 32 - k - n) % Pow2(n)
  {
    TopSlicePowers(w, k, n);
    ShlTop(w, 32 - k);
    ShrIs(Shl(w, k), 32 - n);
    ShrIs(w, 32 - k - n);
    hide *;
    assert 32 - (32 - k) == k;
    assert Shl(w, k) == w % Pow2(32 - k) * Pow2(k);
  }

  lemma TopSlicePowers(w: Word, k: nat, n: nat)
    requires k + n <= 32
    ensures w % Pow2(32 - k) * Pow2(k) / Pow2(32 - n) == w / Pow2(32 - k - n) % Pow2(n)
  {
    ThreePowers(k, n);
    TopSliceQuotient(w, Pow2(k), Pow2(n), Pow2(32 - k - n));
    hide *;
    assert Pow2(n) * Pow2(32 - k - n) == Pow2(32 - k - n) * Pow2(n);
  }

  lemma TopSliceQuotient(w: nat, K: nat, N: nat, M: nat)
    requires K >= 1 && N >= 1 && M >= 1
    ensures w / M >= 0 && M * N >= 1 && K * M >= 1
    ensures w % (M * N) * K / (K * M) == w / M % N
  {
    MulLe(M, N);
    DivDiv(w, M, N);
    DivMod(w, M);
    DivMod(w / M, N);
    DivMod(w, M * N);
    var d := w / M % N;
    DivUnique(w % (M * N), M, d, w % M);
    ModScale(w % (M * N), M, K);
  }

  /** Left to left: a slice leaves at the top and enters at the bottom. */
  lemma SliceLeft(w: Word, k: nat, n: nat)
    requires k + n <= 32
    ensures Times(Shr(w, 32 - k), Pow2(n)) + Shr(Shl(w, k), 32 - n) == Shr(w, 32 - k - n)
  {
    TopSlice(w, k, n);
    SplitTop(w, k, n);
    ShrIs(w, 32 - k);
    ShrIs(w, 32 - k - n);
    hide Shr, Shl, Pow2;
  }

  lemma SplitTop(w: Word, k: nat, n: nat)
    requires k + n <= 32
    ensures var v := w / Pow2(32 - k - n);
            v >= 0 && v == w / Pow2(32 - k) * Pow2(n) + v % Pow2(n)
  {
    hide *;
    ThreePowers(k, n);
    SplitAt(w, Pow2(32 - k), Pow2(n), Pow2(32 - k - n));
  }

  lemma SplitAt(w: nat, both: nat, n: nat, m: nat)
    requires n >= 1 && m >= 1 && both == n * m
    ensures w / m >= 0 && both >= 1 && w / m == w / both * n + w / m % n
  {
    Commute(n, m);
    DivDiv(w, m, n);
    var v := w / m;
    DivMod(v, n);
    Commute(n, v / n);
    assert w / both == v / n;
  }

  lemma Commute(a: int, b: int)
    ensures a * b == b * a
  {
  }

  // --------------------------------------------------------- one transfer

  lemma OsrStep(cfg: Config, w: Word, k: nat, n: nat)
    ensures (if cfg.outRight then Shr(OsrAt(cfg, w, k), n) else Shl(OsrAt(cfg, w, k), n)) == OsrAt(cfg, w, k + n)
  {
    ShrShr(w, k, n);
    ShlShl(w, k, n);
  }

  lemma {:induction false} ShrShr(v: nat, k: nat, n: nat)
    ensures Shr(Shr(v, k), n) == Shr(v, k + n)
  {
    if k > 0 {
      ShrShr(v / 2, k - 1, n);
    }
  }

  lemma {:induction false} ShlShl(v: Word, k: nat, n: nat)
    ensures Shl(Shl(v, k), n) == Shl(v, k + n)
    decreases k
  {
    if k > 0 {
      ShlShl(v * 2 % WORD_SIZE, k - 1, n);
    }
  }

  /** `isr` after IN shifts in `bits`, `n < 32` of them. */
  function Entered(cfg: Config, isr: Word, bits: Word, n: nat): Word
    requires n < 32
  {
    if cfg.inRight then Wrap(Shr(isr, n) + Shl(LowBits(bits, n), 32 - n)) else Wrap(Shl(isr, n) + LowBits(bits, n))
  }

  lemma LowBitsOfSlice(v: nat, n: nat)
    ensures LowBits(LowBits(v, n), n) == LowBits(v, n)
  {
    LowBitsIs(v, n);
    LowBitsIs(LowBits(v, n), n);
    DivMod(v, Pow2(n));
    DivUnique(LowBits(v, n), Pow2(n), 0, LowBits(v, n));
  }

  lemma EntersRight(cfg: Config, w: Word, k: nat, n: nat)
    requires cfg.outRight && cfg.inRight && k + n <= 32 && 1 <= n < 32
    ensures Entered(cfg, Shl(w, 32 - k), LowBits(Shr(w, k), n), n) == Shl(w, 32 - k - n)
  {
    SliceRight(w, k, n);
    LowBitsOfSlice(Shr(w, k), n);
    hide *;
    var bits := LowBits(Shr(w, k), n);
    EnteredRight(cfg, Shl(w, 32 - k), bits, n, Shl(w, 32 - k - n));
  }

  lemma EnteredRight(cfg: Config, isr: Word, bits: Word, n: nat, r: Word)
    requires cfg.inRight && n < 32 && LowBits(bits, n) == bits
    requires Shr(isr, n) + Shl(bits, 32 - n) == r
    ensures Entered(cfg, isr, bits, n) == r
  {
    hide Shr, Shl, LowBits;
  }

  lemma EnteredLeft(cfg: Config, isr: Word, bits: Word, n: nat, r: Word)
    requires !cfg.inRight && n < 32 && LowBits(bits, n) == bits
    requires Shl(isr, n) + bits == r
    ensures Entered(cfg, isr, bits, n) == r
  {
    hide Shr, Shl, LowBits;
  }

  /** Shifting left loses nothing while the value has room. */
  lemma ShlFits(v: Word, k: nat, n: nat)
    requires k + n <= 32 && v < Pow2(k)
    ensures v * Pow2(n) < WORD_SIZE && Shl(v, n) == v * Pow2(n)
  {
    ShlIs(v, n);
    SumTo32(k, n);
    hide *;
    Below(v, Pow2(k), Pow2(n), Pow2(32 - k - n));
  }

  lemma SumTo32(k: nat, n: nat)
    requires k + n <= 32
    ensures (Pow2(k) * Pow2(n)) * Pow2(32 - k - n) == WORD_SIZE
  {
    ThreePowers(k, n);
    hide *;
    Assoc(Pow2(k), Pow2(n), Pow2(32 - k - n));
  }

  lemma Below(v: nat, a: nat, n: nat, m: nat)
    requires v < a && n >= 1 && m >= 1 && (a * n) * m == WORD_SIZE
    ensures 0 <= v * n < WORD_SIZE && v * n % WORD_SIZE == v * n
  {
    MulMono(n, v + 1, a);
    MulGrows(m, a * n);
  }

  lemma ShrTopBound(w: Word, k: nat)
    requires k <= 32
    ensures Shr(w, 32 - k) < Pow2(k)
  {
    ShrIs(w, 32 - k);
    Pow2Sum(k, 32 - k);
    Pow2Of32();
    QuotientBound(w, Pow2(k), Pow2(32 - k));
    hide Shr, Pow2;
  }

  lemma QuotientBound(w: nat, a: nat, p: nat)
    requires p >= 1 && w < a * p
    ensures w / p < a
  {
    DivMod(w, p);
    var q := w / p;
    if q >= a {
      MulMono(p, a, q);
    }
  }

  lemma EntersLeft(cfg: Config, w: Word, k: nat, n: nat)
    requires !cfg.outRight && !cfg.inRight && k + n <= 32 && 1 <= n < 32
    ensures Entered(cfg, Shr(w, 32 - k), Shr(Shl(w, k), 32 - n), n) == Shr(w, 32 - k - n)
  {
    hide Shr, Shl, LowBits, Pow2;
    SliceLeft(w, k, n);
    TopSlice(w, k, n);
    LowBitsIs(Shr(w, 32 - k - n), n);
    LowBitsOfSlice(Shr(w, 32 - k - n), n);
    ShrTopBound(w, k);
    ShlFits(Shr(w, 32 - k), k, n);
  }

  lemma EntersReversedLeft(cfg: Config, w: Word, k: nat)
    requires cfg.outRight && !cfg.inRight && k < 32
    ensures Rev(w, k) < WORD_SIZE && Rev(w, k + 1) < WORD_SIZE
    ensures Entered(cfg, Rev(w, k), LowBits(Shr(w, k), 1), 1) == Rev(w, k + 1)
  {
    RevWord(w, k);
    RevWord(w, k + 1);
    RevSnoc(w, k);
    ShrIs(w, k);
    LowBit(Shr(w, k));
    LowBitsOfSlice(Shr(w, k), 1);
    RevBound(w, k);
    Double(Rev(w, k), k);
    hide *;
    EnteredLeft(cfg, Rev(w, k), LowBits(Shr(w, k), 1), 1, Rev(w, k + 1));
  }

  lemma LowBit(v: nat)
    ensures LowBits(v, 1) == v % 2
  {
    assert LowBits(v / 2, 0) == 0;
  }

  lemma Double(v: Word, k: nat)
    requires k < 32 && v < Pow2(k)
    ensures Shl(v, 1) == 2 * v
  {
    ShlFits(v, k, 1);
    assert Pow2(1) == 2;
  }

  lemma RevWord(w: nat, k: nat)
    requires k <= 32
    ensures Rev(w, k) < WORD_SIZE
  {
    RevBound(w, k);
    PowBound(k);
  }

  lemma PowBound(k: nat)
    requires k <= 32
    ensures Pow2(k) <= WORD_SIZE
  {
    hide *;
    Pow2Sum(k, 32 - k);
    Pow2Of32();
    MulGrows(Pow2(32 - k), Pow2(k));
  }

  lemma EntersReversedRight(cfg: Config, w: Word, k: nat)
    requires !cfg.outRight && cfg.inRight && k < 32
    ensures IsrAt(cfg, w, k) < WORD_SIZE && IsrAt(cfg, w, k + 1) < WORD_SIZE
    ensures Entered(cfg, IsrAt(cfg, w, k), Shr(Shl(w, k), 31), 1) == IsrAt(cfg, w, k + 1)
  {
    hide Shr, Shl, LowBits, Rev, Pow2, Times, Entered;
    var v := Shr(w, 31 - k);
    ShrShr(w, 31 - k, 1);
    ShrOne(v);
    TopSlice(w, k, 1);
    PowOne();
    LowBit(v);
    LowBitsOfSlice(v, 1);
    ReversedFits(v / 2, k);
    ReversedFits(v, k + 1);
    ReversedStep(v, k);
    EnteredRight(cfg, Times(Rev(v / 2, k), Pow2(32 - k)), v % 2, 1, Times(Rev(v, k + 1), Pow2(31 - k)));
  }

  lemma ShrOne(v: nat)
    ensures Shr(v, 1) == v / 2
  {
    assert Shr(v / 2, 0) == v / 2;
  }

  lemma PowOne()
    ensures Pow2(1) == 2
  {
  }

  lemma ReversedFits(v: nat, k: nat)
    requires k <= 32
    ensures Times(Rev(v, k), Pow2(32 - k)) < WORD_SIZE
  {
    RevWord(v, k);
    RevBound(v, k);
    ShlFits(Rev(v, k), k, 32 - k);
  }

  /** The reversed top bits, held at the top of a word, take in one more. */
  lemma ReversedStep(v: nat, k: nat)
    requires k < 32
    ensures var isr := Times(Rev(v / 2, k), Pow2(32 - k));
            && isr < WORD_SIZE
            && Shr(isr, 1) + Shl(v % 2, 31) == Times(Rev(v, k + 1), Pow2(31 - k))
  {
    hide *;
    var (r, p, bit) := (Rev(v / 2, k), Pow2(31 - k), v % 2);
    ReversedFits(v / 2, k);
    TopBit(bit);
    Pow2Sum(k, 31 - k);
    Halve(r, p);
    Unfold(v, k);
    AddTopBit(bit, Pow2(k), p, r, Pow2(31));
  }

  lemma Unfold(v: nat, k: nat)
    requires k < 32
    ensures Rev(v, k + 1) == v % 2 * Pow2(k) + Rev(v / 2, k) && Pow2(32 - k) == 2 * Pow2(31 - k)
  {
  }

  lemma AddTopBit(bit: nat, q: nat, p: nat, r: nat, top: nat)
    requires top == q * p
    ensures r * p + bit * top == Times(bit * q + r, p)
  {
    SplitStep(bit, q, p, r);
  }

  lemma TopBit(bit: nat)
    requires bit < 2
    ensures Shl(bit, 31) == bit * Pow2(31)
  {
    assert Pow2(1) == 2;
    ShlFits(bit, 1, 31);
  }

  lemma Halve(r: nat, p: nat)
    ensures Shr(Times(r, 2 * p), 1) == r * p
  {
    var x := r * p;
    assert r * (2 * p) == 2 * x;
    assert Shr(2 * x, 1) == Shr(x, 0);
  }

  /** A slice leaves the OSR and enters the ISR: `k` bits done become `k + n`. */
  lemma SliceEnters(cfg: Config, w: Word, k: nat, n: nat)
    requires k + n <= 32 && 1 <= n < 32
    requires cfg.inRight == cfg.outRight || n == 1
    ensures IsrAt(cfg, w, k) < WORD_SIZE
    ensures Entered(cfg, IsrAt(cfg, w, k), OutValue(cfg, OsrAt(cfg, w, k), n), n) == IsrAt(cfg, w, k + n)
  {
    if cfg.outRight && cfg.inRight {
      EntersRight(cfg, w, k, n);
    } else if cfg.outRight {
      EntersReversedLeft(cfg, w, k);
    } else if cfg.inRight {
      EntersReversedRight(cfg, w, k);
    } else {
      EntersLeft(cfg, w, k, n);
    }
    hide Shr, Shl, LowBits, Rev, Times, Pow2, Entered;
  }

  /** Before the first slice the ISR is empty; after the last it holds the echo. */
  lemma IsrEnds(cfg: Config, w: Word)
    ensures IsrAt(cfg, w, 0) == 0 && IsrAt(cfg, w, 32) == Echo(cfg, w)
  {
    ShrTopBound(w, 0);
    ShlTop(w, 0);
    BitReverseIsRev(w);
    assert Pow2(0) == 1 && Rev(w, 0) == 0 && Rev(Shr(w, 32), 0) == 0;
    assert Shl(w, 0) == w && Shr(w, 0) == w;
    hide BitReverse, Rev, Shr, Shl;
  }

  lemma WholeWord(cfg: Config, w: Word)
    ensures OsrAt(cfg, w, 0) == w && OutValue(cfg, w, 32) == w
  {
  }

  lemma ShiftInIsEntered(cfg: Config, c: Core, src: Word, n: nat)
    requires n < 32
    ensures ShiftIn(cfg, c, src, n) == c.(isr := Entered(cfg, c.isr, src, n), isrCount := AddCount(c.isrCount, n))
  {
    hide Shr, Shl, LowBits;
  }

  lemma CountFits(k: nat, n: nat)
    requires k + n <= 32
    ensures AddCount(k, n) == k + n
  {
  }

  lemma EchoSame(cfg: Config, w: Word)
    requires cfg.inRight == cfg.outRight
    ensures Echo(cfg, w) == w
  {
  }

  /** IN after OUT of the same slice. */
  lemma InTakesSlice(cfg: Config, c: Core, w: Word, k: nat, n: nat)
    requires k + n <= 32 && 1 <= n && (n == 32 ==> k == 0)
    requires cfg.inRight == cfg.outRight || n == 1
    requires c.isrCount == k && c.isr == IsrAt(cfg, w, k) && c.x == OutValue(cfg, OsrAt(cfg, w, k), n)
    ensures IsrAt(cfg, w, k + n) < WORD_SIZE
    ensures ShiftIn(cfg, c, c.x, n) == c.(isr := IsrAt(cfg, w, k + n), isrCount := k + n)
  {
    if n < 32 {
      SliceEnters(cfg, w, k, n);
      ShiftInIsEntered(cfg, c, c.x, n);
      hide *;
      assert AddCount(k, n) == k + n by { CountFits(k, n); }
    } else {
      WholeWord(cfg, w);
      IsrEnds(cfg, w);
      hide IsrAt, OsrAt, OutValue, Echo;
      assert Echo(cfg, w) == w by { EchoSame(cfg, w); }
    }
  }

  /** OUT of the next slice. */
  lemma OutGivesSlice(cfg: Config, c: Core, w: Word, k: nat, n: nat)
    requires k + n <= 32 && 1 <= n
    requires c.osrCount == k && c.osr == OsrAt(cfg, w, k)
    ensures var c' := ShiftOut(cfg, c, n);
            && c' == c.(osr := c'.osr, osrCount := k + n)
            && (k + n < 32 ==> c'.osr == OsrAt(cfg, w, k + n))
  {
    OsrStep(cfg, w, k, n);
  }
}
