/** What the shifts and the bit-reversal network compute, as arithmetic: sums of
    disjoint fields, quotients and remainders by powers of two, and the reversal
    of the 32 bits of a word. */
module WordLemmas {
  import opened Words

  // --------------------------------------------------- division and modulo

  lemma DivUnique(a: nat, b: nat, q: nat, r: nat)
    requires a == b * q + r && r < b
    ensures a / b == q && a % b == r
  {
    var q' := a / b;
    var r' := a % b;
    assert b * (q - q') == r' - r;
    if q > q' {
      assert b * (q - q') >= b by { MulLe(b, q - q'); }
    } else if q < q' {
      assert b * (q' - q) >= b by { MulLe(b, q' - q); }
    }
  }

  lemma MulLe(b: nat, k: nat)
    requires k >= 1
    ensures b * k >= b
  {
    assert b * k == b + b * (k - 1);
  }

  lemma Distrib(a: int, x: int, y: int)
    ensures a * (x + y) == a * x + a * y
  {
  }

  lemma Assoc(a: int, b: int, c: int)
    ensures a * (b * c) == (a * b) * c
  {
  }

  lemma NestedDigits(a: nat, b: nat, q: nat, r: nat, q2: nat, r2: nat)
    requires r < a && r2 < b && q == b * q2 + r2
    ensures a * q + r == (a * b) * q2 + (a * r2 + r)
    ensures a * r2 + r < a * b
  {
    Distrib(a, b * q2, r2);
    Assoc(a, b, q2);
    Distrib(a, r2, 1);
    MulMono(a, r2 + 1, b);
  }

  lemma DivMod(v: nat, a: nat)
    requires a >= 1
    ensures v / a >= 0 && 0 <= v % a < a && v == a * (v / a) + v % a
  {
    DivLe(v, a);
  }

  lemma DivDiv(v: nat, a: nat, b: nat)
    requires a >= 1 && b >= 1
    ensures a * b >= 1 && v / a >= 0
    ensures v / a / b == v / (a * b)
    ensures v % (a * b) == v % a + a * (v / a % b)
  {
    MulLe(a, b);
    DivMod(v, a);
    var (q, r) := (v / a, v % a);
    DivMod(q, b);
    var (q2, r2) := (q / b, q % b);
    NestedDigits(a, b, q, r, q2, r2);
    DivUnique(v, a * b, q2, a * r2 + r);
  }

  /** Dividing in two steps with the remainder carried over. */
  lemma Carried(x: nat, y: nat, p: nat)
    requires p >= 1
    ensures x / p >= 0 && x % p >= 0
    ensures x / p + (x % p + y) / p == (x + y) / p && (x % p + y) % p == (x + y) % p
  {
    DivMod(x, p);
    DivMod(x % p + y, p);
    Distrib(p, x / p, (x % p + y) / p);
    DivUnique(x + y, p, x / p + (x % p + y) / p, (x % p + y) % p);
  }

  /** Counting on by one: the remainder moves, or it turns over and the quotient moves. */
  lemma CountOn(x: nat, p: nat)
    requires p >= 1
    ensures x / p >= 0 && x % p >= 0
    ensures if x % p + 1 == p then (x + 1) % p == 0 && (x + 1) / p == x / p + 1
            else (x + 1) % p == x % p + 1 && (x + 1) / p == x / p
  {
    DivMod(x, p);
    Carried(x, 1, p);
    if x % p + 1 == p {
      DivUnique(x % p + 1, p, 1, 0);
    } else {
      DivUnique(x % p + 1, p, 0, x % p + 1);
    }
  }

  lemma MulMono(a: nat, x: nat, y: nat)
    requires x <= y
    ensures a * x <= a * y
  {
    assert a * y == a * x + a * (y - x);
  }

  /** Scaling number and modulus alike. */
  lemma ModScale(v: nat, m: nat, k: nat)
    requires m >= 1 && k >= 1
    ensures m * k >= 1 && v * k % (m * k) == v % m * k && v * k / (m * k) == v / m
  {
    MulLe(m, k);
    var (q, r) := (v / m, v % m);
    assert v * k == (m * k) * q + r * k by {
      assert v == m * q + r;
      assert (m * q + r) * k == (m * k) * q + r * k;
    }
    assert r * k < m * k by {
      assert (m - r) * k >= k by { MulLe(k, m - r); }
      assert m * k == r * k + (m - r) * k;
    }
    DivUnique(v * k, m * k, q, r * k);
  }

  // ------------------------------------------------------ powers and shifts

  lemma {:induction false} Pow2Sum(a: nat, b: nat)
    ensures Pow2(a + b) == Pow2(a) * Pow2(b)
  {
    if a > 0 {
      Pow2Sum(a - 1, b);
      assert 2 * (Pow2(a - 1) * Pow2(b)) == (2 * Pow2(a - 1)) * Pow2(b);
    }
  }

  lemma Pow2Of32()
    ensures Pow2(32) == WORD_SIZE
  {
    assert Pow2(8) == 256;
    Pow2Sum(8, 8);
    Pow2Sum(16, 16);
  }

  lemma {:induction false} ShrIs(v: nat, n: nat)
    ensures Shr(v, n) == v / Pow2(n)
  {
    if n > 0 {
      ShrIs(v / 2, n - 1);
      DivDiv(v, 2, Pow2(n - 1));
    }
  }

  lemma {:induction false} LowBitsIs(v: nat, n: nat)
    ensures LowBits(v, n) == v % Pow2(n)
  {
    if n > 0 {
      LowBitsIs(v / 2, n - 1);
      DivDiv(v, 2, Pow2(n - 1));
    }
  }

  lemma {:induction false} ShlIs(v: Word, n: nat)
    ensures Shl(v, n) == v * Pow2(n) % WORD_SIZE
    decreases n
  {
    if n > 0 {
      ShlIs(v * 2 % WORD_SIZE, n - 1);
      DoubledMod(v, Pow2(n - 1));
    }
  }

  lemma DoubledMod(v: nat, p: nat)
    ensures v * 2 % WORD_SIZE * p % WORD_SIZE == v * (2 * p) % WORD_SIZE
  {
    var q := v * 2 / WORD_SIZE;
    Distrib(p, v * 2, -WORD_SIZE * q);
    Assoc(WORD_SIZE, q, p);
    Assoc(v, 2, p);
    ModShift(v * (2 * p), q * p);
  }

  lemma ModShift(x: nat, k: nat)
    requires x - WORD_SIZE * k >= 0
    ensures (x - WORD_SIZE * k) % WORD_SIZE == x % WORD_SIZE
  {
    var y := x - WORD_SIZE * k;
    var (q, r) := (y / WORD_SIZE, y % WORD_SIZE);
    DivUnique(x, WORD_SIZE, q + k, r);
  }

  // --------------------------------------------------------- bit reversal

  /** The low `n` bits of `v` in reverse order. */
  function Rev(v: nat, n: nat): nat {
    if n == 0 then 0 else v % 2 * Pow2(n - 1) + Rev(v / 2, n - 1)
  }

  lemma {:induction false} RevBound(v: nat, n: nat)
    ensures Rev(v, n) < Pow2(n)
  {
    if n > 0 {
      RevBound(v / 2, n - 1);
      var p := Pow2(n - 1);
      assert v % 2 * p <= p by {
        if v % 2 == 0 {
        } else {
        }
      }
    }
  }

  /** One more bit enters at the bottom. */
  lemma {:induction false} RevSnoc(v: nat, n: nat)
    ensures Rev(v, n + 1) == 2 * Rev(v, n) + v / Pow2(n) % 2
  {
    if n > 0 {
      RevSnoc(v / 2, n - 1);
      DivDiv(v, 2, Pow2(n - 1));
      Assoc(v % 2, 2, Pow2(n - 1));
    }
  }

  lemma SplitStep(bit: nat, p: nat, q: nat, r: nat)
    ensures (bit * p + r) * q == bit * (p * q) + r * q
  {
    Assoc(bit, p, q);
    Distrib(q, bit * p, r);
  }

  /** The bits of `v` from bit `m` on. */
  function Upper(v: nat, m: nat): nat {
    DivLe(v, Pow2(m));
    v / Pow2(m)
  }

  /** The low half, reversed, becomes the high half. */
  lemma {:induction false} RevSplit(v: nat, m: nat, n: nat)
    ensures Rev(v, m + n) == Rev(v, m) * Pow2(n) + Rev(Upper(v, m), n)
  {
    if m > 0 {
      RevSplit(v / 2, m - 1, n);
      DivDiv(v, 2, Pow2(m - 1));
      Pow2Sum(m - 1, n);
      SplitStep(v % 2, Pow2(m - 1), Pow2(n), Rev(v / 2, m - 1));
    }
  }

  /** Each of `n` neighbouring groups of `m` bits reversed in place. */
  function RevGroups(v: nat, m: nat, n: nat): nat
    decreases n
  {
    if n == 0 then 0
    else
      DivLe(v, Pow2(m));
      Rev(v, m) + Times(Pow2(m), RevGroups(v / Pow2(m), m, n - 1))
  }

  lemma TwoGroups(v: nat, m: nat, n: nat)
    ensures var g := Pow2(m);
            && v / g >= 0 && v / g / g >= 0
            && RevGroups(v, m, n + 2) == Rev(v, m) + Times(g, Rev(v / g, m) + Times(g, RevGroups(v / g / g, m, n)))
  {
    DivLe(v, Pow2(m));
    DivLe(v / Pow2(m), Pow2(m));
    assert RevGroups(v / Pow2(m), m, n + 1)
        == Rev(v / Pow2(m), m) + Times(Pow2(m), RevGroups(v / Pow2(m) / Pow2(m), m, n));
  }

  /** Swapping the two lowest digits of a number. */
  lemma SwapStep(a: nat, b: nat, rest: nat, g: nat, n: nat)
    requires a < g && b < g
    ensures var w := a + Times(g, b + Times(g, rest));
            SwapGroups(w, g, n + 1) == b + Times(g, a + Times(g, SwapGroups(rest, g, n)))
  {
    var w := a + Times(g, b + Times(g, rest));
    DivUnique(w, g, b + g * rest, a);
    DivUnique(b + g * rest, g, rest, b);
  }

  /** Swapping neighbours of reversed m-bit groups leaves reversed 2m-bit groups. */
  lemma {:induction false} SwapDoubles(v: nat, m: nat, n: nat)
    ensures SwapGroups(RevGroups(v, m, 2 * n), Pow2(m), n) == RevGroups(v, 2 * m, n)
    decreases n
  {
    if n > 0 {
      hide Rev, Pow2, Times, RevGroups, SwapGroups;
      var g := Pow2(m);
      RevBound(v, m);
      DivLe(v, g);
      RevBound(v / g, m);
      TwoGroups(v, m, 2 * (n - 1));
      SwapDoubles(v / g / g, m, n - 1);
      DoubleGroup(v, m, n - 1);
      var rest := RevGroups(v / g / g, m, 2 * (n - 1));
      SwapStep(Rev(v, m), Rev(v / g, m), rest, g, n - 1);
      assert 2 * (n - 1) + 2 == 2 * n;
      assert RevGroups(v, m, 2 * n) == Rev(v, m) + Times(g, Rev(v / g, m) + Times(g, rest));
    }
  }

  lemma HeadGroup(v: nat, m: nat, n: nat)
    ensures v / Pow2(m) >= 0
    ensures RevGroups(v, m, n + 1) == Rev(v, m) + Times(Pow2(m), RevGroups(v / Pow2(m), m, n))
  {
    DivLe(v, Pow2(m));
  }

  lemma Regroup(g: nat, a: nat, b: nat, rest: nat)
    ensures (a * g + b) + (g * g) * rest == b + g * (a + g * rest)
  {
    Assoc(g, g, rest);
    Distrib(g, a, g * rest);
  }

  lemma DoubleGroup(v: nat, m: nat, n: nat)
    ensures var g := Pow2(m);
            && v / g >= 0 && v / g / g >= 0
            && RevGroups(v, 2 * m, n + 1)
                == Rev(v / g, m) + Times(g, Rev(v, m) + Times(g, RevGroups(v / g / g, 2 * m, n)))
  {
    var g := Pow2(m);
    HeadGroup(v, 2 * m, n);
    DivDiv(v, g, g);
    Pow2Sum(m, m);
    RevSplit(v, m, m);
    DivLe(v / g, g);
    hide RevGroups, Rev, Pow2;
    assert m + m == 2 * m;
    assert v / Pow2(2 * m) == v / g / g;
    Regroup(g, Rev(v, m), Rev(v / g, m), RevGroups(v / g / g, 2 * m, n));
  }

  lemma {:induction false} GroupsOfOne(v: nat, n: nat)
    requires v < Pow2(n)
    ensures RevGroups(v, 1, n) == v
  {
    if n > 0 {
      assert Pow2(1) == 2 && Rev(v, 1) == v % 2 * Pow2(0) + Rev(v / 2, 0);
      GroupsOfOne(v / 2, n - 1);
    }
  }

  /** The network reverses the 32 bits of a word. */
  lemma BitReverseIsRev(v: Word)
    ensures BitReverse(v) == Rev(v, 32)
  {
    Pow2Of32();
    GroupsOfOne(v, 32);
    assert Pow2(1) == 2 && Pow2(2) == 4 && Pow2(4) == 16 && Pow2(8) == 256;
    Pow2Sum(8, 8);
    SwapDoubles(v, 1, 16);
    SwapDoubles(v, 2, 8);
    SwapDoubles(v, 4, 4);
    SwapDoubles(v, 8, 2);
    SwapDoubles(v, 16, 1);
    hide SwapGroups, RevGroups, Rev, Pow2;
    FinalStage(v, RevGroups(v, 16, 2));
  }

  lemma FinalStage(v: Word, w: nat)
    requires Pow2(16) == 65536 && SwapGroups(w, Pow2(16), 1) == RevGroups(v, 32, 1)
    ensures w / 65536 % 65536 + 65536 * (w % 65536) == Rev(v, 32)
  {
    hide Rev, Pow2;
    assert SwapGroups(w / 65536 / 65536, 65536, 0) == 0;
  }
}
