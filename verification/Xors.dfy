/** Exclusive or of numbers, bit by bit, and its laws: it is associative and
    commutative, cancels, and commutes with shifts and with the reversal of a
    register. */
module Xors {
  import opened Words
  import opened WordLemmas

  function Xor(a: nat, b: nat): nat
    decreases a + b
  {
    if a == 0 && b == 0 then 0 else Differ(a, b) + 2 * Xor(a / 2, b / 2)
  }

  /** The exclusive or of the lowest bits. */
  function Differ(a: nat, b: nat): (bit: nat)
    ensures bit < 2
  {
    if a % 2 == b % 2 then 0 else 1
  }

  lemma XorUnfolds(a: nat, b: nat)
    ensures Xor(a, b) == Differ(a, b) + 2 * Xor(a / 2, b / 2)
  {
  }

  /** The recursion holds for zeros too. */
  lemma XorStep(a: nat, b: nat)
    ensures Xor(a, b) == Differ(a, b) + 2 * Xor(a / 2, b / 2)
    ensures Xor(a, b) % 2 == Differ(a, b) && Xor(a, b) / 2 == Xor(a / 2, b / 2)
  {
    hide Differ;
    XorUnfolds(a, b);
    Halves(Xor(a, b), Xor(a / 2, b / 2), Differ(a, b));
  }

  lemma Halves(v: nat, h: nat, bit: nat)
    requires v == 2 * h + bit && bit < 2
    ensures v / 2 == h && v % 2 == bit
  {
  }

  lemma {:induction false} XorComm(a: nat, b: nat)
    ensures Xor(a, b) == Xor(b, a)
    decreases a + b
  {
    if a != 0 || b != 0 {
      XorComm(a / 2, b / 2);
    }
  }

  lemma {:induction false} XorZero(a: nat)
    ensures Xor(a, 0) == a && Xor(0, a) == a
  {
    if a != 0 {
      XorZero(a / 2);
    }
  }

  lemma {:induction false} XorSelf(a: nat)
    ensures Xor(a, a) == 0
  {
    if a != 0 {
      XorSelf(a / 2);
    }
  }

  lemma DifferAssoc(a: nat, b: nat, c: nat)
    ensures Differ(Xor(a, b), c) == Differ(a, Xor(b, c))
  {
    XorStep(a, b);
    XorStep(b, c);
  }

  lemma {:induction false} XorAssoc(a: nat, b: nat, c: nat)
    ensures Xor(Xor(a, b), c) == Xor(a, Xor(b, c))
    decreases a + b + c
  {
    if a != 0 || b != 0 || c != 0 {
      hide Xor;
      XorStep(a, b);
      XorStep(b, c);
      XorStep(Xor(a, b), c);
      XorStep(a, Xor(b, c));
      XorAssoc(a / 2, b / 2, c / 2);
      DifferAssoc(a, b, c);
    }
  }

  /** Four operands regrouped: `(a ^ b) ^ (c ^ d) == (a ^ c) ^ (b ^ d)` */
  lemma XorRegroup(a: nat, b: nat, c: nat, d: nat)
    ensures Xor(Xor(a, b), Xor(c, d)) == Xor(Xor(a, c), Xor(b, d))
  {
    hide Xor;
    XorAssoc(a, b, Xor(c, d));
    XorAssoc(b, c, d);
    XorComm(b, c);
    XorAssoc(c, b, d);
    XorAssoc(a, c, Xor(b, d));
  }

  lemma {:induction false} XorBound(a: nat, b: nat, n: nat)
    requires a < Pow2(n) && b < Pow2(n)
    ensures Xor(a, b) < Pow2(n)
    decreases n
  {
    if n > 0 {
      XorStep(a, b);
      XorBound(a / 2, b / 2, n - 1);
    }
  }

  /** Bit `n` of an exclusive or. */
  lemma {:induction false} XorBit(a: nat, b: nat, n: nat)
    ensures Xor(a, b) / Pow2(n) % 2 == Differ(a / Pow2(n), b / Pow2(n))
    decreases n
  {
    XorStep(a, b);
    if n > 0 {
      XorBit(a / 2, b / 2, n - 1);
      DivDiv(a, 2, Pow2(n - 1));
      DivDiv(b, 2, Pow2(n - 1));
      DivDiv(Xor(a, b), 2, Pow2(n - 1));
    }
  }

  lemma XorJoin(x: nat, a: nat, y: nat, b: nat)
    requires x < 2 && y < 2
    ensures Xor(x + 2 * a, y + 2 * b) == Differ(x, y) + 2 * Xor(a, b)
  {
    hide Xor;
    Halves(x + 2 * a, a, x);
    Halves(y + 2 * b, b, y);
    XorStep(x + 2 * a, y + 2 * b);
  }

  lemma LowStep(v: nat, n: nat)
    requires n > 0
    ensures LowBits(v, n) == v % 2 + 2 * LowBits(v / 2, n - 1)
  {
  }

  lemma DifferLow(a: nat, b: nat)
    ensures Differ(a % 2, b % 2) == Differ(a, b)
  {
  }

  lemma {:induction false} XorLow(a: nat, b: nat, n: nat)
    ensures LowBits(Xor(a, b), n) == Xor(LowBits(a, n), LowBits(b, n))
    decreases n
  {
    if n > 0 {
      hide *;
      LowStep(a, n);
      LowStep(b, n);
      LowStep(Xor(a, b), n);
      XorStep(a, b);
      XorLow(a / 2, b / 2, n - 1);
      XorJoin(a % 2, LowBits(a / 2, n - 1), b % 2, LowBits(b / 2, n - 1));
      DifferLow(a, b);
    } else {
      XorZero(0);
    }
  }

  /** `& (2^n - 1)` goes through an exclusive or. */
  lemma XorMod(a: nat, b: nat, n: nat)
    ensures Xor(a, b) % Pow2(n) == Xor(a % Pow2(n), b % Pow2(n))
  {
    XorLow(a, b, n);
    LowBitsIs(a, n);
    LowBitsIs(b, n);
    LowBitsIs(Xor(a, b), n);
  }

  lemma XorDouble(a: nat, b: nat)
    ensures Xor(2 * a, 2 * b) == 2 * Xor(a, b)
  {
    XorJoin(0, a, 0, b);
  }

  lemma Scaled(a: nat, k: nat)
    requires k > 0
    ensures a * Pow2(k) == 2 * (a * Pow2(k - 1)) && a * Pow2(k - 1) >= 0
  {
    Assoc(a, 2, Pow2(k - 1));
  }

  lemma {:induction false} XorScale(a: nat, b: nat, k: nat)
    ensures Xor(a * Pow2(k), b * Pow2(k)) == Xor(a, b) * Pow2(k)
    decreases k
  {
    hide Xor;
    if k > 0 {
      XorScale(a, b, k - 1);
      Scaled(a, k);
      Scaled(b, k);
      Scaled(Xor(a, b), k);
      XorDouble(a * Pow2(k - 1), b * Pow2(k - 1));
    }
  }

  /** Reversal of `n` bits goes through an exclusive or. */
  lemma {:induction false} XorRev(a: nat, b: nat, n: nat)
    ensures Rev(Xor(a, b), n) == Xor(Rev(a, n), Rev(b, n))
    decreases n
  {
    if n > 0 {
      hide Xor, Rev;
      XorRev(a, b, n - 1);
      RevSnoc(a, n - 1);
      RevSnoc(b, n - 1);
      RevSnoc(Xor(a, b), n - 1);
      XorBit(a, b, n - 1);
      XorStep(Rev(a, n), Rev(b, n));
      Halves(Rev(a, n), Rev(a, n - 1), a / Pow2(n - 1) % 2);
      Halves(Rev(b, n), Rev(b, n - 1), b / Pow2(n - 1) % 2);
    } else {
      XorZero(0);
    }
  }
}
