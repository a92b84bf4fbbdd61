/** ARMv6-M arithmetic. */
module Alu {
  // AddWithCarry, the instructions and multi-word chains built on it, and what the
  // condition codes mean after a comparison.
  import opened Words
  import opened WordLemmas
  import opened RegisterModel

  datatype AddResult = AddResult(value: Word, carry: bool, overflow: bool)

  const HALF: int := 0x8000_0000

  predicate Negative(v: Word) { v >= HALF }

  function AddWithCarry(x: Word, y: Word, cin: bool): AddResult {
    var sum := x + y + if cin then 1 else 0;
    var value := Wrap(sum);
    AddResult(value, sum / WORD_SIZE != 0, Negative(x) == Negative(y) && Negative(x) != Negative(value))
  }

  datatype ArithOp = ADDS | ADCS | SUBS | SBCS | CMP

  function SetFlags(g: Regs, r: AddResult): Regs {
    g.(n := Negative(r.value), z := r.value == 0, c := r.carry, v := r.overflow)
  }

  /** A flag-setting register instruction on low registers: rd := rn op rm. */
  function Execute(g: Regs, op: ArithOp, rd: nat, rn: nat, rm: nat): Regs
    requires |g.r| == 13 && rd < 8 && rn < 8 && rm < 8
  {
    var r := Compute(op, g.r[rn], g.r[rm], g.c);
    SetFlags(if op.CMP? then g else g.(r := g.r[rd := r.value]), r)
  }

  /** ADDS, SUBS and CMP supply their own carry; ADCS and SBCS take the flag. */
  function Compute(op: ArithOp, x: Word, y: Word, carry: bool): AddResult {
    match op
    case ADDS => AddWithCarry(x, y, false)
    case ADCS => AddWithCarry(x, y, carry)
    case SUBS => AddWithCarry(x, Not(y), true)
    case SBCS => AddWithCarry(x, Not(y), carry)
    case CMP => AddWithCarry(x, Not(y), true)
  }

  /** Two's-complement reading of a word. */
  function Signed(v: Word): int { if Negative(v) then v - WORD_SIZE else v }

  function Unit(b: bool): nat { if b then 1 else 0 }

  /** The result and carry are the exact sum; overflow says the signed sum does not fit. */
  lemma AddExact(x: Word, y: Word, cin: bool)
    ensures var r := AddWithCarry(x, y, cin);
            && r.value + WORD_SIZE * Unit(r.carry) == x + y + Unit(cin)
            && (r.overflow <==> !(-HALF <= Signed(x) + Signed(y) + Unit(cin) < HALF))
            && (!r.overflow ==> Signed(r.value) == Signed(x) + Signed(y) + Unit(cin))
  {
  }

  /** The exact result of an operation on two readings of its operands. */
  function Exact(op: ArithOp, x: int, y: int, carry: bool): int {
    match op
    case ADDS => x + y
    case ADCS => if carry then x + y + 1 else x + y
    case SBCS => if carry then x - y else x - y - 1
    case _ => x - y
  }

  /** An instruction writes its exact result modulo 2^32 to `rd` alone, CMP nowhere; N
      and Z tell the word's sign and zero, C that the unsigned sum does not fit or
      the difference does not borrow, V that the signed result does not fit. */
  lemma ExecuteMeans(g: Regs, op: ArithOp, rd: nat, rn: nat, rm: nat)
    requires |g.r| == 13 && rd < 8 && rn < 8 && rm < 8
    ensures var (x, y, h) := (g.r[rn], g.r[rm], Execute(g, op, rd, rn, rm));
            var e := Exact(op, x, y, g.c);
            var signed := Exact(op, Signed(x), Signed(y), g.c);
            && h == g.(r := h.r, n := h.n, z := h.z, c := h.c, v := h.v)
            && h.r == (if op == CMP then g.r else g.r[rd := Wrap(e)])
            && (h.n <==> Wrap(e) >= 0x8000_0000) && (h.z <==> Wrap(e) == 0)
            && (h.c <==> if op == ADDS || op == ADCS then e >= 0x1_0000_0000 else e >= 0)
            && (h.v <==> signed < 0 - 0x8000_0000 || signed >= 0x8000_0000)
  {
    var (x, y) := (g.r[rn], g.r[rm]);
    ComputeMeans(op, x, y, g.c);
    hide Compute, Exact, Signed, Wrap;
  }

  lemma ComputeMeans(op: ArithOp, x: Word, y: Word, carry: bool)
    ensures var r := Compute(op, x, y, carry);
            var (e, signed) := (Exact(op, x, y, carry), Exact(op, Signed(x), Signed(y), carry));
            && r.value == Wrap(e)
            && (r.carry <==> if op == ADDS || op == ADCS then e >= 0x1_0000_0000 else e >= 0)
            && (r.overflow <==> signed < 0 - 0x8000_0000 || signed >= 0x8000_0000)
  {
    hide AddWithCarry;
    if op == ADDS || op == ADCS {
      SumMeans(x, y, op == ADCS && carry);
    } else {
      DifferenceMeans(x, y, op != SBCS || carry);
    }
    hide Signed, Wrap;
  }

  lemma SumMeans(x: Word, y: Word, cin: bool)
    ensures var r := AddWithCarry(x, y, cin);
            var (e, signed) := (x + y + Unit(cin), Signed(x) + Signed(y) + Unit(cin));
            && r.value == Wrap(e) && (r.carry <==> e >= 0x1_0000_0000)
            && (r.overflow <==> signed < 0 - 0x8000_0000 || signed >= 0x8000_0000)
  {
    AddExact(x, y, cin);
    hide AddWithCarry, Signed;
  }

  lemma DifferenceMeans(x: Word, y: Word, cin: bool)
    ensures var r := AddWithCarry(x, Not(y), cin);
            var (e, signed) := (x - y - (1 - Unit(cin)), Signed(x) - Signed(y) - (1 - Unit(cin)));
            && r.value == Wrap(e) && (r.carry <==> e >= 0)
            && (r.overflow <==> signed < 0 - 0x8000_0000 || signed >= 0x8000_0000)
  {
    AddExact(x, Not(y), cin);
    assert Signed(Not(y)) == -1 - Signed(y);
    hide AddWithCarry, Signed;
  }

  // ------------------------------------------------------------ big numbers

  /** The number with the given 32-bit limbs, least significant first. */
  function Big(limbs: seq<Word>): nat {
    if limbs == [] then 0 else limbs[0] + Times(WORD_SIZE, Big(limbs[1..]))
  }

  /** 2 to the 32 n. */
  function BigSize(n: nat): (p: nat)
    ensures p >= 1
  {
    if n == 0 then 1 else WORD_SIZE * BigSize(n - 1)
  }

  /** One op for the first limbs, another, taking the carry, for the rest. */
  function Chain(first: ArithOp, next: ArithOp, a: seq<Word>, b: seq<Word>, carry: bool): (r: (seq<Word>, bool))
    requires |a| == |b|
    ensures |r.0| == |a|
    decreases |a|
  {
    if a == [] then ([], carry)
    else
      var s := Compute(first, a[0], b[0], carry);
      var (rest, c) := Chain(next, next, a[1..], b[1..], s.carry);
      ([s.value] + rest, c)
  }

  lemma ChainStep(first: ArithOp, next: ArithOp, a: seq<Word>, b: seq<Word>, carry: bool)
    requires |a| == |b| && a != []
    ensures var s := Compute(first, a[0], b[0], carry);
            var (rest, c) := Chain(next, next, a[1..], b[1..], s.carry);
            var (all, c') := Chain(first, next, a, b, carry);
            && c' == c && |rest| == |a| - 1 && Big(all) == s.value + Times(WORD_SIZE, Big(rest))
  {
    var s := Compute(first, a[0], b[0], carry);
    var (rest, c) := Chain(next, next, a[1..], b[1..], s.carry);
    assert ([s.value] + rest)[1..] == rest;
  }

  lemma {:induction false} BigBound(a: seq<Word>)
    ensures Big(a) < BigSize(|a|)
  {
    if a != [] {
      BigBound(a[1..]);
    }
  }

  /** The carry with which `op` starts. */
  function CarryIn(op: ArithOp, carry: bool): bool {
    match op
    case ADDS => false
    case SUBS => true
    case CMP => true
    case _ => carry
  }

  /** One limb of a sum and of a difference. */
  lemma AddLimb(op: ArithOp, a: Word, b: Word, carry: bool)
    requires op in {ADDS, ADCS}
    ensures var r := Compute(op, a, b, carry);
            r.value + (if r.carry then WORD_SIZE else 0) == a + b + Unit(CarryIn(op, carry))
  {
    hide AddWithCarry;
    AddExact(a, b, CarryIn(op, carry));
  }

  lemma SubLimb(op: ArithOp, a: Word, b: Word, carry: bool)
    requires op in {SUBS, SBCS}
    ensures var r := Compute(op, a, b, carry);
            r.value == a - b - (1 - Unit(CarryIn(op, carry))) + (if r.carry then 0 else WORD_SIZE)
  {
    hide AddWithCarry;
    AddExact(a, Not(b), CarryIn(op, carry));
  }

  /** ADDS then repeated ADCS adds: the limbs hold the sum modulo 2^(32 n), C is the carry out. */
  lemma {:induction false} AddChainAdds(first: ArithOp, a: seq<Word>, b: seq<Word>, carry: bool)
    requires |a| == |b| && first in {ADDS, ADCS} && (a == [] ==> first == ADCS)
    ensures var (s, c) := Chain(first, ADCS, a, b, carry);
            Big(s) + (if c then BigSize(|a|) else 0) == Big(a) + Big(b) + Unit(CarryIn(first, carry))
    decreases |a|
  {
    if a != [] {
      hide AddWithCarry, Chain, Compute;
      var r := Compute(first, a[0], b[0], carry);
      AddLimb(first, a[0], b[0], carry);
      AddChainAdds(ADCS, a[1..], b[1..], r.carry);
      ChainStep(first, ADCS, a, b, carry);
    }
  }

  /** SUBS then repeated SBCS subtracts: the limbs hold the difference modulo
      2^(32 n), and C is set exactly when there is no borrow. */
  lemma {:induction false} SubChainSubtracts(first: ArithOp, a: seq<Word>, b: seq<Word>, carry: bool)
    requires |a| == |b| && first in {SUBS, SBCS} && (a == [] ==> first == SBCS)
    ensures var (s, c) := Chain(first, SBCS, a, b, carry);
            var cin := CarryIn(first, carry);
            && Big(s) == Big(a) - Big(b) - (1 - Unit(cin)) + (if c then 0 else BigSize(|a|))
            && (cin ==> (c <==> Big(a) >= Big(b)))
    decreases |a|
  {
    if a != [] {
      hide AddWithCarry, Chain, Compute;
      var r := Compute(first, a[0], b[0], carry);
      SubLimb(first, a[0], b[0], carry);
      SubChainSubtracts(SBCS, a[1..], b[1..], r.carry);
      ChainStep(first, SBCS, a, b, carry);
    }
    BigBound(Chain(first, SBCS, a, b, carry).0);
  }

  // -------------------------------------------------------------- conditions

  /** ConditionPassed: bits [3:1] select a test, bit 0 inverts it, except in 0b1111. */
  predicate ConditionHolds(g: Regs, cond: nat) {
    var holds :=
      match cond / 2
      case 0 => g.z
      case 1 => g.c
      case 2 => g.n
      case 3 => g.v
      case 4 => g.c && !g.z
      case 5 => g.n == g.v
      case 6 => g.n == g.v && !g.z
      case _ => true;
    if cond % 2 == 1 && cond != 15 then !holds else holds
  }

  /** The flags CMP leaves. */
  function Compare(g: Regs, a: Word, b: Word): Regs { SetFlags(g, Compute(CMP, a, b, g.c)) }

  /** After CMP a, b every condition decides its relation: EQ/NE, the unsigned
      CS/CC/HI/LS and the signed GE/LT/GT/LE; MI/PL give the sign of the wrapped
      difference and VS/VC whether the signed difference overflows. */
  lemma ConditionsAfterCompare(g: Regs, a: Word, b: Word)
    ensures var f := Compare(g, a, b);
            var (x, y) := (Signed(a), Signed(b));
            && ConditionHolds(f, 0) == (a == b) && ConditionHolds(f, 1) == (a != b)
            && ConditionHolds(f, 2) == (a >= b) && ConditionHolds(f, 3) == (a < b)
            && ConditionHolds(f, 4) == Negative(Wrap(a - b)) && ConditionHolds(f, 5) == !Negative(Wrap(a - b))
            && ConditionHolds(f, 6) == !(-HALF <= x - y < HALF) && ConditionHolds(f, 7) == (-HALF <= x - y < HALF)
            && ConditionHolds(f, 8) == (a > b) && ConditionHolds(f, 9) == (a <= b)
            && ConditionHolds(f, 10) == (x >= y) && ConditionHolds(f, 11) == (x < y)
            && ConditionHolds(f, 12) == (x > y) && ConditionHolds(f, 13) == (x <= y)
            && ConditionHolds(f, 14)
  {
    var r := AddWithCarry(a, Not(b), true);
    AddExact(a, Not(b), true);
    assert r.value == if a >= b then a - b else a - b + WORD_SIZE;
    assert Wrap(a - b) == r.value;
    hide AddWithCarry, Wrap;
  }
}
