/** 32-bit words as numbers, with shifts as multiplication and division by powers of two. */
module Words {

  const WORD_SIZE := 0x1_0000_0000

  type Word = x: int | 0 <= x < WORD_SIZE

  function Pow2(n: nat): (p: nat)
    ensures p >= 1
  {
    if n == 0 then 1 else 2 * Pow2(n - 1)
  }

  function Wrap(x: int): Word { x % WORD_SIZE }

  /** `v >> n` */
  function Shr(v: nat, n: nat): (r: nat)
    ensures r <= v
  {
    if n == 0 then v else Shr(v / 2, n - 1)
  }

  /** `v << n`, the bits above bit 31 lost */
  function Shl(v: Word, n: nat): Word
    decreases n
  {
    if n == 0 then v else Shl(v * 2 % WORD_SIZE, n - 1)
  }

  /** `v & ((1 << n) - 1)` */
  function LowBits(v: nat, n: nat): (r: nat)
    ensures r <= v
  {
    if n == 0 then 0 else v % 2 + 2 * LowBits(v / 2, n - 1)
  }

  function Not(v: Word): Word { WORD_SIZE - 1 - v }

  lemma DivLe(v: nat, p: nat)
    requires p >= 1
    ensures 0 <= v / p <= v
  {
    var q := v / p;
    assert q >= 0;
    MulGrows(p, q);
  }

  lemma MulGrows(p: nat, q: nat)
    requires p >= 1
    ensures q <= p * q
  {
    assert p * q == q + (p - 1) * q;
  }

  lemma ModLe(v: nat, p: nat)
    requires p >= 1
    ensures 0 <= v % p <= v && v % p < p
  {
    if v < p {
      assert v / p == 0;
    }
  }

  // -------------------------------------------------------- bit reversal

  /** Exchange neighbouring digits of base `g`, `n` pairs of them: the source's
      `((v & high) >> k) | ((v & low) << k)` for g == 2^k and its pair of masks. */
  function SwapGroups(v: nat, g: nat, n: nat): nat
    requires g >= 1
    decreases n
  {
    if n == 0 then 0
    else
      DivLe(v, g);
      DivLe(v / g, g);
      v / g % g + Times(g, v % g + Times(g, SwapGroups(v / g / g, g, n - 1)))
  }

  function Times(a: nat, b: nat): nat { a * b }

  /** The mask-and-shift network: neighbours of 1, 2, 4, 8 and at last 16 bits swap. */
  function BitReverse(v: Word): Word {
    var v4 := SwapGroups(SwapGroups(SwapGroups(SwapGroups(v, 2, 16), 4, 8), 16, 4), 256, 2);
    v4 / 65536 % 65536 + 65536 * (v4 % 65536)
  }
}
