/** The CPU's memory bus as a value. */
module MemoryBus {
  // ROM, flash and SRAM bytes, little-endian accesses of 1, 2 or 4 bytes,
  // alignment and write protection.  No peripheral is attached.
  import opened Words

  type Byte = x: int | 0 <= x < 0x100

  const ROM_BASE: nat := 0
  const ROM_SIZE: nat := 0x4000
  const FLASH_BASE: nat := 0x1000_0000
  const FLASH_SIZE: nat := 0x20_0000
  const SRAM_BASE: nat := 0x2000_0000
  const SRAM_SIZE: nat := 0x4_2000

  datatype BusStatus = Ok | MisalignedAccess | InvalidAddress | WriteToReadOnly

  datatype Mem = Mem(rom: seq<Byte>, flash: seq<Byte>, sram: seq<Byte>) {
    predicate Valid() { |rom| == ROM_SIZE && |flash| == FLASH_SIZE && |sram| == SRAM_SIZE }
  }

  /** The span [addr, addr + n) lies inside [base, base + size). */
  predicate ContainsSpan(base: nat, size: nat, addr: nat, n: nat) {
    n <= size && addr >= base && addr - base <= size - n
  }

  predicate InSram(addr: nat, n: nat) { ContainsSpan(SRAM_BASE, SRAM_SIZE, addr, n) }

  predicate Backed(addr: nat, n: nat) {
    ContainsSpan(ROM_BASE, ROM_SIZE, addr, n) || ContainsSpan(FLASH_BASE, FLASH_SIZE, addr, n) || InSram(addr, n)
  }

  /** The byte at an address, 0 where nothing is mapped. */
  function ByteAt(m: Mem, a: nat): Byte
    requires m.Valid()
  {
    if ContainsSpan(ROM_BASE, ROM_SIZE, a, 1) then m.rom[a - ROM_BASE]
    else if ContainsSpan(FLASH_BASE, FLASH_SIZE, a, 1) then m.flash[a - FLASH_BASE]
    else if InSram(a, 1) then m.sram[a - SRAM_BASE]
    else 0
  }

  /** Little-endian value of `n` bytes. */
  function ValueAt(m: Mem, a: nat, n: nat): nat
    requires m.Valid()
    decreases n
  {
    if n == 0 then 0 else ByteAt(m, a) + 256 * ValueAt(m, a + 1, n - 1)
  }

  predicate Aligned(addr: nat, n: nat) {
    n == 1 || (n == 2 && addr % 2 == 0) || (n == 4 && addr % 4 == 0)
  }

  function ReadStatus(addr: nat, n: nat): BusStatus
    requires n in {1, 2, 4}
  {
    if !Aligned(addr, n) then MisalignedAccess else if Backed(addr, n) then Ok else InvalidAddress
  }

  function WriteStatus(addr: nat, n: nat): BusStatus
    requires n in {1, 2, 4}
  {
    if !Aligned(addr, n) then MisalignedAccess
    else if !Backed(addr, n) then InvalidAddress
    else if InSram(addr, n) then Ok else WriteToReadOnly
  }

  /** SRAM with the low `n` bytes of `v` stored at offset `o`, lowest first. */
  function Patch(s: seq<Byte>, o: nat, v: nat, n: nat): (r: seq<Byte>)
    requires o + n <= |s|
    ensures |r| == |s|
    decreases n
  {
    if n == 0 then s else Patch(s[o := v % 256], o + 1, v / 256, n - 1)
  }

  /** A write that the bus accepts. */
  function Store(m: Mem, addr: nat, v: nat, n: nat): (m': Mem)
    requires m.Valid() && InSram(addr, n)
    ensures m'.Valid()
  {
    m.(sram := Patch(m.sram, addr - SRAM_BASE, v, n))
  }

  function Write(m: Mem, addr: nat, v: nat, n: nat): (m': Mem)
    requires m.Valid() && n in {1, 2, 4}
    ensures m'.Valid()
  {
    if WriteStatus(addr, n) == Ok then Store(m, addr, v, n) else m
  }

  // ------------------------------------------------------------------ laws

  /** Byte `i` of a value, lowest first. */
  function ByteOf(v: nat, i: nat): Byte
    decreases i
  {
    if i == 0 then v % 256 else ByteOf(v / 256, i - 1)
  }

  lemma {:induction false} PatchAt(s: seq<Byte>, o: nat, v: nat, n: nat, k: nat)
    requires o + n <= |s| && k < |s|
    ensures Patch(s, o, v, n)[k] == if o <= k < o + n then ByteOf(v, k - o) else s[k]
    decreases n
  {
    if n > 0 {
      PatchAt(s[o := v % 256], o + 1, v / 256, n - 1, k);
    }
  }

  /** A store changes exactly its own bytes. */
  lemma StoreByte(m: Mem, addr: nat, v: nat, n: nat, a: nat)
    requires m.Valid() && InSram(addr, n)
    ensures ByteAt(Store(m, addr, v, n), a) == if addr <= a < addr + n then ByteOf(v, a - addr) else ByteAt(m, a)
  {
    if InSram(a, 1) {
      PatchAt(m.sram, addr - SRAM_BASE, v, n, a - SRAM_BASE);
    }
  }

  /** Two memories agree on [a, a + n). */
  ghost predicate Agree(m: Mem, m': Mem, a: nat, n: nat)
    requires m.Valid() && m'.Valid()
  {
    forall k :: a <= k < a + n ==> ByteAt(m, k) == ByteAt(m', k)
  }

  lemma {:induction false} AgreeValue(m: Mem, m': Mem, a: nat, n: nat)
    requires m.Valid() && m'.Valid() && Agree(m, m', a, n)
    ensures ValueAt(m, a, n) == ValueAt(m', a, n)
    decreases n
  {
    if n > 0 {
      AgreeValue(m, m', a + 1, n - 1);
    }
  }

  lemma StoreElsewhere(m: Mem, addr: nat, v: nat, n: nat, a: nat, k: nat)
    requires m.Valid() && InSram(addr, n)
    requires a + k <= addr || addr + n <= a
    ensures Agree(m, Store(m, addr, v, n), a, k)
  {
    forall x | a <= x < a + k
      ensures ByteAt(m, x) == ByteAt(Store(m, addr, v, n), x)
    {
      StoreByte(m, addr, v, n, x);
    }
  }

  function Power256(n: nat): (p: nat)
    ensures p >= 1
  {
    if n == 0 then 1 else 256 * Power256(n - 1)
  }

  /** Reading bytes that hold the digits of `v` gives `v` modulo the width. */
  lemma {:induction false} DigitsValue(m: Mem, a: nat, v: nat, n: nat)
    requires m.Valid() && forall k :: 0 <= k < n ==> ByteAt(m, a + k) == ByteOf(v, k)
    ensures v < Power256(n) ==> ValueAt(m, a, n) == v
    decreases n
  {
    if n > 0 {
      forall k | 0 <= k < n - 1
        ensures ByteAt(m, a + 1 + k) == ByteOf(v / 256, k)
      {
        assert ByteAt(m, a + (k + 1)) == ByteOf(v, k + 1);
      }
      assert ByteAt(m, a + 0) == ByteOf(v, 0);
      DigitsValue(m, a + 1, v / 256, n - 1);
    }
  }

  /** A stored value reads back. */
  lemma ReadBack(m: Mem, addr: nat, v: nat, n: nat)
    requires m.Valid() && InSram(addr, n) && v < Power256(n)
    ensures ValueAt(Store(m, addr, v, n), addr, n) == v
  {
    var m' := Store(m, addr, v, n);
    forall k | 0 <= k < n
      ensures ByteAt(m', addr + k) == ByteOf(v, k)
    {
      StoreByte(m, addr, v, n, addr + k);
    }
    DigitsValue(m', addr, v, n);
  }

  lemma {:induction false} ValueBound(m: Mem, a: nat, n: nat)
    requires m.Valid()
    ensures ValueAt(m, a, n) < Power256(n)
    decreases n
  {
    if n > 0 {
      ValueBound(m, a + 1, n - 1);
    }
  }

  // ----------------------------------------------------------------- words

  predicate WordReadable(a: nat) { ReadStatus(a, 4) == Ok }

  predicate WordWritable(a: nat) { WriteStatus(a, 4) == Ok }

  function WordAt(m: Mem, a: nat): Word
    requires m.Valid()
  {
    ValueBound(m, a, 4);
    assert Power256(4) == 256 * (256 * (256 * (256 * Power256(0))));
    ValueAt(m, a, 4)
  }

  function StoreWord(m: Mem, a: nat, v: Word): (m': Mem)
    requires m.Valid() && WordWritable(a)
    ensures m'.Valid()
  {
    Store(m, a, v, 4)
  }

  lemma WordReadBack(m: Mem, a: nat, v: Word)
    requires m.Valid() && WordWritable(a)
    ensures WordReadable(a) && WordAt(StoreWord(m, a, v), a) == v
  {
    assert Power256(4) == 256 * (256 * (256 * (256 * Power256(0))));
    ReadBack(m, a, v, 4);
  }

  /** Equal bytes, equal words. */
  lemma AgreeWord(m: Mem, m': Mem, a: nat)
    requires m.Valid() && m'.Valid() && Agree(m, m', a, 4)
    ensures WordAt(m, a) == WordAt(m', a)
  {
    AgreeValue(m, m', a, 4);
  }
}
