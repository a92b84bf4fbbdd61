/** The memory as an object: byte arrays read and written in loops. */
module MemoryObject {
  import opened Words
  import opened WordLemmas
  import opened MemoryBus

  lemma {:induction false} ValueSnoc(m: Mem, a: nat, n: nat)
    requires m.Valid()
    ensures ValueAt(m, a, n + 1) == ValueAt(m, a, n) + ByteAt(m, a + n) * Power256(n)
    decreases n
  {
    hide ByteAt;
    if n > 0 {
      ValueSnoc(m, a + 1, n - 1);
      assert ValueAt(m, a, n + 1) == ByteAt(m, a) + 256 * ValueAt(m, a + 1, n);
      Assoc(ByteAt(m, a + n), 256, Power256(n - 1));
    } else {
      assert ValueAt(m, a + 1, 0) == 0;
    }
  }

  lemma PatchSnoc(s: seq<Byte>, o: nat, v: nat, n: nat)
    requires o + n + 1 <= |s|
    ensures Patch(s, o, v, n + 1) == Patch(s, o, v, n)[o + n := ByteOf(v, n)]
  {
    hide Patch, ByteOf;
    var a := Patch(s, o, v, n + 1);
    var b := Patch(s, o, v, n)[o + n := ByteOf(v, n)];
    forall k | 0 <= k < |s|
      ensures a[k] == b[k]
    {
      PatchAt(s, o, v, n + 1, k);
      PatchAt(s, o, v, n, k);
    }
  }

  lemma {:induction false} ByteOfSnoc(v: nat, n: nat)
    ensures Power256(n) >= 1 && v / Power256(n) >= 0 && ByteOf(v, n) == v / Power256(n) % 256
    decreases n
  {
    DivLe(v, Power256(n));
    if n > 0 {
      ByteOfSnoc(v / 256, n - 1);
      DivDiv(v, 256, Power256(n - 1));
    }
  }

  class Memory {
    const rom: array<Byte>
    const flash: array<Byte>
    const sram: array<Byte>

    ghost predicate Valid()
      reads this
    {
      && rom.Length == ROM_SIZE && flash.Length == FLASH_SIZE && sram.Length == SRAM_SIZE
      && rom != sram && flash != sram
    }

    ghost function View(): (m: Mem)
      requires Valid()
      reads this, rom, flash, sram
      ensures m.Valid()
    {
      Mem(rom[..], flash[..], sram[..])
    }

    constructor ()
      ensures Valid() && fresh(rom) && fresh(flash) && fresh(sram)
    {
      rom := new Byte[ROM_SIZE](_ => 0);
      flash := new Byte[FLASH_SIZE](_ => 0);
      sram := new Byte[SRAM_SIZE](_ => 0);
    }

    /** The array behind [addr, addr + n) and the offset of addr in it, if any. */
    method Backing(addr: nat, n: nat) returns (found: bool, p: array<Byte>, o: nat)
      requires Valid() && 1 <= n
      ensures found == Backed(addr, n) && p in {rom, flash, sram}
      ensures found ==> o + n <= p.Length && forall a :: addr <= a < addr + n ==> ByteAt(View(), a) == p[o + (a - addr)]
      ensures found ==> (p == sram <==> InSram(addr, n)) && (p == sram ==> o == addr - SRAM_BASE)
    {
      if ContainsSpan(ROM_BASE, ROM_SIZE, addr, n) {
        return true, rom, addr - ROM_BASE;
      }
      if ContainsSpan(FLASH_BASE, FLASH_SIZE, addr, n) {
        return true, flash, addr - FLASH_BASE;
      }
      if InSram(addr, n) {
        return true, sram, addr - SRAM_BASE;
      }
      return false, sram, 0;
    }

    /** A little-endian load of `n` bytes. */
    method ReadScalar(addr: nat, n: nat) returns (value: nat, status: BusStatus)
      requires Valid() && n in {1, 2, 4}
      ensures status == ReadStatus(addr, n)
      ensures value == if status == Ok then ValueAt(View(), addr, n) else 0
    {
      hide ByteAt, ValueAt;
      if n > 1 && addr % n != 0 {
        return 0, MisalignedAccess;
      }
      var found, p, o := Backing(addr, n);
      if !found {
        return 0, InvalidAddress;
      }
      value := 0;
      var scale: nat := 1;
      ghost var m := View();
      NoBytes(m, addr);
      for i := 0 to n
        invariant value == ValueAt(m, addr, i) && scale == Power256(i)
      {
        ValueSnoc(m, addr, i);
        assert p[o + (addr + i - addr)] == ByteAt(m, addr + i);
        value := value + p[o + i] * scale;
        scale := scale * 256;
      }
      status := Ok;
    }

    /** A little-endian store of the low `n` bytes of `value`; only SRAM takes it. */
    method WriteScalar(addr: nat, value: Word, n: nat) returns (status: BusStatus)
      requires Valid() && n in {1, 2, 4}
      modifies sram
      ensures status == WriteStatus(addr, n) && View() == Write(old(View()), addr, value, n)
    {
      hide ByteAt, Patch, ByteOf;
      if n > 1 && addr % n != 0 {
        return MisalignedAccess;
      }
      var found, _, o := Backing(addr, n);
      if !found {
        return InvalidAddress;
      }
      if !InSram(addr, n) {
        return WriteToReadOnly;
      }
      ghost var s := sram[..];
      var scale: nat := 1;
      NoPatch(s, o, value);
      for i := 0 to n
        invariant scale == Power256(i)
        invariant sram[..] == Patch(s, o, value, i)
      {
        PatchSnoc(s, o, value, i);
        ByteOfSnoc(value, i);
        sram[o + i] := value / scale % 256;
        scale := scale * 256;
      }
      status := Ok;
    }
  }

  lemma NoBytes(m: Mem, a: nat)
    requires m.Valid()
    ensures ValueAt(m, a, 0) == 0
  {
  }

  lemma NoPatch(s: seq<Byte>, o: nat, v: nat)
    requires o <= |s|
    ensures Patch(s, o, v, 0) == s
  {
  }
}
