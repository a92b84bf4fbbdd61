/** The CPU as an object: register file and memory change in place.  Entry,
    return, selection, PUSH and POP are proved equal to the value model. */
module CpuObject {
  import opened Words
  import opened MemoryBus
  import opened MemoryObject
  import opened RegisterModel
  import opened ExceptionModel
  import opened CallStack

  class RegisterFile {
    const r: array<Word>
    var pc: Word
    var lr: Word
    var msp: Word
    var psp: Word
    var n: bool
    var z: bool
    var c: bool
    var v: bool
    var t: bool
    var exc: nat
    var npriv: bool
    var spsel: bool
    var primask: bool

    ghost predicate Shape() {
      r.Length == 13
    }

    ghost function View(): Regs
      reads this, r
    {
      Regs(r[..], pc, lr, msp, psp, n, z, c, v, t, exc, npriv, spsel, primask)
    }

    constructor ()
      ensures Shape() && fresh(r) && View().Valid()
    {
      r := new Word[13](_ => 0);
      pc, lr, msp, psp := 0, 0xFFFF_FFFF, 0, 0;
      n, z, c, v, t := false, false, false, false, true;
      exc, npriv, spsel, primask := 0, false, false, false;
    }

    method Sp() returns (sp: Word)
      ensures sp == View().Sp()
    {
      if exc != 0 {
        return msp;
      }
      sp := if spsel then psp else msp;
    }

    /** Write the active stack pointer, bits [1:0] cleared. */
    method WriteSp(value: Word)
      modifies this`msp, this`psp
      ensures View() == SetSp(old(View()), value)
    {
      var aligned := value - value % 4;
      if exc != 0 || !spsel {
        msp := aligned;
      } else {
        psp := aligned;
      }
    }

    method Read(i: nat) returns (w: Word)
      requires Shape() && View().Valid() && i < 16
      ensures w == Get(View(), i)
    {
      if i < 13 {
        return r[i];
      }
      if i == 13 {
        w := Sp();
        return;
      }
      w := if i == 14 then lr else pc;
    }

    method Write(i: nat, value: Word)
      requires Shape() && View().Valid() && i < 16
      modifies this, r
      ensures View() == Set(old(View()), i, value)
    {
      if i < 13 {
        r[i] := value;
      } else if i == 13 {
        WriteSp(value);
      } else if i == 14 {
        lr := value;
      } else {
        pc := value - value % 2;
      }
    }

    method ReadXpsr() returns (x: Word)
      requires View().Valid()
      ensures x == Xpsr(View())
    {
      var flags := (if n then BIT31 else 0) + (if z then BIT30 else 0) + (if c then BIT29 else 0)
          + (if v then BIT28 else 0);
      x := flags + (if t then BIT24 else 0) + exc;
    }

    method WriteXpsr(x: Word)
      modifies this`n, this`z, this`c, this`v, this`t, this`exc
      ensures View() == SetXpsr(old(View()), x)
    {
      hide HasBit;
      n := HasBit(x, BIT31);
      z := HasBit(x, BIT30);
      c := HasBit(x, BIT29);
      v := HasBit(x, BIT28);
      t := HasBit(x, BIT24);
      exc := x % 512;
    }
  }
}
