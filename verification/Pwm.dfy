/** The PWM block as an object: eight slices counted in place. */
module PwmObject {
  import opened PwmModel

  const SLICES: nat := 8

  /** A slice's registers; `free` is DIVMODE 0, in which channel B is an output. */
  datatype Regs = Regs(phaseCorrect: bool, ctr: nat, top: nat, countingDown: bool,
                       ccA: nat, ccB: nat, aInverted: bool, bInverted: bool, free: bool)

  class Pwm {
    const slices: array<Regs>
    var intr: set<nat>
    ghost var wraps: seq<nat>

    ghost predicate Valid()
      reads this
    {
      slices.Length == SLICES && |wraps| == SLICES
    }

    ghost function View(i: nat): Slice
      requires Valid() && i < SLICES
      reads this, slices
    {
      var r := slices[i];
      Slice(r.phaseCorrect, r.ctr, r.top, r.countingDown, wraps[i])
    }

    constructor ()
      ensures Valid() && intr == {} && fresh(slices)
      ensures forall i :: 0 <= i < SLICES ==> View(i) == Slice(false, 0, 0xFFFF, false, 0)
    {
      slices := new Regs[SLICES](_ => Regs(false, 0, 0xFFFF, false, 0, 0, false, false, true));
      intr, wraps := {}, seq(SLICES, _ => 0);
    }

    /** The wrap interrupt of slice `i`. */
    method RaiseWrap(i: nat)
      requires Valid() && i < SLICES
      modifies this`intr, this`wraps
      ensures Valid() && intr == old(intr) + {i} && wraps == old(wraps)[i := old(wraps)[i] + 1]
    {
      intr := intr + {i};
      wraps := wraps[i := wraps[i] + 1];
    }

    /** One PWM clock of slice `i`; the other slices stand still. */
    method AdvanceSlice(i: nat)
      requires Valid() && i < SLICES
      modifies this`intr, this`wraps, slices
      ensures Valid() && View(i) == Advance(old(View(i)))
      ensures forall j :: 0 <= j < SLICES && j != i ==> View(j) == old(View(j))
      ensures intr == if View(i).wraps > old(View(i).wraps) then old(intr) + {i} else old(intr)
    {
      var r := slices[i];
      if !r.phaseCorrect {
        if r.ctr >= r.top {
          slices[i] := r.(ctr := 0);
          RaiseWrap(i);
        } else {
          slices[i] := r.(ctr := Inc(r.ctr));
        }
      } else if !r.countingDown {
        if r.ctr >= r.top {
          slices[i] := r.(countingDown := true, ctr := Dec(r.ctr));
        } else {
          slices[i] := r.(ctr := Inc(r.ctr));
        }
      } else if r.ctr == 0 {
        slices[i] := r.(countingDown := false, ctr := Inc(r.ctr));
        RaiseWrap(i);
      } else {
        slices[i] := r.(ctr := Dec(r.ctr));
      }
    }

    /** One count of slice `i` backward. */
    method RetardSlice(i: nat)
      requires Valid() && i < SLICES
      modifies slices
      ensures Valid() && View(i) == Retard(old(View(i)))
      ensures forall j :: 0 <= j < SLICES && j != i ==> View(j) == old(View(j))
    {
      var r := slices[i];
      if !r.phaseCorrect {
        slices[i] := r.(ctr := if r.ctr == 0 then r.top else Dec(r.ctr));
      } else if !r.countingDown {
        if r.ctr == 0 {
          slices[i] := r.(countingDown := true, ctr := Inc(r.ctr));
        } else {
          slices[i] := r.(ctr := Dec(r.ctr));
        }
      } else if r.ctr >= r.top {
        slices[i] := r.(countingDown := false, ctr := Dec(r.ctr));
      } else {
        slices[i] := r.(ctr := Inc(r.ctr));
      }
    }

    /** The levels the two channels of slice `i` drive; B drives nothing unless the divider runs free. */
    method Outputs(i: nat) returns (a: bool, b: bool)
      requires Valid() && i < SLICES
      ensures a == High(View(i), slices[i].ccA, slices[i].aInverted)
      ensures b == (slices[i].free && High(View(i), slices[i].ccB, slices[i].bInverted))
    {
      var r := slices[i];
      a := (r.ctr < r.ccA) != r.aInverted;
      b := r.free && (r.ctr < r.ccB) != r.bInverted;
    }
  }
}
