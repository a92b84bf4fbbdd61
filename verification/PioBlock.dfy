/** The PIO block as an object: `Tick` steps the four machines in turn and is
    proved to be BlockTick on the block's value. */
module PioBlock {
  import opened PioIsa
  import opened Words
  import opened PioMachine
  import opened PioFifos
  import opened PioStateMachine
  import opened PioBlockModel

  class PioBlock {
    const program: array<Half>
    const irq: IrqFlags
    const sm: seq<StateMachine>
    var clkdiv: seq<nat>
    var clkacc: seq<nat>
    var lastOutcome: seq<Outcome>
    var instrRetired: seq<nat>

    /** What belongs to the machines. */
    ghost const owned: set<object>

    /** What a clock may change: this block, its flags and what its machines own. */
    ghost function Repr(): set<object> {
      {this, irq} + owned
    }

    ghost predicate MachinesValid()
      reads owned
    {
      && |sm| == NUM_SM && program.Length == 32
      && this !in owned && irq !in owned && program !in owned
      && (forall i :: 0 <= i < NUM_SM ==> sm[i].program == program && sm[i].irq == irq && sm[i].Own() <= owned)
      && (forall i, j :: 0 <= i < j < NUM_SM ==> sm[i].Own() !! sm[j].Own())
      && (forall i :: 0 <= i < NUM_SM ==> sm[i].Valid())
    }

    ghost predicate Valid()
      reads Repr()
    {
      && MachinesValid()
      && |clkdiv| == |clkacc| == |lastOutcome| == |instrRetired| == NUM_SM
      && (forall i :: 0 <= i < NUM_SM ==> 256 <= clkdiv[i] && clkacc[i] < clkdiv[i])
    }

    ghost function Machines(): (s: seq<Sm>)
      requires MachinesValid()
      reads owned, program
      ensures |s| == NUM_SM && forall i :: 0 <= i < NUM_SM ==> s[i] == sm[i].View()
    {
      seq(NUM_SM, i requires 0 <= i < NUM_SM reads owned, program requires MachinesValid() => sm[i].View())
    }

    ghost function View(): (b: Block)
      requires Valid()
      reads Repr(), program
      ensures Wired(b)
    {
      Block(Machines(), irq.flags, clkdiv, clkacc, lastOutcome, instrRetired)
    }

    /** No machine holds or can fetch an OUT EXEC or MOV EXEC. */
    ghost predicate NoInjection()
      requires MachinesValid()
      reads owned, program
    {
      && (forall a :: 0 <= a < 32 ==> !Injects(Decode(program[a])))
      && (forall i :: 0 <= i < NUM_SM ==> !Injects(sm[i].cur))
    }

    /** A new block: every divider divides by one and program memory is zero. */
    constructor ()
      ensures fresh(Repr()) && Valid() && NoInjection()
      ensures irq.flags == {} && clkdiv == [256, 256, 256, 256] && clkacc == [0, 0, 0, 0]
    {
      hide Decode;
      var prog := new Half[32](_ => 0);
      var flags := new IrqFlags();
      var machines, mine := MakeMachines(prog, flags);
      program, irq, sm := prog, flags, machines;
      owned := mine;
      clkdiv := [256, 256, 256, 256];
      clkacc := [0, 0, 0, 0];
      lastOutcome := [IDLE, IDLE, IDLE, IDLE];
      instrRetired := [0, 0, 0, 0];
      new;
      ZeroIsJmp();
    }

    static method MakeMachines(program: array<Half>, irq: IrqFlags)
      returns (sm: seq<StateMachine>, ghost owned: set<object>)
      requires program.Length == 32
      ensures |sm| == NUM_SM && fresh(owned)
      ensures forall i :: 0 <= i < NUM_SM ==>
                sm[i].Own() <= owned && sm[i].Valid() && sm[i].program == program && sm[i].irq == irq
                  && sm[i].cur == BLANK
      ensures forall i, j :: 0 <= i < j < NUM_SM ==> sm[i].Own() !! sm[j].Own()
    {
      sm, owned := [], {};
      while |sm| < NUM_SM
        invariant |sm| <= NUM_SM && fresh(owned)
        invariant forall i :: 0 <= i < |sm| ==>
                    sm[i].Own() <= owned && sm[i].Valid() && sm[i].program == program && sm[i].irq == irq
                      && sm[i].cur == BLANK
        invariant forall i, j :: 0 <= i < j < |sm| ==> sm[i].Own() !! sm[j].Own()
      {
        var s := new StateMachine(program, irq, |sm|);
        sm, owned := sm + [s], owned + s.Own();
      }
    }

    /** Set the divider of one machine and restart its accumulator. */
    method SetClkdiv(i: nat, intPart: nat, frac: nat)
      requires Valid() && intPart < 65536 && frac < 256
      modifies this`clkdiv, this`clkacc
      ensures Valid()
      ensures i < NUM_SM ==>
                clkdiv == old(clkdiv)[i := Divisor(intPart, frac)] && clkacc == old(clkacc)[i := 0]
      ensures i >= NUM_SM ==> clkdiv == old(clkdiv) && clkacc == old(clkacc)
    {
      if i >= NUM_SM {
        return;
      }
      var whole := if intPart == 0 then 65536 else intPart;
      clkdiv := clkdiv[i := whole * 256 + frac];
      clkacc := clkacc[i := 0];
    }

    /** One machine's share of a system clock. */
    method Share(i: nat, env: Env)
      requires Valid() && NoInjection() && i < NUM_SM
      modifies Repr()
      ensures Valid() && NoInjection()
      ensures View() == Clock(old(View()), i, env)
    {
      hide Decode, Injects, PioMachine.Tick;
      var due := Divide(i);
      if due {
        var o := Step(i, env);
        Record(i, o);
      }
    }

    /** Gather 256 units for machine `i`; a full divisor's worth makes a step due. */
    method Divide(i: nat) returns (due: bool)
      requires i < NUM_SM == |clkacc| == |clkdiv| == |lastOutcome| && i < |sm|
      requires clkacc[i] < clkdiv[i] && 256 <= clkdiv[i]
      modifies this`clkacc, this`lastOutcome
      ensures due == (sm[i].enabled && old(clkacc)[i] + 256 >= clkdiv[i])
      ensures lastOutcome == old(lastOutcome)[i := IDLE]
      ensures clkacc == old(clkacc)[i := if !sm[i].enabled then old(clkacc)[i]
                                         else if due then old(clkacc)[i] + 256 - clkdiv[i]
                                         else old(clkacc)[i] + 256]
    {
      lastOutcome := lastOutcome[i := IDLE];
      if !sm[i].enabled {
        return false;
      }
      clkacc := clkacc[i := clkacc[i] + 256];
      due := clkacc[i] >= clkdiv[i];
      if due {
        clkacc := clkacc[i := clkacc[i] - clkdiv[i]];
      }
    }

    method Record(i: nat, o: Outcome)
      requires i < |lastOutcome| && i < |instrRetired|
      modifies this`lastOutcome, this`instrRetired
      ensures lastOutcome == old(lastOutcome)[i := o]
      ensures instrRetired == old(instrRetired)[i := old(instrRetired)[i] + if o.executed then 1 else 0]
    {
      lastOutcome := lastOutcome[i := o];
      if o.executed {
        instrRetired := instrRetired[i := instrRetired[i] + 1];
      }
    }

    /** Step machine `i`; the others see at most different IRQ flags. */
    method Step(i: nat, env: Env) returns (o: Outcome)
      requires MachinesValid() && NoInjection() && i < NUM_SM
      modifies owned, irq
      ensures MachinesValid() && NoInjection()
      ensures var t := PioMachine.Tick(old(Machines())[i], old(irq.flags), env);
              o == t.outcome && Machines() == old(Machines())[i := t.sm] && irq.flags == t.irq
    {
      hide Decode, Injects, PioMachine.Tick;
      o := sm[i].Tick(env);
      forall j | 0 <= j < NUM_SM && j != i
        ensures sm[j].Valid() && sm[j].View() == old(sm[j].View()) && sm[j].cur == old(sm[j].cur)
      {
        assert sm[i].Own() !! sm[j].Own();
      }
      assert Machines() == old(Machines())[i := sm[i].View()];
    }

    /** One system clock. */
    method Tick(envs: seq<Env>)
      requires Valid() && NoInjection() && |envs| == NUM_SM
      modifies Repr()
      ensures Valid() && NoInjection()
      ensures View() == BlockTick(old(View()), envs)
    {
      hide Clock, Decode;
      var i := 0;
      while i < NUM_SM
        invariant i <= NUM_SM
        invariant Valid() && NoInjection()
        invariant View() == Shares(old(View()), envs, i)
      {
        Share(i, envs[i]);
        i := i + 1;
      }
    }
  }

  lemma ZeroIsJmp()
    ensures !Injects(Decode(0))
  {
  }
}
