/** The disassembler: one instruction word printed for a side-set layout. */
module PioDisasm {
  import opened AsmText
  import opened Words
  import opened PioIsa

  // ------------------------------------------------------------ name tables

  function ConditionText(c: nat): string {
    if c == JMP_NOT_X then "!x "
    else if c == JMP_X_DEC then "x-- "
    else if c == JMP_NOT_Y then "!y "
    else if c == JMP_Y_DEC then "y-- "
    else if c == JMP_X_NE_Y then "x!=y "
    else if c == JMP_PIN then "pin "
    else if c == JMP_NOT_OSRE then "!osre "
    else ""
  }

  function InName(s: nat): string {
    if s == PINS then "pins" else if s == X then "x" else if s == Y then "y" else if s == NULL then "null"
    else if s == ISR then "isr" else if s == OSR then "osr" else "?"
  }

  function OutName(d: nat): string {
    if d == PINS then "pins" else if d == X then "x" else if d == Y then "y" else if d == NULL then "null"
    else if d == OUT_PINDIRS then "pindirs" else if d == OUT_PC then "pc" else if d == ISR then "isr"
    else if d == OUT_EXEC then "exec" else "?"
  }

  function MovSourceName(r: nat): string {
    if r == PINS then "pins" else if r == X then "x" else if r == Y then "y" else if r == NULL then "null"
    else if r == MOV_STATUS then "status" else if r == ISR then "isr" else if r == OSR then "osr" else "?"
  }

  function MovDestinationName(r: nat): string {
    if r == PINS then "pins" else if r == X then "x" else if r == Y then "y"
    else if r == MOV_DEST_EXEC then "exec" else if r == MOV_DEST_PC then "pc"
    else if r == ISR then "isr" else if r == OSR then "osr" else "?"
  }

  function SetName(d: nat): string {
    if d == PINS then "pins" else if d == X then "x" else if d == Y then "y"
    else if d == SET_PINDIRS then "pindirs" else "?"
  }

  function WaitName(s: nat): string {
    if s == WAIT_GPIO then "gpio" else if s == WAIT_PIN then "pin" else "irq"
  }

  // ---------------------------------------------------------------- printing

  function InstructionText(d: PioInstr): string {
    match d.op
    case JMP => "jmp " + ConditionText(d.condition) + Dec(d.address)
    case WAIT =>
      "wait " + Dec(if d.polarity then 1 else 0) + " " + WaitName(d.source) + " " + Dec(d.index % 16)
      + if d.source == WAIT_IRQ && d.index / 16 % 2 == 1 then " rel" else ""
    case IN => "in " + InName(d.source) + ", " + Dec(d.bitCount)
    case OUT => "out " + OutName(d.destination) + ", " + Dec(d.bitCount)
    case PUSH => "push" + (if d.ifFull then " iffull" else "") + if d.block then " block" else " noblock"
    case PULL => "pull" + (if d.ifEmpty then " ifempty" else "") + if d.block then " block" else " noblock"
    case MOV =>
      "mov " + MovDestinationName(d.destination) + ", "
      + (if d.movOp == MOV_INVERT then "~" else if d.movOp == MOV_BITREV then "::" else "")
      + MovSourceName(d.source)
    case IRQ =>
      "irq " + (if d.clear then "clear " else if d.wait then "wait " else "set ") + Dec(d.index % 16)
      + if d.index / 16 % 2 == 1 then " rel" else ""
    case SET => "set " + SetName(d.destination) + ", " + Dec(d.data)
  }

  /** The width of the delay in bits 12:8. */
  function DelayWidth(count: nat, opt: bool): (n: nat)
    ensures n <= 5
  {
    var total := count + if opt then 1 else 0;
    if total <= 5 then 5 - total else 0
  }

  function DelayOf(field: nat, count: nat, opt: bool): nat { field % Pow2(DelayWidth(count, opt)) }

  /** `ss_field & ((1 << count) - 1)` */
  function SideOf(field: nat, count: nat, opt: bool): (n: nat) {
    DivLe(field, Pow2(DelayWidth(count, opt)));
    ModLe(field / Pow2(DelayWidth(count, opt)), Pow2(count));
    field / Pow2(DelayWidth(count, opt)) % Pow2(count)
  }

  /** Whether a side-set value is printed: always with a layout that has no enable bit. */
  predicate SidePrinted(field: nat, count: nat, opt: bool) {
    DivLe(field, Pow2(DelayWidth(count, opt)));
    if opt then field / Pow2(DelayWidth(count, opt)) / Pow2(count) % 2 == 1 else count > 0
  }

  function SideText(field: nat, count: nat, opt: bool): string {
    if SidePrinted(field, count, opt) then " side " + Dec(SideOf(field, count, opt)) else ""
  }

  function DelayText(field: nat, count: nat, opt: bool): string {
    ModLe(field, Pow2(DelayWidth(count, opt)));
    if DelayOf(field, count, opt) > 0 then " [" + Dec(DelayOf(field, count, opt)) + "]" else ""
  }

  function Text(w: Half, count: nat, opt: bool): string {
    var d := Decode(w);
    InstructionText(d) + SideText(d.delaySideset, count, opt) + DelayText(d.delaySideset, count, opt)
  }

  /** The string the source appends to, clause by clause. */
  method Disassemble(w: Half, count: nat, opt: bool) returns (s: string)
    ensures s == Text(w, count, opt)
  {
    var d := Decode(w);
    s := InstructionText(d);
    var total := count + if opt then 1 else 0;
    var delayBits := if total <= 5 then 5 - total else 0;
    DivLe(d.delaySideset, Pow2(delayBits));
    ModLe(d.delaySideset, Pow2(delayBits));
    var delay := d.delaySideset % Pow2(delayBits);
    if total > 0 {
      var sideField := d.delaySideset / Pow2(delayBits);
      ModLe(sideField, Pow2(count));
      if !opt || sideField / Pow2(count) % 2 == 1 {
        s := s + (" side " + Dec(sideField % Pow2(count)));
      }
    }
    assert s == InstructionText(d) + SideText(d.delaySideset, count, opt);
    if delay > 0 {
      s := s + (" [" + Dec(delay) + "]");
    }
  }
}
