/** The PIO instruction set and its decoder. */
module PioIsa {
  // Instruction words are numbers below 2^16; a bit field `(w >> k) & (2^n - 1)`
  // is written `w / 2^k % 2^n`.

  type Half = x: int | 0 <= x < 0x1_0000

  datatype Op = JMP | WAIT | IN | OUT | PUSH | PULL | MOV | IRQ | SET

  // JMP conditions
  const JMP_ALWAYS: nat := 0
  const JMP_NOT_X: nat := 1
  const JMP_X_DEC: nat := 2
  const JMP_NOT_Y: nat := 3
  const JMP_Y_DEC: nat := 4
  const JMP_X_NE_Y: nat := 5
  const JMP_PIN: nat := 6
  const JMP_NOT_OSRE: nat := 7

  // Register selectors.  IN, OUT, MOV and SET share the codes 0..3, 6 and 7;
  // the codes 4 and 5 differ from instruction to instruction.
  const PINS: nat := 0
  const X: nat := 1
  const Y: nat := 2
  const NULL: nat := 3
  const ISR: nat := 6
  const OSR: nat := 7
  const OUT_PINDIRS: nat := 4
  const OUT_PC: nat := 5
  const OUT_EXEC: nat := 7
  const MOV_STATUS: nat := 5
  const MOV_DEST_EXEC: nat := 4
  const MOV_DEST_PC: nat := 5
  const SET_PINDIRS: nat := 4

  // MOV operations
  const MOV_NONE: nat := 0
  const MOV_INVERT: nat := 1
  const MOV_BITREV: nat := 2

  // WAIT sources
  const WAIT_GPIO: nat := 0
  const WAIT_PIN: nat := 1
  const WAIT_IRQ: nat := 2

  datatype PioInstr = PioInstr(
    op: Op,
    delaySideset: nat,
    condition: nat,
    address: nat,
    polarity: bool,
    source: nat,
    destination: nat,
    index: nat,
    bitCount: nat,
    data: nat,
    movOp: nat,
    ifFull: bool,
    ifEmpty: bool,
    block: bool,
    clear: bool,
    wait: bool)

  /** The record every decode starts from: the fields an instruction does not
      use keep these values. */
  const BLANK := PioInstr(JMP, 0, 0, 0, false, 0, 0, 0, 32, 0, 0, false, false, true, false, false)

  function Decode(w: Half): (d: PioInstr)
    ensures d.delaySideset < 32 && d.address < 32 && d.index < 32 && d.data < 32
    ensures 1 <= d.bitCount <= 32
    ensures d.condition < 8 && d.source < 8 && d.destination < 8 && d.movOp < 4
  {
    var b := BLANK.(delaySideset := w / 256 % 32);
    var top3 := w / 32 % 8;
    var low5 := w % 32;
    var (bit7, bit6, bit5) := (w / 128 % 2 == 1, w / 64 % 2 == 1, w / 32 % 2 == 1);
    match w / 8192
    case 0 => b.(op := JMP, condition := top3, address := low5)
    case 1 => b.(op := WAIT, polarity := bit7, source := w / 32 % 4, index := low5)
    case 2 => b.(op := IN, source := top3, bitCount := if low5 == 0 then 32 else low5)
    case 3 => b.(op := OUT, destination := top3, bitCount := if low5 == 0 then 32 else low5)
    case 4 =>
      if !bit7
      then b.(op := PUSH, ifFull := bit6, block := bit5)
      else b.(op := PULL, ifEmpty := bit6, block := bit5)
    case 5 => b.(op := MOV, destination := top3, movOp := w / 8 % 4, source := w % 8)
    case 6 => b.(op := IRQ, clear := bit6, wait := bit5, index := low5)
    case _ => b.(op := SET, destination := top3, data := low5)
  }

  /** OUT EXEC and MOV EXEC run a second, injected instruction in the same slot. */
  predicate Injects(i: PioInstr) {
    (i.op == OUT && i.destination == OUT_EXEC) || (i.op == MOV && i.destination == MOV_DEST_EXEC)
  }
}
