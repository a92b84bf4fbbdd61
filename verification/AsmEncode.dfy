/** From the tokens of one instruction to its 16-bit word.  A word is put
    together from disjoint bit fields, so `|` is written as a sum. */
module AsmEncode {
  import opened AsmText
  import opened AsmExpr
  import opened Words
  import opened PioIsa

  datatype Option<+T> = None | Some(value: T)

  /** The side-set layout a program declares. */
  datatype Layout = Layout(count: Word, opt: bool) {
    function OptBit(): nat { if opt then 1 else 0 }

    /** The guard of `.side_set`, which adds in 32 bits: a count of -1 with `opt` passes it. */
    predicate Accepted() { Wrap(count + OptBit()) <= 5 }

    predicate Fits(): (fits: bool)
      ensures fits ==> Accepted()
    {
      count + OptBit() <= 5
    }

    function DelayBits(): (n: nat)
      requires Accepted()
      ensures n <= 5 && (Fits() ==> n == 5 - count - OptBit())
    {
      Wrap(5 - count - OptBit())
    }
  }

  // ------------------------------------------------- bits 12:8, side-set and delay

  function DelaySideset(l: Layout, side: Option<int>, delay: int): (r: Result<nat>)
    requires l.Accepted()
  {
    if delay < 0 || delay >= Pow2(l.DelayBits()) then Err(DelayOutOfRange)
    else if l.count == 0 && !l.opt then
      if side.Some? then Err(SideUndeclared) else Ok(delay)
    else if side.Some? then
      // beyond 5 bits the source shifts by more than the word is wide
      if side.value < 0 || !l.Fits() || side.value >= Pow2(l.count) then Err(SideOutOfRange)
      else Ok(delay + side.value * Pow2(l.DelayBits()) + 16 * l.OptBit())
    else if !l.opt then Err(SideRequired)
    else Ok(delay)
  }

  datatype Operands = Operands(core: seq<string>, side: Option<int>, delay: int)

  /** Take `side <expr>` and `[<expr>]` out of the token list, wherever they stand. */
  function Extract(ts: seq<string>, syms: Symbols, found: Operands): Result<Operands>
    decreases |ts|
  {
    if ts == [] then Ok(found)
    else if Lower(ts[0]) == "side" then
      match Sum(ts[1..], syms)
      case Err(e) => Err(e)
      case Ok(p) => Extract(p.rest, syms, found.(side := Some(p.value)))
    else if ts[0] == "[" then
      match Sum(ts[1..], syms)
      case Err(e) => Err(e)
      case Ok(p) =>
        if !Starts(p.rest, "]") then Err(ExpectedCloseBracket)
        else Extract(p.rest[1..], syms, found.(delay := p.value))
    else Extract(ts[1..], syms, found.(core := found.core + [ts[0]]))
  }

  // ------------------------------------------------------- operands, bits 7:0

  function LowerAt(a: seq<string>, i: nat): string { if i < |a| then Lower(a[i]) else "" }

  function DropCommas(a: seq<string>): seq<string> {
    if a == [] then [] else (if a[0] == "," then [] else [a[0]]) + DropCommas(a[1..])
  }

  /** An operand that has to use up all tokens and lie in `lo..hi`. */
  function Operand(a: seq<string>, syms: Symbols, lo: int, hi: int): (r: Result<int>)
    ensures r.Ok? ==> lo <= r.value <= hi
  {
    match Sum(a, syms)
    case Err(e) => Err(e)
    case Ok(p) =>
      if p.rest != [] then Err(TrailingTokens)
      else if p.value < lo || p.value > hi then Err(OutOfRange)
      else Ok(p.value)
  }

  /** The condition and how many tokens name it. */
  function Condition(a: seq<string>): (r: (nat, nat))
    ensures r.0 < 8 && r.1 <= 3 && r.1 <= |a|
  {
    var (t0, t1, t2) := (LowerAt(a, 0), LowerAt(a, 1), LowerAt(a, 2));
    if t0 == "!" && t1 == "x" then (JMP_NOT_X, 2)
    else if t0 == "x" && t1 == "--" then (JMP_X_DEC, 2)
    else if t0 == "!" && t1 == "y" then (JMP_NOT_Y, 2)
    else if t0 == "y" && t1 == "--" then (JMP_Y_DEC, 2)
    else if t0 == "x" && t1 == "!=" && t2 == "y" then (JMP_X_NE_Y, 3)
    else if t0 == "pin" then (JMP_PIN, 1)
    else if t0 == "!" && t1 == "osre" then (JMP_NOT_OSRE, 2)
    else (JMP_ALWAYS, 0)
  }

  function EncJmp(a: seq<string>, syms: Symbols): (r: Result<nat>)
    ensures r.Ok? ==> r.value < 256
  {
    if a == [] then Err(MissingOperand)
    else
      var (condition, used) := Condition(a);
      match Operand(a[used..], syms, 0, 31)
      case Err(e) => Err(e)
      case Ok(target) => Ok(32 * condition + target)
  }

  /** `v | 0x10` */
  function SetBit4(v: int): int { if v / 16 % 2 == 1 then v else v + 16 }

  /** An index with an optional `rel`, to the end of the tokens. */
  function Index(a: seq<string>, syms: Symbols, relAllowed: bool): (r: Result<int>)
    ensures r.Ok? ==> 0 <= r.value < 32
  {
    match Sum(a, syms)
    case Err(e) => Err(e)
    case Ok(p) =>
      var rel := relAllowed && LowerAt(p.rest, 0) == "rel";
      var (index, rest) := if rel then (SetBit4(p.value), p.rest[1..]) else (p.value, p.rest);
      if rest != [] then Err(TrailingTokens)
      else if index < 0 || index > 31 then Err(OutOfRange)
      else Ok(index)
  }

  function WaitSource(s: string): Option<nat> {
    if s == "gpio" then Some(WAIT_GPIO) else if s == "pin" then Some(WAIT_PIN) else if s == "irq" then Some(WAIT_IRQ)
    else None
  }

  function EncWait(a: seq<string>, syms: Symbols): (r: Result<nat>)
    ensures r.Ok? ==> r.value < 256
  {
    if |a| < 3 then Err(MissingOperand)
    else
      match Sum(a, syms)
      case Err(e) => Err(e)
      case Ok(p) =>
        if p.value != 0 && p.value != 1 then Err(OutOfRange)
        else if p.rest == [] then Err(MissingOperand)
        else
          var source := WaitSource(Lower(p.rest[0]));
          if source.None? then Err(BadOperand(p.rest[0]))
          else
            match Index(p.rest[1..], syms, source.value == WAIT_IRQ)
            case Err(e) => Err(e)
            case Ok(index) => Ok(128 * p.value + 32 * source.value + index)
  }

  function OutCode(s: string): Option<nat> {
    if s == "pins" then Some(PINS) else if s == "x" then Some(X) else if s == "y" then Some(Y)
    else if s == "null" then Some(NULL) else if s == "pindirs" then Some(OUT_PINDIRS)
    else if s == "pc" then Some(OUT_PC) else if s == "isr" then Some(ISR) else if s == "exec" then Some(OUT_EXEC)
    else None
  }

  function InCode(s: string): Option<nat> {
    if s == "pins" then Some(PINS) else if s == "x" then Some(X) else if s == "y" then Some(Y)
    else if s == "null" then Some(NULL) else if s == "isr" then Some(ISR) else if s == "osr" then Some(OSR)
    else None
  }

  function MovDestination(s: string): Option<nat> {
    if s == "pins" then Some(PINS) else if s == "x" then Some(X) else if s == "y" then Some(Y)
    else if s == "exec" then Some(MOV_DEST_EXEC) else if s == "pc" then Some(MOV_DEST_PC)
    else if s == "isr" then Some(ISR) else if s == "osr" then Some(OSR)
    else None
  }

  function MovSource(s: string): Option<nat> {
    if s == "pins" then Some(PINS) else if s == "x" then Some(X) else if s == "y" then Some(Y)
    else if s == "null" then Some(NULL) else if s == "status" then Some(MOV_STATUS)
    else if s == "isr" then Some(ISR) else if s == "osr" then Some(OSR)
    else None
  }

  function SetCode(s: string): Option<nat> {
    if s == "pins" then Some(PINS) else if s == "x" then Some(X) else if s == "y" then Some(Y)
    else if s == "pindirs" then Some(SET_PINDIRS)
    else None
  }

  function EncInOut(a: seq<string>, syms: Symbols, out: bool): (r: Result<nat>)
    ensures r.Ok? ==> r.value < 256
  {
    if |a| < 2 then Err(MissingOperand)
    else
      var code := if out then OutCode(Lower(a[0])) else InCode(Lower(a[0]));
      if code.None? then Err(BadOperand(a[0]))
      else
        match Operand(a[1..], syms, 1, 32)
        case Err(e) => Err(e)
        case Ok(count) => Ok(32 * code.value + if count == 32 then 0 else count)
  }

  /** The flags in any order and any number; the last of block and noblock wins. */
  function EncPushPull(a: seq<string>, pull: bool, conditional: bool, block: bool): (r: Result<nat>)
    ensures r.Ok? ==> r.value % 32 == 0 && r.value < 128
  {
    if a == [] then Ok((if conditional then 64 else 0) + if block then 32 else 0)
    else
      var o := Lower(a[0]);
      if o == "block" then EncPushPull(a[1..], pull, conditional, true)
      else if o == "noblock" then EncPushPull(a[1..], pull, conditional, false)
      else if o == (if pull then "ifempty" else "iffull") then EncPushPull(a[1..], pull, true, block)
      else Err(BadOperand(a[0]))
  }

  function EncMov(a: seq<string>): (r: Result<nat>)
    ensures r.Ok? ==> r.value < 256
  {
    if |a| < 2 then Err(MissingOperand)
    else
      var destination := MovDestination(Lower(a[0]));
      if destination.None? then Err(BadOperand(a[0]))
      else
        var op :=
          if Lower(a[1]) == "!" || Lower(a[1]) == "~" then MOV_INVERT
          else if a[1] == "::" then MOV_BITREV else MOV_NONE;
        var at := if op == MOV_NONE then 1 else 2;
        if at >= |a| then Err(MissingOperand)
        else
          var source := MovSource(Lower(a[at]));
          if source.None? then Err(BadOperand(a[at]))
          else if at + 1 != |a| then Err(TrailingTokens)
          else Ok(32 * destination.value + 8 * op + source.value)
  }

  function EncIrq(a: seq<string>, syms: Symbols): (r: Result<nat>)
    ensures r.Ok? ==> r.value < 128
  {
    if a == [] then Err(MissingOperand)
    else
      var mode := Lower(a[0]);
      var named := mode == "set" || mode == "nowait" || mode == "wait" || mode == "clear";
      match Index(if named then a[1..] else a, syms, true)
      case Err(e) => Err(e)
      case Ok(index) => Ok((if mode == "clear" then 64 else if mode == "wait" then 32 else 0) + index)
  }

  function EncSet(a: seq<string>, syms: Symbols): (r: Result<nat>)
    ensures r.Ok? ==> r.value < 256
  {
    if |a| < 2 then Err(MissingOperand)
    else
      var code := SetCode(Lower(a[0]));
      if code.None? then Err(BadOperand(a[0]))
      else
        match Operand(a[1..], syms, 0, 31)
        case Err(e) => Err(e)
        case Ok(v) => Ok(32 * code.value + v)
  }

  // --------------------------------------------------------------- the word

  /** Bits 15:13, and bits 7:0 before the side-set and delay field. */
  datatype Body = Body(opcode: nat, low: nat)

  function WithOpcode(opcode: nat, base: nat, r: Result<nat>): Result<Body> {
    match r
    case Err(e) => Err(e)
    case Ok(low) => Ok(Body(opcode, base + low))
  }

  function EncodeBody(mnemonic: string, a: seq<string>, syms: Symbols): (r: Result<Body>)
    ensures r.Ok? ==> r.value.opcode < 8 && r.value.low < 256
  {
    var m := Lower(mnemonic);
    if m == "nop" then Ok(Body(5, 32 * Y + 8 * MOV_NONE + Y))
    else if m == "jmp" then WithOpcode(0, 0, EncJmp(a, syms))
    else if m == "wait" then WithOpcode(1, 0, EncWait(a, syms))
    else if m == "in" then WithOpcode(2, 0, EncInOut(a, syms, false))
    else if m == "out" then WithOpcode(3, 0, EncInOut(a, syms, true))
    else if m == "push" then WithOpcode(4, 0, EncPushPull(a, false, false, true))
    else if m == "pull" then WithOpcode(4, 128, EncPushPull(a, true, false, true))
    else if m == "mov" then WithOpcode(5, 0, EncMov(a))
    else if m == "irq" then WithOpcode(6, 0, EncIrq(a, syms))
    else if m == "set" then WithOpcode(7, 0, EncSet(a, syms))
    else Err(UnknownMnemonic(mnemonic))
  }

  function Join(opcode: nat, field: nat, low: nat): (w: Half)
    requires opcode < 8 && field < 32 && low < 256
    ensures w / 8192 == opcode && w / 256 % 32 == field && w % 256 == low
  {
    8192 * opcode + 256 * field + low
  }

  lemma FieldBound(l: Layout, side: Option<int>, delay: int)
    requires l.Accepted()
    ensures DelaySideset(l, side, delay).Ok? ==> DelaySideset(l, side, delay).value < 32
  {
    Pow2Values();
    if l.Fits() {
      var n := l.DelayBits();
      assert 0 <= n <= 5;
      if side.Some? && 0 <= side.value < Pow2(l.count) && 0 <= delay < Pow2(n) {
        Packed(delay, side.value, n, l.count);
      }
    }
  }

  lemma Pow2Values()
    ensures Pow2(0) == 1 && Pow2(1) == 2 && Pow2(2) == 4 && Pow2(3) == 8 && Pow2(4) == 16 && Pow2(5) == 32
  {
  }

  /** `hi` above `lo` in `m + n` bits */
  lemma Packed(lo: nat, hi: nat, n: nat, m: nat)
    requires n + m <= 5 && lo < Pow2(n) && hi < Pow2(m)
    ensures lo + hi * Pow2(n) < Pow2(n + m)
    ensures (lo + hi * Pow2(n)) / Pow2(n) == hi && (lo + hi * Pow2(n)) % Pow2(n) == lo
  {
    Pow2Values();
    if n == 0 {
    } else if n == 1 {
    } else if n == 2 {
    } else if n == 3 {
    } else if n == 4 {
    } else {
    }
  }

  /** What `encode` makes of operands already split off. */
  function EncodeOperands(l: Layout, syms: Symbols, o: Operands): (r: Result<Half>)
    requires l.Accepted()
  {
    if o.core == [] then Err(EmptyInstruction)
    else
      match EncodeBody(o.core[0], DropCommas(o.core[1..]), syms)
      case Err(e) => Err(e)
      case Ok(body) =>
        match DelaySideset(l, o.side, o.delay)
        case Err(e) => Err(e)
        case Ok(field) =>
          FieldBound(l, o.side, o.delay);
          Ok(Join(body.opcode, field, body.low))
  }

  function Encode(l: Layout, syms: Symbols, toks: seq<string>): (r: Result<Half>)
    requires l.Accepted()
  {
    match Extract(toks, syms, Operands([], None, 0))
    case Err(e) => Err(e)
    case Ok(o) => EncodeOperands(l, syms, o)
  }
}
