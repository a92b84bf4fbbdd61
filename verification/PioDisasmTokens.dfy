/** The tokens of a printed instruction: what the tokeniser makes of each piece of
    the disassembler's text, and of the pieces put together.  PioReadBack.dfy
    reads those tokens as operands. */
module PioDisasmTokens {
  import opened AsmText
  import opened AsmTextLemmas
  import opened AsmEncode
  import opened PioIsa
  import opened PioDisasm

  /** Selectors the disassembler prints as `?`. */
  predicate Reserved(d: PioInstr) {
    || (d.op == IN && InName(d.source) == "?")
    || (d.op == MOV && (MovDestinationName(d.destination) == "?" || MovSourceName(d.source) == "?"))
    || (d.op == SET && SetName(d.destination) == "?")
  }

  /** Operands in the ranges the decoder produces. */
  predicate InRange(d: PioInstr) {
    && d.condition < 8 && d.address < 32 && d.index < 32 && d.data < 32 && 1 <= d.bitCount <= 32
    && d.source < 8 && d.destination < 8 && d.movOp < 4
    && (d.op == WAIT ==> d.source < 4)
  }

  function ConditionTokens(c: nat): seq<string> {
    if c == JMP_NOT_X then ["!", "x"]
    else if c == JMP_X_DEC then ["x", "--"]
    else if c == JMP_NOT_Y then ["!", "y"]
    else if c == JMP_Y_DEC then ["y", "--"]
    else if c == JMP_X_NE_Y then ["x", "!=", "y"]
    else if c == JMP_PIN then ["pin"]
    else if c == JMP_NOT_OSRE then ["!", "osre"]
    else []
  }

  function RelToken(rel: bool): seq<string> { if rel then ["rel"] else [] }

  function BlockToken(block: bool): string { if block then "block" else "noblock" }

  function MovOpTokens(op: nat): seq<string> {
    if op == MOV_INVERT then ["~"] else if op == MOV_BITREV then ["::"] else []
  }

  function IrqMode(d: PioInstr): string { if d.clear then "clear" else if d.wait then "wait" else "set" }

  function CoreTokens(d: PioInstr): seq<string> {
    match d.op
    case JMP => ["jmp"] + ConditionTokens(d.condition) + [Dec(d.address)]
    case WAIT =>
      ["wait", Dec(if d.polarity then 1 else 0), WaitName(d.source), Dec(d.index % 16)]
      + RelToken(d.source == WAIT_IRQ && d.index / 16 % 2 == 1)
    case IN => ["in", InName(d.source), ",", Dec(d.bitCount)]
    case OUT => ["out", OutName(d.destination), ",", Dec(d.bitCount)]
    case PUSH => ["push"] + (if d.ifFull then ["iffull"] else []) + [BlockToken(d.block)]
    case PULL => ["pull"] + (if d.ifEmpty then ["ifempty"] else []) + [BlockToken(d.block)]
    case MOV =>
      ["mov", MovDestinationName(d.destination), ","] + MovOpTokens(d.movOp) + [MovSourceName(d.source)]
    case IRQ => ["irq", IrqMode(d), Dec(d.index % 16)] + RelToken(d.index / 16 % 2 == 1)
    case SET => ["set", SetName(d.destination), ",", Dec(d.data)]
  }

  // ------------------------------------------------------------ lower-case words

  predicate IsLowerWord(s: string) { s != "" && forall i :: 0 <= i < |s| ==> 'a' <= s[i] <= 'z' }

  lemma LowerWord(s: string)
    requires IsLowerWord(s)
    ensures IsWord(s) && Lower(s) == s && Tokens(s) == Ok([s])
  {
    TokensWord(s);
  }

  lemma DecToken(n: nat)
    ensures Tokens(Dec(n)) == Ok([Dec(n)])
  {
    DecIsWord(n);
    TokensWord(Dec(n));
  }

  /** A word, a space, and more text. */
  lemma WordSpace(w: string, tail: string)
    requires IsLowerWord(w)
    ensures Tokens(w + " " + tail) == Prefixed([w], Tokens(tail))
  {
    LowerWord(w);
    TokensSpace(w, tail);
  }

  lemma WordSpaceOk(w: string, tail: string, ts: seq<string>)
    requires IsLowerWord(w) && Tokens(tail) == Ok(ts)
    ensures Tokens(w + " " + tail) == Ok([w] + ts)
  {
    WordSpace(w, tail);
  }

  /** A word, a comma, a space, and more text: the shape of a first operand. */
  lemma WordComma(w: string, tail: string)
    requires IsLowerWord(w)
    ensures Tokens(w + ", " + tail) == Prefixed([w, ","], Tokens(tail))
  {
    LowerWord(w);
    TokensWordThen(w, ",");
    TokensPunct(',', "");
    assert [','] + "" == ",";
    assert [w] + ([","] + []) == [w, ","];
    TokensSpace(w + ",", tail);
    assert (w + ",") + " " + tail == w + ", " + tail;
  }

  lemma Question(tail: string)
    ensures Tokens("?" + tail) == Err(UnexpectedCharacter('?'))
  {
    assert ("?" + tail)[0] == '?';
  }

  // -------------------------------------------------------- one kind at a time

  lemma JmpTokens(d: PioInstr)
    requires d.op == JMP && InRange(d)
    ensures Tokens(InstructionText(d)) == Ok(CoreTokens(d))
  {
    var n := Dec(d.address);
    var c := ConditionText(d.condition);
    DecToken(d.address);
    assert "jmp " + c + n == "jmp" + " " + (c + n);
    WordSpace("jmp", c + n);
    ConditionReads(d.condition, n);
    assert ["jmp"] + (ConditionTokens(d.condition) + [n]) == CoreTokens(d);
  }

  /** `!x `, `!y ` and `!osre ` */
  lemma NotReads(w: string, n: string)
    requires IsLowerWord(w) && Tokens(n) == Ok([n])
    ensures Tokens("!" + w + " " + n) == Ok(["!", w, n])
  {
    LowerWord(w);
    TokensPunct('!', w);
    assert ['!'] + w == "!" + w;
    TokensSpace("!" + w, n);
    assert ["!"] + [w] + [n] == ["!", w, n];
  }

  /** `x-- ` and `y-- ` */
  lemma DecrementReads(w: string, n: string)
    requires IsLowerWord(w) && Tokens(n) == Ok([n])
    ensures Tokens(w + "--" + " " + n) == Ok([w, "--", n])
  {
    LowerWord(w);
    TokensWordThen(w, "--");
    TokensDouble("--", "");
    assert "--" + "" == "--";
    TokensSpace(w + "--", n);
    assert [w] + (["--"] + []) + [n] == [w, "--", n];
  }

  lemma NotEqualJoins(w: string, tail: string, n: string)
    requires IsLowerWord(w) && tail != "" && tail[0] == '!' && Tokens(n) == Ok([n])
    requires Tokens(tail) == Ok(["!=", "y"])
    ensures Tokens(w + tail + " " + n) == Ok([w, "!=", "y", n])
  {
    LowerWord(w);
    TokensWordThen(w, tail);
    TokensSpace(w + tail, n);
    assert [w] + ["!=", "y"] + [n] == [w, "!=", "y", n];
  }

  lemma NotEqualReads(n: string)
    requires Tokens(n) == Ok([n])
    ensures Tokens("x!=y" + " " + n) == Ok(["x", "!=", "y", n])
  {
    hide Tokens;
    LowerWord("x");
    LowerWord("y");
    assert "!=y" == "!=" + "y";
    TokensDouble("!=", "y");
    assert ["!="] + ["y"] == ["!=", "y"] && "x" + "!=y" == "x!=y";
    NotEqualJoins("x", "!=y", n);
  }

  lemma ConditionReads(c: nat, n: string)
    requires c < 8 && Tokens(n) == Ok([n])
    ensures Tokens(ConditionText(c) + n) == Ok(ConditionTokens(c) + [n])
  {
    hide Tokens;
    var ts := ConditionTokens(c) + [n];
    if c == JMP_NOT_X {
      NotReads("x", n);
      assert "!x " + n == "!" + "x" + " " + n && ts == ["!", "x", n];
    } else if c == JMP_X_DEC {
      DecrementReads("x", n);
      assert "x-- " + n == "x" + "--" + " " + n && ts == ["x", "--", n];
    } else if c == JMP_NOT_Y {
      NotReads("y", n);
      assert "!y " + n == "!" + "y" + " " + n && ts == ["!", "y", n];
    } else if c == JMP_Y_DEC {
      DecrementReads("y", n);
      assert "y-- " + n == "y" + "--" + " " + n && ts == ["y", "--", n];
    } else if c == JMP_X_NE_Y {
      NotEqualReads(n);
      assert "x!=y " + n == "x!=y" + " " + n && ts == ["x", "!=", "y", n];
    } else if c == JMP_PIN {
      WordSpace("pin", n);
      assert "pin " + n == "pin" + " " + n && ts == ["pin", n];
    } else if c == JMP_NOT_OSRE {
      NotReads("osre", n);
      assert "!osre " + n == "!" + "osre" + " " + n && ts == ["!", "osre", n];
    } else {
      assert "" + n == n && ts == [n];
    }
  }

  /** A number, and ` rel` or nothing. */
  lemma RelReads(n: nat, rel: bool)
    ensures Tokens(Dec(n) + if rel then " rel" else "") == Ok([Dec(n)] + RelToken(rel))
  {
    hide Tokens;
    DecToken(n);
    if rel {
      LowerWord("rel");
      assert Dec(n) + " rel" == Dec(n) + " " + "rel";
      TokensSpace(Dec(n), "rel");
    } else {
      assert Dec(n) + "" == Dec(n);
      assert [Dec(n)] + [] == [Dec(n)];
    }
  }

  lemma WaitJoins(polarity: string, source: string, last: string, ts: seq<string>)
    requires Tokens(polarity) == Ok([polarity]) && Tokens(source + " " + last) == Ok([source] + ts)
    ensures Tokens("wait " + polarity + " " + source + " " + last) == Ok(["wait", polarity, source] + ts)
  {
    hide Tokens;
    var tail := polarity + " " + (source + " " + last);
    TokensSpace(polarity, source + " " + last);
    assert Tokens(tail) == Ok([polarity] + ([source] + ts));
    WordSpaceOk("wait", tail, [polarity] + ([source] + ts));
    assert "wait " + polarity + " " + source + " " + last == "wait" + " " + tail;
    assert ["wait"] + ([polarity] + ([source] + ts)) == ["wait", polarity, source] + ts;
  }

  lemma WaitTokens(d: PioInstr)
    requires d.op == WAIT && InRange(d)
    ensures Tokens(InstructionText(d)) == Ok(CoreTokens(d))
  {
    hide Tokens, Dec;
    var polarity := Dec(if d.polarity then 1 else 0);
    var rel := d.source == WAIT_IRQ && d.index / 16 % 2 == 1;
    var last := Dec(d.index % 16) + if rel then " rel" else "";
    var source := WaitName(d.source);
    DecToken(if d.polarity then 1 else 0);
    RelReads(d.index % 16, rel);
    WordSpaceOk(source, last, [Dec(d.index % 16)] + RelToken(rel));
    WaitJoins(polarity, source, last, [Dec(d.index % 16)] + RelToken(rel));
    assert InstructionText(d) == "wait " + polarity + " " + source + " " + last;
    assert ["wait", polarity, source] + ([Dec(d.index % 16)] + RelToken(rel)) == CoreTokens(d);
  }

  /** `in`, `out` and `set`: a register name and a number. */
  lemma RegisterNumberTokens(m: string, name: string, n: nat)
    requires IsLowerWord(m) && (name == "?" || IsLowerWord(name))
    ensures Tokens(m + " " + name + ", " + Dec(n))
         == if name == "?" then Err(UnexpectedCharacter('?')) else Ok([m, name, ",", Dec(n)])
  {
    hide Tokens;
    DecToken(n);
    var operands := name + ", " + Dec(n);
    assert m + " " + name + ", " + Dec(n) == m + " " + operands;
    WordSpace(m, operands);
    if name == "?" {
      assert operands == "?" + (", " + Dec(n));
      Question(", " + Dec(n));
    } else {
      WordComma(name, Dec(n));
      assert [m] + ([name, ","] + [Dec(n)]) == [m, name, ",", Dec(n)];
    }
  }

  lemma InTokens(d: PioInstr)
    requires d.op == IN && InRange(d)
    ensures Tokens(InstructionText(d)) == if Reserved(d) then Err(UnexpectedCharacter('?')) else Ok(CoreTokens(d))
  {
    hide Tokens, Dec;
    RegisterNumberTokens("in", InName(d.source), d.bitCount);
    assert "in " == "in" + " ";
  }

  lemma OutTokens(d: PioInstr)
    requires d.op == OUT && InRange(d)
    ensures Tokens(InstructionText(d)) == Ok(CoreTokens(d))
  {
    hide Tokens, Dec;
    RegisterNumberTokens("out", OutName(d.destination), d.bitCount);
    assert "out " == "out" + " ";
  }

  lemma SetTokens(d: PioInstr)
    requires d.op == SET && InRange(d)
    ensures Tokens(InstructionText(d)) == if Reserved(d) then Err(UnexpectedCharacter('?')) else Ok(CoreTokens(d))
  {
    hide Tokens, Dec;
    RegisterNumberTokens("set", SetName(d.destination), d.data);
    assert "set " == "set" + " ";
  }

  lemma FlagJoins(m: string, flagged: bool, flag: string, last: string)
    requires IsLowerWord(m) && IsLowerWord(flag) && Tokens(last) == Ok([last])
    ensures Tokens(m + (if flagged then " " + flag else "") + (" " + last))
         == Ok([m] + (if flagged then [flag] else []) + [last])
  {
    hide Tokens, IsLowerWord;
    if flagged {
      WordSpaceOk(flag, last, [last]);
      WordSpaceOk(m, flag + " " + last, [flag] + [last]);
      assert m + (" " + flag) + (" " + last) == m + " " + (flag + " " + last);
      assert [m] + ([flag] + [last]) == [m] + [flag] + [last];
    } else {
      WordSpaceOk(m, last, [last]);
      assert m + "" + (" " + last) == m + " " + last;
      assert [m] + [] + [last] == [m] + [last];
    }
  }

  lemma FlagTokens(m: string, flagged: bool, flag: string, block: bool)
    requires IsLowerWord(m) && IsLowerWord(flag)
    ensures Tokens(m + (if flagged then " " + flag else "") + if block then " block" else " noblock")
         == Ok([m] + (if flagged then [flag] else []) + [BlockToken(block)])
  {
    hide Tokens;
    var last := BlockToken(block);
    LowerWord(last);
    assert (if block then " block" else " noblock") == " " + last;
    FlagJoins(m, flagged, flag, last);
  }

  lemma PushPullTokens(d: PioInstr)
    requires d.op == PUSH || d.op == PULL
    ensures Tokens(InstructionText(d)) == Ok(CoreTokens(d))
  {
    hide Tokens;
    if d.op == PUSH {
      FlagTokens("push", d.ifFull, "iffull", d.block);
      assert " iffull" == " " + "iffull";
    } else {
      FlagTokens("pull", d.ifEmpty, "ifempty", d.block);
      assert " ifempty" == " " + "ifempty";
    }
  }

  function MovOpText(op: nat): string {
    if op == MOV_INVERT then "~" else if op == MOV_BITREV then "::" else ""
  }

  /** The source register of a MOV behind its operator. */
  lemma MovSourceReads(op: nat, name: string)
    requires name == "?" || IsLowerWord(name)
    ensures Tokens(MovOpText(op) + name)
         == if name == "?" then Err(UnexpectedCharacter('?')) else Ok(MovOpTokens(op) + [name])
  {
    hide Tokens;
    if name == "?" {
      Question("");
      assert "?" + "" == name;
    } else {
      LowerWord(name);
    }
    if op == MOV_INVERT {
      TokensPunct('~', name);
      assert ['~'] + name == "~" + name;
    } else if op == MOV_BITREV {
      TokensDouble("::", name);
    } else {
      assert "" + name == name;
      assert [] + [name] == [name];
    }
  }

  lemma MovJoins(destination: string, op: nat, source: string)
    requires destination == "?" || IsLowerWord(destination)
    requires source == "?" || IsLowerWord(source)
    ensures Tokens("mov " + destination + ", " + (MovOpText(op) + source))
         == if destination == "?" || source == "?" then Err(UnexpectedCharacter('?'))
            else Ok(["mov", destination, ","] + (MovOpTokens(op) + [source]))
  {
    hide Tokens, MovOpText, MovOpTokens;
    var last := MovOpText(op) + source;
    var operands := destination + ", " + last;
    MovSourceReads(op, source);
    assert "mov " + destination + ", " + last == "mov" + " " + operands;
    WordSpace("mov", operands);
    if destination == "?" {
      assert operands == "?" + (", " + last);
      Question(", " + last);
    } else {
      WordComma(destination, last);
      if source != "?" {
        var ts := MovOpTokens(op) + [source];
        assert ["mov"] + ([destination, ","] + ts) == ["mov", destination, ","] + ts;
      }
    }
  }

  lemma MovTokens(d: PioInstr)
    requires d.op == MOV && InRange(d)
    ensures Tokens(InstructionText(d)) == if Reserved(d) then Err(UnexpectedCharacter('?')) else Ok(CoreTokens(d))
  {
    hide Tokens;
    var destination, source := MovDestinationName(d.destination), MovSourceName(d.source);
    MovJoins(destination, d.movOp, source);
    assert InstructionText(d) == "mov " + destination + ", " + (MovOpText(d.movOp) + source);
    var ts := MovOpTokens(d.movOp) + [source];
    assert ["mov", destination, ","] + ts == ["mov", destination, ","] + MovOpTokens(d.movOp) + [source];
  }

  lemma IrqJoins(mode: string, last: string, ts: seq<string>)
    requires IsLowerWord(mode) && Tokens(last) == Ok(ts)
    ensures Tokens("irq " + (mode + " " + last)) == Ok(["irq", mode] + ts)
  {
    hide Tokens;
    WordSpaceOk(mode, last, ts);
    WordSpaceOk("irq", mode + " " + last, [mode] + ts);
    assert "irq " + (mode + " " + last) == "irq" + " " + (mode + " " + last);
    assert ["irq"] + ([mode] + ts) == ["irq", mode] + ts;
  }

  lemma ModeText(d: PioInstr)
    ensures (if d.clear then "clear " else if d.wait then "wait " else "set ") == IrqMode(d) + " "
    ensures IsLowerWord(IrqMode(d))
  {
    assert "clear " == "clear" + " " && "wait " == "wait" + " " && "set " == "set" + " ";
  }

  lemma IrqPieces(d: PioInstr, rel: string, rels: seq<string>)
    requires d.op == IRQ
    requires rel == (if d.index / 16 % 2 == 1 then " rel" else "") && rels == RelToken(d.index / 16 % 2 == 1)
    ensures InstructionText(d) == "irq " + (IrqMode(d) + " " + (Dec(d.index % 16) + rel))
    ensures CoreTokens(d) == ["irq", IrqMode(d)] + ([Dec(d.index % 16)] + rels)
  {
    hide Dec, IrqMode, RelToken;
    var mode := IrqMode(d) + " ";
    ModeText(d);
    assert "irq " + mode + Dec(d.index % 16) + rel == "irq " + (mode + (Dec(d.index % 16) + rel));
  }

  lemma IrqTokens(d: PioInstr)
    requires d.op == IRQ && InRange(d)
    ensures Tokens(InstructionText(d)) == Ok(CoreTokens(d))
  {
    hide Tokens, Dec, IrqMode, IsLowerWord, InstructionText, CoreTokens;
    var rel := d.index / 16 % 2 == 1;
    var last := Dec(d.index % 16) + if rel then " rel" else "";
    RelReads(d.index % 16, rel);
    ModeText(d);
    IrqJoins(IrqMode(d), last, [Dec(d.index % 16)] + RelToken(rel));
    IrqPieces(d, if rel then " rel" else "", RelToken(rel));
  }

  /** The tokeniser reads a printed instruction as its core tokens, and stops at the `?` of a reserved selector. */
  lemma InstructionTokens(d: PioInstr)
    requires InRange(d)
    ensures Tokens(InstructionText(d)) == if Reserved(d) then Err(UnexpectedCharacter('?')) else Ok(CoreTokens(d))
  {
    hide Tokens, CoreTokens, InstructionText, InName, SetName, MovDestinationName, MovSourceName;
    match d.op
    case JMP => JmpTokens(d);
    case WAIT => WaitTokens(d);
    case IN => InTokens(d);
    case OUT => OutTokens(d);
    case PUSH => PushPullTokens(d);
    case PULL => PushPullTokens(d);
    case MOV => MovTokens(d);
    case IRQ => IrqTokens(d);
    case SET => SetTokens(d);
  }
}
