// The printer, the assembler, and the way from one through the other to the CPU.
module Assembler {
  import opened Prelude
  import opened AddressSpace
  import opened Isa
  import opened Text
  import PagedCpu
  import Programs

  // ---------------------------------------------------------------------
  // Printing
  // ---------------------------------------------------------------------

  function RegisterName(r: Register): string {
    match r
    case R0 => "R0"
    case R1 => "R1"
    case R2 => "R2"
    case R3 => "R3"
  }

  // `{:#x}`
  function AltHex(n: nat): string {
    "0x" + Hex(n)
  }

  function OperandText(o: Operand): string {
    match o
    case Reg(r) => RegisterName(r)
    case Imm(v) => "#" + AltHex(v)
  }

  function AluName(op: Alu): string {
    match op
    case MOV => "MOV"
    case ADD => "ADD"
    case SUB => "SUB"
    case MUL => "MUL"
    case DIV => "DIV"
    case CMP => "CMP"
  }

  function BranchName(on: Branch): string {
    match on
    case JMP => "JMP"
    case JZ => "JZ"
    case JNZ => "JNZ"
  }

  function Display(i: Instruction): string {
    match i
    case Arith(op, dst, src) => AluName(op) + " " + RegisterName(dst) + ", " + OperandText(src)
    case Jump(on, target) => BranchName(on) + " " + AltHex(target)
    case Load(to, addr) => "LOAD " + RegisterName(to) + ", [" + OperandText(addr) + "]"
    case Store(from, addr) => "STORE [" + OperandText(addr) + "], " + RegisterName(from)
    case Int(v) => "INT " + AltHex(v)
    case Halt => "HALT"
  }

  function Print(prog: seq<Instruction>): string {
    if prog == [] then ""
    else if |prog| == 1 then Display(prog[0])
    else Display(prog[0]) + "\n" + Print(prog[1..])
  }

  // ---------------------------------------------------------------------
  // Parsing
  // ---------------------------------------------------------------------

  function RegIndex(name: string): (r: Option<byte>)
    ensures r.Some? ==> r.value < 4
  {
    var n := ToUpper(name);
    if n == "R0" then Some(0)
    else if n == "R1" then Some(1)
    else if n == "R2" then Some(2)
    else if n == "R3" then Some(3)
    else None
  }

  // A number in hexadecimal after `0x` or `0X`, otherwise in decimal.
  function ParseNumber(s: string): Option<u64> {
    match StripPrefix(s, "0x")
    case Some(hex) => FromRadix(hex, 16)
    case None =>
      match StripPrefix(s, "0X")
      case Some(hex) => FromRadix(hex, 16)
      case None => FromRadix(s, 10)
  }

  // An operand's kind and value: 0 and a register index, or 1 and a number.
  function ParseOperand(text: string): (r: Option<(byte, u64)>)
    ensures r.Some? && r.value.0 == 0 ==> r.value.1 < 4
    ensures r.Some? ==> r.value.0 <= 1
  {
    var s := Trim(text);
    match StripPrefix(s, "#")
    case Some(number) =>
      (match ParseNumber(number)
       case Some(v) => Some((1, v))
       case None => None)
    case None =>
      match RegIndex(s)
      case Some(i) => Some((0, i))
      case None => None
  }

  function ParseImmediate(text: string): Option<u64> {
    ParseNumber(DropStart(Trim(text), '#'))
  }

  function ParseMemOperand(text: string): (r: Option<(byte, u64)>)
    ensures r.Some? && r.value.0 == 0 ==> r.value.1 < 4
    ensures r.Some? ==> r.value.0 <= 1
  {
    var s := Trim(text);
    if |s| < 2 || s[0] != '[' || s[|s| - 1] != ']' then None
    else
      var inner := s[1..|s| - 1];
      match RegIndex(inner)
      case Some(i) => Some((0, i))
      case None =>
        match ParseImmediate(inner)
        case Some(v) => Some((1, v))
        case None => None
  }

  datatype Mnemonic = MHalt | MArith(op: Alu) | MJump(on: Branch) | MLoad | MStore | MInt

  function MnemonicNamed(m: string): Option<Mnemonic> {
    if m == "HALT" then Some(MHalt)
    else if m == "MOV" then Some(MArith(MOV))
    else if m == "ADD" then Some(MArith(ADD))
    else if m == "SUB" then Some(MArith(SUB))
    else if m == "MUL" then Some(MArith(MUL))
    else if m == "DIV" then Some(MArith(DIV))
    else if m == "JMP" then Some(MJump(JMP))
    else if m == "CMP" then Some(MArith(CMP))
    else if m == "JZ" || m == "JE" then Some(MJump(JZ))
    else if m == "JNZ" || m == "JNE" then Some(MJump(JNZ))
    else if m == "LOAD" then Some(MLoad)
    else if m == "STORE" then Some(MStore)
    else if m == "INT" then Some(MInt)
    else None
  }

  function EncodeOperand(opcode: byte, reg: Option<byte>, operand: Option<(byte, u64)>): Option<seq<byte>> {
    if reg.Some? && operand.Some? then Some(EncodeWord(opcode, reg.value, operand.value.0, operand.value.1)) else None
  }

  function EncodeImmediate(opcode: byte, v: Option<u64>): Option<seq<byte>> {
    if v.Some? then Some(EncodeWord(opcode, 0, 1, v.value)) else None
  }

  function ParseParts(parts: seq<string>): Option<seq<byte>>
    requires parts != []
  {
    match MnemonicNamed(ToUpper(parts[0]))
    case None => None
    case Some(MHalt) => Some(EncodeWord(OP_HALT, 0, 0, 0))
    case Some(MArith(op)) =>
      if |parts| < 3 then None
      else EncodeOperand(AluCode(op), RegIndex(DropEnd(parts[1], ',')), ParseOperand(parts[2]))
    case Some(MJump(on)) =>
      if |parts| < 2 then None else EncodeImmediate(BranchCode(on), ParseImmediate(parts[1]))
    case Some(MLoad) =>
      if |parts| < 3 then None
      else EncodeOperand(OP_LOAD, RegIndex(DropEnd(parts[1], ',')), ParseMemOperand(parts[2]))
    case Some(MStore) =>
      if |parts| < 3 then None
      else EncodeOperand(OP_STORE, RegIndex(DropEnd(parts[2], ',')), ParseMemOperand(DropEnd(parts[1], ',')))
    case Some(MInt) =>
      if |parts| < 2 then None else EncodeImmediate(OP_INT, ParseImmediate(parts[1]))
  }

  // The code of one line: nothing for an empty line, a comment or a line that does not parse.
  function ParseLine(text: string): Option<seq<byte>> {
    var line := Trim(text);
    if line == "" || line[0] == ';' || "//" <= line then None
    else
      var n := IndexOf(line, ';');
      var parts := SplitWhitespace(if n < |line| then Trim(line[..n]) else line);
      if parts == [] then None else ParseParts(parts)
  }

  function CodeOf(r: Option<seq<byte>>): seq<byte> {
    if r.Some? then r.value else []
  }

  function AssembleLines(lines: seq<string>): seq<byte> {
    if lines == [] then []
    else AssembleLines(lines[..|lines| - 1]) + CodeOf(ParseLine(lines[|lines| - 1]))
  }

  method Assemble(source: string) returns (r: Result<seq<byte>, ()>)
    ensures var code := AssembleLines(Lines(source));
      r == if code == [] then Err(()) else Ok(code)
  {
    var code: seq<byte> := [];
    var lines := Lines(source);
    for i := 0 to |lines|
      invariant code == AssembleLines(lines[..i])
    {
      var bytes := ParseLine(lines[i]);
      if bytes.Some? {
        code := code + bytes.value;
      }
      assert lines[..i + 1][..i] == lines[..i];
    }
    assert lines[..|lines|] == lines;
    return if code == [] then Err(()) else Ok(code);
  }

  // ---------------------------------------------------------------------
  // What the assembler emits decodes
  // ---------------------------------------------------------------------

  // Eight bytes that the CPU decodes.
  ghost predicate Decodable(s: seq<byte>) {
    exists opcode: byte, reg: byte, kind: byte, value: nat, i: Instruction ::
      s == EncodeWord(opcode, reg, kind, value) && DecodesTo(opcode, reg, kind, value, i)
  }

  ghost predicate DecodesTo(opcode: byte, reg: byte, kind: byte, value: nat, i: Instruction) {
    forall pc: nat :: Decode(opcode, reg, kind, value % TWO_32, pc) == Ok(i)
  }

  lemma PartsDecode(parts: seq<string>)
    requires parts != [] && ParseParts(parts).Some?
    ensures Decodable(ParseParts(parts).value)
  {
    hide ToUpper, MnemonicNamed, RegIndex, ParseOperand, ParseMemOperand, ParseImmediate, DropEnd, EncodeWord;
    match MnemonicNamed(ToUpper(parts[0]))
    case Some(MHalt) =>
      assert DecodesTo(OP_HALT, 0, 0, 0, Halt);
    case Some(MArith(op)) =>
      var r, o := RegIndex(DropEnd(parts[1], ',')), ParseOperand(parts[2]);
      OperandDecodes(r.value, o.value);
      assert DecodesTo(AluCode(op), r.value, o.value.0, o.value.1, Arith(op, FromIndex(r.value).value, OperandFrom(o.value)));
    case Some(MJump(on)) =>
      var v := ParseImmediate(parts[1]).value;
      assert DecodesTo(BranchCode(on), 0, 1, v, Jump(on, v % TWO_32));
    case Some(MLoad) =>
      var r, o := RegIndex(DropEnd(parts[1], ',')), ParseMemOperand(parts[2]);
      OperandDecodes(r.value, o.value);
      assert DecodesTo(OP_LOAD, r.value, o.value.0, o.value.1, Load(FromIndex(r.value).value, OperandFrom(o.value)));
    case Some(MStore) =>
      var r, o := RegIndex(DropEnd(parts[2], ',')), ParseMemOperand(DropEnd(parts[1], ','));
      OperandDecodes(r.value, o.value);
      assert DecodesTo(OP_STORE, r.value, o.value.0, o.value.1, Store(FromIndex(r.value).value, OperandFrom(o.value)));
    case Some(MInt) =>
      var v := ParseImmediate(parts[1]).value;
      assert DecodesTo(OP_INT, 0, 1, v, Int(v % TWO_32 % 256));
  }

  function OperandFrom(o: (byte, u64)): Operand
    requires o.0 == 0 ==> o.1 < 4
  {
    if o.0 == 0 then Reg(FromIndex(o.1).value) else Imm(o.1 % TWO_32)
  }

  lemma OperandDecodes(reg: byte, o: (byte, u64))
    requires reg < 4 && (o.0 == 0 ==> o.1 < 4)
    ensures FromIndex(reg).Some? && DecodeOperand(o.0, o.1 % TWO_32) == Ok(OperandFrom(o))
  {
  }

  ghost predicate ChunkDecodable(code: seq<byte>, k: nat) {
    8 * k + 8 <= |code| && Decodable(code[8 * k..8 * k + 8])
  }

  ghost predicate AllDecodable(code: seq<byte>) {
    |code| % 8 == 0 && forall k: nat :: k < |code| / 8 ==> ChunkDecodable(code, k)
  }

  lemma AppendDecodable(c: seq<byte>, d: seq<byte>)
    requires AllDecodable(c) && (d == [] || (|d| == 8 && Decodable(d)))
    ensures AllDecodable(c + d)
  {
    hide Decodable;
    forall k: nat | k < |c + d| / 8
      ensures ChunkDecodable(c + d, k)
    {
      if k < |c| / 8 {
        assert ChunkDecodable(c, k);
        assert (c + d)[8 * k..8 * k + 8] == c[8 * k..8 * k + 8];
      } else {
        assert |c| == 8 * k;
        assert (c + d)[8 * k..8 * k + 8] == d;
      }
    }
  }

  lemma {:induction false} LinesDecode(lines: seq<string>)
    ensures AllDecodable(AssembleLines(lines))
  {
    if lines != [] {
      LinesDecode(lines[..|lines| - 1]);
      LineDecodes(lines[|lines| - 1]);
      AppendDecodable(AssembleLines(lines[..|lines| - 1]), CodeOf(ParseLine(lines[|lines| - 1])));
      hide Decodable, ParseLine, AllDecodable, CodeOf;
    }
  }

  lemma LineDecodes(line: string)
    ensures var d := CodeOf(ParseLine(line)); d == [] || (|d| == 8 && Decodable(d))
  {
    hide SplitWhitespace, Trim, IndexOf, ParseParts;
    var r := ParseLine(line);
    if r.Some? {
      var l := Trim(line);
      var n := IndexOf(l, ';');
      var parts := SplitWhitespace(if n < |l| then Trim(l[..n]) else l);
      PartsDecode(parts);
      hide Trim, IndexOf;
      assert r == ParseParts(parts);
    }
  }

  // Whatever text it is given, the assembler only emits instructions the CPU decodes:
  // fetching at any multiple of eight inside the loaded code never reports an invalid
  // instruction or register.
  lemma AssembledCodeDecodes(source: string, m: Memory, k: nat)
    requires var code := AssembleLines(Lines(source));
      8 * k < |code| && forall j :: 0 <= j < |code| ==> Read8(m, j) == Some(code[j])
    ensures FetchInstruction(m, 8 * k).Instr?
  {
    hide AssembleLines, Lines, EncodeWord, Fetch, Decode, Holds, DecodesTo, Decodable, Read8;
    var code := AssembleLines(Lines(source));
    LinesDecode(Lines(source));
    assert k < |code| / 8;
    assert ChunkDecodable(code, k);
    ChunkFetches(code, m, k);
  }

  lemma SliceHeld(code: seq<byte>, m: Memory, k: nat)
    requires 8 * k + 8 <= |code| && forall j :: 0 <= j < |code| ==> Read8(m, j) == Some(code[j])
    ensures Holds(m, 8 * k, code[8 * k..8 * k + 8])
  {
    hide Read8;
  }

  lemma ChunkFetches(code: seq<byte>, m: Memory, k: nat)
    requires ChunkDecodable(code, k) && forall j :: 0 <= j < |code| ==> Read8(m, j) == Some(code[j])
    ensures FetchInstruction(m, 8 * k).Instr?
  {
    SliceHeld(code, m, k);
    hide EncodeWord, Fetch, Decode, Read8, Holds;
    var opcode: byte, reg: byte, kind: byte, value: nat, i: Instruction :|
      code[8 * k..8 * k + 8] == EncodeWord(opcode, reg, kind, value) && DecodesTo(opcode, reg, kind, value, i);
    FetchEncoded(m, 8 * k, opcode, reg, kind, value);
    assert Decode(opcode, reg, kind, value % TWO_32, 8 * k + 8) == Ok(i);
  }

  // ---------------------------------------------------------------------
  // Print, assemble, fetch
  // ---------------------------------------------------------------------

  // The words of a printed line.
  function LineWords(i: Instruction): seq<string> {
    match i
    case Arith(op, dst, src) => [AluName(op), RegisterName(dst) + ",", OperandText(src)]
    case Jump(on, target) => [BranchName(on), AltHex(target)]
    case Load(to, addr) => ["LOAD", RegisterName(to) + ",", "[" + OperandText(addr) + "]"]
    case Store(from, addr) => ["STORE", "[" + OperandText(addr) + "],", RegisterName(from)]
    case Int(v) => ["INT", AltHex(v)]
    case Halt => ["HALT"]
  }

  lemma Join2(a: string, b: string)
    ensures Joined([a, b]) == a + " " + b
  {
    assert [a, b][1..] == [b];
  }

  lemma Join3(a: string, b: string, c: string)
    ensures Joined([a, b, c]) == a + " " + b + " " + c
  {
    assert [a, b, c][1..] == [b, c];
    Join2(b, c);
    assert a + " " + (b + " " + c) == a + " " + b + " " + c;
  }

  lemma ArithLine(a: string, r: string, o: string)
    ensures a + " " + r + ", " + o == Joined([a, r + ",", o])
  {
    Join3(a, r + ",", o);
    assert a + " " + r + ", " + o == a + " " + (r + ",") + " " + o;
  }

  lemma LoadLine(r: string, o: string)
    ensures "LOAD " + r + ", [" + o + "]" == Joined(["LOAD", r + ",", "[" + o + "]"])
  {
    Join3("LOAD", r + ",", "[" + o + "]");
    assert "LOAD " + r + ", [" + o + "]" == "LOAD" + " " + (r + ",") + " " + ("[" + o + "]");
  }

  lemma StoreLine(r: string, o: string)
    ensures "STORE [" + o + "], " + r == Joined(["STORE", "[" + o + "],", r])
  {
    Join3("STORE", "[" + o + "],", r);
    assert "STORE [" + o + "], " + r == "STORE" + " " + ("[" + o + "],") + " " + r;
  }

  lemma DisplayIsWords(i: Instruction)
    ensures Display(i) == Joined(LineWords(i))
  {
    hide RegisterName, OperandText, AluName, BranchName, AltHex;
    match i
    case Arith(op, dst, src) => ArithLine(AluName(op), RegisterName(dst), OperandText(src));
    case Jump(on, target) => Join2(BranchName(on), AltHex(target));
    case Load(to, addr) => LoadLine(RegisterName(to), OperandText(addr));
    case Store(from, addr) => StoreLine(RegisterName(from), OperandText(addr));
    case Int(v) =>
      Join2("INT", AltHex(v));
      assert "INT " == "INT" + " ";
    case Halt =>
  }

  lemma CleanConcat(a: string, b: string)
    requires Clean(a) && Clean(b)
    ensures Clean(a + b)
  {
  }

  lemma OperandTextClean(o: Operand)
    ensures Clean(OperandText(o)) && OperandText(o) != ""
  {
    match o
    case Reg(r) =>
    case Imm(v) =>
      CleanConcat("0x", Hex(v));
      CleanConcat("#", AltHex(v));
      hide Hex;
  }

  lemma BracketedClean(t: string, close: string)
    requires Clean(t) && Clean(close)
    ensures Clean("[" + t + close)
  {
    CleanConcat("[", t);
    CleanConcat("[" + t, close);
    hide Clean;
  }

  lemma NamesClean(r: Register, op: Alu, on: Branch)
    ensures Clean(RegisterName(r)) && RegisterName(r) != "" && Clean(RegisterName(r) + ",")
    ensures Clean(AluName(op)) && AluName(op) != "" && Clean(BranchName(on)) && BranchName(on) != ""
  {
  }

  lemma LineWordsAreWords(i: Instruction)
    ensures Words(LineWords(i))
  {
    match i
    case Arith(op, dst, src) =>
      NamesClean(dst, op, JMP);
      OperandTextClean(src);
      hide OperandText, RegisterName, AluName, Clean;
    case Jump(on, target) =>
      NamesClean(R0, MOV, on);
      CleanConcat("0x", Hex(target));
      hide Hex, BranchName, Clean;
    case Load(to, addr) =>
      NamesClean(to, MOV, JMP);
      OperandTextClean(addr);
      BracketedClean(OperandText(addr), "]");
      assert Clean("LOAD");
      hide OperandText, RegisterName, Clean;
    case Store(from, addr) =>
      NamesClean(from, MOV, JMP);
      OperandTextClean(addr);
      BracketedClean(OperandText(addr), "],");
      assert Clean("STORE");
      hide OperandText, RegisterName, Clean;
    case Int(v) =>
      CleanConcat("0x", Hex(v));
      assert Clean("INT");
      hide Hex, Clean;
    case Halt =>
  }

  lemma ParseAltHex(n: u64)
    ensures ParseNumber(AltHex(n)) == Some(n)
  {
    HexRoundTrip(n);
    assert AltHex(n)[2..] == Hex(n);
    hide Hex, Digits;
  }

  lemma TrimClean(s: string)
    requires Clean(s) && s != ""
    ensures Trim(s) == s
  {
    assert s[0] in s && s[|s| - 1] in s;
    TrimPlain(s);
  }

  lemma RegisterParses(r: Register)
    ensures RegIndex(RegisterName(r)) == Some(r.Index())
    ensures DropEnd(RegisterName(r) + ",", ',') == RegisterName(r) && DropEnd(RegisterName(r), ',') == RegisterName(r)
  {
    var n := RegisterName(r);
    assert (n + ",")[..|n|] == n;
    assert n[0] == 'R' && n[1] != ',';
    Upper2(n);
  }

  lemma Upper2(s: string)
    requires |s| == 2
    ensures ToUpper(s) == [ToUpper(s[..1])[0], ToUpper(s[1..])[0]]
  {
    assert s[1..][1..] == "" && s[..1][1..] == "";
    assert ToUpper(s) == [ToUpper(s[..1])[0]] + ToUpper(s[1..]);
  }

  lemma ImmediateParses(n: u64)
    ensures ParseImmediate(AltHex(n)) == Some(n) && ParseImmediate("#" + AltHex(n)) == Some(n)
    ensures ParseOperand("#" + AltHex(n)) == Some((1, n))
  {
    CleanConcat("0x", Hex(n));
    CleanConcat("#", AltHex(n));
    var t := AltHex(n);
    TrimClean(t);
    TrimClean("#" + t);
    assert t[0] == '0' && ("#" + t)[1..] == t;
    ParseAltHex(n);
    hide Hex, AltHex, ParseNumber, Trim, RegIndex;
  }

  lemma OperandParses(o: Operand)
    ensures ParseOperand(OperandText(o)) == Some((OperandKind(o), OperandValue(o)))
  {
    match o
    case Imm(v) => ImmediateParses(v);
    case Reg(r) =>
      RegisterParses(r);
      TrimClean(RegisterName(r));
      hide ToUpper, Trim;
  }

  lemma NotARegister(s: string)
    requires s != "" && s[0] == '#'
    ensures RegIndex(s).None?
  {
    assert ToUpper(s)[0] == '#';
  }

  lemma Bracketed(t: string)
    requires Clean(t)
    ensures var s := "[" + t + "]";
      Trim(s) == s && |s| >= 2 && s[0] == '[' && s[|s| - 1] == ']' && s[1..|s| - 1] == t
    ensures DropEnd("[" + t + "],", ',') == "[" + t + "]"
  {
    var s := "[" + t + "]";
    CleanConcat("[", t);
    CleanConcat("[" + t, "]");
    TrimClean(s);
    assert s + "," == "[" + t + "],";
    assert (s + ",")[..|s|] == s;
    hide Clean, Trim;
  }

  lemma MemOperandParses(o: Operand)
    ensures ParseMemOperand("[" + OperandText(o) + "]") == Some((OperandKind(o), OperandValue(o)))
    ensures DropEnd("[" + OperandText(o) + "],", ',') == "[" + OperandText(o) + "]"
  {
    var t := OperandText(o);
    OperandTextClean(o);
    Bracketed(t);
    match o
    case Imm(v) =>
      ImmediateParses(v);
      NotARegister(t);
      hide ParseImmediate, RegIndex, Trim, AltHex, DropEnd, Clean;
    case Reg(r) =>
      RegisterParses(r);
      hide RegIndex, Trim, ParseImmediate, DropEnd, Clean, RegisterName;
  }

  lemma {:induction false} UpperFixed(s: string)
    requires forall k :: 0 <= k < |s| ==> !('a' <= s[k] <= 'z')
    ensures ToUpper(s) == s
  {
    if s != "" {
      UpperFixed(s[1..]);
      assert s == [s[0]] + s[1..];
    }
  }

  lemma KeywordArith(op: Alu)
    ensures MnemonicNamed(ToUpper(AluName(op))) == Some(MArith(op))
  {
    UpperFixed(AluName(op));
    hide ToUpper;
  }

  lemma KeywordJump(on: Branch)
    ensures MnemonicNamed(ToUpper(BranchName(on))) == Some(MJump(on))
  {
    UpperFixed(BranchName(on));
    hide ToUpper;
  }

  lemma KeywordLoad()
    ensures MnemonicNamed(ToUpper("LOAD")) == Some(MLoad)
  {
    UpperFixed("LOAD");
    hide ToUpper;
  }

  lemma KeywordStore()
    ensures MnemonicNamed(ToUpper("STORE")) == Some(MStore)
  {
    UpperFixed("STORE");
    hide ToUpper;
  }

  lemma KeywordInt()
    ensures MnemonicNamed(ToUpper("INT")) == Some(MInt)
  {
    UpperFixed("INT");
    hide ToUpper;
  }

  lemma KeywordHalt()
    ensures MnemonicNamed(ToUpper("HALT")) == Some(MHalt)
  {
    UpperFixed("HALT");
    hide ToUpper;
  }

  lemma ArithParses(op: Alu, dst: Register, src: Operand)
    ensures ParseParts([AluName(op), RegisterName(dst) + ",", OperandText(src)]) == Some(Encode(Arith(op, dst, src)))
  {
    KeywordArith(op);
    hide ToUpper, MnemonicNamed, ParseOperand, RegIndex, OperandText, RegisterName, EncodeWord, DropEnd, AluName, AluCode;
    RegisterParses(dst);
    OperandParses(src);
  }

  lemma JumpParses(on: Branch, target: u64)
    ensures ParseParts([BranchName(on), AltHex(target)]) == Some(Encode(Jump(on, target)))
  {
    KeywordJump(on);
    hide ToUpper, MnemonicNamed, ParseImmediate, EncodeWord, AltHex, BranchName, BranchCode;
    ImmediateParses(target);
  }

  lemma LoadParses(to: Register, addr: Operand)
    ensures ParseParts(["LOAD", RegisterName(to) + ",", "[" + OperandText(addr) + "]"]) == Some(Encode(Load(to, addr)))
  {
    KeywordLoad();
    hide ToUpper, MnemonicNamed, ParseMemOperand, RegIndex, OperandText, RegisterName, EncodeWord, DropEnd;
    RegisterParses(to);
    MemOperandParses(addr);
  }

  lemma StoreParses(from: Register, addr: Operand)
    ensures ParseParts(["STORE", "[" + OperandText(addr) + "],", RegisterName(from)]) == Some(Encode(Store(from, addr)))
  {
    KeywordStore();
    hide ToUpper, MnemonicNamed, ParseMemOperand, RegIndex, OperandText, RegisterName, EncodeWord, DropEnd;
    RegisterParses(from);
    MemOperandParses(addr);
  }

  lemma IntParses(v: byte)
    ensures ParseParts(["INT", AltHex(v)]) == Some(Encode(Int(v)))
  {
    KeywordInt();
    hide ToUpper, MnemonicNamed, ParseImmediate, EncodeWord, AltHex;
    ImmediateParses(v);
  }

  lemma HaltParses()
    ensures ParseParts(["HALT"]) == Some(Encode(Halt))
  {
    KeywordHalt();
    hide ToUpper, MnemonicNamed, EncodeWord;
  }

  // A printed line's words parse to the instruction's encoding.
  lemma PartsParse(i: Instruction)
    ensures LineWords(i) != [] && ParseParts(LineWords(i)) == Some(Encode(i))
  {
    hide ParseParts, Encode, AltHex, OperandText, RegisterName, AluName, BranchName;
    match i
    case Arith(op, dst, src) => ArithParses(op, dst, src);
    case Jump(on, target) => JumpParses(on, target);
    case Load(to, addr) => LoadParses(to, addr);
    case Store(from, addr) => StoreParses(from, addr);
    case Int(v) => IntParses(v);
    case Halt => HaltParses();
  }

  lemma DisplayParses(i: Instruction)
    ensures ParseLine(Display(i)) == Some(Encode(i))
  {
    var s, w := Display(i), LineWords(i);
    DisplayIsWords(i);
    LineWordsAreWords(i);
    PartsParse(i);
    SplitJoined(w);
    JoinedIsPlain(w);
    TrimPlain(s);
    hide Display, LineWords, SplitWhitespace, Trim, ParseParts, Joined, Words, Encode;
    var n := IndexOf(s, ';');
    assert n == |s|;
  }

  lemma BreakIndex(line: string, rest: string)
    requires '\n' !in line
    ensures IndexOf(line + "\n" + rest, '\n') == |line| && IndexOf(line, '\n') == |line|
  {
    var s := line + "\n" + rest;
    assert s[|line|] == '\n' && s[..|line|] == line;
    assert IndexOf(s, '\n') <= |line|;
  }

  lemma LinesStep(line: string, rest: string)
    requires line != "" && '\n' !in line && '\r' !in line
    ensures Lines(line + "\n" + rest) == [line] + Lines(rest)
    ensures Lines(line) == [line]
  {
    BreakIndex(line, rest);
    var s, n := line + "\n" + rest, |line|;
    assert s[..n] == line && s[n + 1..] == rest && s[n - 1] == line[n - 1];
    assert line[n - 1] in line;
    hide IndexOf;
  }

  function Displays(prog: seq<Instruction>): (r: seq<string>)
    ensures |r| == |prog|
  {
    if prog == [] then [] else [Display(prog[0])] + Displays(prog[1..])
  }

  lemma {:induction false} PrintedLines(prog: seq<Instruction>)
    ensures Lines(Print(prog)) == Displays(prog)
  {
    if prog != [] {
      DisplayIsWords(prog[0]);
      LineWordsAreWords(prog[0]);
      JoinedIsPlain(LineWords(prog[0]));
      hide Display, LineWords, Joined, Words;
      LinesStep(Display(prog[0]), Print(prog[1..]));
      PrintedLines(prog[1..]);
    }
  }

  function EncodeAll(prog: seq<Instruction>): (s: seq<byte>)
    ensures |s| == 8 * |prog|
  {
    if prog == [] then [] else EncodeAll(prog[..|prog| - 1]) + Encode(prog[|prog| - 1])
  }

  lemma {:induction false} DisplaysInit(prog: seq<Instruction>)
    requires prog != []
    ensures var n := |prog| - 1;
      Displays(prog)[..n] == Displays(prog[..n]) && Displays(prog)[n] == Display(prog[n])
  {
    var n := |prog| - 1;
    if n > 0 {
      DisplaysInit(prog[1..]);
      assert prog[1..][..n - 1] == prog[..n][1..];
      hide Display;
      assert Displays(prog)[..n] == [Display(prog[0])] + Displays(prog[1..])[..n - 1];
    }
  }

  lemma {:induction false} PrintedCode(prog: seq<Instruction>)
    ensures AssembleLines(Displays(prog)) == EncodeAll(prog)
  {
    if prog != [] {
      var n := |prog| - 1;
      DisplaysInit(prog);
      DisplayParses(prog[n]);
      PrintedCode(prog[..n]);
      hide Display, ParseLine, Encode;
    }
  }

  lemma {:induction false} EncodeAllAt(prog: seq<Instruction>, i: nat)
    requires i < |prog|
    ensures EncodeAll(prog)[8 * i..8 * i + 8] == Encode(prog[i])
  {
    var n := |prog| - 1;
    var init := EncodeAll(prog[..n]);
    hide Encode;
    if i < n {
      EncodeAllAt(prog[..n], i);
      assert EncodeAll(prog)[8 * i..8 * i + 8] == init[8 * i..8 * i + 8];
    } else {
      assert EncodeAll(prog)[8 * i..8 * i + 8] == Encode(prog[i]);
    }
  }

  // The bytes of `code` lie at address 0.
  ghost predicate Placed(code: seq<byte>, m: Memory) {
    forall j :: 0 <= j < |code| ==> Read8(m, j) == Some(code[j])
  }

  lemma PlacedIsLoaded(prog: seq<Instruction>, m: Memory)
    requires Placed(EncodeAll(prog), m)
    ensures Programs.Loaded(prog, m)
  {
    forall i | 0 <= i < |prog|
      ensures Holds(m, 8 * i, Encode(prog[i]))
    {
      EncodeAllAt(prog, i);
      hide Encode, EncodeAll, Read8;
      forall k | 0 <= k < 8
        ensures Read8(m, 8 * i + k) == Some(Encode(prog[i])[k])
      {
        assert EncodeAll(prog)[8 * i + k] == EncodeAll(prog)[8 * i..8 * i + 8][k];
      }
    }
  }

  // Printing a list of instructions and assembling the text gives the list's encoding;
  // the empty list is the one program the assembler rejects.
  lemma PrintAssemble(prog: seq<Instruction>)
    ensures AssembleLines(Lines(Print(prog))) == EncodeAll(prog)
    ensures AssembleLines(Lines(Print(prog))) == [] <==> prog == []
  {
    PrintedLines(prog);
    PrintedCode(prog);
    hide AssembleLines, Lines, Print, EncodeAll, Displays;
  }

  // Print, assemble, load and fetch is the identity, up to the 32 bits kept of an
  // immediate or an address.
  lemma PrintAssembleFetch(prog: seq<Instruction>, m: Memory, i: nat)
    requires i < |prog| && Placed(AssembleLines(Lines(Print(prog))), m)
    ensures FetchInstruction(m, 8 * i) == Instr(Reduce(prog[i]))
  {
    hide AssembleLines, Lines, Print, EncodeAll, Reduce, FetchInstruction, Placed, Programs.Loaded;
    PrintAssemble(prog);
    PlacedIsLoaded(prog, m);
    Programs.LoadedFetches(prog, m, i);
  }

  // A printed, assembled and loaded program runs as the list it was printed from.
  lemma PrintedProgramRuns(prog: seq<Instruction>, s: Programs.Abstract, n: nat)
    requires Programs.WellFormed(prog) && Programs.CanRunFor(prog, s, n)
    requires Placed(AssembleLines(Lines(Print(prog))), s.m)
    ensures var s' := Programs.Run(prog, s, n);
      PagedCpu.FullRun(Programs.Concrete(s), s.m, n) == (Programs.Concrete(s'), s'.m)
  {
    hide AssembleLines, Lines, Print, EncodeAll, Placed, Programs.Loaded, Programs.WellFormed, Programs.CanRunFor;
    PrintAssemble(prog);
    PlacedIsLoaded(prog, s.m);
    Programs.StepsRunTheList(prog, s, n);
  }
}
