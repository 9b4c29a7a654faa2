// The mock instruction set and the CPU that runs it.
module Isa {
  import opened Prelude
  import opened AddressSpace

  datatype Register = R0 | R1 | R2 | R3 {
    function Index(): (i: nat)
      ensures i < 4
    {
      match this
      case R0 => 0
      case R1 => 1
      case R2 => 2
      case R3 => 3
    }
  }

  function FromIndex(i: nat): Option<Register> {
    match i
    case 0 => Some(R0)
    case 1 => Some(R1)
    case 2 => Some(R2)
    case 3 => Some(R3)
    case _ => None
  }

  datatype Operand = Reg(r: Register) | Imm(v: u64)

  datatype Alu = MOV | ADD | SUB | MUL | DIV | CMP

  datatype Branch = JMP | JZ | JNZ

  // The arithmetic instructions share one shape, and so do the jumps.
  datatype Instruction =
    | Arith(op: Alu, dst: Register, src: Operand)
    | Jump(on: Branch, target: u64)
    | Load(to: Register, addr: Operand)
    | Store(from: Register, addr: Operand)
    | Int(vector: byte)
    | Halt

  function AluCode(op: Alu): byte {
    match op
    case MOV => 0x01
    case ADD => 0x02
    case SUB => 0x03
    case MUL => 0x04
    case DIV => 0x05
    case CMP => 0x11
  }

  function BranchCode(on: Branch): byte {
    match on
    case JMP => 0x10
    case JZ => 0x12
    case JNZ => 0x13
  }

  const OP_LOAD: byte := 0x06
  const OP_STORE: byte := 0x07
  const OP_INT: byte := 0x80
  const OP_HALT: byte := 0xFF

  datatype CpuError =
    | Halted
    | InvalidRegister(index: nat)
    | InvalidInstruction(pc: nat, opcode: byte)
    | DivideByZero(pc: nat)

  // ---------------------------------------------------------------------
  // Encoding: opcode, register, operand kind, padding, 32-bit value
  // ---------------------------------------------------------------------

  function EncodeWord(opcode: byte, reg: byte, kind: byte, value: nat): (s: seq<byte>)
    ensures |s| == 8
  {
    [opcode, reg, kind, 0] + Bytes32(value)
  }

  function OperandKind(o: Operand): byte {
    if o.Reg? then 0 else 1
  }

  function OperandValue(o: Operand): nat {
    match o
    case Reg(r) => r.Index()
    case Imm(v) => v
  }

  // The fields an instruction is encoded from.
  function Fields(i: Instruction): (byte, byte, byte, nat) {
    match i
    case Arith(op, dst, src) => (AluCode(op), dst.Index(), OperandKind(src), OperandValue(src))
    case Jump(on, target) => (BranchCode(on), 0, 1, target)
    case Load(to, addr) => (OP_LOAD, to.Index(), OperandKind(addr), OperandValue(addr))
    case Store(from, addr) => (OP_STORE, from.Index(), OperandKind(addr), OperandValue(addr))
    case Int(v) => (OP_INT, 0, 1, v)
    case Halt => (OP_HALT, 0, 0, 0)
  }

  function Encode(i: Instruction): (s: seq<byte>)
    ensures |s| == 8
  {
    var (opcode, reg, kind, value) := Fields(i);
    EncodeWord(opcode, reg, kind, value)
  }

  // Decoding a fetched word; `pc` is the address behind it.
  function DecodeOperand(kind: byte, value: nat): Result<Operand, CpuError>
    requires value < TWO_32
  {
    if kind == 0 then
      match FromIndex(value)
      case Some(r) => Ok(Reg(r))
      case None => Err(InvalidRegister(value))
    else Ok(Imm(value))
  }

  function DecodeArith(op: Alu, reg: byte, kind: byte, value: nat): Result<Instruction, CpuError>
    requires value < TWO_32
  {
    match FromIndex(reg)
    case None => Err(InvalidRegister(reg))
    case Some(r) =>
      match DecodeOperand(kind, value)
      case Err(e) => Err(e)
      case Ok(o) => Ok(Arith(op, r, o))
  }

  function DecodeAccess(isLoad: bool, reg: byte, kind: byte, value: nat): Result<Instruction, CpuError>
    requires value < TWO_32
  {
    match FromIndex(reg)
    case None => Err(InvalidRegister(reg))
    case Some(r) =>
      match DecodeOperand(kind, value)
      case Err(e) => Err(e)
      case Ok(o) => Ok(if isLoad then Load(r, o) else Store(r, o))
  }

  function Decode(opcode: byte, reg: byte, kind: byte, value: nat, pc: nat): Result<Instruction, CpuError>
    requires value < TWO_32
  {
    match opcode
    case 0x01 => DecodeArith(MOV, reg, kind, value)
    case 0x02 => DecodeArith(ADD, reg, kind, value)
    case 0x03 => DecodeArith(SUB, reg, kind, value)
    case 0x04 => DecodeArith(MUL, reg, kind, value)
    case 0x05 => DecodeArith(DIV, reg, kind, value)
    case 0x06 => DecodeAccess(true, reg, kind, value)
    case 0x07 => DecodeAccess(false, reg, kind, value)
    case 0x10 => Ok(Jump(JMP, value))
    case 0x11 => DecodeArith(CMP, reg, kind, value)
    case 0x12 => Ok(Jump(JZ, value))
    case 0x13 => Ok(Jump(JNZ, value))
    case 0x80 => Ok(Int(value % 256))
    case 0xFF => Ok(Halt)
    case _ => Err(InvalidInstruction(if pc < 11 then 0 else pc - 11, opcode))
  }

  // What is left of an instruction in 32 bits.
  function ReduceOperand(o: Operand): Operand {
    if o.Imm? then Imm(o.v % TWO_32) else o
  }

  function Reduce(i: Instruction): Instruction {
    match i
    case Arith(op, dst, src) => Arith(op, dst, ReduceOperand(src))
    case Jump(on, target) => Jump(on, target % TWO_32)
    case Load(to, addr) => Load(to, ReduceOperand(addr))
    case Store(from, addr) => Store(from, ReduceOperand(addr))
    case Int(v) => i
    case Halt => i
  }

  type word = n: int | 0 <= n < 0x1_0000_0000

  datatype Raw = Raw(opcode: byte, reg: byte, kind: byte, value: word)

  // Four bytes and an aligned word, or the first address that cannot be read.
  function Fetch(m: Memory, pc: nat): Result<Raw, nat> {
    match Read8(m, pc)
    case None => Err(pc)
    case Some(opcode) =>
      match Read8(m, pc + 1)
      case None => Err(pc + 1)
      case Some(reg) =>
        match Read8(m, pc + 2)
        case None => Err(pc + 2)
        case Some(kind) =>
          match Read8(m, pc + 3)
          case None => Err(pc + 3)
          case Some(_) =>
            match Read32(m, pc + 4)
            case None => Err(pc + 4)
            case Some(value) => Ok(Raw(opcode, reg, kind, value))
  }

  // Eight bytes of memory.
  ghost predicate Holds(m: Memory, a: nat, s: seq<byte>)
    requires |s| == 8
  {
    forall i :: 0 <= i < 8 ==> Read8(m, a + i) == Some(s[i])
  }

  // An aligned word lies within one page.
  lemma AlignedWord(a: nat, i: nat)
    requires a % 4 == 0 && i < 4
    ensures AlignDown(a + i) == AlignDown(a) && (a + i) % PAGE_SIZE == a % PAGE_SIZE + i
    ensures a % PAGE_SIZE + 4 <= PAGE_SIZE
  {
    AlignFacts(a);
    WordsInPage(a);
    hide AlignDown;
    AlignUnique(a + i, AlignDown(a));
  }

  lemma WordsInPage(a: nat)
    requires a % 4 == 0
    ensures a % PAGE_SIZE + 4 <= PAGE_SIZE
  {
    var q, w := a / PAGE_SIZE, a / 4;
    assert a == 4096 * q + a % PAGE_SIZE && a == 4 * w;
    assert a % PAGE_SIZE == 4 * (w - 1024 * q);
  }

  lemma WordHeld(m: Memory, a: nat, b0: byte, b1: byte, b2: byte, b3: byte)
    requires a % 4 == 0
    requires Read8(m, a) == Some(b0) && Read8(m, a + 1) == Some(b1)
    requires Read8(m, a + 2) == Some(b2) && Read8(m, a + 3) == Some(b3)
    ensures Read32(m, a) == Some(Word32(b0, b1, b2, b3))
  {
    AlignedWord(a, 1);
    AlignedWord(a, 2);
    AlignedWord(a, 3);
    hide AlignDown, Word32;
  }

  lemma FetchHeld(m: Memory, a: nat, s: seq<byte>)
    requires |s| == 8 && Holds(m, a, s) && a % 4 == 0
    ensures Fetch(m, a) == Ok(Raw(s[0], s[1], s[2], Word32(s[4], s[5], s[6], s[7])))
  {
    assert Read8(m, a + 0) == Some(s[0]) && Read8(m, a + 1) == Some(s[1])
        && Read8(m, a + 2) == Some(s[2]) && Read8(m, a + 3) == Some(s[3]);
    assert Read8(m, a + 4) == Some(s[4]) && Read8(m, a + 5) == Some(s[5])
        && Read8(m, a + 6) == Some(s[6]) && Read8(m, a + 7) == Some(s[7]);
    WordHeld(m, a + 4, s[4], s[5], s[6], s[7]);
    hide Word32, Read8, Read32;
  }

  lemma FetchEncoded(m: Memory, a: nat, opcode: byte, reg: byte, kind: byte, value: nat)
    requires Holds(m, a, EncodeWord(opcode, reg, kind, value)) && a % 4 == 0
    ensures Fetch(m, a) == Ok(Raw(opcode, reg, kind, value % TWO_32))
  {
    var s := EncodeWord(opcode, reg, kind, value);
    FetchHeld(m, a, s);
    WordRoundTrip(value);
    hide Word32, Fetch, Holds;
    var b := Bytes32(value);
    assert s[4] == b[0] && s[5] == b[1] && s[6] == b[2] && s[7] == b[3];
  }

  lemma DecodeOperandFields(o: Operand)
    ensures DecodeOperand(OperandKind(o), OperandValue(o) % TWO_32) == Ok(ReduceOperand(o))
  {
  }

  lemma DecodeFields(i: Instruction, pc: nat)
    ensures var (opcode, reg, kind, value) := Fields(i);
      Decode(opcode, reg, kind, value % TWO_32, pc) == Ok(Reduce(i))
  {
    match i
    case Arith(op, dst, src) => DecodeOperandFields(src);
    case Load(_, addr) => DecodeOperandFields(addr);
    case Store(_, addr) => DecodeOperandFields(addr);
    case _ =>
  }

  // Fetch and decode at once, as the instruction fetch does; `Err` carries either the
  // address that could not be read or the decoder's complaint.
  datatype Fetched = Instr(i: Instruction) | Unreadable(addr: nat) | Undecodable(e: CpuError)

  function FetchInstruction(m: Memory, pc: nat): Fetched {
    match Fetch(m, pc)
    case Err(a) => Unreadable(a)
    case Ok(raw) =>
      match Decode(raw.opcode, raw.reg, raw.kind, raw.value, pc + 8)
      case Ok(i) => Instr(i)
      case Err(e) => Undecodable(e)
  }

  // Fetching an encoded instruction gives it back, up to the 32 bits that are kept of
  // its immediate or address.
  lemma EncodeDecode(i: Instruction, m: Memory, a: nat)
    requires Holds(m, a, Encode(i)) && a % 4 == 0
    ensures FetchInstruction(m, a) == Instr(Reduce(i))
  {
    var (opcode, reg, kind, value) := Fields(i);
    FetchEncoded(m, a, opcode, reg, kind, value);
    DecodeFields(i, a + 8);
    hide Fetch, Decode, Holds, EncodeWord, Fields, Encode;
  }
}
