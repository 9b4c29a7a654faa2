// The virtual CPU: flags, one restartable step, and runs.
module Cpu {
  import opened Prelude
  import opened AddressSpace
  import opened Isa

  const TWO_63: int := 0x8000_0000_0000_0000

  // ---------------------------------------------------------------------
  // Arithmetic and flags
  // ---------------------------------------------------------------------

  datatype Flags = Flags(zero: bool, sign: bool, overflow: bool, carry: bool)

  // `x as i64`
  function Signed(x: u64): int {
    if x < TWO_63 then x else x - TWO_64
  }

  function FromResult(result: u64, a: u64, b: u64): Flags {
    Flags(
      result == 0,
      Signed(result) < 0,
      (Signed(a) >= 0 && Signed(b) >= 0 && Signed(result) < 0) || (Signed(a) < 0 && Signed(b) < 0 && Signed(result) >= 0),
      result < a)
  }

  function Compute(op: Alu, a: u64, b: u64): u64
    requires op.DIV? ==> b != 0
  {
    match op
    case MOV => b
    case ADD => (a + b) % TWO_64
    case SUB => (a - b) % TWO_64
    case MUL => (a * b) % TWO_64
    case DIV => Quotient(a, b)
    case CMP => (a - b) % TWO_64
  }

  // Division of unsigned numbers, rounding down.
  function Quotient(a: nat, b: nat): (q: nat)
    requires b != 0
    ensures q <= a && q * b <= a < q * b + b
  {
    if a < b then 0
    else
      var r := Quotient(a - b, b);
      assert (r + 1) * b == r * b + b;
      r + 1
  }

  // The arithmetic is that of 64-bit words: sums, differences and products are right
  // modulo 2^64, and the quotient is the truncated one.
  lemma ArithmeticIsModular(a: u64, b: u64)
    ensures exists k: int :: Compute(ADD, a, b) + k * TWO_64 == a + b
    ensures exists k: int :: Compute(SUB, a, b) + k * TWO_64 == a - b
    ensures exists k: int :: Compute(MUL, a, b) + k * TWO_64 == a * b
    ensures b != 0 ==> Compute(DIV, a, b) * b <= a < Compute(DIV, a, b) * b + b
    ensures Compute(MOV, a, b) == b
  {
    Modulo(a + b);
    Modulo(a - b);
    Modulo(a * b);
  }

  lemma Modulo(n: int)
    ensures n % TWO_64 + (n / TWO_64) * TWO_64 == n
  {
  }

  // After an addition the flags are exact: carry is unsigned overflow, overflow is
  // signed overflow, sign and zero describe the wrapped sum.
  lemma AddFlagsExact(a: u64, b: u64)
    ensures var f := FromResult(Compute(ADD, a, b), a, b);
      && (f.carry <==> a + b >= TWO_64)
      && (f.overflow <==> !(-TWO_63 <= Signed(a) + Signed(b) < TWO_63))
      && (f.zero <==> a + b == 0 || a + b == TWO_64)
      && (!f.overflow ==> (f.sign <==> Signed(a) + Signed(b) < 0))
  {
    assert Compute(ADD, a, b) == if a + b < TWO_64 then a + b else a + b - TWO_64;
  }

  // After a comparison zero is equality.  Carry is not the borrow: it is set when the
  // subtrahend is positive and does not exceed the minuend, so on non-zero subtrahends
  // it is the borrow's opposite.  Overflow follows the rule for additions, so it is set
  // only on operands of equal sign, where the signed difference never overflows; sign is
  // that of the wrapped difference, right exactly when the signed one fits.
  lemma CompareFlags(a: u64, b: u64)
    ensures var f := FromResult(Compute(CMP, a, b), a, b);
      && (f.zero <==> a == b)
      && (f.carry <==> 0 < b <= a)
      && (f.overflow <==> if a < TWO_63 then a < b < TWO_63 else TWO_63 <= b <= a)
      && (f.overflow ==> -TWO_63 <= Signed(a) - Signed(b) < TWO_63)
      && (f.sign <==> if -TWO_63 <= Signed(a) - Signed(b) < TWO_63 then Signed(a) < Signed(b) else Signed(b) < Signed(a))
  {
    assert Compute(CMP, a, b) == if b <= a then a - b else a - b + TWO_64;
  }

  // ---------------------------------------------------------------------
  // One step
  // ---------------------------------------------------------------------

  type Registers = s: seq<u64> | |s| == 4 witness [0, 0, 0, 0]

  datatype State = State(
    regs: Registers,
    pc: nat,
    flags: Flags,
    halted: bool,
    syscallPending: bool,
    syscallRegs: Registers,
    count: nat,
    faultPending: bool)
  {
    function Get(r: Register): u64 {
      regs[r.Index()]
    }

    function Set(r: Register, v: u64): State {
      this.(regs := regs[r.Index() := v])
    }

    function Value(o: Operand): u64 {
      match o
      case Reg(r) => Get(r)
      case Imm(v) => v
    }
  }

  const SYSCALL: byte := 0x80

  datatype Executed = Done(c: State, m: Memory) | Blocked(addr: nat) | Refused(e: CpuError)

  function ExecuteArith(c: State, m: Memory, op: Alu, dst: Register, src: Operand): Executed {
    var a, b := c.Get(dst), c.Value(src);
    if op.MOV? then Done(c.Set(dst, b), m)
    else if op.DIV? && b == 0 then Refused(DivideByZero(c.pc))
    else
      var r := Compute(op, a, b);
      var c1 := c.(flags := FromResult(r, a, b));
      Done(if op.CMP? then c1 else c1.Set(dst, r), m)
  }

  predicate Taken(on: Branch, zero: bool) {
    match on
    case JMP => true
    case JZ => zero
    case JNZ => !zero
  }

  // The program counter of `c` is already behind the instruction.
  function Execute(c: State, m: Memory, i: Instruction): Executed {
    match i
    case Arith(op, dst, src) => ExecuteArith(c, m, op, dst, src)
    case Jump(on, target) => Done(if Taken(on, c.flags.zero) then c.(pc := target) else c, m)
    case Load(to, addr) =>
      (match Read8(m, c.Value(addr))
       case Some(b) => Done(c.Set(to, b), m)
       case None => Blocked(c.Value(addr)))
    case Store(from, addr) =>
      (match Write8(m, c.Value(addr), c.Get(from) % 256)
       case Some(m') => Done(c, m')
       case None => Blocked(c.Value(addr)))
    case Int(v) => Done(if v == SYSCALL then c.(syscallRegs := c.regs, syscallPending := true) else c, m)
    case Halt => Done(c.(halted := true), m)
  }

  datatype Outcome = Retired | Faulted(addr: nat) | Waiting | Failed(e: CpuError)

  datatype Stepped = Stepped(c: State, m: Memory, out: Outcome)

  function Finish(c: State, m: Memory, i: Instruction): Stepped {
    match Execute(c.(pc := c.pc + 8), m, i)
    case Done(c', m') => Stepped(c'.(count := c'.count + 1), m', Retired)
    case Blocked(a) => Stepped(c.(faultPending := true), m, Faulted(a))
    case Refused(e) => Stepped(c.(pc := c.pc + 8), m, Failed(e))
  }

  function Step(c: State, m: Memory): Stepped {
    if c.halted then Stepped(c, m, Failed(Halted))
    else if c.faultPending then Stepped(c, m, Waiting)
    else
      match FetchInstruction(m, c.pc)
      case Unreadable(a) => Stepped(c.(faultPending := true), m, Faulted(a))
      case Undecodable(e) => Stepped(c.(pc := c.pc + 8), m, Failed(e))
      case Instr(i) => Finish(c, m, i)
  }

  // A conditional jump behind a comparison branches on equality of the operands.
  lemma CompareThenJump(c: State, m: Memory, dst: Register, src: Operand, target: u64)
    ensures var e := Execute(c, m, Arith(CMP, dst, src));
      && e.Done? && e.m == m && e.c.regs == c.regs && e.c.pc == c.pc
      && Execute(e.c, m, Jump(JZ, target)) == Done(if c.Get(dst) == c.Value(src) then e.c.(pc := target) else e.c, m)
      && Execute(e.c, m, Jump(JNZ, target)) == Done(if c.Get(dst) != c.Value(src) then e.c.(pc := target) else e.c, m)
      && Execute(e.c, m, Jump(JMP, target)) == Done(e.c.(pc := target), m)
  {
    CompareFlags(c.Get(dst), c.Value(src));
  }

  // What is stored is loaded again, cut to a byte, and no other address reads differently.
  lemma StoreThenLoad(c: State, m: Memory, from: Register, to: Register, a: u64, other: nat)
    requires Execute(c, m, Store(from, Imm(a))).Done?
    ensures var e := Execute(c, m, Store(from, Imm(a)));
      && Execute(e.c, e.m, Load(to, Imm(a))) == Done(c.Set(to, c.Get(from) % 256), e.m)
      && (other != a ==> Read8(e.m, other) == Read8(m, other))
  {
    AlignFacts(a);
    AlignFacts(other);
  }

  // A step that faults leaves registers, flags, program counter, instruction count and
  // memory as they were.
  lemma FaultChangesOnlyPending(c: State, m: Memory)
    requires Step(c, m).out.Faulted?
    ensures Step(c, m) == Stepped(c.(faultPending := true), m, Step(c, m).out)
    ensures !c.faultPending && !c.halted
  {
  }

  // With the program counter at a multiple of four, a fault names a page that is absent.
  lemma FaultNamesAbsentPage(c: State, m: Memory)
    requires Step(c, m).out.Faulted? && c.pc % 4 == 0
    ensures AlignDown(Step(c, m).out.addr) !in m
  {
    hide AlignDown;
  }

  // At any other program counter the CPU faults on every memory: the word half of an
  // instruction is never readable, so serving the fault cannot help.
  lemma MisalignedNeverFetches(c: State, m: Memory)
    ensures c.pc % 4 != 0 && !c.halted && !c.faultPending ==> Step(c, m).out.Faulted?
    ensures !c.halted && !c.faultPending && AlignDown(c.pc) in m && AlignDown(c.pc + 7) in m && c.pc % 4 != 0 ==>
      Step(c, m).out == Faulted(c.pc + 4)
  {
    hide AlignDown, Decode, Finish;
    StillMisaligned(c.pc);
    if AlignDown(c.pc) in m && AlignDown(c.pc + 7) in m {
      Between(c.pc, 1);
      Between(c.pc, 2);
      Between(c.pc, 3);
    }
  }

  lemma StillMisaligned(a: nat)
    ensures (a + 4) % 4 == a % 4
  {
  }

  lemma Between(a: nat, i: nat)
    requires i <= 7
    ensures AlignDown(a + i) == AlignDown(a) || AlignDown(a + i) == AlignDown(a + 7)
  {
    AlignFacts(a);
    AlignFacts(a + 7);
    if a + i < AlignDown(a) + PAGE_SIZE {
      AlignUnique(a + i, AlignDown(a));
    } else {
      AlignUnique(a + i, AlignDown(a) + PAGE_SIZE);
      AlignUnique(a + 7, AlignDown(a) + PAGE_SIZE);
    }
  }

  // ---------------------------------------------------------------------
  // Partly resident memory
  // ---------------------------------------------------------------------

  // The part of a flat memory that is resident.
  function Visible(flat: Memory, resident: set<nat>): Memory {
    map v | v in flat && v in resident :: flat[v]
  }

  lemma VisibleAgain(flat: Memory, r: set<nat>)
    ensures flat + Visible(flat, r) == flat
  {
  }

  lemma ReadVisible(flat: Memory, r: set<nat>, a: nat)
    ensures Read8(Visible(flat, r), a).Some? ==> Read8(flat, a) == Read8(Visible(flat, r), a)
    ensures Read32(Visible(flat, r), a).Some? ==> Read32(flat, a) == Read32(Visible(flat, r), a)
    ensures Read8(Visible(flat, r), a).None? && Read8(flat, a).Some? ==> AlignDown(a) !in r
  {
  }

  lemma FetchVisible(flat: Memory, r: set<nat>, pc: nat)
    requires !FetchInstruction(Visible(flat, r), pc).Unreadable?
    ensures FetchInstruction(flat, pc) == FetchInstruction(Visible(flat, r), pc)
  {
    ReadVisible(flat, r, pc);
    ReadVisible(flat, r, pc + 1);
    ReadVisible(flat, r, pc + 2);
    ReadVisible(flat, r, pc + 3);
    ReadVisible(flat, r, pc + 4);
    hide Read8, Read32, Visible, Decode;
  }

  lemma WriteVisible(flat: Memory, r: set<nat>, a: nat, b: byte)
    requires Write8(Visible(flat, r), a, b).Some?
    ensures Write8(flat, a, b).Some?
    ensures Write8(Visible(flat, r), a, b).value == Visible(Write8(flat, a, b).value, r)
    ensures Write8(flat, a, b).value.Keys == flat.Keys
    ensures Write8(flat, a, b).value == flat + Write8(Visible(flat, r), a, b).value
  {
    assert Write8(Visible(flat, r), a, b).value == Visible(Write8(flat, a, b).value, r);
    assert Write8(flat, a, b).value == flat + Write8(Visible(flat, r), a, b).value;
  }

  // A step that does not fault on the resident part does on the resident part exactly
  // what it does on the whole.
  lemma StepVisible(c: State, flat: Memory, r: set<nat>)
    requires !Step(c, Visible(flat, r)).out.Faulted?
    ensures var (s, t) := (Step(c, flat), Step(c, Visible(flat, r)));
      t.c == s.c && t.out == s.out && t.m == Visible(s.m, r) && s.m.Keys == flat.Keys && s.m == flat + t.m
  {
    VisibleAgain(flat, r);
    if !c.halted && !c.faultPending {
      FetchVisible(flat, r, c.pc);
      match FetchInstruction(flat, c.pc)
      case Instr(i) => FinishVisible(c, flat, r, i);
      case _ =>
    }
    hide FetchInstruction, Finish, Visible;
  }

  lemma FinishVisible(c: State, flat: Memory, r: set<nat>, i: Instruction)
    requires !Finish(c, Visible(flat, r), i).out.Faulted?
    ensures var (s, t) := (Finish(c, flat, i), Finish(c, Visible(flat, r), i));
      t.c == s.c && t.out == s.out && t.m == Visible(s.m, r) && s.m.Keys == flat.Keys && s.m == flat + t.m
  {
    hide Visible, Execute;
    VisibleAgain(flat, r);
    match i
    case Load(_, addr) => LoadVisible(c, flat, r, i);
    case Store(from, addr) => StoreVisible(c, flat, r, i);
    case _ => ExecuteVisible(c, flat, r, i);
  }

  lemma LoadVisible(c: State, flat: Memory, r: set<nat>, i: Instruction)
    requires i.Load? && !Execute(c.(pc := c.pc + 8), Visible(flat, r), i).Blocked?
    ensures var (s, t) := (Execute(c.(pc := c.pc + 8), flat, i), Execute(c.(pc := c.pc + 8), Visible(flat, r), i));
      s.Done? && t.Done? && t.c == s.c && s.m == flat && t.m == Visible(flat, r)
  {
    hide Visible, Read8;
    ReadVisible(flat, r, c.Value(i.addr));
  }

  lemma StoreVisible(c: State, flat: Memory, r: set<nat>, i: Instruction)
    requires i.Store? && !Execute(c.(pc := c.pc + 8), Visible(flat, r), i).Blocked?
    ensures var (s, t) := (Execute(c.(pc := c.pc + 8), flat, i), Execute(c.(pc := c.pc + 8), Visible(flat, r), i));
      && s.Done? && t.Done? && t.c == s.c && t.m == Visible(s.m, r)
      && s.m.Keys == flat.Keys && s.m == flat + t.m
  {
    hide Visible, Write8;
    WriteVisible(flat, r, c.Value(i.addr), c.Get(i.from) % 256);
  }

  // Any other instruction does not look at memory.
  lemma ExecuteVisible(c: State, flat: Memory, r: set<nat>, i: Instruction)
    requires !i.Load? && !i.Store?
    ensures var (s, t) := (Execute(c.(pc := c.pc + 8), flat, i), Execute(c.(pc := c.pc + 8), Visible(flat, r), i));
      if s.Done? then t.Done? && t.c == s.c && s.m == flat && t.m == Visible(flat, r) else t == s
  {
    hide Visible, Compute, FromResult;
  }
}
