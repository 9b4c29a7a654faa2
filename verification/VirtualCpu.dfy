// The virtual CPU as an object over the MMU.
module VirtualCpus {
  import opened Prelude
  import opened AddressSpace
  import opened Mmu
  import opened Isa
  import opened Cpu
  import PagedProcess

  lemma ByteThroughTables(s: Mmu.State, pid: nat, a: nat)
    requires TableOk(s)
    ensures ReadU8(s, pid, a).Ok? <==> Read8(View(s, pid), a).Some?
    ensures ReadU8(s, pid, a).Ok? ==> ReadU8(s, pid, a).value == Read8(View(s, pid), a).value
  {
    ReadAgrees(s, pid, a);
  }

  // What one step through the tables amounts to, by how far it gets.
  lemma StepMmuUnreadable(c: Cpu.State, s: Mmu.State, pid: nat)
    requires TableOk(s) && !c.halted && !c.faultPending && Fetch(View(s, pid), c.pc).Err?
    ensures PagedProcess.StepMmu(c, s, pid) == (c.(faultPending := true), s, Faulted(Fetch(View(s, pid), c.pc).error))
  {
    hide Fetch, View, TableOk;
  }

  function DecodeRaw(raw: Raw, pc: nat): Result<Instruction, CpuError> {
    Decode(raw.opcode, raw.reg, raw.kind, raw.value, pc)
  }

  lemma StepMmuUndecodable(c: Cpu.State, s: Mmu.State, pid: nat, raw: Raw)
    requires TableOk(s) && !c.halted && !c.faultPending && Fetch(View(s, pid), c.pc) == Ok(raw)
    requires DecodeRaw(raw, c.pc + 8).Err?
    ensures PagedProcess.StepMmu(c, s, pid) == (c.(pc := c.pc + 8), s, Failed(DecodeRaw(raw, c.pc + 8).error))
  {
    hide Fetch, Decode, View, TableOk;
  }

  lemma StepMmuExecutes(c: Cpu.State, s: Mmu.State, pid: nat, raw: Raw, i: Instruction)
    requires TableOk(s) && !c.halted && !c.faultPending && Fetch(View(s, pid), c.pc) == Ok(raw)
    requires DecodeRaw(raw, c.pc + 8) == Ok(i)
    ensures var t := PagedProcess.StepMmu(c, s, pid);
      && match Cpu.Execute(c.(pc := c.pc + 8), View(s, pid), i)
         case Done(c', _) => t.0 == c'.(count := c'.count + 1) && t.2 == Retired
         case Blocked(a) => t.0 == c.(faultPending := true) && t.2 == Faulted(a)
         case Refused(e) => t.0 == c.(pc := c.pc + 8) && t.2 == Failed(e)
    ensures var t := PagedProcess.StepMmu(c, s, pid);
      t.1 == if t.2.Retired? && i.Store? then WriteU8(s, pid, c.Value(i.addr), c.Get(i.from) % 256).0 else s
  {
    hide Cpu.Execute, Fetch, Decode, View, TableOk, WriteU8;
  }

  lemma StepMmuIdle(c: Cpu.State, s: Mmu.State, pid: nat)
    requires TableOk(s) && (c.halted || c.faultPending)
    ensures PagedProcess.StepMmu(c, s, pid) == (c, s, if c.halted then Failed(Halted) else Waiting)
  {
    hide View, TableOk;
  }

  class VirtualCpu {
    var registers: Registers
    var pc: nat
    var flags: Flags
    var halted: bool
    var syscallPending: bool
    var syscallRegs: Registers
    var instructionCount: nat
    var pagefaultPending: bool
    const pid: nat
    const mmu: MemoryUnit

    function Model(): Cpu.State
      reads this
    {
      Cpu.State(registers, pc, flags, halted, syscallPending, syscallRegs, instructionCount, pagefaultPending)
    }

    // The CPU relies on the page tables being those the memory service keeps.
    ghost predicate Valid()
      reads mmu, mmu.memory
    {
      mmu.Valid() && TableOk(mmu.Model())
    }

    ghost function Memory(): AddressSpace.Memory
      requires Valid()
      reads mmu, mmu.memory
    {
      View(mmu.Model(), pid)
    }

    constructor (mmu: MemoryUnit, pid: nat)
      ensures this.mmu == mmu && this.pid == pid
      ensures Model() == Cpu.State([0, 0, 0, 0], 0, Flags(false, false, false, false), false, false, [0, 0, 0, 0], 0, false)
    {
      this.mmu, this.pid := mmu, pid;
      registers, pc, flags := [0, 0, 0, 0], 0, Flags(false, false, false, false);
      halted, syscallPending, syscallRegs := false, false, [0, 0, 0, 0];
      instructionCount, pagefaultPending := 0, false;
    }

    // The byte at the program counter, which moves past it; an unreadable byte gives
    // its address and moves nothing.
    method FetchByte() returns (r: Result<byte, nat>)
      requires Valid()
      modifies this`pc
      ensures Valid() && Memory() == old(Memory())
      ensures var b := Read8(Memory(), old(pc));
        if b.Some? then r == Ok(b.value) && pc == old(pc) + 1 else r == Err(old(pc)) && pc == old(pc)
    {
      var b := mmu.ReadVirtual(pid, pc);
      ByteThroughTables(mmu.Model(), pid, pc);
      if b.Err? {
        return Err(pc);
      }
      pc := pc + 1;
      return Ok(b.value);
    }

    method FetchWord() returns (r: Result<nat, nat>)
      requires Valid()
      modifies this`pc
      ensures Valid() && Memory() == old(Memory())
      ensures var w := Read32(Memory(), old(pc));
        if w.Some? then r == Ok(w.value) && pc == old(pc) + 4 else r == Err(old(pc)) && pc == old(pc)
    {
      var w := mmu.ReadVirtualWord(pid, pc);
      WordReadAgrees(mmu.Model(), pid, pc);
      if w.Err? {
        return Err(pc);
      }
      pc := pc + 4;
      return Ok(w.value);
    }

    // A fetched word; the program counter is behind what has been read.
    method FetchRaw() returns (r: Result<Raw, nat>)
      requires Valid()
      modifies this`pc
      ensures Valid() && r == Fetch(Memory(), old(pc))
      ensures r.Ok? ==> pc == old(pc) + 8
    {
      hide Read8, Read32, Valid, Memory;
      ghost var m := Memory();
      var opcode := FetchByte();
      if opcode.Err? {
        return Err(opcode.error);
      }
      var reg := FetchByte();
      if reg.Err? {
        return Err(reg.error);
      }
      var kind := FetchByte();
      if kind.Err? {
        return Err(kind.error);
      }
      var pad := FetchByte();
      if pad.Err? {
        return Err(pad.error);
      }
      var value := FetchWord();
      if value.Err? {
        return Err(value.error);
      }
      assert Memory() == m;
      WordBound(m, old(pc) + 4);
      return Ok(Raw(opcode.value, reg.value, kind.value, value.value));
    }

    lemma WordBound(m: AddressSpace.Memory, a: nat)
      ensures Read32(m, a).Some? ==> Read32(m, a).value < TWO_32
    {
    }

    method LoadByte(to: Register, addr: Operand) returns (r: Result<(), Outcome>)
      requires Valid()
      modifies this
      ensures var a := old(Model()).Value(addr);
        match Read8(Memory(), a)
        case Some(b) => r == Ok(()) && Model() == old(Model()).Set(to, b)
        case None => r == Err(Faulted(a)) && Model() == old(Model())
    {
      hide Read8, View, TableOk, ReadU8, PageBytes;
      var a := Model().Value(addr);
      var b := mmu.ReadVirtual(pid, a);
      ByteThroughTables(mmu.Model(), pid, a);
      if b.Err? {
        return Err(Faulted(a));
      }
      registers := registers[to.Index() := b.value];
      return Ok(());
    }

    method StoreByte(from: Register, addr: Operand) returns (r: Result<(), Outcome>)
      requires Valid()
      modifies mmu.memory
      ensures Valid() && mmu.tables == old(mmu.tables)
      ensures var (a, b) := (Model().Value(addr), Model().Get(from) % 256);
        match Write8(old(Memory()), a, b)
        case Some(m) => r == Ok(()) && Memory() == m && mmu.Model() == WriteU8(old(mmu.Model()), pid, a, b).0
        case None => r == Err(Faulted(a)) && mmu.Model() == old(mmu.Model())
    {
      var a, b := Model().Value(addr), Model().Get(from) % 256;
      WriteAgrees(mmu.Model(), pid, a, b);
      hide Write8, View, TableOk, WriteU8;
      var w := mmu.WriteVirtual(pid, a, b);
      return if w.Ok? then Ok(()) else Err(Faulted(a));
    }

    // Carry out an instruction the program counter is already behind.
    method ExecuteInstruction(i: Instruction) returns (r: Result<(), Outcome>)
      requires Valid()
      modifies this, mmu.memory
      ensures Valid() && mmu.tables == old(mmu.tables)
      ensures match Cpu.Execute(old(Model()), old(Memory()), i)
        case Done(c, m) => r == Ok(()) && Model() == c && Memory() == m
        case Blocked(a) => r == Err(Faulted(a)) && Model() == old(Model()) && mmu.Model() == old(mmu.Model())
        case Refused(e) => r == Err(Failed(e)) && Model() == old(Model()) && mmu.Model() == old(mmu.Model())
      ensures (if r.Ok? && i.Store? then
                 mmu.Model() == WriteU8(old(mmu.Model()), pid, old(Model()).Value(i.addr), old(Model()).Get(i.from) % 256).0
               else mmu.Model() == old(mmu.Model()))
    {
      hide Read8, Write8, View, TableOk, WriteU8, Cpu.ExecuteArith;
      match i
      case Arith(op, dst, src) =>
        r := ExecuteArithmetic(op, dst, src);
      case Jump(on, target) =>
        if Taken(on, flags.zero) {
          pc := target;
        }
        return Ok(());
      case Load(to, addr) =>
        r := LoadByte(to, addr);
      case Store(from, addr) =>
        r := StoreByte(from, addr);
      case Int(v) =>
        if v == SYSCALL {
          syscallRegs := registers;
          syscallPending := true;
        }
        return Ok(());
      case Halt =>
        halted := true;
        return Ok(());
    }

    method ExecuteArithmetic(op: Alu, dst: Register, src: Operand) returns (r: Result<(), Outcome>)
      requires Valid()
      modifies this
      ensures match ExecuteArith(old(Model()), Memory(), op, dst, src)
        case Done(c, m) => r == Ok(()) && Model() == c && Memory() == m
        case Blocked(_) => false
        case Refused(e) => r == Err(Failed(e)) && Model() == old(Model())
    {
      hide View, TableOk, FromResult, Compute;
      var a, b := Model().Get(dst), Model().Value(src);
      if op.MOV? {
        registers := registers[dst.Index() := b];
        return Ok(());
      }
      if op.DIV? && b == 0 {
        return Err(Failed(DivideByZero(pc)));
      }
      var result := Compute(op, a, b);
      flags := FromResult(result, a, b);
      if !op.CMP? {
        registers := registers[dst.Index() := result];
      }
      return Ok(());
    }

    // One fetch-decode-execute cycle.  A fault puts the program counter back and leaves
    // the step to be taken again.
    method Step() returns (out: Outcome)
      requires Valid()
      modifies this, mmu.memory
      ensures Valid() && mmu.tables == old(mmu.tables)
      ensures (Model(), mmu.Model(), out) == PagedProcess.StepMmu(old(Model()), old(mmu.Model()), pid)
      ensures Memory() == Cpu.Step(old(Model()), old(Memory())).m
    {
      PagedProcess.StepMmuAgrees(Model(), mmu.Model(), pid);
      hide PagedProcess.StepMmu, Cpu.Step, View, TableOk;
      if halted || pagefaultPending {
        StepMmuIdle(Model(), mmu.Model(), pid);
        return if halted then Failed(Halted) else Waiting;
      }
      out := Cycle();
    }

    // Execute, count the instruction or put the program counter back on a fault.
    method Complete(i: Instruction, savedPc: nat) returns (out: Outcome)
      requires Valid()
      modifies this, mmu.memory
      ensures Valid() && mmu.tables == old(mmu.tables)
      ensures match Cpu.Execute(old(Model()), old(Memory()), i)
        case Done(c, m) => out == Retired && Model() == c.(count := c.count + 1)
        case Blocked(a) => out == Faulted(a) && Model() == old(Model()).(pc := savedPc, faultPending := true)
        case Refused(e) => out == Failed(e) && Model() == old(Model())
      ensures mmu.Model() ==
        if out.Retired? && i.Store? then
          WriteU8(old(mmu.Model()), pid, old(Model()).Value(i.addr), old(Model()).Get(i.from) % 256).0
        else old(mmu.Model())
    {
      hide Cpu.Execute, View, TableOk, WriteU8;
      var done := ExecuteInstruction(i);
      if done.Ok? {
        instructionCount := instructionCount + 1;
        return Retired;
      }
      if done.error.Faulted? {
        pc := savedPc;
        pagefaultPending := true;
      }
      return done.error;
    }

    // Fetch and decode; the program counter moves behind a complete word.
    method FetchDecoded() returns (r: Result<Instruction, Outcome>)
      requires Valid() && !halted && !pagefaultPending
      modifies this
      ensures r.Err? ==> (Model(), mmu.Model(), r.error) == PagedProcess.StepMmu(old(Model()), mmu.Model(), pid)
      ensures r.Ok? ==> (
        && Model() == old(Model()).(pc := old(pc) + 8)
        && exists raw :: Fetch(Memory(), old(pc)) == Ok(raw) && DecodeRaw(raw, old(pc) + 8) == Ok(r.value))
    {
      ghost var c := Model();
      hide PagedProcess.StepMmu, DecodeRaw, Fetch, View, TableOk;
      var savedPc := pc;
      var raw := FetchRaw();
      if raw.Err? {
        pc := savedPc;
        pagefaultPending := true;
        StepMmuUnreadable(c, mmu.Model(), pid);
        return Err(Faulted(raw.error));
      }
      var instr := DecodeRaw(raw.value, pc);
      if instr.Err? {
        StepMmuUndecodable(c, mmu.Model(), pid, raw.value);
        return Err(Failed(instr.error));
      }
      return Ok(instr.value);
    }

    method Cycle() returns (out: Outcome)
      requires Valid() && !halted && !pagefaultPending
      modifies this, mmu.memory
      ensures Valid() && mmu.tables == old(mmu.tables)
      ensures (Model(), mmu.Model(), out) == PagedProcess.StepMmu(old(Model()), old(mmu.Model()), pid)
    {
      hide PagedProcess.StepMmu, DecodeRaw, Cpu.Execute, Fetch, View, TableOk, WriteU8;
      ghost var c, s := Model(), mmu.Model();
      var savedPc := pc;
      var instr := FetchDecoded();
      if instr.Err? {
        return instr.error;
      }
      ghost var raw :| Fetch(Memory(), savedPc) == Ok(raw) && DecodeRaw(raw, savedPc + 8) == Ok(instr.value);
      StepMmuExecutes(c, s, pid, raw, instr.value);
      out := Complete(instr.value, savedPc);
    }
  }
}
