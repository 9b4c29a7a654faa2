// An assembled program as a list of instructions, and the machine that runs the list.
module Programs {
  import opened Prelude
  import opened AddressSpace
  import opened Isa
  import opened Cpu
  import opened PagedCpu

  // `at` is an index into the list.
  datatype Abstract = Abstract(
    regs: Registers,
    at: nat,
    flags: Flags,
    halted: bool,
    syscallPending: bool,
    syscallRegs: Registers,
    count: nat,
    m: Memory)
  {
    function Value(o: Operand): u64 {
      if o.Reg? then regs[o.r.Index()] else o.v
    }
  }

  function WithResult(s: Abstract, op: Alu, d: nat, a: u64, b: u64): Abstract
    requires d < 4 && (op.DIV? ==> b != 0)
  {
    var r := Compute(op, a, b);
    match op
    case MOV => s.(regs := s.regs[d := b])
    case CMP => s.(flags := FromResult(r, a, b))
    case _ => s.(regs := s.regs[d := r], flags := FromResult(r, a, b))
  }

  // What the machine may do next: halted for good, or an instruction of the program
  // whose memory operand exists and, when written, lies behind the code.
  predicate CanRun(prog: seq<Instruction>, s: Abstract) {
    s.halted || (
      && s.at < |prog|
      && match Reduce(prog[s.at])
         case Load(_, addr) => AlignDown(s.Value(addr)) in s.m
         case Store(_, addr) => AlignDown(s.Value(addr)) in s.m && 8 * |prog| <= s.Value(addr)
         case _ => true)
  }

  // One instruction of the list; a division by zero is skipped and not counted.
  function Advance(prog: seq<Instruction>, s: Abstract): Abstract
    requires CanRun(prog, s)
  {
    if s.halted then s
    else
      var next := s.(at := s.at + 1, count := s.count + 1);
      match Reduce(prog[s.at])
      case Arith(op, dst, src) =>
        if op.DIV? && s.Value(src) == 0 then s.(at := s.at + 1)
        else WithResult(next, op, dst.Index(), s.regs[dst.Index()], s.Value(src))
      case Jump(on, target) => if Taken(on, s.flags.zero) then next.(at := target / 8) else next
      case Load(to, addr) =>
        var a := s.Value(addr);
        next.(regs := s.regs[to.Index() := s.m[AlignDown(a)][a % PAGE_SIZE]])
      case Store(from, addr) =>
        var a := s.Value(addr);
        var v := AlignDown(a);
        next.(m := s.m[v := s.m[v][a % PAGE_SIZE := s.regs[from.Index()] % 256]])
      case Int(v) => if v == SYSCALL then next.(syscallPending := true, syscallRegs := s.regs) else next
      case Halt => next.(halted := true)
  }

  predicate CanRunFor(prog: seq<Instruction>, s: Abstract, n: nat)
    decreases n
  {
    n == 0 || (CanRun(prog, s) && CanRunFor(prog, Advance(prog, s), n - 1))
  }

  function Run(prog: seq<Instruction>, s: Abstract, n: nat): Abstract
    requires CanRunFor(prog, s, n)
    decreases n
  {
    if n == 0 then s else Run(prog, Advance(prog, s), n - 1)
  }

  // Jumps go to the first byte of an instruction of the program.
  ghost predicate WellFormed(prog: seq<Instruction>) {
    forall i :: 0 <= i < |prog| ==>
      match Reduce(prog[i])
      case Jump(_, target) => target % 8 == 0 && target < 8 * |prog|
      case _ => true
  }

  // The program's encoding lies at address 0.
  ghost predicate Loaded(prog: seq<Instruction>, m: Memory) {
    forall i :: 0 <= i < |prog| ==> Holds(m, 8 * i, Encode(prog[i]))
  }

  function Concrete(s: Abstract): State {
    State(s.regs, 8 * s.at, s.flags, s.halted, s.syscallPending, s.syscallRegs, s.count, false)
  }

  // ---------------------------------------------------------------------
  // Refinement
  // ---------------------------------------------------------------------

  lemma ArithIsFinish(prog: seq<Instruction>, s: Abstract)
    requires CanRun(prog, s) && !s.halted && Reduce(prog[s.at]).Arith?
    ensures var t := Finish(Concrete(s), s.m, Reduce(prog[s.at]));
      t.c == Concrete(Advance(prog, s)) && t.m == Advance(prog, s).m
  {
    hide Compute, FromResult, Reduce, AlignDown, Read8, Write8;
    var i := Reduce(prog[s.at]);
    var c := Concrete(s).(pc := 8 * s.at + 8);
    assert c.Value(i.src) == s.Value(i.src) && c.Get(i.dst) == s.regs[i.dst.Index()];
  }

  lemma AdvanceIsFinish(prog: seq<Instruction>, s: Abstract)
    requires CanRun(prog, s) && WellFormed(prog) && !s.halted
    ensures var t := Finish(Concrete(s), s.m, Reduce(prog[s.at]));
      t.c == Concrete(Advance(prog, s)) && t.m == Advance(prog, s).m
  {
    var i := Reduce(prog[s.at]);
    if i.Arith? {
      ArithIsFinish(prog, s);
      hide Finish, Advance, Reduce, WellFormed, CanRun;
    } else {
      assert i.Jump? ==> i.target % 8 == 0 && 8 * (i.target / 8) == i.target;
      hide Compute, FromResult, Reduce, WellFormed, AlignDown;
    }
  }

  lemma StepIsFinish(c: State, m: Memory, i: Instruction)
    requires FetchInstruction(m, c.pc) == Instr(i) && !c.halted && !c.faultPending
    ensures Step(c, m) == Finish(c, m, i)
  {
    hide FetchInstruction, Finish;
  }

  lemma LoadedFetches(prog: seq<Instruction>, m: Memory, i: nat)
    requires Loaded(prog, m) && i < |prog|
    ensures FetchInstruction(m, 8 * i) == Instr(Reduce(prog[i]))
  {
    assert Holds(m, 8 * i, Encode(prog[i]));
    hide FetchInstruction, Reduce, Holds, Encode, Loaded;
    assert 8 * i == 4 * (2 * i);
    EncodeDecode(prog[i], m, 8 * i);
  }

  lemma StepHalted(c: State, m: Memory)
    requires c.halted
    ensures Step(c, m).c == c && Step(c, m).m == m
  {
    hide FetchInstruction, Finish;
  }

  lemma StepAdvances(prog: seq<Instruction>, s: Abstract)
    requires CanRun(prog, s) && WellFormed(prog) && Loaded(prog, s.m)
    ensures var t := Step(Concrete(s), s.m);
      t.c == Concrete(Advance(prog, s)) && t.m == Advance(prog, s).m
  {
    hide FetchInstruction, Finish, Step, Reduce, Loaded, WellFormed;
    if s.halted {
      StepHalted(Concrete(s), s.m);
    } else {
      AdvanceIsFinish(prog, s);
      LoadedFetches(prog, s.m, s.at);
      StepIsFinish(Concrete(s), s.m, Reduce(prog[s.at]));
      hide Advance, CanRun;
    }
  }

  // A store behind the code leaves the code alone.
  lemma CodeKept(prog: seq<Instruction>, s: Abstract)
    requires CanRun(prog, s) && Loaded(prog, s.m)
    ensures Loaded(prog, Advance(prog, s).m)
  {
    if !s.halted && Reduce(prog[s.at]).Store? {
      var a := s.Value(Reduce(prog[s.at]).addr);
      var m' := Advance(prog, s).m;
      forall i, k | 0 <= i < |prog| && 0 <= k < 8
        ensures Read8(m', 8 * i + k) == Some(Encode(prog[i])[k])
      {
        assert Holds(s.m, 8 * i, Encode(prog[i]));
        assert Read8(s.m, 8 * i + k) == Some(Encode(prog[i])[k]);
        OtherByte(s.m, a, s.regs[Reduce(prog[s.at]).from.Index()] % 256, 8 * i + k);
      }
    }
    hide Encode, Reduce;
  }

  lemma OtherByte(m: Memory, a: nat, b: byte, c: nat)
    requires AlignDown(a) in m && a != c
    ensures Read8(m[AlignDown(a) := m[AlignDown(a)][a % PAGE_SIZE := b]], c) == Read8(m, c)
  {
    AlignFacts(a);
    AlignFacts(c);
  }

  lemma RunUnfold(prog: seq<Instruction>, s: Abstract, n: nat)
    requires CanRunFor(prog, s, n) && n > 0
    ensures CanRun(prog, s) && CanRunFor(prog, Advance(prog, s), n - 1)
    ensures Run(prog, s, n) == Run(prog, Advance(prog, s), n - 1)
  {
    hide CanRun, Advance;
  }

  lemma FullRunUnfold(c: State, m: Memory, n: nat)
    requires n > 0
    ensures FullRun(c, m, n) == FullRun(Step(c, m).c, Step(c, m).m, n - 1)
  {
    hide Step;
  }

  // Stepping over bytes in memory is running the list: for every n, n steps of the CPU
  // leave exactly the state the n-step run of the list describes, with the program
  // counter at eight times the index and the code still in place.
  lemma {:induction false} StepsRunTheList(prog: seq<Instruction>, s: Abstract, n: nat)
    requires CanRunFor(prog, s, n) && WellFormed(prog) && Loaded(prog, s.m)
    ensures FullRun(Concrete(s), s.m, n) == (Concrete(Run(prog, s, n)), Run(prog, s, n).m)
    ensures Loaded(prog, Run(prog, s, n).m)
    decreases n
  {
    if n > 0 {
      hide CanRunFor, CanRun, Run, FullRun, Step, Advance, Loaded, WellFormed, Concrete;
      RunUnfold(prog, s, n);
      StepAdvances(prog, s);
      CodeKept(prog, s);
      FullRunUnfold(Concrete(s), s.m, n);
      StepsRunTheList(prog, Advance(prog, s), n - 1);
    } else {
      hide Loaded, WellFormed, Concrete;
    }
  }

  // The same with paging underneath: whatever the fault handler does, the program that
  // has completed n steps is where the n-step run of the list is.
  lemma PagedProgram(prog: seq<Instruction>, s: Abstract, m: Machine, es: seq<Event>)
    requires Consistent(m) && LegalRun(m, es) && Erase(m.c) == Concrete(s) && m.flat == s.m
    requires WellFormed(prog) && Loaded(prog, s.m) && CanRunFor(prog, s, Completed(m, es))
    ensures var (m', s') := (Exec(m, es), Run(prog, s, Completed(m, es)));
      Erase(m'.c) == Concrete(s') && m'.flat == s'.m
  {
    FaultsAreInvisible(m, es);
    StepsRunTheList(prog, s, Completed(m, es));
  }

  // No page is taken away, and answers succeed.
  predicate OnlyAdds(m: Machine, es: seq<Event>)
    decreases es
  {
    es == [] || (Adds(m, es[0]) && OnlyAdds(Next(m, es[0]), es[1..]))
  }

  lemma TickAdvances(prog: seq<Instruction>, s: Abstract, m: Machine, e: Event)
    requires Consistent(m) && Legal(m, e) && Erase(m.c) == Concrete(s) && m.flat == s.m
    requires WellFormed(prog) && Loaded(prog, s.m) && (Completes(m, e) ==> CanRun(prog, s))
    ensures var s' := if Completes(m, e) then Advance(prog, s) else s;
      Erase(Next(m, e).c) == Concrete(s') && Next(m, e).flat == s'.m && Loaded(prog, s'.m)
  {
    if e.Tick? {
      TickVisible(m);
    }
    if Completes(m, e) {
      StepAdvances(prog, s);
      CodeKept(prog, s);
    }
    hide Step, TickOf, Advance, CanRun, Loaded, WellFormed;
  }

  lemma ProgramEvent(prog: seq<Instruction>, s: Abstract, m: Machine, es: seq<Event>)
    requires es != [] && Consistent(m) && Legal(m, es[0]) && Erase(m.c) == Concrete(s) && m.flat == s.m
    requires WellFormed(prog) && Loaded(prog, s.m) && CanRunFor(prog, s, Completed(m, es))
    ensures Consistent(Next(m, es[0])) && (Completes(m, es[0]) ==> CanRun(prog, s))
    ensures var s' := if Completes(m, es[0]) then Advance(prog, s) else s;
      && Erase(Next(m, es[0]).c) == Concrete(s') && Next(m, es[0]).flat == s'.m && Loaded(prog, s'.m)
      && CanRunFor(prog, s', Completed(Next(m, es[0]), es[1..]))
  {
    hide Consistent, Erase, Concrete, Next, Completes, TickOf, Legal, Adds, Advance, CanRun, Loaded, WellFormed;
    if Completes(m, es[0]) {
      RunUnfold(prog, s, Completed(m, es));
    }
    TickAdvances(prog, s, m, es[0]);
    NextConsistent(m, es[0]);
  }

  lemma {:induction false} ProgramsStayAligned(prog: seq<Instruction>, s: Abstract, m: Machine, es: seq<Event>)
    requires Consistent(m) && LegalRun(m, es) && OnlyAdds(m, es) && Erase(m.c) == Concrete(s) && m.flat == s.m
    requires WellFormed(prog) && Loaded(prog, s.m) && CanRunFor(prog, s, Completed(m, es))
    ensures Growing(m, es)
    decreases es
  {
    if es != [] {
      assert Erase(m.c).pc == 8 * s.at;
      hide Consistent, Erase, Concrete, Next, Completes, TickOf, Legal, Adds, Advance, CanRun, Loaded, WellFormed;
      ProgramEvent(prog, s, m, es);
      var s' := if Completes(m, es[0]) then Advance(prog, s) else s;
      ProgramsStayAligned(prog, s', Next(m, es[0]), es[1..]);
    }
  }

  // A program whose jumps stay inside it faults at most twice an instruction when no
  // page is taken away.
  lemma ProgramFaultBound(prog: seq<Instruction>, s: Abstract, m: Machine, es: seq<Event>)
    requires Consistent(m) && LegalRun(m, es) && OnlyAdds(m, es) && Erase(m.c) == Concrete(s) && m.flat == s.m
    requires WellFormed(prog) && Loaded(prog, s.m) && CanRunFor(prog, s, Completed(m, es))
    ensures Faults(m, es) <= 2 * (Completed(m, es) + 1)
  {
    ProgramsStayAligned(prog, s, m, es);
    FaultBound(m, es);
  }
}
