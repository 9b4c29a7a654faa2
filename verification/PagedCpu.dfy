// A program running on memory of which only part is resident at any moment.
module PagedCpu {
  import opened Prelude
  import opened AddressSpace
  import opened Isa
  import opened Cpu

  // `reported` is the address in the last page-fault message that has not been answered.
  datatype Machine = Machine(c: State, flat: Memory, resident: set<nat>, reported: Option<nat>)

  // The CPU steps, the fault handler answers, or pages move for somebody else's sake.
  datatype Event = Tick | Serve(resident: set<nat>) | Move(resident: set<nat>)

  predicate Consistent(m: Machine) {
    m.reported.Some? <==> m.c.faultPending
  }

  // Only pages of the program's memory can become resident.  An answer to a fault need
  // not succeed: the instruction then faults again.
  predicate Legal(m: Machine, e: Event) {
    !e.Tick? ==> e.resident <= m.flat.Keys
  }

  function TickOf(m: Machine): Stepped {
    Step(m.c, Visible(m.flat, m.resident))
  }

  function Next(m: Machine, e: Event): Machine {
    match e
    case Tick =>
      var s := TickOf(m);
      Machine(s.c, m.flat + s.m, m.resident, if s.out.Faulted? then Some(s.out.addr) else m.reported)
    case Serve(r) => Machine(m.c.(faultPending := false), m.flat, r, None)
    case Move(r) => m.(resident := r)
  }

  lemma NextConsistent(m: Machine, e: Event)
    requires Consistent(m) && Legal(m, e)
    ensures Consistent(Next(m, e))
  {
    if e.Tick? && !TickOf(m).out.Faulted? {
      PendingKept(m.c, Visible(m.flat, m.resident));
    }
    hide Step;
    if e.Tick? && TickOf(m).out.Faulted? {
      FaultChangesOnlyPending(m.c, Visible(m.flat, m.resident));
    }
  }

  lemma PendingKept(c: State, m: Memory)
    ensures Step(c, m).c.faultPending <==> c.faultPending || Step(c, m).out.Faulted?
  {
    hide FetchInstruction, Read8, Write8, Compute, FromResult;
  }

  predicate LegalRun(m: Machine, es: seq<Event>)
    decreases es
  {
    es == [] || (Legal(m, es[0]) && LegalRun(Next(m, es[0]), es[1..]))
  }

  function Exec(m: Machine, es: seq<Event>): Machine
    decreases es
  {
    if es == [] then m else Exec(Next(m, es[0]), es[1..])
  }

  // Did this event complete a step, by retiring an instruction or failing for good?
  predicate Completes(m: Machine, e: Event) {
    e.Tick? && (TickOf(m).out.Retired? || TickOf(m).out.Failed?)
  }

  function Completed(m: Machine, es: seq<Event>): nat
    decreases es
  {
    if es == [] then 0 else (if Completes(m, es[0]) then 1 else 0) + Completed(Next(m, es[0]), es[1..])
  }

  // ---------------------------------------------------------------------
  // Faults are invisible
  // ---------------------------------------------------------------------

  // `n` steps with everything resident.
  function FullRun(c: State, m: Memory, n: nat): (State, Memory)
    decreases n
  {
    if n == 0 then (c, m)
    else
      var s := Step(c, m);
      FullRun(s.c, s.m, n - 1)
  }

  function Erase(c: State): State {
    c.(faultPending := false)
  }

  lemma TickVisible(m: Machine)
    requires Consistent(m)
    ensures var m' := Next(m, Tick);
      if Completes(m, Tick) then
        (var s := Step(Erase(m.c), m.flat); Erase(m'.c) == s.c && m'.flat == s.m)
      else Erase(m'.c) == Erase(m.c) && m'.flat == m.flat
  {
    VisibleAgain(m.flat, m.resident);
    if Completes(m, Tick) {
      StepVisible(m.c, m.flat, m.resident);
      PendingKept(m.c, m.flat);
      if m.c.halted {
      } else {
        assert !m.c.faultPending;
      }
      hide FetchInstruction, Finish, Visible;
    } else {
      hide FetchInstruction, Finish, Visible;
    }
  }

  // However the pages come and go, a program that has completed n steps has the
  // registers, flags, program counter, instruction count and memory it would have after
  // n steps with everything resident: page faults leave no trace.
  lemma {:induction false} FaultsAreInvisible(m: Machine, es: seq<Event>)
    requires Consistent(m) && LegalRun(m, es)
    ensures var m' := Exec(m, es);
      (Erase(m'.c), m'.flat) == FullRun(Erase(m.c), m.flat, Completed(m, es))
    decreases es
  {
    hide Step, TickOf, Next, Completes, Legal, Erase;
    if es != [] {
      NextConsistent(m, es[0]);
      FaultsAreInvisible(Next(m, es[0]), es[1..]);
      if es[0].Tick? {
        TickVisible(m);
      } else {
        MoveInvisible(m, es[0]);
      }
    }
  }

  lemma MoveInvisible(m: Machine, e: Event)
    requires !e.Tick?
    ensures Erase(Next(m, e).c) == Erase(m.c) && Next(m, e).flat == m.flat && !Completes(m, e)
  {
    hide Step;
  }

  // ---------------------------------------------------------------------
  // How many faults there can be
  // ---------------------------------------------------------------------

  // No page is taken away, an answer brings the reported page, and every instruction
  // starts at a multiple of eight.
  predicate Adds(m: Machine, e: Event) {
    && (!e.Tick? ==> m.resident <= e.resident)
    && (e.Serve? ==> m.reported.Some? && AlignDown(m.reported.value) in e.resident)
  }

  predicate Growing(m: Machine, es: seq<Event>)
    decreases es
  {
    es == [] || (
      && m.c.pc % 8 == 0
      && Adds(m, es[0])
      && Growing(Next(m, es[0]), es[1..]))
  }

  function Faults(m: Machine, es: seq<Event>): nat
    decreases es
  {
    if es == [] then 0
    else (if es[0].Tick? && TickOf(m).out.Faulted? then 1 else 0) + Faults(Next(m, es[0]), es[1..])
  }

  // How often the current instruction can still fault: once for its code, once for its data.
  function Left(c: State, flat: Memory, r: set<nat>): nat {
    match Step(Erase(c), Visible(flat, r)).out
    case Faulted(a) => if a == c.pc then 2 else 1
    case _ => 0
  }

  function Granted(m: Machine): set<nat> {
    m.resident + if m.reported.Some? then {AlignDown(m.reported.value)} else {}
  }

  // Eight bytes at a multiple of eight lie in one page.
  lemma EightInPage(pc: nat, i: nat)
    requires pc % 8 == 0 && i < 8
    ensures AlignDown(pc + i) == AlignDown(pc)
  {
    var q, e := pc / PAGE_SIZE, pc / 8;
    assert pc == PAGE_SIZE * q + pc % PAGE_SIZE && pc == 8 * e;
    assert pc % PAGE_SIZE == 8 * (e - 512 * q);
    assert pc % PAGE_SIZE + 8 <= PAGE_SIZE;
    AlignFacts(pc);
    AlignUnique(pc + i, AlignDown(pc));
  }

  lemma CodePage(m: Memory, pc: nat)
    requires pc % 8 == 0
    ensures FetchInstruction(m, pc).Unreadable? <==> AlignDown(pc) !in m
    ensures FetchInstruction(m, pc).Unreadable? ==> FetchInstruction(m, pc).addr == pc
  {
    EightInPage(pc, 1);
    EightInPage(pc, 2);
    EightInPage(pc, 3);
    EightInPage(pc, 4);
    hide AlignDown;
    ReadOnPage(m, pc);
    ReadOnPage(m, pc + 1);
    ReadOnPage(m, pc + 2);
    ReadOnPage(m, pc + 3);
    ReadOnPage(m, pc + 4);
    WordAligned(pc);
    hide Read8, Read32, FetchInstruction;
    FetchTogether(m, pc);
  }

  lemma WordAligned(pc: nat)
    requires pc % 8 == 0
    ensures (pc + 4) % 4 == 0
  {
    var e := pc / 8;
    assert pc + 4 == 4 * (2 * e + 1);
  }

  // When five reads stand or fall together, so does the fetch.
  lemma FetchTogether(m: Memory, pc: nat)
    requires Read8(m, pc + 1).Some? == Read8(m, pc).Some? && Read8(m, pc + 2).Some? == Read8(m, pc).Some?
    requires Read8(m, pc + 3).Some? == Read8(m, pc).Some? && Read32(m, pc + 4).Some? == Read8(m, pc).Some?
    ensures FetchInstruction(m, pc).Unreadable? <==> Read8(m, pc).None?
    ensures FetchInstruction(m, pc).Unreadable? ==> FetchInstruction(m, pc).addr == pc
  {
    hide AlignDown, Read8, Read32, Decode;
  }

  lemma ReadOnPage(m: Memory, a: nat)
    ensures Read8(m, a).Some? <==> AlignDown(a) in m
    ensures a % 4 == 0 ==> (Read32(m, a).Some? <==> AlignDown(a) in m)
  {
    hide AlignDown;
  }

  // The address an instruction loads from or stores to.
  function DataAddress(c: State, i: Instruction): Option<nat> {
    match i
    case Load(_, addr) => Some(c.Value(addr))
    case Store(_, addr) => Some(c.Value(addr))
    case _ => None
  }

  lemma DataFault(c: State, m: Memory, i: Instruction)
    ensures Finish(c, m, i).out.Faulted? <==> DataAddress(c, i).Some? && AlignDown(DataAddress(c, i).value) !in m
    ensures Finish(c, m, i).out.Faulted? ==> Finish(c, m, i).out.addr == DataAddress(c, i).value
  {
    hide Compute, FromResult, AlignDown;
  }

  // What a step can fault on, for an aligned program counter.
  lemma FaultKinds(c: State, flat: Memory, r: set<nat>)
    requires c.pc % 8 == 0 && !c.halted && !c.faultPending
    ensures var out := Step(c, Visible(flat, r)).out;
      var f := FetchInstruction(flat, c.pc);
      if AlignDown(c.pc) !in Visible(flat, r) then out == Faulted(c.pc)
      else (
        && !f.Unreadable?
        && (out.Faulted? <==> f.Instr? && DataAddress(c, f.i).Some? && AlignDown(DataAddress(c, f.i).value) !in Visible(flat, r))
        && (out.Faulted? ==> out.addr == DataAddress(c, f.i).value && out.addr != c.pc))
  {
    CodePage(Visible(flat, r), c.pc);
    if AlignDown(c.pc) in Visible(flat, r) {
      FetchVisible(flat, r, c.pc);
      var f := FetchInstruction(flat, c.pc);
      if f.Instr? {
        DataFault(c, Visible(flat, r), f.i);
      }
    }
    hide FetchInstruction, Finish, Visible, AlignDown;
  }

  lemma LeftShrinks(c: State, flat: Memory, r: set<nat>, s: set<nat>)
    requires c.pc % 8 == 0 && r <= s
    ensures Left(c, flat, s) <= Left(c, flat, r)
  {
    if !c.halted {
      FaultKinds(Erase(c), flat, r);
      FaultKinds(Erase(c), flat, s);
      assert forall v :: v in Visible(flat, r) ==> v in Visible(flat, s);
    }
    hide FetchInstruction, Finish, Visible, AlignDown;
  }

  lemma ServedFaultIsGone(c: State, flat: Memory, r: set<nat>)
    requires c.pc % 8 == 0 && Step(Erase(c), Visible(flat, r)).out.Faulted?
    requires AlignDown(Step(Erase(c), Visible(flat, r)).out.addr) in flat
    ensures Left(c, flat, r + {AlignDown(Step(Erase(c), Visible(flat, r)).out.addr)}) < Left(c, flat, r)
  {
    var a := Step(Erase(c), Visible(flat, r)).out.addr;
    var s := r + {AlignDown(a)};
    FaultKinds(Erase(c), flat, r);
    FaultKinds(Erase(c), flat, s);
    assert AlignDown(a) in Visible(flat, s);
    assert forall v :: v in Visible(flat, r) ==> v in Visible(flat, s);
    hide FetchInstruction, Finish, Visible, AlignDown;
  }

  function Potential(m: Machine): nat {
    if m.reported.Some? && AlignDown(m.reported.value) !in m.flat then 0
    else Left(m.c, m.flat, Granted(m))
  }

  lemma TickPotential(m: Machine)
    requires Consistent(m) && m.c.pc % 8 == 0
    ensures var m' := Next(m, Tick);
      (if TickOf(m).out.Faulted? then 1 else 0) + Potential(m') <= Potential(m) + if Completes(m, Tick) then 2 else 0
  {
    VisibleAgain(m.flat, m.resident);
    var out := TickOf(m).out;
    if out.Faulted? {
      FaultChangesOnlyPending(m.c, Visible(m.flat, m.resident));
      assert m.resident + {} == m.resident && Erase(m.c) == m.c;
      if AlignDown(out.addr) in m.flat {
        ServedFaultIsGone(m.c, m.flat, m.resident);
        LeftIgnoresPending(m.c, m.flat, m.resident + {AlignDown(out.addr)});
      }
      hide Step, Visible, AlignDown;
    } else if out.Waiting? {
      assert Next(m, Tick) == m by { hide FetchInstruction, Finish; }
      hide Step, Visible, AlignDown;
    }
  }

  lemma LeftIgnoresPending(c: State, flat: Memory, r: set<nat>)
    ensures Left(c.(faultPending := true), flat, r) == Left(c, flat, r)
  {
  }

  lemma EventPotential(m: Machine, e: Event)
    requires Consistent(m) && Legal(m, e) && m.c.pc % 8 == 0 && Adds(m, e)
    ensures (if e.Tick? && TickOf(m).out.Faulted? then 1 else 0) + Potential(Next(m, e))
      <= Potential(m) + if Completes(m, e) then 2 else 0
  {
    match e
    case Tick => TickPotential(m);
    case Serve(r) => LeftShrinks(m.c, m.flat, Granted(m), r + {});
      assert r + {} == r;
      hide Step, Visible;
    case Move(r) => LeftShrinks(m.c, m.flat, Granted(m), Granted(Next(m, e)));
      hide Step, Visible;
  }

  lemma {:induction false} FaultsPaidFor(m: Machine, es: seq<Event>)
    requires Consistent(m) && LegalRun(m, es) && Growing(m, es)
    ensures Faults(m, es) <= Potential(m) + 2 * Completed(m, es)
    decreases es
  {
    if es != [] {
      EventPotential(m, es[0]);
      NextConsistent(m, es[0]);
      FaultsPaidFor(Next(m, es[0]), es[1..]);
      hide Next, Potential, TickOf, Completes;
    }
  }

  // With a handler that evicts nothing, every instruction faults at most twice.
  lemma FaultBound(m: Machine, es: seq<Event>)
    requires Consistent(m) && LegalRun(m, es) && Growing(m, es)
    ensures Faults(m, es) <= 2 * (Completed(m, es) + 1)
  {
    FaultsPaidFor(m, es);
    hide Faults, Completed, Step;
  }
}
