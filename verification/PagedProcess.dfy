// A process on the real machinery: the CPU goes through the MMU, its faults are served
// by the memory service, and other processes fault, evict and write in between.
module PagedProcess {
  import opened Prelude
  import opened AddressSpace
  import opened Mmu
  import opened Isa
  import opened Cpu
  import P = PagedCpu
  import K = PageFaults

  datatype System = System(k: K.State, c: Cpu.State, pid: nat, reported: Option<nat>)

  // ---------------------------------------------------------------------
  // The CPU on the MMU
  // ---------------------------------------------------------------------

  // The byte a step writes, if it does.
  function Written(c: Cpu.State, m: Memory): Option<(nat, byte)> {
    if !Step(c, m).out.Retired? then None
    else
      match FetchInstruction(m, c.pc)
      case Instr(i) => if i.Store? then Some((c.Value(i.addr), c.Get(i.from) % 256)) else None
      case _ => None
  }

  // A step of process `pid` through the page tables.
  ghost function StepMmu(c: Cpu.State, s: Mmu.State, pid: nat): (Cpu.State, Mmu.State, Outcome)
    requires TableOk(s)
  {
    var v := View(s, pid);
    (Step(c, v).c,
     match Written(c, v) case Some((a, b)) => WriteU8(s, pid, a, b).0 case None => s,
     Step(c, v).out)
  }

  lemma StepWrites(c: Cpu.State, m: Memory)
    ensures match Written(c, m)
      case Some((a, b)) => Write8(m, a, b) == Some(Step(c, m).m)
      case None => Step(c, m).m == m
  {
    hide FetchInstruction, Write8, Read8, Compute, FromResult;
  }

  // Going through the tables, the process's address space becomes what the step says.
  lemma StepMmuAgrees(c: Cpu.State, s: Mmu.State, pid: nat)
    requires TableOk(s)
    ensures var (c', s', out) := StepMmu(c, s, pid);
      TableOk(s') && View(s', pid) == Step(c, View(s, pid)).m
  {
    StepWrites(c, View(s, pid));
    match Written(c, View(s, pid))
    case Some((a, b)) => WriteAgrees(s, pid, a, b);
    case None =>
  }

  // ---------------------------------------------------------------------
  // The process's flat memory
  // ---------------------------------------------------------------------

  ghost predicate Known(k: K.State, p: PageId) {
    p in k.mmu.tables || p in k.swapped
  }

  ghost function Content(k: K.State, p: PageId): Page
    requires K.Inv(k) && Known(k, p)
  {
    K.LookupKnown(k, p);
    K.Lookup(k, p).value
  }

  // All the pages of the process, present or swapped out.
  ghost function Flat(k: K.State, pid: nat): Memory
    requires K.Inv(k)
  {
    map p | p in k.mmu.tables.Keys + k.swapped.Keys && p.pid == pid :: p.vaddr := Content(k, p)
  }

  ghost function Resident(k: K.State, pid: nat): set<nat> {
    set p | p in k.mmu.tables && p.pid == pid :: p.vaddr
  }

  lemma FlatKeys(k: K.State, pid: nat, v: nat)
    requires K.Inv(k)
    ensures v in Flat(k, pid) <==> K.Lookup(k, PageId(pid, v)).Some?
    ensures v in Flat(k, pid) ==> Some(Flat(k, pid)[v]) == K.Lookup(k, PageId(pid, v))
  {
    K.LookupKnown(k, PageId(pid, v));
    if v in Flat(k, pid) {
      var p :| p in k.mmu.tables.Keys + k.swapped.Keys && p.pid == pid && p.vaddr == v;
      assert p == PageId(pid, v);
    }
    if Known(k, PageId(pid, v)) {
      assert PageId(pid, v) in k.mmu.tables.Keys + k.swapped.Keys;
      assert PageId(pid, v).vaddr in Flat(k, pid);
    }
    hide K.Inv, K.Lookup;
  }

  lemma ResidentKeys(k: K.State, pid: nat, v: nat)
    ensures v in Resident(k, pid) <==> PageId(pid, v) in k.mmu.tables
  {
    if PageId(pid, v) in k.mmu.tables {
      assert PageId(pid, v).vaddr in Resident(k, pid);
    }
  }

  lemma FlatFromLookup(k: K.State, k': K.State, pid: nat)
    requires K.Inv(k) && K.Inv(k')
    requires forall v: nat :: K.Lookup(k', PageId(pid, v)) == K.Lookup(k, PageId(pid, v))
    ensures Flat(k', pid) == Flat(k, pid)
  {
    var f, f' := Flat(k, pid), Flat(k', pid);
    forall v: nat
      ensures v in f <==> v in f'
      ensures v in f ==> f[v] == f'[v]
    {
      FlatKeys(k, pid, v);
      FlatKeys(k', pid, v);
    }
    hide Flat, K.Inv, K.Lookup;
    assert f'.Keys == f.Keys;
  }

  // A page of the view, of the flat memory and of the resident part.
  lemma PageVisible(k: K.State, pid: nat, v: nat)
    requires K.Inv(k)
    ensures v in View(k.mmu, pid) <==> v in Resident(k, pid)
    ensures v in Resident(k, pid) ==> v in Flat(k, pid) && View(k.mmu, pid)[v] == Flat(k, pid)[v]
  {
    hide Flat, Resident, View, K.FramesOwned, K.SlotsOwned;
    ViewKeys(k.mmu, pid, v);
    ResidentKeys(k, pid, v);
    FlatKeys(k, pid, v);
    if PageId(pid, v) in k.mmu.tables {
      K.LookupPresent(k, PageId(pid, v));
    }
  }

  lemma VisibleByPages(w: Memory, f: Memory, r: set<nat>)
    requires forall v :: v in w <==> v in r
    requires forall v :: v in r ==> v in f && w[v] == f[v]
    ensures w == Visible(f, r) && r <= f.Keys
  {
    assert w.Keys == Visible(f, r).Keys;
  }

  // What the MMU shows a process is the resident part of its flat memory.
  lemma ViewIsVisible(k: K.State, pid: nat)
    requires K.Inv(k)
    ensures TableOk(k.mmu) && View(k.mmu, pid) == Visible(Flat(k, pid), Resident(k, pid))
    ensures Resident(k, pid) <= Flat(k, pid).Keys
  {
    hide Flat, Resident, View, Visible, K.Inv;
    TablesInOrder(k);
    forall v: nat
      ensures v in View(k.mmu, pid) <==> v in Resident(k, pid)
      ensures v in Resident(k, pid) ==> v in Flat(k, pid) && View(k.mmu, pid)[v] == Flat(k, pid)[v]
    {
      PageVisible(k, pid, v);
    }
    VisibleByPages(View(k.mmu, pid), Flat(k, pid), Resident(k, pid));
  }

  lemma TablesInOrder(k: K.State)
    requires K.Inv(k)
    ensures TableOk(k.mmu)
  {
  }

  // ---------------------------------------------------------------------
  // Events
  // ---------------------------------------------------------------------

  datatype Event = Cycle | Serve(order: seq<PageId>) | Other(op: K.Op)

  ghost predicate Inv(s: System) {
    K.Inv(s.k) && (s.reported.Some? <==> s.c.faultPending)
  }

  // The handler is called on the reported address, in a state in which it keeps memory
  // (`FaultKeepsMemoryIff`); other processes do as they like.
  ghost predicate Legal(s: System, e: Event)
    requires K.Inv(s.k)
  {
    match e
    case Cycle => true
    case Serve(order) =>
      && s.reported.Some?
      && K.Legal(s.k, K.OpFault(s.pid, s.reported.value, order))
      && K.Harmless(s.k, s.pid, s.reported.value, order)
    case Other(op) => op.pid != s.pid && K.Legal(s.k, op)
  }

  ghost function Next(s: System, e: Event): System
    requires Inv(s) && Legal(s, e)
  {
    match e
    case Cycle =>
      var (c', mmu', out) := StepMmu(s.c, s.k.mmu, s.pid);
      System(s.k.(mmu := mmu'), c', s.pid, if out.Faulted? then Some(out.addr) else s.reported)
    case Serve(order) =>
      System(K.Fault(s.k, s.pid, s.reported.value, order).0, s.c.(faultPending := false), s.pid, None)
    case Other(op) => s.(k := K.Step(s.k, op))
  }

  // What the process touches for the first time in an event: a page that was nowhere and
  // is given a frame starts with the bytes that frame holds.
  ghost function Touched(s: System, e: Event): Memory
    requires Inv(s) && Legal(s, e)
  {
    if e.Serve? && !Known(s.k, PageOf(s.pid, s.reported.value)) then
      K.HandedSome(s.k, s.pid, s.reported.value, e.order);
      match K.Handed(s.k, s.pid, s.reported.value, e.order)
      case Some(bytes) => map[AlignDown(s.reported.value) := bytes]
      case None => map[]
    else map[]
  }

  // The process seen as a program on the whole of its memory, `rest` being the pages it
  // has not touched yet.
  ghost function Abstract(s: System, rest: Memory): P.Machine
    requires K.Inv(s.k)
  {
    P.Machine(s.c, Flat(s.k, s.pid) + rest, Resident(s.k, s.pid), s.reported)
  }

  ghost function AbstractEvent(s: System, e: Event): P.Event
    requires Inv(s) && Legal(s, e)
  {
    match e
    case Cycle => P.Tick
    case Serve(_) => P.Serve(Resident(Next(s, e).k, s.pid))
    case Other(_) => P.Move(Resident(Next(s, e).k, s.pid))
  }

  lemma OtherKeepsFlat(k: K.State, op: K.Op, pid: nat)
    requires K.Inv(k) && K.Legal(k, op) && op.pid != pid
    ensures K.Inv(K.Step(k, op)) && Flat(K.Step(k, op), pid) == Flat(k, pid)
  {
    hide K.Fault, K.Lookup, K.Handed, TableOk, K.FramesOwned, K.SlotsOwned, Flat, WriteU8;
    K.StepKeepsInv(k, op);
    var k' := K.Step(k, op);
    forall v: nat
      ensures K.Lookup(k', PageId(pid, v)) == K.Lookup(k, PageId(pid, v))
    {
      match op
      case OpFault(p, addr, order) => K.FaultEffect(k, p, addr, order);
      case OpRead(_, _) =>
      case OpWrite(p, addr, b) => K.WriteLookup(k, p, addr, b, PageId(pid, v));
    }
    FlatFromLookup(k, k', pid);
  }

  // A fault the process is served keeps its flat memory and adds what it now touches.
  lemma ServeFlat(s: System, e: Event)
    requires Inv(s) && Legal(s, e) && e.Serve?
    ensures K.Inv(Next(s, e).k)
    ensures Flat(Next(s, e).k, s.pid) == Flat(s.k, s.pid) + Touched(s, e)
    ensures forall v :: v in Touched(s, e) ==> v !in Flat(s.k, s.pid)
  {
    hide K.Fault, K.Lookup, K.Handed, TableOk, K.FramesOwned, K.SlotsOwned, Flat, K.Harmless;
    var k' := Next(s, e).k;
    var (addr, pid) := (s.reported.value, s.pid);
    K.FaultEffect(s.k, pid, addr, e.order);
    K.FaultKeepsMemoryIff(s.k, pid, addr, e.order);
    K.LookupKnown(s.k, PageOf(pid, addr));
    forall v: nat
      ensures v in Flat(k', pid) <==> v in Flat(s.k, pid) || v in Touched(s, e)
      ensures v in Flat(k', pid) ==>
        Flat(k', pid)[v] == if v in Touched(s, e) then Touched(s, e)[v] else Flat(s.k, pid)[v]
      ensures v in Touched(s, e) ==> v !in Flat(s.k, pid)
    {
      FlatKeys(s.k, pid, v);
      FlatKeys(k', pid, v);
    }
    OverlayByPages(Flat(s.k, pid), Touched(s, e), Flat(k', pid));
  }

  lemma CycleFlat(k: K.State, c: Cpu.State, pid: nat)
    requires K.Inv(k)
    ensures var k' := k.(mmu := StepMmu(c, k.mmu, pid).1);
      && K.Inv(k') && Resident(k', pid) == Resident(k, pid)
      && Flat(k', pid) == Flat(k, pid) + Step(c, View(k.mmu, pid)).m
  {
    StepMmuAgrees(c, k.mmu, pid);
    var k' := k.(mmu := StepMmu(c, k.mmu, pid).1);
    var w := Written(c, View(k.mmu, pid));
    if w.Some? {
      var (a, b) := w.value;
      K.WriteKeepsInv(k, pid, a, b);
      WriteAgrees(k.mmu, pid, a, b);
    }
    FlatAfterWrite(k, k', pid);
  }

  // Present pages show in the view; the others have not moved.
  lemma PageAfterWrite(k: K.State, k': K.State, pid: nat, v: nat)
    requires K.Inv(k) && K.Inv(k') && k'.mmu.tables == k.mmu.tables && k'.swapped == k.swapped && k'.disk == k.disk
    ensures v in Flat(k', pid) <==> v in Flat(k, pid) || v in View(k'.mmu, pid)
    ensures v in Flat(k', pid) ==>
      Flat(k', pid)[v] == if v in View(k'.mmu, pid) then View(k'.mmu, pid)[v] else Flat(k, pid)[v]
    ensures v in Resident(k', pid) <==> v in Resident(k, pid)
  {
    var p := PageId(pid, v);
    FlatKeys(k, pid, v);
    FlatKeys(k', pid, v);
    ViewKeys(k'.mmu, pid, v);
    ResidentKeys(k, pid, v);
    ResidentKeys(k', pid, v);
    K.LookupKnown(k, p);
    K.LookupKnown(k', p);
    if p !in k.mmu.tables {
      K.SameLookup(k, k', p);
    }
    hide Flat, View, Resident, K.Inv, K.Lookup;
  }

  lemma OverlayByPages(f: Memory, w: Memory, f': Memory)
    requires forall v: nat :: v in f' <==> v in f || v in w
    requires forall v: nat :: v in f' ==> f'[v] == if v in w then w[v] else f[v]
    ensures f' == f + w
  {
    assert f'.Keys == (f + w).Keys;
  }

  lemma FlatAfterWrite(k: K.State, k': K.State, pid: nat)
    requires K.Inv(k) && K.Inv(k') && k'.mmu.tables == k.mmu.tables && k'.swapped == k.swapped && k'.disk == k.disk
    ensures Flat(k', pid) == Flat(k, pid) + View(k'.mmu, pid)
    ensures Resident(k', pid) == Resident(k, pid)
  {
    assert TableOk(k'.mmu);
    hide Flat, View, Resident, K.Inv, TableOk;
    forall v: nat
      ensures v in Flat(k', pid) <==> v in Flat(k, pid) || v in View(k'.mmu, pid)
      ensures v in Flat(k', pid) ==>
        Flat(k', pid)[v] == if v in View(k'.mmu, pid) then View(k'.mmu, pid)[v] else Flat(k, pid)[v]
      ensures v in Resident(k', pid) <==> v in Resident(k, pid)
    {
      PageAfterWrite(k, k', pid, v);
    }
    OverlayByPages(Flat(k, pid), View(k'.mmu, pid), Flat(k', pid));
    assert Resident(k', pid) == Resident(k, pid);
  }

  lemma NextKeepsInv(s: System, e: Event)
    requires Inv(s) && Legal(s, e)
    ensures Inv(Next(s, e))
  {
    hide Step, K.Inv, K.Fault, K.Step, K.Lookup, K.Legal, K.Harmless, Flat, View, Touched, StepMmu;
    match e
    case Cycle => CycleKeepsInv(s);
    case Serve(order) => ServeFlat(s, e);
    case Other(op) => OtherKeepsFlat(s.k, op, s.pid);
  }

  lemma CycleKeepsInv(s: System)
    requires Inv(s)
    ensures Inv(Next(s, Cycle))
  {
    hide Step, K.Inv, Flat, View, Written;
    assert TableOk(s.k.mmu) by { TablesInOrder(s.k); }
    CycleFlat(s.k, s.c, s.pid);
    P.PendingKept(s.c, View(s.k.mmu, s.pid));
  }

  ghost predicate Apart(a: Memory, b: Memory) {
    forall v :: v in a ==> v !in b
  }

  // Pages beyond the process's own neither show in its view nor get in its way.
  lemma RestUnseen(f: Memory, r: set<nat>, rest: Memory, m: Memory)
    requires Apart(rest, f) && r <= f.Keys && m.Keys <= f.Keys
    ensures Visible(f + rest, r) == Visible(f, r)
    ensures (f + rest) + m == (f + m) + rest
  {
  }

  // Each step of the whole is a step of a program on partly resident memory: the pages
  // touched in the step leave the untouched rest and join the process's own.
  lemma NextSimulates(s: System, e: Event, rest: Memory)
    requires Inv(s) && Legal(s, e) && Inv(Next(s, e)) && Apart(rest, Flat(Next(s, e).k, s.pid))
    ensures var m := Abstract(s, Touched(s, e) + rest);
      && Apart(Touched(s, e) + rest, Flat(s.k, s.pid))
      && P.Consistent(m) && P.Legal(m, AbstractEvent(s, e))
      && P.Next(m, AbstractEvent(s, e)) == Abstract(Next(s, e), rest)
  {
    hide Step, Flat, Resident, View, Visible, Written, K.Inv, K.Fault, K.Step, K.Lookup, K.Legal, K.Harmless;
    var k' := Next(s, e).k;
    ViewIsVisible(s.k, s.pid);
    ViewIsVisible(k', s.pid);
    match e
    case Cycle => CycleSimulates(s, rest);
    case Serve(order) =>
      ServeFlat(s, e);
      hide Touched;
      assert Flat(s.k, s.pid) + (Touched(s, e) + rest) == Flat(k', s.pid) + rest;
    case Other(op) =>
      OtherKeepsFlat(s.k, op, s.pid);
      assert Touched(s, e) + rest == rest;
  }

  lemma CycleSimulates(s: System, rest: Memory)
    requires Inv(s) && Inv(Next(s, Cycle)) && Apart(rest, Flat(Next(s, Cycle).k, s.pid))
    ensures Apart(rest, Flat(s.k, s.pid))
    ensures P.Next(Abstract(s, Touched(s, Cycle) + rest), P.Tick) == Abstract(Next(s, Cycle), rest)
  {
    hide Step, Flat, Resident, View, Visible, Written, K.Inv, K.Fault, K.Step, K.Lookup;
    var k' := Next(s, Cycle).k;
    TablesInOrder(s.k);
    TablesInOrder(k');
    var m := Step(s.c, View(s.k.mmu, s.pid)).m;
    CycleFlat(s.k, s.c, s.pid);
    StepMmuAgrees(s.c, s.k.mmu, s.pid);
    ViewIsVisible(s.k, s.pid);
    ViewIsVisible(k', s.pid);
    VisibleKeys(Flat(k', s.pid), Resident(k', s.pid));
    assert Touched(s, Cycle) + rest == rest;
    RestUnseen(Flat(s.k, s.pid), Resident(s.k, s.pid), rest, m);
  }

  lemma VisibleKeys(f: Memory, r: set<nat>)
    requires r <= f.Keys
    ensures Visible(f, r).Keys == r
  {
  }

  // ---------------------------------------------------------------------
  // Runs
  // ---------------------------------------------------------------------

  ghost predicate LegalRun(s: System, es: seq<Event>)
    requires Inv(s)
    decreases es
  {
    es == [] || (Legal(s, es[0]) && (NextKeepsInv(s, es[0]); LegalRun(Next(s, es[0]), es[1..])))
  }

  ghost function Exec(s: System, es: seq<Event>): (s': System)
    requires Inv(s) && LegalRun(s, es)
    ensures Inv(s') && s'.pid == s.pid
    decreases es
  {
    if es == [] then s
    else
      NextKeepsInv(s, es[0]);
      Exec(Next(s, es[0]), es[1..])
  }

  ghost function AbstractRun(s: System, es: seq<Event>): seq<P.Event>
    requires Inv(s) && LegalRun(s, es)
    decreases es
  {
    if es == [] then []
    else
      NextKeepsInv(s, es[0]);
      [AbstractEvent(s, es[0])] + AbstractRun(Next(s, es[0]), es[1..])
  }

  // The pages the process touches for the first time in the run, with the bytes of the
  // frames they were given.
  ghost function FirstTouched(s: System, es: seq<Event>): Memory
    requires Inv(s) && LegalRun(s, es)
    decreases es
  {
    if es == [] then map[]
    else
      NextKeepsInv(s, es[0]);
      Touched(s, es[0]) + FirstTouched(Next(s, es[0]), es[1..])
  }

  lemma {:induction false} RunSimulates(s: System, es: seq<Event>)
    requires Inv(s) && LegalRun(s, es)
    ensures var m := Abstract(s, FirstTouched(s, es));
      && Apart(FirstTouched(s, es), Flat(s.k, s.pid))
      && P.Consistent(m) && P.LegalRun(m, AbstractRun(s, es))
      && P.Exec(m, AbstractRun(s, es)) == Abstract(Exec(s, es), map[])
    decreases es
  {
    hide Legal, Next, Abstract, AbstractEvent, P.Legal, P.Next, P.Consistent, Flat, Touched;
    if es == [] {
      StartConsistent(s);
    } else {
      NextKeepsInv(s, es[0]);
      SamePid(s, es[0]);
      var rest := FirstTouched(Next(s, es[0]), es[1..]);
      RunSimulates(Next(s, es[0]), es[1..]);
      NextSimulates(s, es[0], rest);
      assert AbstractRun(s, es)[1..] == AbstractRun(Next(s, es[0]), es[1..]);
    }
  }

  lemma SamePid(s: System, e: Event)
    requires Inv(s) && Legal(s, e)
    ensures Next(s, e).pid == s.pid
  {
  }

  lemma StartConsistent(s: System)
    requires Inv(s)
    ensures P.Consistent(Abstract(s, map[]))
  {
  }

  // The instructions the process completes in the run.
  ghost function Completed(s: System, es: seq<Event>): nat
    requires Inv(s) && LegalRun(s, es)
  {
    P.Completed(Abstract(s, FirstTouched(s, es)), AbstractRun(s, es))
  }

  // Demand paging is invisible to a process: in every run of its CPU steps, of the
  // faults served for it, and of whatever the other processes do meanwhile (evicting
  // its pages included), it ends with the registers, flags, program counter,
  // instruction count and memory of the same number of steps on its whole memory.  A
  // page that the process touches for the first time in the run counts as having been
  // there all along, with the bytes of the frame it was given.
  lemma ProcessSeesFlatMemory(s: System, es: seq<Event>)
    requires Inv(s) && LegalRun(s, es)
    ensures var s' := Exec(s, es);
      && Apart(FirstTouched(s, es), Flat(s.k, s.pid))
      && (P.Erase(s'.c), Flat(s'.k, s.pid))
        == P.FullRun(P.Erase(s.c), Flat(s.k, s.pid) + FirstTouched(s, es), Completed(s, es))
  {
    hide P.Exec, P.FullRun, P.Completed, Flat, Resident, P.LegalRun, LegalRun, Exec, AbstractRun, FirstTouched;
    hide K.Inv, P.Consistent, P.Erase, Apart;
    RunSimulates(s, es);
    P.FaultsAreInvisible(Abstract(s, FirstTouched(s, es)), AbstractRun(s, es));
    assert Flat(Exec(s, es).k, s.pid) + map[] == Flat(Exec(s, es).k, s.pid);
  }
}
