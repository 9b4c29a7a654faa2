// The semaphore system calls: blocking, direct hand-off, and the scheduler behind them.
module Handoff {
  import opened Prelude
  import opened Semaphores
  import S = Scheduling

  datatype Sem = Sem(value: nat, initial: nat, max: nat)

  // Blocked processes say on what; everything that can run or has ended is not blocked.
  datatype ProcState = Active | BlockedOn(id: nat) | Ended

  datatype Kernel = Kernel(sems: map<nat, Sem>, procs: map<nat, ProcState>, sched: S.State)

  const MAIN_THREAD: nat := 1

  datatype Outcome = Granted | Blocked | Missing

  // A semaphore that does not exist blocks nobody.
  function SemWait(k: Kernel, pid: nat, id: nat): (Kernel, Outcome)
    requires k.sched.Valid()
  {
    if id !in k.sems then (k, Missing)
    else
      var (v, r) := Apply(Wait, k.sems[id].value, k.sems[id].max);
      var k1 := k.(sems := k.sems[id := k.sems[id].(value := v)]);
      if r.Acquired? then (k1, Granted)
      else
        (k1.(procs := if pid in k.procs then k.procs[pid := BlockedOn(id)] else k.procs,
             sched := S.Remove(k.sched, pid, MAIN_THREAD).0),
         Blocked)
  }

  // The first process blocked on the semaphore, in the order in which the table happens
  // to list the processes.
  function FirstBlocked(k: Kernel, order: seq<nat>, id: nat): Option<nat> {
    if order == [] then None
    else if order[0] in k.procs && k.procs[order[0]] == BlockedOn(id) then Some(order[0])
    else FirstBlocked(k, order[1..], id)
  }

  // Hand the semaphore to a blocked process if there is one; otherwise count it up.
  function SemSignal(k: Kernel, id: nat, order: seq<nat>): Kernel {
    match FirstBlocked(k, order, id)
    case Some(w) =>
      k.(procs := k.procs[w := Active], sched := S.Ready(k.sched, w, MAIN_THREAD, S.DEFAULT_PRIORITY))
    case None =>
      if id in k.sems then
        k.(sems := k.sems[id := k.sems[id].(value := Apply(Signal, k.sems[id].value, k.sems[id].max).0)])
      else k
  }

  lemma {:induction false} FirstBlockedSpec(k: Kernel, order: seq<nat>, id: nat)
    ensures match FirstBlocked(k, order, id)
      case Some(w) => w in order && w in k.procs && k.procs[w] == BlockedOn(id)
      case None => forall p :: p in order && p in k.procs ==> k.procs[p] != BlockedOn(id)
  {
    if order != [] {
      FirstBlockedSpec(k, order[1..], id);
      assert order == [order[0]] + order[1..];
    }
  }

  // ---------------------------------------------------------------------
  // Runs
  // ---------------------------------------------------------------------

  // `held` counts, for every semaphore, who has been granted it and not signalled since.
  datatype System = System(k: Kernel, held: map<nat, multiset<nat>>)

  datatype Op =
    | DoCreate(id: nat, initial: nat)
    | DoWait(pid: nat, id: nat)
    | DoSignal(pid: nat, id: nat, order: seq<nat>)
    | DoSchedule(op: S.Op)

  function Step(s: System, op: Op): System
    requires s.k.sched.Valid()
    requires op.DoSchedule? ==> S.Fits(op.op, |s.k.sched.current|)
  {
    match op
    case DoCreate(id, initial) =>
      System(s.k.(sems := s.k.sems[id := Sem(initial, initial, U32_MAX)]), s.held[id := multiset{}])
    case DoWait(pid, id) =>
      var (k, r) := SemWait(s.k, pid, id);
      System(k, if r.Granted? && id in s.held then s.held[id := s.held[id] + multiset{pid}] else s.held)
    case DoSignal(pid, id, order) =>
      var k := SemSignal(s.k, id, order);
      if id !in s.held then System(k, s.held)
      else
        System(k, s.held[id := s.held[id] - multiset{pid} +
          match FirstBlocked(s.k, order, id) case Some(w) => multiset{w} case None => multiset{}])
    case DoSchedule(o) => s.(k := s.k.(sched := S.Step(s.k.sched, o)))
  }

  // The scheduler knows every process at most once, by its main thread, on a queue it
  // serves.
  ghost predicate SchedOk(s: S.State) {
    && s.Valid() && S.Queued(s.policy) && s.prio == []
    && forall t :: t in S.Tasks(s) ==> t.tid == MAIN_THREAD && S.Tasks(s)[t] == 1
  }

  ghost predicate SemOk(s: System, id: nat)
    requires id in s.k.sems
  {
    && id in s.held
    && s.k.sems[id].value <= s.k.sems[id].max <= U32_MAX && s.k.sems[id].initial <= s.k.sems[id].max
  }

  // Whoever is blocked waits for a semaphore that exists and has nothing to give, and the
  // scheduler does not know him.
  ghost predicate BlockedOk(s: System, p: nat)
    requires p in s.k.procs
  {
    s.k.procs[p].BlockedOn? ==>
      && s.k.procs[p].id in s.k.sems && s.k.sems[s.k.procs[p].id].value == 0
      && S.Task(p, MAIN_THREAD) !in S.Tasks(s.k.sched)
  }

  ghost predicate Inv(s: System) {
    && SchedOk(s.k.sched)
    && (forall id :: id in s.k.sems ==> SemOk(s, id))
    && (forall p :: p in s.k.procs ==> BlockedOk(s, p))
  }

  ghost predicate Lists(k: Kernel, order: seq<nat>) {
    forall p :: p in order <==> p in k.procs
  }

  // Running processes wait, anybody signals; the scheduler is left alone with blocked
  // processes and is not told of a process twice.
  ghost predicate Legal(s: System, op: Op) {
    match op
    case DoCreate(id, initial) => id !in s.k.sems && initial <= U32_MAX
    case DoWait(pid, _) => pid in s.k.procs && s.k.procs[pid].Active?
    case DoSignal(_, _, order) => Lists(s.k, order)
    case DoSchedule(o) =>
      match o
      case OpReady(p, t, _) =>
        t == MAIN_THREAD && S.Task(p, t) !in S.Tasks(s.k.sched) && (p in s.k.procs ==> !s.k.procs[p].BlockedOn?)
      case OpRemove(_, _) => true
      case OpSchedule(c) => c < |s.k.sched.current|
      case OpYield(c) => c < |s.k.sched.current|
  }

  // ---------------------------------------------------------------------
  // The scheduler's part
  // ---------------------------------------------------------------------

  lemma RemoveTasks(s: S.State, pid: nat, tid: nat)
    requires s.Valid() && s.prio == [] && (S.Task(pid, tid) in S.Tasks(s) ==> S.Tasks(s)[S.Task(pid, tid)] == 1)
    ensures S.Tasks(S.Remove(s, pid, tid).0) == S.Tasks(s)[S.Task(pid, tid) := 0]
  {
    hide S.QueueTasks, S.CpuTasks, S.Remove;
    S.RemoveSpec(s, pid, tid);
    NoTasks();
    Separate(S.QueueTasks(s.ready), S.QueueTasks(s.prio), S.CpuTasks(s.current), S.Task(pid, tid));
  }

  lemma RemoveKeepsSchedOk(s: S.State, pid: nat, tid: nat)
    requires SchedOk(s)
    ensures var s' := S.Remove(s, pid, tid).0;
      SchedOk(s') && S.Tasks(s') == S.Tasks(s)[S.Task(pid, tid) := 0]
  {
    hide S.Tasks, S.Remove, S.QueueTasks, S.CpuTasks;
    assert S.Step(s, S.OpRemove(pid, tid)) == S.Remove(s, pid, tid).0;
    S.RemoveSpec(s, pid, tid);
    RemoveTasks(s, pid, tid);
  }

  lemma NoTasks()
    ensures S.QueueTasks([]) == multiset{}
  {
  }

  // Taking away what occurs at most once.
  lemma Separate(a: multiset<S.Task>, b: multiset<S.Task>, c: multiset<S.Task>, t: S.Task)
    requires b == multiset{} && (t in a + b + c ==> (a + b + c)[t] == 1)
    ensures (a - multiset{t}) + b + c[t := 0] == (a + b + c)[t := 0]
  {
  }

  lemma ReadyKeepsSchedOk(s: S.State, pid: nat, priority: nat)
    requires SchedOk(s) && S.Task(pid, MAIN_THREAD) !in S.Tasks(s)
    ensures var s' := S.Ready(s, pid, MAIN_THREAD, priority);
      SchedOk(s') && S.Tasks(s') == S.Tasks(s) + multiset{S.Task(pid, MAIN_THREAD)}
  {
    S.ReadyAddsOne(s, pid, MAIN_THREAD, priority);
    hide S.Tasks;
  }

  lemma PickKeepsPrio(s: S.State, cpu: nat)
    requires s.Valid() && S.Queued(s.policy) && cpu < |s.current|
    ensures S.Schedule(s, cpu).0.prio == s.prio && S.Yield(s, cpu).0.prio == s.prio
  {
    hide S.FirstFree, S.InsertAt;
  }

  lemma PickKeepsSchedOk(s: S.State, cpu: nat)
    requires SchedOk(s) && cpu < |s.current|
    ensures var (a, b) := (S.Schedule(s, cpu).0, S.Yield(s, cpu).0);
      SchedOk(a) && SchedOk(b) && S.Tasks(a) == S.Tasks(s) && S.Tasks(b) == S.Tasks(s)
  {
    hide S.Tasks, S.Schedule, S.Yield;
    S.ScheduleConserves(s, cpu);
    PickKeepsPrio(s, cpu);
    assert S.Step(s, S.OpSchedule(cpu)) == S.Schedule(s, cpu).0 && S.Step(s, S.OpYield(cpu)) == S.Yield(s, cpu).0;
  }

  // ---------------------------------------------------------------------
  // Every step keeps the invariant
  // ---------------------------------------------------------------------

  lemma InvParts(s: System)
    requires Inv(s)
    ensures SchedOk(s.k.sched) && s.k.sched.Valid()
    ensures forall id :: id in s.k.sems ==> SemOk(s, id)
    ensures forall p :: p in s.k.procs ==> BlockedOk(s, p)
  {
    hide SemOk, BlockedOk, S.Tasks;
  }

  // Semaphores and blocked processes are looked after one at a time.
  lemma CreateKeepsInv(s: System, op: Op)
    requires Inv(s) && op.DoCreate? && Legal(s, op)
    ensures s.k.sched.Valid() && Inv(Step(s, op))
  {
    hide SchedOk, S.Tasks;
    InvParts(s);
    var t := Step(s, op);
    forall id | id in t.k.sems
      ensures SemOk(t, id)
    {
      assert id != op.id ==> SemOk(s, id);
    }
    forall p | p in t.k.procs
      ensures BlockedOk(t, p)
    {
      assert BlockedOk(s, p);
    }
  }

  lemma WaitSemOk(s: System, op: Op, id: nat)
    requires s.k.sched.Valid() && op.DoWait? && id in s.k.sems && SemOk(s, id)
    ensures id in Step(s, op).k.sems && SemOk(Step(s, op), id)
  {
    hide S.Remove;
  }

  lemma WaitBlocked(s: System, op: Op, p: nat)
    requires SchedOk(s.k.sched) && s.k.sched.Valid()
    requires op.DoWait? && op.pid in s.k.procs && p in s.k.procs && BlockedOk(s, p)
    ensures p in Step(s, op).k.procs && BlockedOk(Step(s, op), p)
  {
    hide S.Remove, S.Tasks, SchedOk;
    RemoveKeepsSchedOk(s.k.sched, op.pid, MAIN_THREAD);
  }

  lemma WaitKeepsInv(s: System, op: Op)
    requires Inv(s) && op.DoWait? && Legal(s, op)
    ensures s.k.sched.Valid() && Inv(Step(s, op))
  {
    hide SchedOk, S.Tasks, S.Remove, SemOk, BlockedOk;
    InvParts(s);
    var t := Step(s, op);
    RemoveKeepsSchedOk(s.k.sched, op.pid, MAIN_THREAD);
    forall id | id in t.k.sems
      ensures SemOk(t, id)
    {
      WaitSemOk(s, op, id);
    }
    forall p | p in t.k.procs
      ensures BlockedOk(t, p)
    {
      WaitBlocked(s, op, p);
    }
  }

  lemma SignalSemOk(s: System, op: Op, id: nat)
    requires s.k.sched.Valid() && op.DoSignal? && Legal(s, op) && id in s.k.sems && SemOk(s, id)
    ensures id in Step(s, op).k.sems && SemOk(Step(s, op), id)
  {
    hide Step, FirstBlocked, Legal;
    SignalEffect(s, op, id);
  }

  lemma SignalBlocked(s: System, op: Op, p: nat)
    requires SchedOk(s.k.sched) && s.k.sched.Valid() && op.DoSignal? && Legal(s, op) && p in s.k.procs && BlockedOk(s, p)
    requires forall q :: q in s.k.procs ==> BlockedOk(s, q)
    ensures p in Step(s, op).k.procs && BlockedOk(Step(s, op), p)
  {
    hide S.Ready, FirstBlocked, S.Tasks, SchedOk;
    FirstBlockedSpec(s.k, op.order, op.id);
    var w := FirstBlocked(s.k, op.order, op.id);
    if w.Some? {
      assert BlockedOk(s, w.value);
      ReadyKeepsSchedOk(s.k.sched, w.value, S.DEFAULT_PRIORITY);
    }
  }

  lemma SignalSched(s: System, op: Op)
    requires SchedOk(s.k.sched) && s.k.sched.Valid() && op.DoSignal?
    requires forall q :: q in s.k.procs ==> BlockedOk(s, q)
    ensures SchedOk(Step(s, op).k.sched)
  {
    hide S.Ready, FirstBlocked, S.Tasks, SchedOk;
    FirstBlockedSpec(s.k, op.order, op.id);
    var w := FirstBlocked(s.k, op.order, op.id);
    if w.Some? {
      assert BlockedOk(s, w.value);
      ReadyKeepsSchedOk(s.k.sched, w.value, S.DEFAULT_PRIORITY);
    }
  }

  lemma SignalKeepsInv(s: System, op: Op)
    requires Inv(s) && op.DoSignal? && Legal(s, op)
    ensures s.k.sched.Valid() && Inv(Step(s, op))
  {
    hide SchedOk, S.Tasks, S.Ready, FirstBlocked, SemOk, BlockedOk, Legal;
    InvParts(s);
    SignalSched(s, op);
    FirstBlockedSpec(s.k, op.order, op.id);
    var t := Step(s, op);
    forall id | id in t.k.sems
      ensures SemOk(t, id)
    {
      SignalSemOk(s, op, id);
    }
    forall p | p in t.k.procs
      ensures BlockedOk(t, p)
    {
      SignalBlocked(s, op, p);
    }
  }

  // Tasks of blocked processes do not come back by themselves.
  lemma ScheduleTasks(s: System, op: Op)
    requires SchedOk(s.k.sched) && s.k.sched.Valid() && op.DoSchedule? && Legal(s, op)
    ensures S.Fits(op.op, |s.k.sched.current|) && SchedOk(S.Step(s.k.sched, op.op))
    ensures forall p :: p in s.k.procs && s.k.procs[p].BlockedOn? && S.Task(p, MAIN_THREAD) !in S.Tasks(s.k.sched) ==>
      S.Task(p, MAIN_THREAD) !in S.Tasks(S.Step(s.k.sched, op.op))
  {
    hide SchedOk, S.Tasks, S.Ready, S.Remove, S.Schedule, S.Yield;
    match op.op
    case OpReady(p, _, priority) => ReadyKeepsSchedOk(s.k.sched, p, priority);
    case OpRemove(p, t) => RemoveKeepsSchedOk(s.k.sched, p, t);
    case OpSchedule(c) => PickKeepsSchedOk(s.k.sched, c);
    case OpYield(c) => PickKeepsSchedOk(s.k.sched, c);
  }

  lemma ScheduleKeepsInv(s: System, op: Op)
    requires Inv(s) && op.DoSchedule? && Legal(s, op)
    ensures s.k.sched.Valid() && S.Fits(op.op, |s.k.sched.current|) && Inv(Step(s, op))
  {
    hide SchedOk, S.Tasks, S.Step, Legal;
    InvParts(s);
    ScheduleTasks(s, op);
    var t := Step(s, op);
    forall id | id in t.k.sems
      ensures SemOk(t, id)
    {
      assert SemOk(s, id);
    }
    forall p | p in t.k.procs
      ensures BlockedOk(t, p)
    {
      assert BlockedOk(s, p);
    }
  }

  lemma StepKeepsInv(s: System, op: Op)
    requires Inv(s) && Legal(s, op)
    ensures s.k.sched.Valid() && (op.DoSchedule? ==> S.Fits(op.op, |s.k.sched.current|)) && Inv(Step(s, op))
  {
    hide Step, Inv, Legal;
    match op
    case DoCreate(_, _) => CreateKeepsInv(s, op);
    case DoWait(_, _) => WaitKeepsInv(s, op);
    case DoSignal(_, _, _) => SignalKeepsInv(s, op);
    case DoSchedule(_) => ScheduleKeepsInv(s, op);
  }

  ghost predicate LegalRun(s: System, ops: seq<Op>)
    requires Inv(s)
    decreases |ops|
  {
    ops == [] || (Legal(s, ops[0]) && (StepKeepsInv(s, ops[0]); LegalRun(Step(s, ops[0]), ops[1..])))
  }

  ghost function Exec(s: System, ops: seq<Op>): (t: System)
    requires Inv(s) && LegalRun(s, ops)
    ensures Inv(t)
    decreases |ops|
  {
    if ops == [] then s
    else
      StepKeepsInv(s, ops[0]);
      Exec(Step(s, ops[0]), ops[1..])
  }

  // ---------------------------------------------------------------------
  // The balance
  // ---------------------------------------------------------------------

  ghost function Count(s: System, id: nat): nat
    requires id in s.k.sems && id in s.held
  {
    s.k.sems[id].value + |s.held[id]|
  }

  // What a semaphore has left and what is held, beyond what it started with.
  ghost function Surplus(s: System, id: nat): int
    requires Inv(s)
  {
    if id in s.k.sems then
      assert SemOk(s, id);
      Count(s, id) - s.k.sems[id].initial
    else 0
  }

  // What a signal adds: one for what it gives away, less one for a caller who held it.
  ghost function Extra(s: System, op: Op, id: nat): int {
    if op.DoSignal? && op.id == id && id in s.k.sems && id in s.held then
      (if FirstBlocked(s.k, op.order, id).Some? || s.k.sems[id].value < s.k.sems[id].max then 1 else 0)
      - (if op.pid in s.held[id] then 1 else 0)
    else 0
  }

  lemma WaitSurplus(s: System, op: Op, id: nat)
    requires Inv(s) && op.DoWait? && Legal(s, op)
    ensures s.k.sched.Valid() && Inv(Step(s, op)) && Surplus(Step(s, op), id) == Surplus(s, id)
  {
    hide S.Remove, S.Tasks, SchedOk, BlockedOk;
    WaitKeepsInv(s, op);
    if id in s.k.sems {
      assert SemOk(s, id);
    }
  }

  lemma SignalSurplus(s: System, op: Op, id: nat)
    requires Inv(s) && op.DoSignal? && Legal(s, op)
    ensures s.k.sched.Valid() && Inv(Step(s, op)) && Surplus(Step(s, op), id) == Surplus(s, id) + Extra(s, op, id)
  {
    hide Inv, Legal, Step, FirstBlocked;
    InvParts(s);
    SignalKeepsInv(s, op);
    SignalCount(s, op, id);
  }

  lemma SignalCount(s: System, op: Op, id: nat)
    requires s.k.sched.Valid() && op.DoSignal? && (id in s.k.sems ==> SemOk(s, id))
    ensures var t := Step(s, op);
      && (id in t.k.sems <==> id in s.k.sems)
      && (id in s.k.sems ==>
            && id in t.held && t.k.sems[id].initial == s.k.sems[id].initial
            && Count(t, id) == Count(s, id) + Extra(s, op, id))
  {
    hide Step, FirstBlocked;
    SignalEffect(s, op, id);
    if id == op.id && id in s.k.sems {
      var h := s.held[id] - multiset{op.pid};
      TakeOut(s.held[id], op.pid);
      match FirstBlocked(s.k, op.order, id)
      case Some(w) => assert |h + multiset{w}| == |h| + 1;
      case None =>
    }
  }

  lemma SignalEffect(s: System, op: Op, id: nat)
    requires s.k.sched.Valid() && op.DoSignal? && (id in s.k.sems ==> SemOk(s, id))
    ensures var t := Step(s, op);
      && (id in t.k.sems <==> id in s.k.sems)
      && (id in s.k.sems && id != op.id ==> t.k.sems[id] == s.k.sems[id] && id in t.held && t.held[id] == s.held[id])
      && (id in s.k.sems && id == op.id ==>
            match FirstBlocked(s.k, op.order, id)
            case Some(w) =>
              t.k.sems[id] == s.k.sems[id] && id in t.held && t.held[id] == s.held[id] - multiset{op.pid} + multiset{w}
            case None =>
              && t.k.sems[id] == s.k.sems[id].(value := Min(s.k.sems[id].value + 1, s.k.sems[id].max))
              && id in t.held && t.held[id] == s.held[id] - multiset{op.pid})
  {
    hide S.Ready, S.State.Valid, FirstBlocked;
    FirstBlockedSpec(s.k, op.order, op.id);
    if id == op.id && id in s.k.sems {
      match FirstBlocked(s.k, op.order, id)
      case Some(w) =>
      case None => assert s.held[id] - multiset{op.pid} + multiset{} == s.held[id] - multiset{op.pid};
    }
  }

  lemma TakeOut(m: multiset<nat>, p: nat)
    ensures |m - multiset{p}| == |m| - if p in m then 1 else 0
  {
    if p !in m {
      assert m - multiset{p} == m;
    }
  }

  // Every step changes what is left and held by exactly that.
  lemma StepSurplus(s: System, op: Op, id: nat)
    requires Inv(s) && Legal(s, op)
    ensures s.k.sched.Valid() && (op.DoSchedule? ==> S.Fits(op.op, |s.k.sched.current|))
    ensures Inv(Step(s, op)) && Surplus(Step(s, op), id) == Surplus(s, id) + Extra(s, op, id)
  {
    hide S.Ready, S.Tasks, S.Remove, SchedOk, BlockedOk, FirstBlocked, SemWait, SemSignal, Inv;
    InvParts(s);
    StepKeepsInv(s, op);
    match op
    case DoCreate(_, _) =>
    case DoWait(_, _) => WaitSurplus(s, op, id);
    case DoSignal(_, _, _) => SignalSurplus(s, op, id);
    case DoSchedule(_) =>
  }

  ghost function Extras(s: System, ops: seq<Op>, id: nat): int
    requires Inv(s) && LegalRun(s, ops)
    decreases |ops|
  {
    if ops == [] then 0
    else
      StepKeepsInv(s, ops[0]);
      Extra(s, ops[0], id) + Extras(Step(s, ops[0]), ops[1..], id)
  }

  // Conservation over every run, whoever signals: value and holders together differ from
  // the initial value by exactly the signals that gave without having held, less those
  // that held and found no room.
  lemma {:induction false} CountConserved(s: System, ops: seq<Op>, id: nat)
    requires Inv(s) && LegalRun(s, ops)
    ensures Surplus(Exec(s, ops), id) == Surplus(s, id) + Extras(s, ops, id)
    decreases |ops|
  {
    hide Inv, Legal, Step, Surplus, Extra;
    if ops != [] {
      StepSurplus(s, ops[0], id);
      CountConserved(Step(s, ops[0]), ops[1..], id);
    }
  }

  // Every signal for the semaphore comes from somebody who holds it.
  ghost predicate HoldersSignal(s: System, ops: seq<Op>, id: nat)
    requires Inv(s) && LegalRun(s, ops)
    decreases |ops|
  {
    ops == [] || (
      && (ops[0].DoSignal? && ops[0].id == id && id in s.k.sems ==> id in s.held && ops[0].pid in s.held[id])
      && (StepKeepsInv(s, ops[0]); HoldersSignal(Step(s, ops[0]), ops[1..], id)))
  }

  // A holder always finds room to give back what he holds of a balanced semaphore.
  lemma HolderAddsNothing(s: System, op: Op, id: nat)
    requires Inv(s) && Legal(s, op) && Surplus(s, id) == 0
    requires op.DoSignal? && op.id == id && id in s.k.sems ==> id in s.held && op.pid in s.held[id]
    ensures Extra(s, op, id) == 0
  {
    hide SchedOk, BlockedOk, FirstBlocked, Legal;
    if id in s.k.sems {
      assert SemOk(s, id);
    }
  }

  lemma {:induction false} HoldersKeepBalance(s: System, ops: seq<Op>, id: nat)
    requires Inv(s) && LegalRun(s, ops) && Surplus(s, id) == 0 && HoldersSignal(s, ops, id)
    ensures Surplus(Exec(s, ops), id) == 0
    decreases |ops|
  {
    hide Inv, Legal, Step, Surplus, Extra;
    if ops != [] {
      StepSurplus(s, ops[0], id);
      HolderAddsNothing(s, ops[0], id);
      HoldersKeepBalance(Step(s, ops[0]), ops[1..], id);
    }
  }

  // When only holders signal, what a semaphore has left and what is held add up to its
  // initial value: at most that many hold it and, with 1, at most one process is in its
  // critical section.
  lemma HoldersAreBounded(s: System, ops: seq<Op>, id: nat)
    requires Inv(s) && LegalRun(s, ops) && id in Exec(s, ops).k.sems
    requires Surplus(s, id) == 0 && HoldersSignal(s, ops, id)
    ensures var t := Exec(s, ops);
      && id in t.held && t.k.sems[id].value + |t.held[id]| == t.k.sems[id].initial
      && (t.k.sems[id].initial == 1 ==> forall p, q :: p in t.held[id] && q in t.held[id] ==> p == q)
  {
    hide LegalRun, HoldersSignal, SchedOk, BlockedOk, Exec, Inv;
    HoldersKeepBalance(s, ops, id);
    var t := Exec(s, ops);
    InvParts(t);
    assert SemOk(t, id);
    forall p, q | p in t.held[id] && q in t.held[id] && t.k.sems[id].initial == 1
      ensures p == q
    {
      if p != q {
        TwoHolders(t.held[id], p, q);
      }
    }
  }

  lemma TwoHolders(m: multiset<nat>, p: nat, q: nat)
    requires p in m && q in m && p != q
    ensures |m| >= 2
  {
    assert |m - multiset{p}| == |m| - 1;
    assert q in m - multiset{p};
  }

  // No wake-up is lost: as long as a semaphore has something to give, nobody is blocked
  // on it.
  lemma NoLostWakeup(s: System, ops: seq<Op>, id: nat, p: nat)
    requires Inv(s) && LegalRun(s, ops) && id in Exec(s, ops).k.sems && Exec(s, ops).k.sems[id].value > 0
    requires p in Exec(s, ops).k.procs
    ensures Exec(s, ops).k.procs[p] != BlockedOn(id)
  {
    hide LegalRun, SchedOk, SemOk, Exec, Inv;
    InvParts(Exec(s, ops));
    assert BlockedOk(Exec(s, ops), p);
  }

  // A signal keeps value and holders in balance exactly when it gives something away if
  // and only if its caller held it: from a balanced state, when the caller is a holder or
  // there is nobody to wake and no room.
  lemma SignalBalancedIff(s: System, pid: nat, id: nat, order: seq<nat>)
    requires Inv(s) && Lists(s.k, order) && id in s.k.sems
    ensures id in s.held && s.k.sched.Valid() && Inv(Step(s, DoSignal(pid, id, order)))
    ensures Surplus(Step(s, DoSignal(pid, id, order)), id) == Surplus(s, id)
      <==> (pid in s.held[id] <==> FirstBlocked(s.k, order, id).Some? || s.k.sems[id].value < s.k.sems[id].max)
    ensures Surplus(s, id) == 0 ==>
      (Surplus(Step(s, DoSignal(pid, id, order)), id) == 0
       <==> pid in s.held[id] || (FirstBlocked(s.k, order, id).None? && s.k.sems[id].value == s.k.sems[id].max))
  {
    hide SchedOk, S.Ready, FirstBlocked, S.Tasks, BlockedOk;
    InvParts(s);
    assert SemOk(s, id);
    SignalSurplus(s, DoSignal(pid, id, order), id);
    FirstBlockedSpec(s.k, order, id);
    if pid in s.held[id] && Surplus(s, id) == 0 {
      HolderAddsNothing(s, DoSignal(pid, id, order), id);
    }
  }

  // ---------------------------------------------------------------------
  // The one who is woken gets a turn
  // ---------------------------------------------------------------------

  // The process the signal picks holds the semaphore at once, without its value ever
  // showing it, is no longer blocked and stands last in the ready queue.
  lemma SignalHandsOff(s: System, pid: nat, id: nat, order: seq<nat>)
    requires Inv(s) && Legal(s, DoSignal(pid, id, order)) && id in s.k.sems && FirstBlocked(s.k, order, id).Some?
    ensures s.k.sched.Valid()
    ensures var (t, w) := (Step(s, DoSignal(pid, id, order)), FirstBlocked(s.k, order, id).value);
      && t.k.sems == s.k.sems && id in t.held && w in t.held[id]
      && w in t.k.procs && t.k.procs[w].Active?
      && S.Waits(t.k.sched, w, |s.k.sched.ready|)
  {
    hide Inv, FirstBlocked, S.Tasks;
    InvParts(s);
    FirstBlockedSpec(s.k, order, id);
    var w := FirstBlocked(s.k, order, id).value;
    assert BlockedOk(s, w);
    NotQueued(s.k.sched, w);
    NotRunning(s.k.sched, w);
  }

  lemma NotQueued(s: S.State, p: nat)
    requires SchedOk(s) && S.Task(p, MAIN_THREAD) !in S.Tasks(s)
    ensures forall j :: 0 <= j < |s.ready| ==> s.ready[j].pid != p
  {
    forall j | 0 <= j < |s.ready|
      ensures s.ready[j].pid != p
    {
      S.QueueTasksSelect(s.ready, j);
      assert s.ready[j].AsTask() in S.QueueTasks(s.ready);
      assert s.ready[j].AsTask() in S.Tasks(s);
    }
  }

  lemma {:induction false} SlotIsTask(current: seq<Option<S.Task>>, i: nat)
    requires i < |current| && current[i].Some?
    ensures current[i].value in S.CpuTasks(current)
  {
    if i > 0 {
      SlotIsTask(current[1..], i - 1);
    }
  }

  lemma NotRunning(s: S.State, p: nat)
    requires SchedOk(s) && S.Task(p, MAIN_THREAD) !in S.Tasks(s)
    ensures !s.OnCpu(p)
  {
    forall i | 0 <= i < |s.current| && s.current[i].Some?
      ensures s.current[i].value.pid != p
    {
      SlotIsTask(s.current, i);
      assert s.current[i].value in S.Tasks(s);
    }
  }

  // A process that is handed the semaphore runs within one round of the queue it joins,
  // whatever the scheduler is asked to do in between.
  lemma HandedOffIsDispatched(s: System, pid: nat, id: nat, order: seq<nat>, cpu: nat, ops: seq<S.Op>)
    requires Inv(s) && Legal(s, DoSignal(pid, id, order)) && id in s.k.sems && FirstBlocked(s.k, order, id).Some?
    requires cpu < |s.k.sched.current| && S.AllFit(ops, |s.k.sched.current|)
    requires forall o :: o in ops ==> !S.Concerns(o, FirstBlocked(s.k, order, id).value)
    requires (|s.k.sched.ready| + 1) * Max(s.k.sched.slice, 1) <= S.CallsOn(ops, cpu)
    ensures var (t, w) := (Step(s, DoSignal(pid, id, order)).k.sched, FirstBlocked(s.k, order, id).value);
      t.Valid() && |t.current| == |s.k.sched.current| && S.Dispatched(t, ops, w)
  {
    hide Inv, FirstBlocked, S.Tasks, S.Dispatched, S.CallsOn, S.Concerns, S.Waits;
    InvParts(s);
    SignalHandsOff(s, pid, id, order);
    S.BoundedWaiting(Step(s, DoSignal(pid, id, order)).k.sched, ops, cpu,
                     FirstBlocked(s.k, order, id).value, |s.k.sched.ready|);
  }
}
