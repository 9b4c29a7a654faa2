// The SMP scheduler: one shared ready queue, one running task per CPU, round-robin
// with a rotation that skips tasks whose process already runs on another CPU.
module Scheduling {
  import opened Prelude

  datatype Policy = FIFO | RoundRobin(quantum: nat) | Priority | SJF | MLFQ

  datatype Task = Task(pid: nat, tid: nat)

  datatype Entry = Entry(pid: nat, tid: nat, priority: nat) {
    function AsTask(): Task { Task(pid, tid) }
  }

  datatype Decision = Run(pid: nat, tid: nat) | Idle

  const DEFAULT_PRIORITY: nat := 128

  // The policies that put tasks on the queue `dequeue_next` reads from.
  predicate Queued(policy: Policy) {
    policy.FIFO? || policy.RoundRobin? || policy.MLFQ?
  }

  function TimeSlice(policy: Policy): nat {
    match policy
    case RoundRobin(q) => q
    case _ => 10
  }

  // ---------------------------------------------------------------------
  // The scheduler as a value
  // ---------------------------------------------------------------------

  datatype State = State(
    policy: Policy,
    ready: seq<Entry>,
    prio: seq<Entry>,
    current: seq<Option<Task>>,
    ticks: seq<nat>,
    slice: nat,
    scheduled: nat,
    switches: nat)
  {
    predicate Valid() {
      |current| == |ticks|
    }

    // Some CPU other than `cpu` runs the process.
    predicate BusyElsewhere(pid: nat, cpu: nat) {
      exists i :: 0 <= i < |current| && i != cpu && current[i].Some? && current[i].value.pid == pid
    }

    predicate OnCpu(pid: nat) {
      exists i :: 0 <= i < |current| && current[i].Some? && current[i].value.pid == pid
    }
  }

  function New(policy: Policy, cpus: nat): State {
    State(policy, [], [], seq(cpus, _ => None), seq(cpus, _ => 0), TimeSlice(policy), 0, 0)
  }

  // Where a task of this priority goes: before the first one of lower priority.
  function InsertAt(q: seq<Entry>, priority: nat): (i: nat)
    ensures i <= |q|
    ensures forall j :: 0 <= j < i ==> priority <= q[j].priority
    ensures i < |q| ==> q[i].priority < priority
  {
    if q == [] || q[0].priority < priority then 0 else 1 + InsertAt(q[1..], priority)
  }

  function Ready(s: State, pid: nat, tid: nat, priority: nat): State {
    var e := Entry(pid, tid, priority);
    if Queued(s.policy) then s.(ready := s.ready + [e])
    else
      var i := InsertAt(s.prio, priority);
      s.(prio := s.prio[..i] + [e] + s.prio[i..])
  }

  function ClearTask(current: seq<Option<Task>>, t: Task): seq<Option<Task>> {
    seq(|current|, i requires 0 <= i < |current| => if current[i] == Some(t) then None else current[i])
  }

  function ClearTicks(current: seq<Option<Task>>, ticks: seq<nat>, t: Task): seq<nat>
    requires |current| == |ticks|
  {
    seq(|ticks|, i requires 0 <= i < |ticks| => if current[i] == Some(t) then 0 else ticks[i])
  }

  // The position of the first entry of this task, or the length.
  function FindTask(q: seq<Entry>, t: Task): (i: nat)
    ensures i <= |q|
    ensures i < |q| ==> q[i].AsTask() == t
    ensures forall j :: 0 <= j < i ==> q[j].AsTask() != t
  {
    if q == [] || q[0].AsTask() == t then 0 else 1 + FindTask(q[1..], t)
  }

  function Remove(s: State, pid: nat, tid: nat): (State, bool)
    requires s.Valid()
  {
    var t := Task(pid, tid);
    var i := FindTask(s.ready, t);
    var s1 := s.(current := ClearTask(s.current, t), ticks := ClearTicks(s.current, s.ticks, t));
    if i < |s.ready| then (s1.(ready := s.ready[..i] + s.ready[i + 1..]), true) else (s1, false)
  }

  // The position of the first entry whose process no other CPU runs, or the length.
  function FirstFree(s: State, q: seq<Entry>, cpu: nat): (i: nat)
    ensures i <= |q|
    ensures i < |q| ==> !s.BusyElsewhere(q[i].pid, cpu)
    ensures forall j :: 0 <= j < i ==> s.BusyElsewhere(q[j].pid, cpu)
  {
    if q == [] || !s.BusyElsewhere(q[0].pid, cpu) then 0 else 1 + FirstFree(s, q[1..], cpu)
  }

  // Taking the head off a queue whose first `i` entries have gone to the back.
  lemma Rotated(q: seq<Entry>, i: nat)
    requires i < |q|
    ensures (q[i..] + q[..i])[0] == q[i] && (q[i..] + q[..i])[1..] == q[i + 1..] + q[..i]
    ensures q[i + 1..] + q[..i] + [q[i]] == q[i + 1..] + q[..i + 1]
  {
  }

  lemma SameBusy(s: State, t: State, pid: nat, cpu: nat)
    requires t.current == s.current
    ensures t.BusyElsewhere(pid, cpu) <==> s.BusyElsewhere(pid, cpu)
  {
  }

  function Dequeue(s: State, cpu: nat): (State, Decision)
    requires s.Valid() && cpu < |s.current|
  {
    var i := FirstFree(s, s.ready, cpu);
    if i < |s.ready| then
      var e := s.ready[i];
      (s.(ready := s.ready[i + 1..] + s.ready[..i],
          current := s.current[cpu := Some(e.AsTask())],
          ticks := s.ticks[cpu := 0],
          scheduled := s.scheduled + 1,
          switches := s.switches + 1),
       Run(e.pid, e.tid))
    else
      (s.(current := s.current[cpu := None]), Idle)
  }

  // Put the running task, if any, back into the queue.
  function Requeue(s: State, cpu: nat): State
    requires s.Valid() && cpu < |s.current|
  {
    match s.current[cpu]
    case None => s
    case Some(t) =>
      Ready(s, t.pid, t.tid, DEFAULT_PRIORITY).(current := s.current[cpu := None], ticks := s.ticks[cpu := 0])
  }

  function Schedule(s: State, cpu: nat): (State, Decision)
    requires s.Valid() && cpu < |s.current|
  {
    if s.current[cpu].Some? && s.ticks[cpu] + 1 < s.slice then
      (s.(ticks := s.ticks[cpu := s.ticks[cpu] + 1]), Run(s.current[cpu].value.pid, s.current[cpu].value.tid))
    else
      Dequeue(Requeue(s, cpu), cpu)
  }

  function Yield(s: State, cpu: nat): (State, Decision)
    requires s.Valid() && cpu < |s.current|
  {
    Dequeue(Requeue(s, cpu), cpu)
  }

  // ---------------------------------------------------------------------
  // Runs
  // ---------------------------------------------------------------------

  datatype Op =
    | OpReady(pid: nat, tid: nat, priority: nat)
    | OpRemove(pid: nat, tid: nat)
    | OpSchedule(cpu: nat)
    | OpYield(cpu: nat)

  predicate Fits(op: Op, cpus: nat) {
    (op.OpSchedule? || op.OpYield?) ==> op.cpu < cpus
  }

  function Step(s: State, op: Op): (s': State)
    requires s.Valid() && Fits(op, |s.current|)
    ensures s'.Valid() && |s'.current| == |s.current| && s'.policy == s.policy && s'.slice == s.slice
  {
    match op
    case OpReady(p, t, prio) => Ready(s, p, t, prio)
    case OpRemove(p, t) => Remove(s, p, t).0
    case OpSchedule(c) => Schedule(s, c).0
    case OpYield(c) => Yield(s, c).0
  }

  predicate AllFit(ops: seq<Op>, cpus: nat) {
    forall op :: op in ops ==> Fits(op, cpus)
  }

  function Exec(s: State, ops: seq<Op>): (s': State)
    requires s.Valid() && AllFit(ops, |s.current|)
    ensures s'.Valid() && |s'.current| == |s.current| && s'.policy == s.policy && s'.slice == s.slice
    decreases ops
  {
    if ops == [] then s
    else
      assert Fits(ops[0], |s.current|);
      Exec(Step(s, ops[0]), ops[1..])
  }

  // ---------------------------------------------------------------------
  // No process runs on two CPUs
  // ---------------------------------------------------------------------

  ghost predicate OneCpuEach(s: State) {
    forall i, j :: 0 <= i < j < |s.current| && s.current[i].Some? && s.current[j].Some?
      ==> s.current[i].value.pid != s.current[j].value.pid
  }

  lemma StepKeepsOneCpuEach(s: State, op: Op)
    requires s.Valid() && Fits(op, |s.current|) && OneCpuEach(s)
    ensures OneCpuEach(Step(s, op))
  {
  }

  // From a fresh scheduler, whatever is made ready, removed, scheduled or yielded in
  // whatever order, no two CPUs ever run the same process.
  lemma {:induction false} NoPidOnTwoCpus(s: State, ops: seq<Op>)
    requires s.Valid() && AllFit(ops, |s.current|) && OneCpuEach(s)
    ensures OneCpuEach(Exec(s, ops))
    decreases ops
  {
    if ops != [] {
      assert Fits(ops[0], |s.current|);
      StepKeepsOneCpuEach(s, ops[0]);
      NoPidOnTwoCpus(Step(s, ops[0]), ops[1..]);
    }
  }

  lemma RunsFromStartAreExclusive(policy: Policy, cpus: nat, ops: seq<Op>)
    requires AllFit(ops, cpus)
    ensures OneCpuEach(Exec(New(policy, cpus), ops))
  {
    NoPidOnTwoCpus(New(policy, cpus), ops);
  }

  // Consecutive decisions for two different CPUs name different processes.
  lemma ConsecutiveDecisionsDiffer(s: State, i: nat, j: nat)
    requires s.Valid() && OneCpuEach(s) && i < |s.current| && j < |s.current| && i != j
    ensures var (s1, d1) := Schedule(s, i);
            var (s2, d2) := Schedule(s1, j);
            d1.Run? && d2.Run? ==> d1.pid != d2.pid
  {
    StepKeepsOneCpuEach(s, OpSchedule(i));
    StepKeepsOneCpuEach(Step(s, OpSchedule(i)), OpSchedule(j));
    var s1 := Step(s, OpSchedule(i));
    var s2 := Step(s1, OpSchedule(j));
    assert s2.current[i] == s1.current[i];
  }

  // ---------------------------------------------------------------------
  // Conservation
  // ---------------------------------------------------------------------

  ghost function QueueTasks(q: seq<Entry>): multiset<Task> {
    multiset(seq(|q|, i requires 0 <= i < |q| => q[i].AsTask()))
  }

  ghost function SlotTask(o: Option<Task>): multiset<Task> {
    if o.Some? then multiset{o.value} else multiset{}
  }

  ghost function CpuTasks(current: seq<Option<Task>>): multiset<Task> {
    if current == [] then multiset{}
    else SlotTask(current[0]) + CpuTasks(current[1..])
  }

  // Everything the scheduler holds, wherever it is.
  ghost function Tasks(s: State): multiset<Task> {
    QueueTasks(s.ready) + QueueTasks(s.prio) + CpuTasks(s.current)
  }

  lemma QueueTasksSplit(a: seq<Entry>, b: seq<Entry>)
    ensures QueueTasks(a + b) == QueueTasks(a) + QueueTasks(b)
  {
    var ta := seq(|a|, i requires 0 <= i < |a| => a[i].AsTask());
    var tb := seq(|b|, i requires 0 <= i < |b| => b[i].AsTask());
    assert seq(|a + b|, i requires 0 <= i < |a + b| => (a + b)[i].AsTask()) == ta + tb;
  }

  lemma QueueTasksOne(e: Entry)
    ensures QueueTasks([e]) == multiset{e.AsTask()}
  {
    assert seq(1, i requires 0 <= i < 1 => [e][i].AsTask()) == [e.AsTask()];
  }

  lemma QueueTasksSelect(q: seq<Entry>, i: nat)
    requires i < |q|
    ensures QueueTasks(q) == QueueTasks(q[..i] + q[i + 1..]) + multiset{q[i].AsTask()}
  {
    assert q == q[..i] + ([q[i]] + q[i + 1..]);
    QueueTasksSplit(q[..i], [q[i]] + q[i + 1..]);
    QueueTasksSplit([q[i]], q[i + 1..]);
    QueueTasksSplit(q[..i], q[i + 1..]);
    QueueTasksOne(q[i]);
  }

  lemma Exchange(h: multiset<Task>, x: multiset<Task>, u: multiset<Task>, y: multiset<Task>, v: multiset<Task>)
    requires x + u == y + v
    ensures (h + x) + u == (h + y) + v
  {
    forall t: Task
      ensures ((h + x) + u)[t] == ((h + y) + v)[t]
    {
      assert (x + u)[t] == (y + v)[t];
    }
  }

  lemma Swapped(a: multiset<Task>, b: multiset<Task>, c: multiset<Task>)
    ensures (b + c) + a == (a + c) + b
  {
  }

  lemma {:induction false} CpuTasksUpdate(current: seq<Option<Task>>, cpu: nat, o: Option<Task>)
    requires cpu < |current|
    ensures CpuTasks(current[cpu := o]) + SlotTask(current[cpu]) == CpuTasks(current) + SlotTask(o)
  {
    if cpu == 0 {
      assert current[0 := o][1..] == current[1..];
      Swapped(SlotTask(current[0]), SlotTask(o), CpuTasks(current[1..]));
    } else {
      hide SlotTask;
      CpuTasksUpdate(current[1..], cpu - 1, o);
      assert current[cpu := o][1..] == current[1..][cpu - 1 := o];
      assert CpuTasks(current[cpu := o]) == SlotTask(current[0]) + CpuTasks(current[1..][cpu - 1 := o]);
      Exchange(SlotTask(current[0]), CpuTasks(current[1..][cpu - 1 := o]), SlotTask(current[cpu]),
               CpuTasks(current[1..]), SlotTask(o));
    }
  }

  lemma ReadyAddsOne(s: State, pid: nat, tid: nat, priority: nat)
    ensures Tasks(Ready(s, pid, tid, priority)) == Tasks(s) + multiset{Task(pid, tid)}
  {
    var e := Entry(pid, tid, priority);
    QueueTasksOne(e);
    if Queued(s.policy) {
      QueueTasksSplit(s.ready, [e]);
    } else {
      var i := InsertAt(s.prio, priority);
      var q := s.prio[..i] + [e] + s.prio[i..];
      QueueTasksSelect(q, i);
      assert q[..i] + q[i + 1..] == s.prio;
    }
  }

  lemma DequeueConserves(s: State, cpu: nat)
    requires s.Valid() && cpu < |s.current| && s.current[cpu].None?
    ensures Tasks(Dequeue(s, cpu).0) == Tasks(s)
  {
    hide QueueTasks, FirstFree, State.BusyElsewhere;
    var i := FirstFree(s, s.ready, cpu);
    if i < |s.ready| {
      var t := s.ready[i].AsTask();
      CpuTasksUpdate(s.current, cpu, Some(t));
      assert CpuTasks(s.current[cpu := Some(t)]) == CpuTasks(s.current) + multiset{t};
      QueueTasksSelect(s.ready, i);
      QueueTasksSplit(s.ready[i + 1..], s.ready[..i]);
      QueueTasksSplit(s.ready[..i], s.ready[i + 1..]);
      assert QueueTasks(s.ready[i + 1..] + s.ready[..i]) + multiset{t} == QueueTasks(s.ready);
    } else {
      assert s.current[cpu := None] == s.current;
    }
  }

  lemma Cancel(a: multiset<Task>, c: multiset<Task>, c': multiset<Task>, r: multiset<Task>, t: multiset<Task>)
    requires a + c == r + t && c' + t == c
    ensures a + c' == r
  {
    forall x: Task
      ensures (a + c')[x] == r[x]
    {
      assert (a + c)[x] == (r + t)[x] && (c' + t)[x] == c[x];
    }
  }

  lemma RequeueConserves(s: State, cpu: nat)
    requires s.Valid() && cpu < |s.current|
    ensures Tasks(Requeue(s, cpu)) == Tasks(s) && Requeue(s, cpu).current[cpu].None?
  {
    if s.current[cpu].Some? {
      var t := s.current[cpu].value;
      var s1 := Ready(s, t.pid, t.tid, DEFAULT_PRIORITY);
      ReadyAddsOne(s, t.pid, t.tid, DEFAULT_PRIORITY);
      CpuTasksUpdate(s.current, cpu, None);
      Cancel(QueueTasks(s1.ready) + QueueTasks(s1.prio), CpuTasks(s.current),
             CpuTasks(s.current[cpu := None]), Tasks(s), multiset{t});
    }
  }

  // Neither deciding what runs next nor yielding loses or duplicates a task.
  lemma ScheduleConserves(s: State, cpu: nat)
    requires s.Valid() && cpu < |s.current|
    ensures Tasks(Schedule(s, cpu).0) == Tasks(s) == Tasks(Yield(s, cpu).0)
  {
    RequeueConserves(s, cpu);
    DequeueConserves(Requeue(s, cpu), cpu);
  }

  lemma ClearSum(slot: Option<Task>, rest: multiset<Task>, t: Task)
    ensures SlotTask(if slot == Some(t) then None else slot) + rest[t := 0] == (SlotTask(slot) + rest)[t := 0]
  {
  }

  lemma {:induction false} ClearTaskRemovesAll(current: seq<Option<Task>>, t: Task)
    ensures CpuTasks(ClearTask(current, t)) == CpuTasks(current)[t := 0]
  {
    if current != [] {
      ClearTaskRemovesAll(current[1..], t);
      assert ClearTask(current, t)[1..] == ClearTask(current[1..], t);
      ClearSum(current[0], CpuTasks(current[1..]), t);
    }
  }

  // Removing takes the task off every CPU and takes at most one copy off the ready
  // queue.  Other tasks stay; the answer is about the queue alone, so it is `false`
  // for a task that was only running.
  lemma RemoveSpec(s: State, pid: nat, tid: nat)
    requires s.Valid()
    ensures var (s', found) := Remove(s, pid, tid);
            var t := Task(pid, tid);
            && CpuTasks(s'.current) == CpuTasks(s.current)[t := 0]
            && QueueTasks(s'.ready) == QueueTasks(s.ready) - multiset{t}
            && s'.prio == s.prio
            && (found <==> t in QueueTasks(s.ready))
  {
    hide QueueTasks, CpuTasks, ClearTask, ClearTicks;
    var t := Task(pid, tid);
    ClearTaskRemovesAll(s.current, t);
    var i := FindTask(s.ready, t);
    if i < |s.ready| {
      QueueTasksSelect(s.ready, i);
    } else {
      NotInQueue(s.ready, t);
    }
  }

  lemma NotInQueue(q: seq<Entry>, t: Task)
    requires forall j :: 0 <= j < |q| ==> q[j].AsTask() != t
    ensures t !in QueueTasks(q)
  {
    var ts := seq(|q|, k requires 0 <= k < |q| => q[k].AsTask());
    assert t !in ts;
  }

  // ---------------------------------------------------------------------
  // What `dequeue_next` picks
  // ---------------------------------------------------------------------

  // The decision is Idle exactly when every queued process runs on another CPU, and
  // then the queue is as before; otherwise the first free entry is chosen, the entries
  // behind it keep their order and come before the skipped ones.
  lemma DequeueSpec(s: State, cpu: nat)
    requires s.Valid() && cpu < |s.current|
    ensures var (s', d) := Dequeue(s, cpu);
      && (d.Idle? <==> forall e :: e in s.ready ==> s.BusyElsewhere(e.pid, cpu))
      && (d.Idle? ==> s'.ready == s.ready && s'.current[cpu].None?)
      && (d.Run? ==>
            && !s.BusyElsewhere(d.pid, cpu)
            && s'.current[cpu] == Some(Task(d.pid, d.tid))
            && exists i :: (0 <= i < |s.ready|
                 && s.ready[i].AsTask() == Task(d.pid, d.tid)
                 && (forall j :: 0 <= j < i ==> s.BusyElsewhere(s.ready[j].pid, cpu))
                 && s'.ready == s.ready[i + 1..] + s.ready[..i]))
  {
    var i := FirstFree(s, s.ready, cpu);
    if i < |s.ready| {
      assert s.ready[i] in s.ready;
    }
  }

  // ---------------------------------------------------------------------
  // Bounded waiting
  // ---------------------------------------------------------------------

  // The process waits at position `k` of the ready queue and is nowhere else.
  ghost predicate Waits(s: State, pid: nat, k: nat) {
    && k < |s.ready| && s.ready[k].pid == pid
    && (forall j :: 0 <= j < |s.ready| && j != k ==> s.ready[j].pid != pid)
    && !s.OnCpu(pid)
  }

  ghost predicate Concerns(op: Op, pid: nat) {
    (op.OpReady? || op.OpRemove?) && op.pid == pid
  }

  function CallsOn(ops: seq<Op>, cpu: nat): nat {
    if ops == [] then 0 else (if ops[0] == OpSchedule(cpu) then 1 else 0) + CallsOn(ops[1..], cpu)
  }

  // At some point during the run the process is on a CPU.
  ghost predicate Dispatched(s: State, ops: seq<Op>, pid: nat)
    requires s.Valid() && AllFit(ops, |s.current|)
    decreases ops
  {
    s.OnCpu(pid) || (ops != [] && (assert Fits(ops[0], |s.current|); Dispatched(Step(s, ops[0]), ops[1..], pid)))
  }

  // How many `schedule` calls on `cpu` until it next takes something off the queue.
  ghost function Countdown(s: State, cpu: nat): nat
    requires s.Valid() && cpu < |s.current|
  {
    if s.current[cpu].None? then 1 else Max(1, s.slice - s.ticks[cpu])
  }

  ghost function Remaining(s: State, cpu: nat, k: nat): nat
    requires s.Valid() && cpu < |s.current|
  {
    k * Max(s.slice, 1) + Countdown(s, cpu)
  }

  // Whenever some CPU takes an entry off the queue, the waiting process either is
  // that entry or moves forward.
  lemma DequeueMovesForward(s: State, cpu: nat, pid: nat, k: nat) returns (k': nat)
    requires s.Valid() && cpu < |s.current| && Waits(s, pid, k)
    ensures var s' := Dequeue(s, cpu).0;
      s'.OnCpu(pid) || (k' < k && Waits(s', pid, k'))
  {
    var i := FirstFree(s, s.ready, cpu);
    assert !s.BusyElsewhere(pid, cpu);
    assert i <= k;
    var s' := Dequeue(s, cpu).0;
    if i == k {
      assert s'.current[cpu].value.pid == pid;
      k' := 0;
    } else {
      k' := k - i - 1;
    }
  }

  lemma RequeueKeepsWaiting(s: State, cpu: nat, pid: nat, k: nat)
    requires s.Valid() && cpu < |s.current| && Waits(s, pid, k)
    ensures Waits(Requeue(s, cpu), pid, k)
  {
  }

  lemma RemoveKeepsWaiting(s: State, p: nat, t: nat, pid: nat, k: nat) returns (k': nat)
    requires s.Valid() && Waits(s, pid, k) && p != pid
    ensures k' <= k && Waits(Remove(s, p, t).0, pid, k')
  {
    var i := FindTask(s.ready, Task(p, t));
    k' := if i < k then k - 1 else k;
    var s' := Remove(s, p, t).0;
    forall c | 0 <= c < |s'.current| && s'.current[c].Some?
      ensures s'.current[c].value.pid != pid
    {
      assert s.current[c] == s'.current[c];
    }
  }

  lemma ScaleBound(k': nat, k: nat, q: nat)
    requires k' < k
    ensures k' * q + q <= k * q
  {
    var d := k - k' - 1;
    assert k * q == (k' + 1 + d) * q == k' * q + q + d * q;
  }

  lemma WaitingStep(s: State, op: Op, cpu: nat, pid: nat, k: nat) returns (k': nat)
    requires s.Valid() && cpu < |s.current| && Fits(op, |s.current|) && Queued(s.policy)
    requires Waits(s, pid, k) && !Concerns(op, pid)
    ensures var s' := Step(s, op);
      || s'.OnCpu(pid)
      || (Waits(s', pid, k')
          && Remaining(s', cpu, k') + (if op == OpSchedule(cpu) then 1 else 0) <= Remaining(s, cpu, k))
  {
    var s' := Step(s, op);
    k' := k;
    match op
    case OpReady(p, t, prio) =>
    case OpRemove(p, t) =>
      k' := RemoveKeepsWaiting(s, p, t, pid, k);
      if k' < k { ScaleBound(k', k, Max(s.slice, 1)); }
    case OpSchedule(c) =>
      if s.current[c].Some? && s.ticks[c] + 1 < s.slice {
        assert s'.current == s.current;
      } else {
        RequeueKeepsWaiting(s, c, pid, k);
        k' := DequeueMovesForward(Requeue(s, c), c, pid, k);
        if !s'.OnCpu(pid) { ScaleBound(k', k, Max(s.slice, 1)); }
      }
    case OpYield(c) =>
      RequeueKeepsWaiting(s, c, pid, k);
      k' := DequeueMovesForward(Requeue(s, c), c, pid, k);
      if !s'.OnCpu(pid) { ScaleBound(k', k, Max(s.slice, 1)); }
  }

  lemma {:induction false} WaitingEnds(s: State, ops: seq<Op>, cpu: nat, pid: nat, k: nat)
    requires s.Valid() && cpu < |s.current| && AllFit(ops, |s.current|) && Queued(s.policy)
    requires Waits(s, pid, k)
    requires forall op :: op in ops ==> !Concerns(op, pid)
    requires Remaining(s, cpu, k) <= CallsOn(ops, cpu)
    ensures Dispatched(s, ops, pid)
    decreases ops
  {
    assert ops != [];
    assert ops[0] in ops;
    var k' := WaitingStep(s, ops[0], cpu, pid, k);
    var s' := Step(s, ops[0]);
    if !s'.OnCpu(pid) {
      WaitingEnds(s', ops[1..], cpu, pid, k');
    }
  }

  // A process that waits at position k of the ready queue gets a CPU within
  // (k+1) * max(slice, 1) calls of `schedule` on any one CPU, whatever else happens
  // in between: calls for other CPUs, yields, arrivals, removals of others - and even
  // when the other tasks occur several times or run on several CPUs' behalf.
  lemma BoundedWaiting(s: State, ops: seq<Op>, cpu: nat, pid: nat, k: nat)
    requires s.Valid() && cpu < |s.current| && AllFit(ops, |s.current|) && Queued(s.policy)
    requires Waits(s, pid, k)
    requires forall op :: op in ops ==> !Concerns(op, pid)
    requires (k + 1) * Max(s.slice, 1) <= CallsOn(ops, cpu)
    ensures Dispatched(s, ops, pid)
  {
    assert (k + 1) * Max(s.slice, 1) == k * Max(s.slice, 1) + Max(s.slice, 1);
    WaitingEnds(s, ops, cpu, pid, k);
  }

  // ---------------------------------------------------------------------
  // The policies that never run anything
  // ---------------------------------------------------------------------

  ghost predicate NothingRuns(s: State) {
    && s.Valid() && !Queued(s.policy) && s.ready == []
    && forall c :: 0 <= c < |s.current| ==> s.current[c].None?
  }

  // Under Priority and SJF tasks go to a queue that `dequeue_next` does not read:
  // however many are made ready, no CPU ever runs one.
  lemma {:induction false} PriorityNeverRuns(s: State, ops: seq<Op>, pid: nat)
    requires NothingRuns(s) && AllFit(ops, |s.current|)
    ensures NothingRuns(Exec(s, ops)) && !Dispatched(s, ops, pid)
    decreases ops
  {
    if ops != [] {
      assert Fits(ops[0], |s.current|);
      PriorityNeverRuns(Step(s, ops[0]), ops[1..], pid);
    }
  }

  function Repeat(op: Op, n: nat): (ops: seq<Op>)
    ensures |ops| == n && forall i :: 0 <= i < n ==> ops[i] == op
  {
    seq(n, _ => op)
  }

  lemma {:induction false} CallsOnRepeat(cpu: nat, n: nat)
    ensures CallsOn(Repeat(OpSchedule(cpu), n), cpu) == n
  {
    if n > 0 {
      CallsOnRepeat(cpu, n - 1);
      assert Repeat(OpSchedule(cpu), n)[1..] == Repeat(OpSchedule(cpu), n - 1);
    }
  }

  // On a fresh machine, a process made ready is eventually given a CPU if and only
  // if the policy is FIFO, round-robin or MLFQ.
  lemma ReadyLeadsToRunningIff(policy: Policy, cpus: nat, pid: nat, tid: nat, priority: nat)
    requires 1 <= cpus
    ensures var s := Ready(New(policy, cpus), pid, tid, priority);
      (exists n: nat :: Dispatched(s, Repeat(OpSchedule(0), n), pid)) <==> Queued(policy)
  {
    var s := Ready(New(policy, cpus), pid, tid, priority);
    if Queued(policy) {
      var n := Max(s.slice, 1);
      CallsOnRepeat(0, n);
      BoundedWaiting(s, Repeat(OpSchedule(0), n), 0, pid, 0);
    } else {
      forall n: nat
        ensures !Dispatched(s, Repeat(OpSchedule(0), n), pid)
      {
        PriorityNeverRuns(s, Repeat(OpSchedule(0), n), pid);
      }
    }
  }

  // ---------------------------------------------------------------------
  // The scheduler as an object
  // ---------------------------------------------------------------------

  class Scheduler {
    const policy: Policy
    const slice: nat
    var ready: seq<Entry>
    var prio: seq<Entry>
    var current: seq<Option<Task>>
    var ticks: seq<nat>
    var scheduled: nat
    var switches: nat

    function Model(): State
      reads this
    {
      State(policy, ready, prio, current, ticks, slice, scheduled, switches)
    }

    ghost predicate Valid()
      reads this
    {
      Model().Valid()
    }

    constructor (policy: Policy, cpus: nat)
      ensures Valid() && Model() == New(policy, cpus)
    {
      this.policy := policy;
      slice := TimeSlice(policy);
      ready, prio := [], [];
      current, ticks := seq(cpus, _ => None), seq(cpus, _ => 0);
      scheduled, switches := 0, 0;
    }

    method MakeReady(pid: nat, tid: nat, priority: nat)
      modifies this
      ensures Model() == Ready(old(Model()), pid, tid, priority)
    {
      var e := Entry(pid, tid, priority);
      match policy
      case FIFO | RoundRobin(_) | MLFQ =>
        ready := ready + [e];
      case Priority | SJF =>
        var i := 0;
        while i < |prio| && priority <= prio[i].priority
          invariant i <= InsertAt(prio, priority)
        {
          i := i + 1;
        }
        prio := prio[..i] + [e] + prio[i..];
    }

    method RemoveTask(pid: nat, tid: nat) returns (found: bool)
      requires Valid()
      modifies this
      ensures Valid() && (Model(), found) == Remove(old(Model()), pid, tid)
    {
      var t := Task(pid, tid);
      for c := 0 to |current|
        invariant |current| == |ticks| == |old(current)| && ready == old(ready) && prio == old(prio)
        invariant scheduled == old(scheduled) && switches == old(switches)
        invariant forall i :: 0 <= i < c ==> current[i] == ClearTask(old(current), t)[i]
        invariant forall i :: 0 <= i < c ==> ticks[i] == ClearTicks(old(current), old(ticks), t)[i]
        invariant forall i :: c <= i < |current| ==> current[i] == old(current)[i] && ticks[i] == old(ticks)[i]
      {
        if current[c] == Some(t) {
          current := current[c := None];
          ticks := ticks[c := 0];
        }
      }
      assert current == ClearTask(old(current), t) && ticks == ClearTicks(old(current), old(ticks), t);
      var i := 0;
      while i < |ready| && ready[i].AsTask() != t
        invariant i <= FindTask(ready, t)
      {
        i := i + 1;
      }
      if i < |ready| {
        ready := ready[..i] + ready[i + 1..];
        return true;
      }
      return false;
    }

    // The rotation: entries that must be skipped go to the back one by one.
    method DequeueNext(cpu: nat) returns (d: Decision)
      requires Valid() && cpu < |current|
      modifies this
      ensures Valid() && (Model(), d) == Dequeue(old(Model()), cpu)
    {
      hide State.BusyElsewhere;
      ghost var s, q := Model(), ready;
      var n := |ready|;
      for i := 0 to n
        invariant Model() == s.(ready := q[i..] + q[..i])
        invariant forall j :: 0 <= j < i ==> s.BusyElsewhere(q[j].pid, cpu)
      {
        Rotated(q, i);
        var e := ready[0];
        ready := ready[1..];
        SameBusy(s, Model(), e.pid, cpu);
        if Model().BusyElsewhere(e.pid, cpu) {
          ready := ready + [e];
        } else {
          assert FirstFree(s, q, cpu) == i;
          current := current[cpu := Some(e.AsTask())];
          ticks := ticks[cpu := 0];
          scheduled := scheduled + 1;
          switches := switches + 1;
          return Run(e.pid, e.tid);
        }
      }
      assert ready == q;
      current := current[cpu := None];
      return Idle;
    }

    method ScheduleOn(cpu: nat) returns (d: Decision)
      requires Valid() && cpu < |current|
      modifies this
      ensures Valid() && (Model(), d) == Schedule(old(Model()), cpu)
    {
      if current[cpu].Some? {
        var t := current[cpu].value;
        ticks := ticks[cpu := ticks[cpu] + 1];
        if ticks[cpu] < slice {
          return Run(t.pid, t.tid);
        }
        MakeReady(t.pid, t.tid, DEFAULT_PRIORITY);
        current := current[cpu := None];
        ticks := ticks[cpu := 0];
        assert ticks == old(ticks)[cpu := 0];
      }
      d := DequeueNext(cpu);
    }

    method YieldCurrent(cpu: nat) returns (d: Decision)
      requires Valid() && cpu < |current|
      modifies this
      ensures Valid() && (Model(), d) == Yield(old(Model()), cpu)
    {
      if current[cpu].Some? {
        var t := current[cpu].value;
        MakeReady(t.pid, t.tid, DEFAULT_PRIORITY);
        current := current[cpu := None];
        ticks := ticks[cpu := 0];
      }
      d := DequeueNext(cpu);
    }
  }
}
