// Counting semaphores built on compare-and-exchange loops.
module Semaphores {
  import opened Prelude

  const U32_MAX: nat := 0xFFFF_FFFF

  datatype Call = Wait | TryWait | Signal

  datatype SemResult = Acquired | Released | WouldBlock | Invalid | Overflow

  // ---------------------------------------------------------------------
  // The sequential object
  // ---------------------------------------------------------------------

  // `saturating_add(1)`
  function Successor(v: nat): nat {
    if v >= U32_MAX then U32_MAX else v + 1
  }

  // The answer that a value alone decides: nothing to take, or no room to give back.
  function Decided(call: Call, v: nat, max: nat): Option<SemResult> {
    if call.Signal? then
      if Successor(v) > max then Some(Overflow) else None
    else if v == 0 then Some(WouldBlock)
    else None
  }

  function Done(call: Call): SemResult {
    if call.Signal? then Released else Acquired
  }

  function Updated(call: Call, v: nat): nat
    requires !call.Signal? ==> v > 0
  {
    if call.Signal? then Successor(v) else v - 1
  }

  // One operation, all at once.
  function Apply(call: Call, v: nat, max: nat): (nat, SemResult) {
    match Decided(call, v, max)
    case Some(r) => (v, r)
    case None => (Updated(call, v), Done(call))
  }

  // ---------------------------------------------------------------------
  // Threads, one atomic step at a time
  // ---------------------------------------------------------------------

  // A call checks the semaphore, loads the value, and then tries to exchange it; every
  // failed try leaves it with a fresh value.
  datatype Phase = Idle | Entered(call: Call) | Checked(call: Call) | Trying(call: Call, current: nat)

  datatype Entry = Entry(tid: nat, call: Call, result: SemResult)

  // `log` lists the operations in the order in which they take effect, `answers` in the
  // order in which their calls return.
  datatype Machine = Machine(
    value: nat,
    max: nat,
    valid: bool,
    phases: map<nat, Phase>,
    log: seq<Entry>,
    answers: seq<Entry>)

  datatype Event =
    | Begin(tid: nat, call: Call)
    | Check(tid: nat)
    | LoadValue(tid: nat)
    | Attempt(tid: nat, spurious: bool)
    | Invalidate

  function PhaseOf(m: Machine, tid: nat): Phase {
    if tid in m.phases then m.phases[tid] else Idle
  }

  // Read the value; when it decides the answer, this is where the call takes effect.
  function Observe(m: Machine, tid: nat, call: Call): Machine {
    m.(phases := m.phases[tid := Trying(call, m.value)],
       log := m.log + match Decided(call, m.value, m.max) case Some(r) => [Entry(tid, call, r)] case None => [])
  }

  function Return(m: Machine, tid: nat, call: Call, r: SemResult): Machine {
    m.(phases := m.phases[tid := Idle], answers := m.answers + [Entry(tid, call, r)])
  }

  function Exchange(m: Machine, tid: nat, call: Call, current: nat, spurious: bool): Machine {
    match Decided(call, current, m.max)
    case Some(r) => Return(m, tid, call, r)
    case None =>
      if m.value == current && !spurious then
        Return(m.(value := Updated(call, current), log := m.log + [Entry(tid, call, Done(call))]), tid, call, Done(call))
      else Observe(m, tid, call)
  }

  function Step(m: Machine, e: Event): Machine {
    match e
    case Begin(tid, call) => if PhaseOf(m, tid).Idle? then m.(phases := m.phases[tid := Entered(call)]) else m
    case Check(tid) =>
      (match PhaseOf(m, tid)
       case Entered(call) =>
         if m.valid then m.(phases := m.phases[tid := Checked(call)])
         else Return(m.(log := m.log + [Entry(tid, call, Invalid)]), tid, call, Invalid)
       case _ => m)
    case LoadValue(tid) =>
      (match PhaseOf(m, tid)
       case Checked(call) => Observe(m, tid, call)
       case _ => m)
    case Attempt(tid, spurious) =>
      (match PhaseOf(m, tid)
       case Trying(call, current) => Exchange(m, tid, call, current, spurious)
       case _ => m)
    case Invalidate => m.(valid := false)
  }

  function Exec(m: Machine, es: seq<Event>): Machine
    decreases |es|
  {
    if es == [] then m else Exec(Step(m, es[0]), es[1..])
  }

  // ---------------------------------------------------------------------
  // Linearizability
  // ---------------------------------------------------------------------

  // The value after doing the logged operations one after another, provided each gives
  // the logged answer.  A call refused as invalid does nothing.
  function Replay(v: nat, max: nat, log: seq<Entry>): Option<nat>
    decreases |log|
  {
    if log == [] then Some(v)
    else
      var last := log[|log| - 1];
      match Replay(v, max, log[..|log| - 1])
      case None => None
      case Some(w) =>
        if last.result.Invalid? then Some(w)
        else if Apply(last.call, w, max).1 == last.result then Some(Apply(last.call, w, max).0)
        else None
  }

  function OfThread(es: seq<Entry>, tid: nat): seq<Entry>
    decreases |es|
  {
    if es == [] then []
    else
      var last := es[|es| - 1];
      OfThread(es[..|es| - 1], tid) + if last.tid == tid then [last] else []
  }

  // The call that has taken effect in this thread and not returned yet.
  function InFlight(m: Machine, tid: nat): seq<Entry> {
    match PhaseOf(m, tid)
    case Trying(call, current) =>
      (match Decided(call, current, m.max)
       case Some(r) => [Entry(tid, call, r)]
       case None => [])
    case _ => []
  }

  // The log replays to the value, and every thread's calls return in the order and with
  // the answers in which they took effect.
  ghost predicate Linear(m: Machine, v0: nat) {
    && Replay(v0, m.max, m.log) == Some(m.value)
    && forall tid: nat :: OfThread(m.log, tid) == OfThread(m.answers, tid) + InFlight(m, tid)
  }

  lemma ReplayAppend(v: nat, max: nat, log: seq<Entry>, e: Entry)
    ensures Replay(v, max, log + [e]) ==
      match Replay(v, max, log)
      case None => None
      case Some(w) =>
        if e.result.Invalid? then Some(w)
        else if Apply(e.call, w, max).1 == e.result then Some(Apply(e.call, w, max).0)
        else None
  {
    assert (log + [e])[..|log|] == log;
  }

  lemma OfThreadAppend(es: seq<Entry>, e: Entry, tid: nat)
    ensures OfThread(es + [e], tid) == OfThread(es, tid) + if e.tid == tid then [e] else []
  {
    assert (es + [e])[..|es|] == es;
  }

  lemma ObserveLinear(m: Machine, v0: nat, tid: nat, call: Call)
    requires Linear(m, v0) && InFlight(m, tid) == []
    ensures Linear(Observe(m, tid, call), v0)
  {
    hide OfThread, Replay;
    var m' := Observe(m, tid, call);
    var d := Decided(call, m.value, m.max);
    if d.Some? {
      ReplayAppend(v0, m.max, m.log, Entry(tid, call, d.value));
    } else {
      assert m.log + [] == m.log;
    }
    forall t: nat
      ensures OfThread(m'.log, t) == OfThread(m'.answers, t) + InFlight(m', t)
    {
      if d.Some? {
        OfThreadAppend(m.log, Entry(tid, call, d.value), t);
      }
      assert OfThread(m.answers, t) + [] == OfThread(m.answers, t);
      assert t != tid ==> InFlight(m', t) == InFlight(m, t);
    }
  }

  // Returning what has already taken effect.
  lemma ReturnLinear(m: Machine, v0: nat, tid: nat, call: Call, r: SemResult)
    requires Linear(m, v0) && InFlight(m, tid) == [Entry(tid, call, r)]
    ensures Linear(Return(m, tid, call, r), v0)
  {
    hide OfThread, Replay;
    var m' := Return(m, tid, call, r);
    forall t: nat
      ensures OfThread(m'.log, t) == OfThread(m'.answers, t) + InFlight(m', t)
    {
      OfThreadAppend(m.answers, Entry(tid, call, r), t);
      assert t != tid ==> InFlight(m', t) == InFlight(m, t);
    }
  }

  // Taking effect and returning in one step.
  lemma CommitLinear(m: Machine, v0: nat, tid: nat, call: Call, r: SemResult, v: nat)
    requires Linear(m, v0) && InFlight(m, tid) == []
    requires if r.Invalid? then v == m.value else Apply(call, m.value, m.max) == (v, r)
    ensures Linear(Return(m.(value := v, log := m.log + [Entry(tid, call, r)]), tid, call, r), v0)
  {
    hide OfThread, Replay;
    var e := Entry(tid, call, r);
    var m' := Return(m.(value := v, log := m.log + [e]), tid, call, r);
    ReplayAppend(v0, m.max, m.log, e);
    forall t: nat
      ensures OfThread(m'.log, t) == OfThread(m'.answers, t) + InFlight(m', t)
    {
      OfThreadAppend(m.log, e, t);
      OfThreadAppend(m.answers, e, t);
      assert t != tid ==> InFlight(m', t) == InFlight(m, t);
      assert OfThread(m.answers, t) + [] == OfThread(m.answers, t);
    }
  }

  // A step that neither reads nor writes the value.
  lemma PhaseLinear(m: Machine, v0: nat, tid: nat, p: Phase)
    requires Linear(m, v0) && InFlight(m, tid) == [] && !p.Trying?
    ensures Linear(m.(phases := m.phases[tid := p]), v0)
  {
    hide OfThread, Replay;
    var m' := m.(phases := m.phases[tid := p]);
    forall t: nat
      ensures OfThread(m'.log, t) == OfThread(m'.answers, t) + InFlight(m', t)
    {
      assert t != tid ==> InFlight(m', t) == InFlight(m, t);
    }
  }

  lemma StepLinear(m: Machine, v0: nat, e: Event)
    requires Linear(m, v0)
    ensures Linear(Step(m, e), v0) && Step(m, e).max == m.max
  {
    hide Linear, Exchange, Observe, Return;
    match e
    case Begin(tid, call) =>
      if PhaseOf(m, tid).Idle? {
        PhaseLinear(m, v0, tid, Entered(call));
      }
    case Check(tid) =>
      if PhaseOf(m, tid).Entered? {
        var call := PhaseOf(m, tid).call;
        if m.valid {
          PhaseLinear(m, v0, tid, Checked(call));
        } else {
          CommitLinear(m, v0, tid, call, Invalid, m.value);
          SameMax(m.(log := m.log + [Entry(tid, call, Invalid)]), tid, call, Invalid);
        }
      }
    case LoadValue(tid) =>
      if PhaseOf(m, tid).Checked? {
        ObserveLinear(m, v0, tid, PhaseOf(m, tid).call);
        SameMax(m, tid, PhaseOf(m, tid).call, Invalid);
      }
    case Attempt(tid, spurious) =>
      if PhaseOf(m, tid).Trying? {
        ExchangeLinear(m, v0, tid, PhaseOf(m, tid).call, PhaseOf(m, tid).current, spurious);
      }
    case Invalidate =>
      DestroyedLinear(m, v0);
  }

  lemma SameMax(m: Machine, tid: nat, call: Call, r: SemResult)
    ensures Observe(m, tid, call).max == m.max && Return(m, tid, call, r).max == m.max
  {
  }

  lemma ExchangeLinear(m: Machine, v0: nat, tid: nat, call: Call, current: nat, spurious: bool)
    requires Linear(m, v0) && PhaseOf(m, tid) == Trying(call, current)
    ensures Linear(Exchange(m, tid, call, current, spurious), v0) && Exchange(m, tid, call, current, spurious).max == m.max
  {
    hide Linear;
    var d := Decided(call, current, m.max);
    if d.Some? {
      ReturnLinear(m, v0, tid, call, d.value);
    } else if m.value == current && !spurious {
      CommitLinear(m, v0, tid, call, Done(call), Updated(call, current));
    } else {
      ObserveLinear(m, v0, tid, call);
    }
  }

  lemma DestroyedLinear(m: Machine, v0: nat)
    requires Linear(m, v0)
    ensures Linear(m.(valid := false), v0)
  {
    hide OfThread, Replay;
    assert forall t: nat :: InFlight(m.(valid := false), t) == InFlight(m, t);
  }

  function NewMachine(v0: nat, max: nat): Machine {
    Machine(v0, max, true, map[], [], [])
  }

  // Over every interleaving of any number of threads, spurious failures included, the
  // calls are indistinguishable from the same calls made one after another.
  lemma {:induction false} RunLinear(m: Machine, v0: nat, es: seq<Event>)
    requires Linear(m, v0)
    ensures Linear(Exec(m, es), v0) && Exec(m, es).max == m.max
    decreases |es|
  {
    if es != [] {
      hide Linear, Step;
      StepLinear(m, v0, es[0]);
      RunLinear(Step(m, es[0]), v0, es[1..]);
    }
  }

  // ---------------------------------------------------------------------
  // Destruction
  // ---------------------------------------------------------------------

  // A call that has passed the check and whose answer is still open.
  predicate LetIn(p: Phase, max: nat) {
    p.Checked? || (p.Trying? && Decided(p.call, p.current, max).None?)
  }

  ghost predicate NobodyLetIn(m: Machine) {
    forall tid :: tid in m.phases ==> !LetIn(m.phases[tid], m.max)
  }

  // From `m` to `n` nothing took effect but refusals.
  ghost predicate OnlyRefusals(m: Machine, n: Machine) {
    && n.value == m.value && |m.log| <= |n.log| && n.log[..|m.log|] == m.log
    && forall k :: |m.log| <= k < |n.log| ==> n.log[k].result.Invalid?
  }

  lemma RefusedStep(m: Machine, e: Event)
    requires !m.valid && NobodyLetIn(m)
    ensures var n := Step(m, e); !n.valid && NobodyLetIn(n) && OnlyRefusals(m, n)
  {
  }

  lemma {:induction false} RefusedRun(m: Machine, es: seq<Event>)
    requires !m.valid && NobodyLetIn(m)
    ensures OnlyRefusals(m, Exec(m, es))
    decreases |es|
  {
    if es != [] {
      hide Step, NobodyLetIn;
      RefusedStep(m, es[0]);
      RefusedRun(Step(m, es[0]), es[1..]);
    }
  }

  lemma ExecTwo(m: Machine, a: Event, b: Event)
    ensures Exec(m, [a, b]) == Step(Step(m, a), b)
  {
    hide Step;
    assert [a, b][1..] == [b] && [b][1..] == [];
    assert Exec(Step(m, a), [b]) == Step(Step(m, a), b);
  }

  // A call that was let in takes effect in its next step, or in the one after.
  lemma LetInTakesEffect(m: Machine, tid: nat)
    requires tid in m.phases && LetIn(m.phases[tid], m.max)
    ensures exists es :: !OnlyRefusals(m, Exec(m, es))
  {
    var a := if m.phases[tid].Checked? then LoadValue(tid) else Attempt(tid, false);
    var b := Attempt(tid, false);
    ExecTwo(m, a, b);
    var n := Step(Step(m, a), b);
    assert |n.log| > |m.log| && !n.log[|m.log|].result.Invalid?;
    assert !OnlyRefusals(m, Exec(m, [a, b]));
  }

  // A destroyed semaphore gives and takes nothing any more, whatever is called afterwards,
  // if and only if no call was past its check when it was destroyed.
  lemma DestroyedIsFinalIff(m: Machine)
    ensures var d := Step(m, Invalidate);
      (forall es :: OnlyRefusals(d, Exec(d, es))) <==> NobodyLetIn(m)
  {
    var d := Step(m, Invalidate);
    if NobodyLetIn(m) {
      forall es
        ensures OnlyRefusals(d, Exec(d, es))
      {
        RefusedRun(d, es);
      }
    } else {
      var tid :| tid in m.phases && LetIn(m.phases[tid], m.max);
      LetInTakesEffect(d, tid);
    }
  }

  // ---------------------------------------------------------------------
  // Counting
  // ---------------------------------------------------------------------

  function Count(es: seq<Entry>, r: SemResult): nat
    decreases |es|
  {
    if es == [] then 0 else Count(es[..|es| - 1], r) + if es[|es| - 1].result == r then 1 else 0
  }

  // Releases at the largest value there is, which change nothing.
  function Saturated(v: nat, max: nat, log: seq<Entry>): nat
    decreases |log|
  {
    if log == [] then 0
    else
      var before := log[..|log| - 1];
      Saturated(v, max, before)
      + if log[|log| - 1].result.Released? && Replay(v, max, before) == Some(U32_MAX) then 1 else 0
  }

  // Value and takings balance what there was and what was given back, but for the
  // releases that saturated.
  lemma {:induction false} ReplayCounts(v: nat, max: nat, log: seq<Entry>)
    requires Replay(v, max, log).Some? && v <= U32_MAX
    ensures Replay(v, max, log).value + Count(log, Acquired) + Saturated(v, max, log) == v + Count(log, Released)
    ensures Replay(v, max, log).value <= U32_MAX
    ensures v <= max ==> Replay(v, max, log).value <= max
    ensures max < U32_MAX && v <= max ==> Saturated(v, max, log) == 0
    decreases |log|
  {
    if log != [] {
      ReplayCounts(v, max, log[..|log| - 1]);
    }
  }

  lemma CountAppend(es: seq<Entry>, e: Entry, r: SemResult)
    ensures Count(es + [e], r) == Count(es, r) + if e.result == r then 1 else 0
  {
    assert (es + [e])[..|es|] == es;
  }

  // Calls that take or give return in the step in which they take effect.
  ghost predicate Tallied(m: Machine) {
    Count(m.log, Acquired) == Count(m.answers, Acquired) && Count(m.log, Released) == Count(m.answers, Released)
  }

  lemma ReturnTallied(m: Machine, tid: nat, call: Call, r: SemResult, v: nat)
    requires Tallied(m)
    ensures Tallied(Return(m.(value := v, log := m.log + [Entry(tid, call, r)]), tid, call, r))
    ensures !r.Acquired? && !r.Released? ==> Tallied(Return(m, tid, call, r)) && Tallied(m.(log := m.log + [Entry(tid, call, r)]))
  {
    hide Count;
    var e := Entry(tid, call, r);
    CountAppend(m.log, e, Acquired);
    CountAppend(m.log, e, Released);
    CountAppend(m.answers, e, Acquired);
    CountAppend(m.answers, e, Released);
  }

  lemma ObserveTallied(m: Machine, tid: nat, call: Call)
    requires Tallied(m)
    ensures Tallied(Observe(m, tid, call))
  {
    hide Count;
    var d := Decided(call, m.value, m.max);
    if d.Some? {
      ReturnTallied(m, tid, call, d.value, m.value);
    } else {
      assert m.log + [] == m.log;
    }
  }

  lemma StepTallied(m: Machine, e: Event)
    requires Tallied(m)
    ensures Tallied(Step(m, e))
  {
    hide Count;
    match e
    case Check(tid) =>
      if PhaseOf(m, tid).Entered? {
        ReturnTallied(m, tid, PhaseOf(m, tid).call, Invalid, m.value);
      }
    case LoadValue(tid) =>
      if PhaseOf(m, tid).Checked? {
        ObserveTallied(m, tid, PhaseOf(m, tid).call);
      }
    case Attempt(tid, spurious) =>
      if PhaseOf(m, tid).Trying? {
        var (call, current) := (PhaseOf(m, tid).call, PhaseOf(m, tid).current);
        var d := Decided(call, current, m.max);
        if d.Some? {
          ReturnTallied(m, tid, call, d.value, m.value);
        } else if m.value == current {
          ReturnTallied(m, tid, call, Done(call), Updated(call, current));
        }
        ObserveTallied(m, tid, call);
      }
    case _ =>
  }

  lemma {:induction false} RunTallied(m: Machine, es: seq<Event>)
    requires Tallied(m)
    ensures Tallied(Exec(m, es))
    decreases |es|
  {
    if es != [] {
      hide Tallied, Step;
      StepTallied(m, es[0]);
      RunTallied(Step(m, es[0]), es[1..]);
    }
  }

  lemma NewIsLinear(v0: nat, max: nat)
    ensures Linear(NewMachine(v0, max), v0) && Tallied(NewMachine(v0, max))
  {
  }

  // At every moment of every interleaving: value plus calls answered `Acquired` equals
  // the initial value plus calls answered `Released`, less the releases that saturated;
  // a bound below the largest 32-bit number is never exceeded, and then none saturate.
  lemma CountingLaw(v0: nat, max: nat, es: seq<Event>)
    requires v0 <= max <= U32_MAX
    ensures var m := Exec(NewMachine(v0, max), es);
      && m.value <= max
      && m.value + Count(m.answers, Acquired) + Saturated(v0, max, m.log) == v0 + Count(m.answers, Released)
      && (max < U32_MAX ==> m.value + Count(m.answers, Acquired) == v0 + Count(m.answers, Released))
  {
    hide Count, Saturated, Replay, OfThread, Exec;
    NewIsLinear(v0, max);
    RunLinear(NewMachine(v0, max), v0, es);
    RunTallied(NewMachine(v0, max), es);
    ReplayCounts(v0, max, Exec(NewMachine(v0, max), es).log);
  }

  // Without a bound of its own a semaphore can be full of releases: the next one answers
  // `Released` and is forgotten.
  lemma SaturatedRelease()
    ensures var m := Exec(NewMachine(U32_MAX, U32_MAX), [Begin(0, Signal), Check(0), LoadValue(0), Attempt(0, false)]);
      m.answers == [Entry(0, Signal, Released)] && m.value == U32_MAX
  {
    var m0 := NewMachine(U32_MAX, U32_MAX);
    var es := [Begin(0, Signal), Check(0), LoadValue(0), Attempt(0, false)];
    var m1 := Step(m0, es[0]);
    var m2 := Step(m1, es[1]);
    var m3 := Step(m2, es[2]);
    var m4 := Step(m3, es[3]);
    assert es[1..][0] == es[1] && es[1..][1..] == es[2..] && es[2..][0] == es[2] && es[2..][1..] == es[3..];
    assert es[3..][0] == es[3] && es[3..][1..] == [];
    assert Exec(m3, es[3..]) == m4;
    assert Exec(m2, es[2..]) == m4;
    assert Exec(m1, es[1..]) == m4;
  }

  // ---------------------------------------------------------------------
  // One thread at a time
  // ---------------------------------------------------------------------

  class Semaphore {
    var value: nat
    const initialValue: nat
    const maxValue: nat
    var valid: bool

    constructor (initial: nat)
      ensures value == initial && initialValue == initial && maxValue == U32_MAX && valid
    {
      value, initialValue, maxValue, valid := initial, initial, U32_MAX, true;
    }

    // The first value is brought under the bound; the one to reset to is not.
    constructor WithMax(initial: nat, max: nat)
      ensures value == Min(initial, max) && initialValue == initial && maxValue == max && valid
    {
      value, initialValue, maxValue, valid := Min(initial, max), initial, max, true;
    }

    // `spurious` exchanges fail for no reason before one is decided by the value.
    method TakeOne(call: Call, spurious: nat) returns (r: SemResult)
      requires !call.Signal?
      modifies this`value
      ensures !valid ==> r == Invalid && value == old(value)
      ensures valid ==> (value, r) == Apply(call, old(value), maxValue)
    {
      if !valid {
        return Invalid;
      }
      var current, failures := value, spurious;
      while true
        invariant value == old(value) == current
        decreases failures
      {
        if current == 0 {
          return WouldBlock;
        }
        if failures > 0 {
          failures := failures - 1;
          current := value;
        } else {
          value := current - 1;
          return Acquired;
        }
      }
    }

    method GiveOne(spurious: nat) returns (r: SemResult)
      modifies this`value
      ensures !valid ==> r == Invalid && value == old(value)
      ensures valid ==> (value, r) == Apply(Signal, old(value), maxValue)
    {
      if !valid {
        return Invalid;
      }
      var current, failures := value, spurious;
      while true
        invariant value == old(value) == current
        decreases failures
      {
        var next := if current >= U32_MAX then U32_MAX else current + 1;
        if next > maxValue {
          return Overflow;
        }
        if failures > 0 {
          failures := failures - 1;
          current := value;
        } else {
          value := next;
          return Released;
        }
      }
    }

    // A reset keeps the bound if and only if the initial value did.
    method Reset() returns (done: bool)
      modifies this`value
      ensures done == valid && value == if valid then initialValue else old(value)
      ensures done ==> (value <= maxValue <==> initialValue <= maxValue)
    {
      if !valid {
        return false;
      }
      value := initialValue;
      return true;
    }

    method Destroy()
      modifies this`valid
      ensures !valid
    {
      valid := false;
    }
  }
}
