// Physical frames: a queue of free frame numbers, an ownership table and the list of
// frames each process was given.
module Frames {
  import opened Prelude

  const FRAME_SIZE: nat := 4096

  datatype Frame = Frame(inUse: bool, owner: Option<nat>)

  const FREE_FRAME := Frame(false, None)

  // Frame `n` lies at address `n * FRAME_SIZE`.
  datatype State = State(
    frames: seq<Frame>,
    queue: seq<nat>,
    freeCount: int,
    allocatedCount: int,
    byProcess: map<nat, seq<nat>>)
  {
    // The frame numbers recorded for a process.
    function Listed(pid: nat): seq<nat> {
      if pid in byProcess then byProcess[pid] else []
    }
  }

  // The free queue holds exactly the free frames, each once, and the counters agree
  // with it.
  ghost predicate QueueOk(s: State) {
    && Distinct(s.queue)
    && (forall n :: n in s.queue ==> n < |s.frames|)
    && (forall n: nat :: n < |s.frames| ==> (s.frames[n] == FREE_FRAME <==> n in s.queue))
    && (forall n: nat :: n < |s.frames| ==> (s.frames[n].inUse <==> s.frames[n].owner.Some?))
    && s.freeCount == |s.queue|
    && s.allocatedCount == |s.frames| - |s.queue|
  }

  // Every frame in use is on its owner's list.
  ghost predicate Covered(s: State) {
    forall n: nat :: n < |s.frames| && s.frames[n].owner.Some? ==> n in s.Listed(s.frames[n].owner.value)
  }

  ghost predicate Inv(s: State) {
    QueueOk(s) && Covered(s)
  }

  // The lists hold nothing else, and nothing twice.
  ghost predicate ListsExact(s: State) {
    forall p :: p in s.byProcess ==>
      Distinct(s.byProcess[p])
      && forall n :: n in s.byProcess[p] ==> n < |s.frames| && s.frames[n].owner == Some(p)
  }

  // ---------------------------------------------------------------------
  // Operations on values
  // ---------------------------------------------------------------------

  function Boot(memorySize: nat): State {
    var n := memorySize / FRAME_SIZE;
    State(seq(n, _ => FREE_FRAME), seq(n, i => i), n, 0, map[])
  }

  function SetAll(frames: seq<Frame>, ns: seq<nat>, f: Frame): seq<Frame> {
    seq(|frames|, n requires 0 <= n < |frames| => if n in ns then f else frames[n])
  }

  function RemoveEach(list: seq<nat>, ns: seq<nat>): seq<nat> {
    if ns == [] then list else RemoveEach(RemoveFirst(list, ns[0]), ns[1..])
  }

  // All or nothing: either the first `count` frames of the queue, in order, or none.
  function AllocateFrames(s: State, pid: nat, count: nat): (State, seq<nat>) {
    if count == 0 then (s, [])
    else if count <= |s.queue| then
      var taken := s.queue[..count];
      (s.(frames := SetAll(s.frames, taken, Frame(true, Some(pid))),
          queue := s.queue[count..],
          freeCount := s.freeCount - count,
          allocatedCount := s.allocatedCount + count,
          byProcess := s.byProcess[pid := s.Listed(pid) + taken]),
       taken)
    else if s.queue == [] then (s, [])
    else
      (s.(byProcess := s.byProcess[pid := RemoveEach(s.Listed(pid) + s.queue, s.queue)]), [])
  }

  function Release(s: State, n: nat): (State, bool) {
    if n >= |s.frames| || !s.frames[n].inUse then (s, false)
    else
      (s.(frames := s.frames[n := FREE_FRAME], queue := s.queue + [n],
          freeCount := s.freeCount + 1, allocatedCount := s.allocatedCount - 1),
       true)
  }

  function Unlist(s: State, pid: nat, n: nat): State {
    if pid in s.byProcess then s.(byProcess := s.byProcess[pid := RemoveFirst(s.byProcess[pid], n)]) else s
  }

  function FreeFrame(s: State, pid: nat, n: nat): (State, bool) {
    Release(Unlist(s, pid, n), n)
  }

  // The frames among the first `k` that the process owns, in order.
  function OwnedBelow(frames: seq<Frame>, pid: nat, k: nat): seq<nat>
    requires k <= |frames|
  {
    if k == 0 then []
    else OwnedBelow(frames, pid, k - 1) + if frames[k - 1].owner == Some(pid) then [k - 1] else []
  }

  function FreeByOwner(s: State, pid: nat): (State, nat) {
    var owned := OwnedBelow(s.frames, pid, |s.frames|);
    (s.(frames := SetAll(s.frames, owned, FREE_FRAME),
        queue := s.queue + owned,
        freeCount := s.freeCount + |owned|,
        allocatedCount := s.allocatedCount - |owned|),
     |owned|)
  }

  function FreeProcessFrames(s: State, pid: nat): (State, nat) {
    var (s', n) := FreeByOwner(s, pid);
    (s'.(byProcess := s'.byProcess - {pid}), n)
  }

  // ---------------------------------------------------------------------
  // Every operation keeps the accounts
  // ---------------------------------------------------------------------

  lemma BootInv(memorySize: nat)
    ensures Inv(Boot(memorySize)) && ListsExact(Boot(memorySize))
  {
    var s := Boot(memorySize);
    forall n: nat | n < |s.frames|
      ensures n in s.queue
    {
      assert s.queue[n] == n;
    }
  }

  lemma SplitQueue(q: seq<nat>, count: nat)
    requires Distinct(q) && count <= |q|
    ensures forall n :: n in q <==> n in q[..count] || n in q[count..]
    ensures forall n :: n in q[..count] ==> n !in q[count..]
    ensures Distinct(q[count..]) && Distinct(q[..count])
  {
    assert q == q[..count] + q[count..];
  }

  lemma AllocateKeepsQueue(s: State, pid: nat, count: nat)
    requires QueueOk(s) && 0 < count <= |s.queue|
    ensures QueueOk(AllocateFrames(s, pid, count).0)
  {
    hide Distinct;
    var s' := AllocateFrames(s, pid, count).0;
    SplitQueue(s.queue, count);
    forall n: nat | n < |s.frames|
      ensures s'.frames[n] == FREE_FRAME <==> n in s'.queue
    {
      assert n in s.queue <==> n in s.queue[..count] || n in s.queue[count..];
    }
  }

  // A successful allocation hands out the frames that have been free longest, in order,
  // and changes no other frame.
  lemma AllocateSucceeds(s: State, pid: nat, count: nat)
    requires Inv(s) && count <= |s.queue|
    ensures var (s', ns) := AllocateFrames(s, pid, count);
      && Inv(s') && ns == s.queue[..count] && s'.queue == s.queue[count..] && Distinct(ns)
      && (forall n :: n in ns ==> n < |s.frames| && s.frames[n] == FREE_FRAME && s'.frames[n] == Frame(true, Some(pid)))
      && (forall n: nat :: n < |s.frames| && n !in ns ==> s'.frames[n] == s.frames[n])
      && (ListsExact(s) ==> ListsExact(s'))
  {
    var (s', ns) := AllocateFrames(s, pid, count);
    if count > 0 {
      AllocateKeepsQueue(s, pid, count);
      SplitQueue(s.queue, count);
      if ListsExact(s) {
        AllocateKeepsLists(s, pid, count);
      }
      hide Distinct;
      forall n: nat | n < |s.frames| && s'.frames[n].owner.Some?
        ensures n in s'.Listed(s'.frames[n].owner.value)
      {
        if n !in ns {
          assert n in s.Listed(s.frames[n].owner.value);
        }
      }
    }
  }

  lemma DistinctConcat(a: seq<nat>, b: seq<nat>)
    requires Distinct(a) && Distinct(b) && forall n :: n in a ==> n !in b
    ensures Distinct(a + b)
  {
    forall i, j | 0 <= i < j < |a + b|
      ensures (a + b)[i] != (a + b)[j]
    {
      if i < |a| <= j {
        assert a[i] in a && b[j - |a|] in b;
      }
    }
  }

  lemma AllocateKeepsLists(s: State, pid: nat, count: nat)
    requires Inv(s) && ListsExact(s) && 0 < count <= |s.queue|
    ensures ListsExact(AllocateFrames(s, pid, count).0)
  {
    var (s', ns) := AllocateFrames(s, pid, count);
    SplitQueue(s.queue, count);
    assert forall n :: n in s.Listed(pid) ==> n < |s.frames| && s.frames[n].owner == Some(pid);
    DistinctConcat(s.Listed(pid), ns);
    hide Distinct;
    forall p, n | p in s'.byProcess && n in s'.byProcess[p]
      ensures n < |s'.frames| && s'.frames[n].owner == Some(p)
    {
      assert p != pid ==> n in s.byProcess[p];
    }
  }

  lemma RemoveFromPrefix(l: seq<nat>, q: seq<nat>)
    requires q != [] && forall n :: n in q ==> n !in l
    ensures RemoveFirst(l + q, q[0]) == l + q[1..]
  {
    IndexIs(l + q, q[0], |l|);
    assert (l + q)[..|l|] == l;
  }

  lemma IndexIs(s: seq<nat>, x: nat, i: nat)
    requires i < |s| && s[i] == x && x !in s[..i]
    ensures IndexOf(s, x) == i
  {
    NotBefore(s, x, i);
    NotBefore(s, x, IndexOf(s, x));
  }

  lemma NotBefore(s: seq<nat>, x: nat, i: nat)
    requires i <= |s| && x !in s[..i]
    ensures forall k :: 0 <= k < i ==> s[k] != x
  {
    assert forall k :: 0 <= k < i ==> s[k] == s[..i][k];
  }

  lemma {:induction false} RemoveAppended(l: seq<nat>, q: seq<nat>)
    requires forall n :: n in q ==> n !in l
    ensures RemoveEach(l + q, q) == l
  {
    if q == [] {
      assert l + q == l;
    } else {
      RemoveFromPrefix(l, q);
      RemoveAppended(l, q[1..]);
    }
  }

  lemma {:induction false} RemoveEachMultiset(l: seq<nat>, ns: seq<nat>)
    ensures multiset(RemoveEach(l, ns)) == multiset(l) - multiset(ns)
  {
    if ns != [] {
      hide RemoveFirst;
      RemoveFirstMultiset(l, ns[0]);
      RemoveEachMultiset(RemoveFirst(l, ns[0]), ns[1..]);
      SplitFirst(ns);
      TakeInTurn(multiset(l), multiset{ns[0]}, multiset(ns[1..]));
    }
  }

  lemma SplitFirst(ns: seq<nat>)
    requires ns != []
    ensures multiset(ns) == multiset{ns[0]} + multiset(ns[1..])
  {
    assert ns == [ns[0]] + ns[1..];
  }

  lemma TakeInTurn(a: multiset<nat>, b: multiset<nat>, c: multiset<nat>)
    ensures (a - b) - c == a - (b + c)
  {
    forall n
      ensures ((a - b) - c)[n] == (a - (b + c))[n]
    {
    }
  }

  // Covering depends on the lists only up to order.
  lemma SameListsCovered(s: State, s': State)
    requires Covered(s)
    requires |s'.frames| == |s.frames|
    requires forall n: nat :: n < |s.frames| && s'.frames[n].owner.Some? ==>
      s'.frames[n] == s.frames[n]
      && multiset(s.Listed(s.frames[n].owner.value))[n] <= multiset(s'.Listed(s.frames[n].owner.value))[n]
    ensures Covered(s')
  {
    forall n: nat | n < |s.frames| && s'.frames[n].owner.Some?
      ensures n in s'.Listed(s'.frames[n].owner.value)
    {
      var p := s.frames[n].owner.value;
      assert n in s.Listed(p);
      assert n in multiset(s.Listed(p));
      assert n in multiset(s'.Listed(p));
    }
  }

  // A request that cannot be met leaves the free queue as the very same sequence and
  // every frame as it was; the requester's list keeps the same frames ...
  lemma AllocateFails(s: State, pid: nat, count: nat)
    requires Inv(s) && |s.queue| < count
    ensures var (s', ns) := AllocateFrames(s, pid, count);
      && ns == [] && Inv(s')
      && s'.queue == s.queue && s'.frames == s.frames
      && s'.freeCount == s.freeCount && s'.allocatedCount == s.allocatedCount
      && (forall p :: multiset(s'.Listed(p)) == multiset(s.Listed(p)))
  {
    if s.queue != [] {
      var l := s.Listed(pid);
      var l' := RemoveEach(l + s.queue, s.queue);
      RestoredListIsPermutation(l, s.queue);
      RelistCovers(s, pid, l');
      RelistKeepsQueue(s, pid, l');
    }
  }

  // ... and, when the lists are exact, is the very same list.
  lemma AllocateFailsExactly(s: State, pid: nat, count: nat)
    requires Inv(s) && |s.queue| < count && ListsExact(s)
    ensures var (s', _) := AllocateFrames(s, pid, count);
      ListsExact(s') && forall p :: s'.Listed(p) == s.Listed(p)
  {
    if s.queue != [] {
      RestoredListIsSame(s, pid);
      RelistKeepsLists(s, pid);
    }
  }

  lemma RestoredListIsPermutation(l: seq<nat>, q: seq<nat>)
    ensures multiset(RemoveEach(l + q, q)) == multiset(l)
  {
    RemoveEachMultiset(l + q, q);
  }

  lemma RelistKeepsQueue(s: State, pid: nat, l: seq<nat>)
    requires QueueOk(s)
    ensures QueueOk(s.(byProcess := s.byProcess[pid := l]))
  {
    hide Distinct;
  }

  lemma RelistCovers(s: State, pid: nat, l: seq<nat>)
    requires Covered(s) && multiset(l) == multiset(s.Listed(pid))
    ensures Covered(s.(byProcess := s.byProcess[pid := l]))
  {
    SameListsCovered(s, s.(byProcess := s.byProcess[pid := l]));
  }

  lemma RestoredListIsSame(s: State, pid: nat)
    requires Inv(s) && ListsExact(s)
    ensures RemoveEach(s.Listed(pid) + s.queue, s.queue) == s.Listed(pid)
  {
    hide Distinct;
    assert forall n :: n in s.Listed(pid) ==> n < |s.frames| && s.frames[n].owner == Some(pid);
    RemoveAppended(s.Listed(pid), s.queue);
  }

  lemma RelistKeepsLists(s: State, pid: nat)
    requires ListsExact(s)
    ensures ListsExact(s.(byProcess := s.byProcess[pid := s.Listed(pid)]))
  {
  }

  lemma UnlistCovers(s: State, pid: nat, n: nat)
    ensures forall p, m :: m != n ==> multiset(Unlist(s, pid, n).Listed(p))[m] == multiset(s.Listed(p))[m]
    ensures Unlist(s, pid, n).frames == s.frames && Unlist(s, pid, n).queue == s.queue
  {
    RemoveFirstMultiset(s.Listed(pid), n);
  }

  // Freeing a frame in use appends it to the free queue; freeing any other leaves frames,
  // queue and counts alone.
  lemma FreeKeepsInv(s: State, pid: nat, n: nat)
    requires Inv(s)
    ensures var (s', freed) := FreeFrame(s, pid, n);
      && Inv(s') && (freed <==> n < |s.frames| && s.frames[n] != FREE_FRAME)
      && (freed ==> s'.queue == s.queue + [n] && s'.frames == s.frames[n := FREE_FRAME])
      && (!freed ==> s' == s.(byProcess := s'.byProcess))
  {
    var s' := FreeFrame(s, pid, n).0;
    UnlistCovers(s, pid, n);
    SameListsCovered(s, s');
    if n < |s.frames| && s.frames[n].inUse {
      DistinctAppend(s.queue, n);
      hide Distinct;
      assert QueueOk(s');
    }
  }

  // The caller of `free_frame` names the frame's owner, or a frame that is not allocated.
  predicate NamesOwner(s: State, pid: nat, n: nat) {
    n >= |s.frames| || s.frames[n].owner == None || s.frames[n].owner == Some(pid)
  }

  // Freeing keeps the lists exact if and only if the owner is named.
  lemma FreeKeepsListsIff(s: State, pid: nat, n: nat)
    requires Inv(s) && ListsExact(s)
    ensures ListsExact(FreeFrame(s, pid, n).0) <==> NamesOwner(s, pid, n)
  {
    var s' := FreeFrame(s, pid, n).0;
    if pid in s.byProcess {
      RemoveFirstDistinct(s.byProcess[pid], n);
    }
    if !NamesOwner(s, pid, n) {
      var q := s.frames[n].owner.value;
      assert n in s'.byProcess[q] && s'.frames[n] == FREE_FRAME;
    }
  }

  lemma {:induction false} OwnedBelowSpec(frames: seq<Frame>, pid: nat, k: nat)
    requires k <= |frames|
    ensures Distinct(OwnedBelow(frames, pid, k))
    ensures forall n: nat :: n in OwnedBelow(frames, pid, k) <==> n < k && frames[n].owner == Some(pid)
  {
    if k > 0 {
      OwnedBelowSpec(frames, pid, k - 1);
    }
  }

  lemma AppendOwned(s: State, pid: nat)
    requires QueueOk(s)
    ensures Distinct(s.queue + OwnedBelow(s.frames, pid, |s.frames|))
  {
    OwnedBelowSpec(s.frames, pid, |s.frames|);
    var q, o := s.queue, OwnedBelow(s.frames, pid, |s.frames|);
    forall i, j | 0 <= i < j < |q + o|
      ensures (q + o)[i] != (q + o)[j]
    {
      if i < |q| <= j {
        assert q[i] in q && o[j - |q|] in o;
      }
    }
  }

  // Ending a process frees exactly its frames and forgets its list alone.
  lemma FreeAllKeepsInv(s: State, pid: nat)
    requires Inv(s)
    ensures Inv(FreeProcessFrames(s, pid).0)
    ensures pid !in FreeProcessFrames(s, pid).0.byProcess
    ensures forall p :: p != pid ==> FreeProcessFrames(s, pid).0.Listed(p) == s.Listed(p)
    ensures ListsExact(s) ==> ListsExact(FreeProcessFrames(s, pid).0)
    ensures forall n: nat :: n < |s.frames| ==>
      FreeProcessFrames(s, pid).0.frames[n] == if s.frames[n].owner == Some(pid) then FREE_FRAME else s.frames[n]
  {
    OwnedBelowSpec(s.frames, pid, |s.frames|);
    AppendOwned(s, pid);
    hide Distinct;
    var s' := FreeProcessFrames(s, pid).0;
    assert forall n: nat :: n < |s.frames| && s'.frames[n].owner.Some? ==>
      s.frames[n] == s'.frames[n] && n in s.Listed(s.frames[n].owner.value);
    assert forall p :: p != pid ==> s'.Listed(p) == s.Listed(p);
  }

  // ---------------------------------------------------------------------
  // Runs
  // ---------------------------------------------------------------------

  datatype Op = OpAllocate(pid: nat, count: nat) | OpFree(pid: nat, n: nat) | OpFreeAll(pid: nat)

  function Step(s: State, op: Op): State {
    match op
    case OpAllocate(p, c) => AllocateFrames(s, p, c).0
    case OpFree(p, n) => FreeFrame(s, p, n).0
    case OpFreeAll(p) => FreeProcessFrames(s, p).0
  }

  function Exec(s: State, ops: seq<Op>): State
    decreases ops
  {
    if ops == [] then s else Exec(Step(s, ops[0]), ops[1..])
  }

  // Every `free_frame` of the run names the owner.
  ghost predicate OwnersNamed(s: State, ops: seq<Op>)
    decreases ops
  {
    ops == [] ||
    ((ops[0].OpFree? ==> NamesOwner(s, ops[0].pid, ops[0].n)) && OwnersNamed(Step(s, ops[0]), ops[1..]))
  }

  lemma StepKeepsInv(s: State, op: Op)
    requires Inv(s)
    ensures Inv(Step(s, op))
    ensures ListsExact(s) && (op.OpFree? ==> NamesOwner(s, op.pid, op.n)) ==> ListsExact(Step(s, op))
  {
    match op
    case OpAllocate(p, c) =>
      if c <= |s.queue| {
        AllocateSucceeds(s, p, c);
      } else {
        AllocateFails(s, p, c);
        if ListsExact(s) { AllocateFailsExactly(s, p, c); }
      }
    case OpFree(p, n) =>
      FreeKeepsInv(s, p, n);
      if ListsExact(s) { FreeKeepsListsIff(s, p, n); }
    case OpFreeAll(p) =>
      FreeAllKeepsInv(s, p);
  }

  // Over every run from boot, whatever the callers ask for, the accounts are right;
  // the lists are exact as well when every free names the owner.
  lemma {:induction false} AccountsAlwaysRight(s: State, ops: seq<Op>)
    requires Inv(s)
    ensures Inv(Exec(s, ops))
    ensures Exec(s, ops).freeCount + Exec(s, ops).allocatedCount == |Exec(s, ops).frames|
    ensures ListsExact(s) && OwnersNamed(s, ops) ==> ListsExact(Exec(s, ops))
    decreases ops
  {
    if ops != [] {
      StepKeepsInv(s, ops[0]);
      AccountsAlwaysRight(Step(s, ops[0]), ops[1..]);
    }
  }

  // ---------------------------------------------------------------------
  // The manager as an object
  // ---------------------------------------------------------------------

  class PhysicalMemoryManager {
    var frames: seq<Frame>
    var queue: seq<nat>
    var freeCount: int
    var allocatedCount: int
    var byProcess: map<nat, seq<nat>>

    function Model(): State
      reads this
    {
      State(frames, queue, freeCount, allocatedCount, byProcess)
    }

    ghost predicate Valid()
      reads this
    {
      Inv(Model())
    }

    constructor (memorySize: nat)
      ensures Valid() && Model() == Boot(memorySize)
    {
      var total := memorySize / FRAME_SIZE;
      var fs: seq<Frame>, q: seq<nat> := [], [];
      for i := 0 to total
        invariant fs == seq(i, _ => FREE_FRAME) && q == seq(i, j => j)
      {
        fs, q := fs + [FREE_FRAME], q + [i];
      }
      frames, queue, freeCount, allocatedCount, byProcess := fs, q, total, 0, map[];
      new;
      BootInv(memorySize);
    }

    // FrameAllocator::allocate
    method Allocate(pid: nat) returns (r: Option<nat>)
      requires forall n :: n in queue ==> n < |frames|
      modifies this`frames, this`queue, this`freeCount, this`allocatedCount
      ensures old(queue) == [] ==> r == None && Model() == old(Model())
      ensures old(queue) != [] ==>
        (r == Some(old(queue)[0])
         && old(queue)[0] in old(queue)
         && frames == old(frames)[old(queue)[0] := Frame(true, Some(pid))] && queue == old(queue)[1..]
         && freeCount == old(freeCount) - 1 && allocatedCount == old(allocatedCount) + 1)
    {
      if |queue| == 0 {
        return None;
      }
      var n := queue[0];
      assert n in queue;
      queue := queue[1..];
      frames := frames[n := Frame(true, Some(pid))];
      freeCount, allocatedCount := freeCount - 1, allocatedCount + 1;
      return Some(n);
    }

    // FrameAllocator::free
    method ReleaseFrame(n: nat) returns (freed: bool)
      modifies this`frames, this`queue, this`freeCount, this`allocatedCount
      ensures (Model(), freed) == Release(old(Model()), n)
    {
      if n >= |frames| || !frames[n].inUse {
        return false;
      }
      frames := frames[n := FREE_FRAME];
      queue := queue + [n];
      freeCount, allocatedCount := freeCount + 1, allocatedCount - 1;
      return true;
    }

    method Free(pid: nat, n: nat) returns (freed: bool)
      modifies this
      ensures (Model(), freed) == FreeFrame(old(Model()), pid, n)
    {
      if pid in byProcess {
        byProcess := byProcess[pid := RemoveFirst(byProcess[pid], n)];
      }
      freed := ReleaseFrame(n);
    }

    // FrameAllocator::free_by_owner followed by forgetting the list.
    method FreeProcess(pid: nat) returns (freed: nat)
      modifies this
      ensures (Model(), freed) == FreeProcessFrames(old(Model()), pid)
    {
      freed := 0;
      ghost var owned := [];
      for n := 0 to |frames|
        invariant |frames| == |old(frames)| && owned == OwnedBelow(old(frames), pid, n) && freed == |owned|
        invariant queue == old(queue) + owned && byProcess == old(byProcess)
        invariant freeCount == old(freeCount) + freed && allocatedCount == old(allocatedCount) - freed
        invariant forall m :: 0 <= m < |frames| ==>
          frames[m] == if m < n && old(frames)[m].owner == Some(pid) then FREE_FRAME else old(frames)[m]
      {
        if frames[n].owner == Some(pid) {
          frames := frames[n := FREE_FRAME];
          queue := queue + [n];
          freeCount, allocatedCount := freeCount + 1, allocatedCount - 1;
          freed := freed + 1;
          owned := owned + [n];
        }
      }
      OwnedBelowSpec(old(frames), pid, |frames|);
      assert frames == SetAll(old(frames), owned, FREE_FRAME);
      byProcess := byProcess - {pid};
    }

    // Allocation with roll-back.
    method AllocateMany(pid: nat, count: nat) returns (taken: seq<nat>)
      requires Valid()
      modifies this
      ensures (Model(), taken) == AllocateFrames(old(Model()), pid, count)
    {
      hide AllocateFrames, Inv;
      ghost var s := Model();
      taken := [];
      AllocateShape(s, pid, 0);
      for i := 0 to count
        invariant i <= |s.queue| && taken == s.queue[..i] && Model() == AllocateFrames(s, pid, i).0
      {
        var r := AllocateListed(s, i, pid);
        if r.None? {
          RollBack(s, pid, taken);
          AllocateShape(s, pid, count);
          return [];
        }
        taken := taken + [r.value];
      }
      AllocateShape(s, pid, count);
    }

    // One more frame of a request, put on the process's list.
    method AllocateListed(ghost s: State, ghost i: nat, pid: nat) returns (r: Option<nat>)
      requires Inv(s) && i <= |s.queue| && Model() == AllocateFrames(s, pid, i).0
      modifies this
      ensures i < |s.queue| ==> r == Some(s.queue[i]) && Model() == AllocateFrames(s, pid, i + 1).0
      ensures i == |s.queue| ==> r == None && Model() == old(Model())
    {
      hide AllocateFrames, Covered;
      AllocateShape(s, pid, i);
      assert forall n :: n in queue ==> n in s.queue;
      r := Allocate(pid);
      if r.Some? {
        byProcess := byProcess[pid := (if pid in byProcess then byProcess[pid] else []) + [r.value]];
        AllocateNext(s, pid, i);
      }
    }

    method RollBack(ghost s: State, pid: nat, taken: seq<nat>)
      requires Inv(s) && taken == s.queue && Model() == AllocateFrames(s, pid, |taken|).0
      modifies this
      ensures Model() == AllocateFrames(s, pid, |taken| + 1).0
    {
      if taken == [] {
        return;
      }
      RolledBackEnds(s, pid);
      for j := 0 to |taken|
        invariant Model() == RolledBack(s, pid, j)
      {
        RolledBackNext(s, pid, j);
        var _ := Free(pid, taken[j]);
      }
    }
  }

  lemma AllocateShape(s: State, pid: nat, n: nat)
    ensures n == 0 ==> AllocateFrames(s, pid, n) == (s, [])
    ensures n <= |s.queue| ==>
      (AllocateFrames(s, pid, n).0.queue == s.queue[n..] && |AllocateFrames(s, pid, n).0.frames| == |s.frames|
       && AllocateFrames(s, pid, n).1 == s.queue[..n])
    ensures n > |s.queue| ==> AllocateFrames(s, pid, n) == (AllocateFrames(s, pid, |s.queue| + 1).0, [])
  {
    assert s.queue[0..] == s.queue;
    hide RemoveEach;
  }

  lemma AllocateNext(s: State, pid: nat, i: nat)
    requires i < |s.queue|
    ensures var a := AllocateFrames(s, pid, i).0;
      var n := s.queue[i];
      AllocateFrames(s, pid, i + 1).0
      == State(if n < |a.frames| then a.frames[n := Frame(true, Some(pid))] else a.frames,
               s.queue[i..][1..], a.freeCount - 1, a.allocatedCount + 1, a.byProcess[pid := a.Listed(pid) + [n]])
  {
    var a, b := AllocateFrames(s, pid, i).0, AllocateFrames(s, pid, i + 1).0;
    var n := s.queue[i];
    assert s.queue[..i + 1] == s.queue[..i] + [n];
    assert s.Listed(pid) + s.queue[..i + 1] == s.Listed(pid) + s.queue[..i] + [n];
    assert s.queue[i..][1..] == s.queue[i + 1..];
    assert s.Listed(pid) + s.queue[..0] == s.Listed(pid);
    assert b.byProcess == a.byProcess[pid := a.Listed(pid) + [n]];
    assert b.frames == if n < |a.frames| then a.frames[n := Frame(true, Some(pid))] else a.frames;
  }

  // The state half-way through a roll-back, `j` frames given back.
  function RolledBack(s: State, pid: nat, j: nat): State
    requires j <= |s.queue|
  {
    s.(frames := SetAll(s.frames, s.queue[j..], Frame(true, Some(pid))),
       queue := s.queue[..j],
       freeCount := s.freeCount - |s.queue| + j,
       allocatedCount := s.allocatedCount + |s.queue| - j,
       byProcess := s.byProcess[pid := RemoveEach(s.Listed(pid) + s.queue, s.queue[..j])])
  }

  lemma RolledBackEnds(s: State, pid: nat)
    requires s.queue != []
    ensures RolledBack(s, pid, 0) == AllocateFrames(s, pid, |s.queue|).0
    ensures RolledBack(s, pid, |s.queue|) == AllocateFrames(s, pid, |s.queue| + 1).0
  {
    assert s.queue[..|s.queue|] == s.queue == s.queue[0..];
    assert SetAll(s.frames, [], Frame(true, Some(pid))) == s.frames;
  }

  lemma RolledBackNext(s: State, pid: nat, j: nat)
    requires QueueOk(s) && j < |s.queue|
    ensures FreeFrame(RolledBack(s, pid, j), pid, s.queue[j]).0 == RolledBack(s, pid, j + 1)
  {
    hide Distinct, SetAll, RemoveFirst, RemoveEach, QueueOk;
    var n := s.queue[j];
    FreeInQueue(s, n);
    SetAllSize(s.frames, s.queue[j..], Frame(true, Some(pid)));
    RestoreOne(s.frames, s.queue, j, Frame(true, Some(pid)));
    assert s.queue[..j] + [n] == s.queue[..j + 1];
    RemoveEachLast(s.Listed(pid) + s.queue, s.queue[..j], n);
    var r, r' := RolledBack(s, pid, j), RolledBack(s, pid, j + 1);
    assert r'.byProcess == r.byProcess[pid := RemoveFirst(r.byProcess[pid], n)];
  }

  lemma SetAllSize(frames: seq<Frame>, ns: seq<nat>, f: Frame)
    ensures |SetAll(frames, ns, f)| == |frames|
  {
  }

  lemma FreeInQueue(s: State, n: nat)
    requires QueueOk(s) && n in s.queue
    ensures n < |s.frames| && s.frames[n] == FREE_FRAME && Distinct(s.queue)
  {
    hide Distinct;
  }

  lemma RestoreOne(frames: seq<Frame>, q: seq<nat>, j: nat, f: Frame)
    requires Distinct(q) && j < |q| && q[j] < |frames| && frames[q[j]] == FREE_FRAME
    ensures SetAll(frames, q[j..], f)[q[j]] == f
    ensures SetAll(frames, q[j..], f)[q[j] := FREE_FRAME] == SetAll(frames, q[j + 1..], f)
  {
    assert q[j..] == [q[j]] + q[j + 1..];
    assert q[j] !in q[j + 1..];
  }

  lemma {:induction false} RemoveEachLast(l: seq<nat>, ns: seq<nat>, n: nat)
    ensures RemoveEach(l, ns + [n]) == RemoveFirst(RemoveEach(l, ns), n)
  {
    if ns == [] {
      assert ns + [n] == [n];
    } else {
      RemoveEachLast(RemoveFirst(l, ns[0]), ns[1..], n);
      assert (ns + [n])[1..] == ns[1..] + [n];
    }
  }
}
