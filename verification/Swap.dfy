// Swap space: page-sized slots on a disk, eight sectors each.
module Swap {
  import opened Prelude
  import opened Disk

  const SECTORS_PER_SLOT: nat := 8
  const PAGE_SIZE: nat := 4096

  datatype Slot = Slot(occupied: bool, owner: Option<nat>, vpn: Option<nat>)

  const FREE_SLOT := Slot(false, None, None)

  datatype State = State(
    slots: seq<Slot>,
    queue: seq<nat>,
    byProcess: map<nat, seq<nat>>,
    usedSlots: int,
    enabled: bool)
  {
    function Listed(pid: nat): seq<nat> {
      if pid in byProcess then byProcess[pid] else []
    }
  }

  // ---------------------------------------------------------------------
  // Slot accounting
  // ---------------------------------------------------------------------

  ghost predicate QueueOk(s: State) {
    && Distinct(s.queue)
    && (forall n :: n in s.queue ==> n < |s.slots|)
    && (forall n: nat :: n < |s.slots| ==> (s.slots[n] == FREE_SLOT <==> n in s.queue))
    && (forall n: nat :: n < |s.slots| ==> (s.slots[n].occupied <==> s.slots[n].owner.Some?))
    && (forall n: nat :: n < |s.slots| ==> (s.slots[n].occupied <==> s.slots[n].vpn.Some?))
    && s.usedSlots == |s.slots| - |s.queue|
  }

  // The list of process `p` tells the truth about slot `n`.
  ghost predicate ListedIff(s: State, p: nat, n: nat) {
    n in s.Listed(p) <==> n < |s.slots| && s.slots[n].owner == Some(p)
  }

  // A process's list holds exactly the slots it occupies, each once.
  ghost predicate ListsExact(s: State) {
    && (forall p :: p in s.byProcess ==> Distinct(s.byProcess[p]))
    && (forall p: nat, n: nat :: ListedIff(s, p, n))
  }

  ghost predicate Inv(s: State) {
    QueueOk(s) && ListsExact(s)
  }

  function Boot(totalSize: nat): State {
    var n := totalSize / PAGE_SIZE;
    State(seq(n, _ => FREE_SLOT), seq(n, i => i), map[], 0, true)
  }

  function Allocate(s: State, pid: nat, vpn: nat): (State, Option<nat>) {
    if !s.enabled || s.queue == [] || s.queue[0] >= |s.slots| then (s, None)
    else
      var n := s.queue[0];
      (s.(slots := s.slots[n := Slot(true, Some(pid), Some(vpn))],
          queue := s.queue[1..],
          byProcess := s.byProcess[pid := s.Listed(pid) + [n]],
          usedSlots := s.usedSlots + 1),
       Some(n))
  }

  function Release(s: State, n: nat): (State, bool) {
    if n >= |s.slots| || !s.slots[n].occupied || s.slots[n].owner.None? then (s, false)
    else
      var p := s.slots[n].owner.value;
      (s.(slots := s.slots[n := FREE_SLOT],
          byProcess := if p in s.byProcess then s.byProcess[p := RemoveFirst(s.byProcess[p], n)] else s.byProcess,
          queue := s.queue + [n],
          usedSlots := s.usedSlots - 1),
       true)
  }

  function ReleaseAll(s: State, ns: seq<nat>): (State, nat) {
    if ns == [] then (s, 0)
    else
      var (s1, k) := ReleaseAll(s, ns[..|ns| - 1]);
      var (s2, freed) := Release(s1, ns[|ns| - 1]);
      (s2, if freed then k + 1 else k)
  }

  function FreeProcess(s: State, pid: nat): (State, nat) {
    if pid in s.byProcess then ReleaseAll(s.(byProcess := s.byProcess - {pid}), s.byProcess[pid]) else (s, 0)
  }

  lemma BootInv(totalSize: nat)
    ensures Inv(Boot(totalSize))
  {
    var s := Boot(totalSize);
    forall n: nat | n < |s.slots|
      ensures n in s.queue
    {
      assert s.queue[n] == n;
    }
  }

  lemma TailDistinct(q: seq<nat>)
    requires Distinct(q) && q != []
    ensures Distinct(q[1..]) && q[0] !in q[1..]
    ensures forall n :: n in q <==> n == q[0] || n in q[1..]
  {
    assert q == [q[0]] + q[1..];
  }

  lemma AllocateKeepsQueue(s: State, pid: nat, vpn: nat)
    requires QueueOk(s)
    ensures QueueOk(Allocate(s, pid, vpn).0)
  {
    if s.queue != [] {
      assert s.queue[0] in s.queue;
      TailDistinct(s.queue);
    }
    hide Distinct;
  }

  lemma AllocateKeepsLists(s: State, pid: nat, vpn: nat)
    requires QueueOk(s) && ListsExact(s)
    ensures ListsExact(Allocate(s, pid, vpn).0)
  {
    var s' := Allocate(s, pid, vpn).0;
    if s' != s {
      var n := s.queue[0];
      assert n in s.queue;
      assert s.slots[n].owner.None?;
      assert ListedIff(s, pid, n);
      DistinctAppend(s.Listed(pid), n);
      forall p: nat, m: nat
        ensures ListedIff(s', p, m)
      {
        assert ListedIff(s, p, m);
      }
    }
  }

  // Allocating takes the slot that has been free longest, marks it with the page and
  // touches no other slot.
  lemma AllocateKeepsInv(s: State, pid: nat, vpn: nat)
    requires Inv(s)
    ensures var (s', r) := Allocate(s, pid, vpn);
      && Inv(s')
      && (r.Some? <==> s.enabled && s.queue != [])
      && (r.None? ==> s' == s)
      && (r.Some? ==>
            && r.value < |s.slots| && s.slots[r.value] == FREE_SLOT
            && s'.slots == s.slots[r.value := Slot(true, Some(pid), Some(vpn))])
  {
    hide Distinct, ListsExact;
    AllocateKeepsQueue(s, pid, vpn);
    AllocateKeepsLists(s, pid, vpn);
    if s.queue != [] {
      assert s.queue[0] in s.queue;
    }
  }

  lemma ReleaseKeepsQueue(s: State, n: nat)
    requires QueueOk(s) && n < |s.slots| && s.slots[n].occupied
    ensures QueueOk(Release(s, n).0)
  {
    var s' := Release(s, n).0;
    assert n !in s.queue;
    DistinctAppend(s.queue, n);
    forall m: nat | m < |s.slots|
      ensures s'.slots[m] == FREE_SLOT <==> m in s'.queue
    {
    }
  }

  lemma ReleaseKeepsInv(s: State, n: nat)
    requires Inv(s)
    ensures var (s', freed) := Release(s, n);
      && Inv(s')
      && (freed <==> n < |s.slots| && s.slots[n].occupied)
      && s'.slots == if freed then s.slots[n := FREE_SLOT] else s.slots
  {
    if n < |s.slots| && s.slots[n].occupied {
      ReleaseKeepsQueue(s, n);
      ReleaseKeepsLists(s, n);
    }
  }

  lemma ReleaseKeepsLists(s: State, n: nat)
    requires ListsExact(s) && n < |s.slots| && s.slots[n].occupied && s.slots[n].owner.Some?
    ensures ListsExact(Release(s, n).0)
  {
    var p, s' := s.slots[n].owner.value, Release(s, n).0;
    assert ListedIff(s, p, n);
    RemoveFirstDistinct(s.byProcess[p], n);
    forall q: nat, m: nat
      ensures ListedIff(s', q, m)
    {
      assert ListedIff(s, q, m);
    }
  }

  // While the list of a process is being worked off, the other lists stay exact and
  // the process has no list.
  ghost predicate Draining(s: State, pid: nat, rest: seq<nat>) {
    && QueueOk(s) && pid !in s.byProcess && Distinct(rest)
    && (forall p :: p in s.byProcess ==> Distinct(s.byProcess[p]))
    && (forall p: nat, n: nat :: p != pid ==> ListedIff(s, p, n))
    && (forall n: nat :: n in rest <==> n < |s.slots| && s.slots[n].owner == Some(pid))
  }

  lemma DrainStep(s: State, pid: nat, rest: seq<nat>)
    requires Draining(s, pid, rest) && rest != []
    ensures Release(s, rest[0]).1 && rest[0] < |s.slots|
    ensures Draining(Release(s, rest[0]).0, pid, rest[1..])
    ensures Release(s, rest[0]).0.slots == s.slots[rest[0] := FREE_SLOT]
  {
    var n := rest[0];
    assert n in rest;
    TailDistinct(rest);
    ReleaseKeepsQueue(s, n);
    var s' := Release(s, n).0;
    forall q: nat, m: nat | q != pid
      ensures ListedIff(s', q, m)
    {
      assert ListedIff(s, q, m);
    }
  }

  lemma {:induction false} DrainAll(s: State, pid: nat, all: seq<nat>, k: nat)
    requires Draining(s, pid, all) && k <= |all|
    ensures var (s', freed) := ReleaseAll(s, all[..k]);
      && Draining(s', pid, all[k..]) && freed == k && |s'.slots| == |s.slots|
      && forall n: nat :: n < |s.slots| ==> s'.slots[n] == if n in all[..k] then FREE_SLOT else s.slots[n]
  {
    hide Draining, Release;
    if k == 0 {
      assert all[0..] == all;
    } else {
      DrainAll(s, pid, all, k - 1);
      var (s1, _) := ReleaseAll(s, all[..k - 1]);
      assert all[..k][..k - 1] == all[..k - 1];
      assert all[k - 1..][1..] == all[k..];
      DrainStep(s1, pid, all[k - 1..]);
      assert all[..k] == all[..k - 1] + [all[k - 1]];
      assert ReleaseAll(s, all[..k]).0.slots == s1.slots[all[k - 1] := FREE_SLOT];
    }
  }

  lemma StartDraining(s: State, pid: nat)
    requires Inv(s) && pid in s.byProcess
    ensures Draining(s.(byProcess := s.byProcess - {pid}), pid, s.byProcess[pid])
  {
    var s' := s.(byProcess := s.byProcess - {pid});
    forall p: nat, n: nat | p != pid
      ensures ListedIff(s', p, n)
    {
      assert ListedIff(s, p, n);
    }
    forall n: nat
      ensures n in s.byProcess[pid] <==> n < |s.slots| && s.slots[n].owner == Some(pid)
    {
      assert ListedIff(s, pid, n);
    }
  }

  lemma Drained(s: State, pid: nat)
    requires Draining(s, pid, [])
    ensures Inv(s)
  {
    forall p: nat, n: nat
      ensures ListedIff(s, p, n)
    {
      assert p == pid ==> s.Listed(p) == [];
    }
  }

  // Ending a process frees exactly its slots.
  lemma FreeProcessKeepsInv(s: State, pid: nat)
    requires Inv(s)
    ensures var (s', freed) := FreeProcess(s, pid);
      && Inv(s') && freed == |s.Listed(pid)| && |s'.slots| == |s.slots|
      && forall n: nat :: n < |s.slots| ==>
           s'.slots[n] == if s.slots[n].owner == Some(pid) then FREE_SLOT else s.slots[n]
  {
    if pid in s.byProcess {
      var all := s.byProcess[pid];
      StartDraining(s, pid);
      DrainAll(s.(byProcess := s.byProcess - {pid}), pid, all, |all|);
      assert all[..|all|] == all;
      Drained(FreeProcess(s, pid).0, pid);
    }
    forall n: nat | n < |s.slots|
      ensures n in s.Listed(pid) <==> s.slots[n].owner == Some(pid)
    {
      assert ListedIff(s, pid, n);
    }
  }

  datatype Op = OpAllocate(pid: nat, vpn: nat) | OpFree(n: nat) | OpFreeProcess(pid: nat) | OpEnable(on: bool)

  function Step(s: State, op: Op): State {
    match op
    case OpAllocate(p, v) => Allocate(s, p, v).0
    case OpFree(n) => Release(s, n).0
    case OpFreeProcess(p) => FreeProcess(s, p).0
    case OpEnable(on) => s.(enabled := on)
  }

  function Exec(s: State, ops: seq<Op>): State
    decreases ops
  {
    if ops == [] then s else Exec(Step(s, ops[0]), ops[1..])
  }

  // In every reachable state each process's list is exactly the set of slots it occupies.
  lemma {:induction false} SlotsAlwaysRight(s: State, ops: seq<Op>)
    requires Inv(s)
    ensures Inv(Exec(s, ops))
    decreases ops
  {
    if ops != [] {
      hide Inv, Step;
      StepKeepsInv(s, ops[0]);
      SlotsAlwaysRight(Step(s, ops[0]), ops[1..]);
    }
  }

  lemma StepKeepsInv(s: State, op: Op)
    requires Inv(s)
    ensures Inv(Step(s, op))
  {
    hide Inv, Allocate, Release, FreeProcess;
    match op
    case OpAllocate(p, v) => AllocateKeepsInv(s, p, v);
    case OpFree(n) => ReleaseKeepsInv(s, n);
    case OpFreeProcess(p) => FreeProcessKeepsInv(s, p);
    case OpEnable(on) => EnableKeepsInv(s, on);
  }

  lemma EnableKeepsInv(s: State, on: bool)
    requires Inv(s)
    ensures Inv(s.(enabled := on))
  {
    SameSlots(s, s.(enabled := on));
  }

  lemma SameSlots(s: State, t: State)
    requires QueueOk(s) && ListsExact(s)
    requires t.slots == s.slots && t.queue == s.queue && t.byProcess == s.byProcess && t.usedSlots == s.usedSlots
    ensures QueueOk(t) && ListsExact(t)
  {
    forall p: nat, n: nat
      ensures ListedIff(t, p, n)
    {
      assert ListedIff(s, p, n);
    }
  }

  // ---------------------------------------------------------------------
  // Slot contents
  // ---------------------------------------------------------------------

  predicate OnDisk(d: DiskState, slot: nat) {
    SECTORS_PER_SLOT * slot + SECTORS_PER_SLOT <= d.total
  }

  function SlotBytes(d: DiskState, slot: nat): (page: seq<byte>)
    requires d.Valid() && OnDisk(d, slot)
    ensures |page| == PAGE_SIZE
  {
    ReadRun(d, SECTORS_PER_SLOT * slot, SECTORS_PER_SLOT)
  }

  // The sectors of the slot that the disk has are written in order; the first missing
  // one is an error.
  function SwapOut(d: DiskState, slot: nat, data: seq<byte>): (DiskState, bool)
    requires d.Valid()
  {
    var start := SECTORS_PER_SLOT * slot;
    (WriteRun(d, start, data, Max(0, Min(SECTORS_PER_SLOT, d.total - start))), OnDisk(d, slot))
  }

  lemma SwapOutKeepsValid(d: DiskState, slot: nat, data: seq<byte>)
    requires d.Valid()
    ensures SwapOut(d, slot, data).0.Valid() && SwapOut(d, slot, data).0.total == d.total
    ensures SwapOut(d, slot, data).0.bitmap == d.bitmap
  {
  }

  // A page written to a slot is read back unchanged.
  lemma SwapRoundTrip(d: DiskState, slot: nat, data: seq<byte>)
    requires d.Valid() && OnDisk(d, slot) && |data| == PAGE_SIZE
    ensures SlotBytes(SwapOut(d, slot, data).0, slot) == data
  {
    RunRoundTrip(d, SECTORS_PER_SLOT * slot, data, SECTORS_PER_SLOT);
  }

  // Writing a slot, successfully or not, changes no other slot.
  lemma SwapFrame(d: DiskState, slot: nat, data: seq<byte>, other: nat)
    requires d.Valid() && OnDisk(d, other) && other != slot
    ensures SlotBytes(SwapOut(d, slot, data).0, other) == SlotBytes(d, other)
  {
    RunFrame(d, SwapOut(d, slot, data).0, SECTORS_PER_SLOT * other, SECTORS_PER_SLOT);
  }

  // ---------------------------------------------------------------------
  // The manager as an object
  // ---------------------------------------------------------------------

  class SwapManager {
    var slots: seq<Slot>
    var queue: seq<nat>
    var byProcess: map<nat, seq<nat>>
    var usedSlots: int
    var enabled: bool
    const disk: VirtualDisk

    function Model(): State
      reads this
    {
      State(slots, queue, byProcess, usedSlots, enabled)
    }

    ghost predicate Valid()
      reads this, disk
    {
      Inv(Model()) && disk.Valid()
    }

    constructor (totalSize: nat, disk: VirtualDisk)
      requires disk.Valid()
      ensures Valid() && Model() == Boot(totalSize) && this.disk == disk
    {
      var total := totalSize / PAGE_SIZE;
      var ss: seq<Slot>, q: seq<nat> := [], [];
      for i := 0 to total
        invariant ss == seq(i, _ => FREE_SLOT) && q == seq(i, j => j)
      {
        ss, q := ss + [FREE_SLOT], q + [i];
      }
      slots, queue, byProcess, usedSlots, enabled := ss, q, map[], 0, true;
      this.disk := disk;
      new;
      BootInv(totalSize);
    }

    method AllocateSlot(pid: nat, vpn: nat) returns (r: Option<nat>)
      requires Valid()
      modifies this
      ensures Valid() && (Model(), r) == Allocate(old(Model()), pid, vpn)
    {
      AllocateKeepsInv(Model(), pid, vpn);
      if !enabled || |queue| == 0 {
        return None;
      }
      var n := queue[0];
      assert n in queue;
      queue := queue[1..];
      slots := slots[n := Slot(true, Some(pid), Some(vpn))];
      byProcess := byProcess[pid := (if pid in byProcess then byProcess[pid] else []) + [n]];
      usedSlots := usedSlots + 1;
      return Some(n);
    }

    method FreeSlot(n: nat) returns (freed: bool)
      modifies this
      requires n < |slots| && slots[n].occupied ==> slots[n].owner.Some?
      ensures (Model(), freed) == Release(old(Model()), n)
    {
      hide RemoveFirst;
      if n >= |slots| || !slots[n].occupied {
        return false;
      }
      var p := slots[n].owner.value;
      slots := slots[n := FREE_SLOT];
      if p in byProcess {
        byProcess := byProcess[p := RemoveFirst(byProcess[p], n)];
      }
      queue := queue + [n];
      usedSlots := usedSlots - 1;
      return true;
    }

    method FreeProcessSlots(pid: nat) returns (freed: nat)
      requires Valid()
      modifies this
      ensures Valid() && (Model(), freed) == FreeProcess(old(Model()), pid)
    {
      hide Release, Distinct, RemoveFirst, ListedIff, Draining;
      FreeProcessKeepsInv(Model(), pid);
      freed := 0;
      if pid !in byProcess {
        return;
      }
      StartDraining(Model(), pid);
      var list := byProcess[pid];
      byProcess := byProcess - {pid};
      ghost var s := Model();
      assert Draining(s, pid, list);
      for i := 0 to |list|
        invariant (Model(), freed) == ReleaseAll(s, list[..i])
      {
        DrainAll(s, pid, list, i);
        assert list[..i + 1][..i] == list[..i];
        var ok := FreeSlot(list[i]);
        if ok {
          freed := freed + 1;
        }
      }
      assert list[..|list|] == list;
    }

    method WriteSlot(slot: nat, data: seq<byte>) returns (ok: bool)
      requires Valid()
      modifies disk
      ensures Valid() && (disk.Model(), ok) == SwapOut(old(disk.Model()), slot, data)
    {
      ghost var d := disk.Model();
      var start := SECTORS_PER_SLOT * slot;
      WriteRunNone(d, start, data);
      for i := 0 to SECTORS_PER_SLOT
        invariant disk.Valid() && (i == 0 || start + i <= d.total)
        invariant disk.Model() == WriteRun(d, start, data, i)
      {
        if start + i < d.total {
          WriteRunNext(d, start, data, i);
        }
        var r := disk.WriteSector(start + i, SectorOf(data, i));
        if r.Err? {
          return false;
        }
      }
      return true;
    }

    method ReadSlot(slot: nat) returns (r: Option<seq<byte>>)
      requires Valid()
      ensures r == if OnDisk(disk.Model(), slot) then Some(SlotBytes(disk.Model(), slot)) else None
    {
      var start := SECTORS_PER_SLOT * slot;
      var data: seq<byte> := [];
      for i := 0 to SECTORS_PER_SLOT
        invariant start + i <= Max(start, disk.total)
        invariant i > 0 ==> start + i <= disk.total && data == ReadRun(disk.Model(), start, i)
        invariant i == 0 ==> data == []
      {
        var s := disk.ReadSector(start + i);
        if s.Err? {
          return None;
        }
        ReadRunNext(disk.Model(), start, i);
        if i == 0 {
          assert ReadRun(disk.Model(), start, 0) == [];
        }
        data := data + s.value;
      }
      return Some(data);
    }
  }
}
