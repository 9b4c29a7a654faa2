// The memory service: serving a page fault by swapping in, by handing out a free
// frame, or by evicting some page first.
module PageFaults {
  import opened Prelude
  import opened AddressSpace
  import opened Disk
  import Frames
  import Swap
  import opened Mmu

  datatype State = Kernel(
    frames: Frames.State,
    swap: Swap.State,
    disk: DiskState,
    mmu: Mmu.State,
    swapped: map<PageId, nat>)

  datatype Reply = Mapped(paddr: nat) | Exhausted

  // ---------------------------------------------------------------------
  // The invariant
  // ---------------------------------------------------------------------

  // Present pages sit in frames that belong to their process.
  ghost predicate FramesOwned(k: State) {
    && Frames.Inv(k.frames)
    && PAGE_SIZE * |k.frames.frames| <= |k.mmu.mem|
    && forall p :: p in k.mmu.tables ==>
         var n := k.mmu.tables[p].frame / PAGE_SIZE;
         n < |k.frames.frames| && k.frames.frames[n] == Frames.Frame(true, Some(p.pid))
  }

  // Swapped pages sit in slots that are marked with them.
  ghost predicate SlotsOwned(k: State) {
    && Swap.Inv(k.swap) && k.disk.Valid()
    && forall p :: p in k.swapped ==>
         && p.vaddr % PAGE_SIZE == 0
         && Swap.OnDisk(k.disk, k.swapped[p])
         && k.swapped[p] < |k.swap.slots|
         && k.swap.slots[k.swapped[p]] == Swap.Slot(true, Some(p.pid), Some(p.vaddr / PAGE_SIZE))
  }

  ghost predicate Inv(k: State) {
    TableOk(k.mmu) && FramesOwned(k) && SlotsOwned(k)
  }

  // No page is both present and swapped out.  Not every fault keeps this.
  ghost predicate OnePlaceEach(k: State) {
    forall p :: p in k.mmu.tables ==> p !in k.swapped
  }

  // What a process finds in a page, wherever it is: the flat memory all this machinery
  // implements.
  ghost function Lookup(k: State, p: PageId): Option<seq<byte>> {
    if p in k.mmu.tables then
      var f := k.mmu.tables[p].frame;
      if f + PAGE_SIZE <= |k.mmu.mem| then Some(k.mmu.mem[f..f + PAGE_SIZE]) else None
    else if p in k.swapped && k.disk.Valid() && Swap.OnDisk(k.disk, k.swapped[p]) then
      Some(Swap.SlotBytes(k.disk, k.swapped[p]))
    else None
  }

  ghost predicate SameMemory(k: State, k': State) {
    forall p :: Lookup(k', p) == Lookup(k, p)
  }

  lemma LookupKnown(k: State, p: PageId)
    requires Inv(k)
    ensures Lookup(k, p).Some? <==> p in k.mmu.tables || p in k.swapped
    ensures p in k.mmu.tables ==> Lookup(k, p) == Some(PageBytes(k.mmu, p))
  {
  }

  // ---------------------------------------------------------------------
  // The handler on values
  // ---------------------------------------------------------------------

  function FillPage(mem: seq<byte>, f: nat, data: Page): seq<byte>
    requires f + PAGE_SIZE <= |mem|
  {
    mem[..f] + data + mem[f + PAGE_SIZE..]
  }

  function ByteOrZero(r: Result<byte, MmuError>): byte {
    if r.Ok? then r.value else 0
  }

  // The first `n` bytes of a page, read one by one, with 0 for a byte that cannot be read.
  function ReadBytes(s: Mmu.State, pid: nat, vaddr: nat, n: nat): (r: seq<byte>)
    ensures |r| == n
  {
    if n == 0 then [] else ReadBytes(s, pid, vaddr, n - 1) + [ByteOrZero(ReadU8(s, pid, vaddr + n - 1))]
  }

  function PageImage(s: Mmu.State, pid: nat, vaddr: nat): Page {
    ReadBytes(s, pid, vaddr, PAGE_SIZE)
  }

  // Map the page to the first free frame, whose old bytes stay in place.
  function Fresh(k: State, p: PageId): State
    requires k.frames.queue != []
  {
    k.(frames := Frames.AllocateFrames(k.frames, p.pid, 1).0,
       mmu := MapPage(k.mmu, p.pid, p.vaddr, k.frames.queue[0] * PAGE_SIZE, true))
  }

  function SwapIn(k: State, p: PageId): State
    requires k.frames.queue != [] && k.frames.queue[0] * PAGE_SIZE + PAGE_SIZE <= |k.mmu.mem|
    requires p in k.swapped && k.disk.Valid() && Swap.OnDisk(k.disk, k.swapped[p])
  {
    var k1 := Fresh(k, p);
    k1.(mmu := k1.mmu.(mem := FillPage(k.mmu.mem, k.frames.queue[0] * PAGE_SIZE, Swap.SlotBytes(k.disk, k.swapped[p]))),
        swapped := k.swapped - {p},
        swap := Swap.Release(k.swap, k.swapped[p]).0)
  }

  // A page of another process if there is one, otherwise any page.
  function FindVictim(order: seq<PageId>, exclude: nat): Option<PageId> {
    if order == [] then None
    else if order[0].pid != exclude then Some(order[0])
    else match FindVictim(order[1..], exclude)
      case Some(v) => if v.pid != exclude then Some(v) else Some(order[0])
      case None => Some(order[0])
  }

  // The bytes of the frame that is handed out next.
  ghost function FirstFree(k: State): (r: Option<seq<byte>>)
    requires k.frames.queue != [] && k.frames.queue[0] * PAGE_SIZE + PAGE_SIZE <= |k.mmu.mem|
    ensures r.Some? && |r.value| == PAGE_SIZE
  {
    var f := k.frames.queue[0] * PAGE_SIZE;
    Some(k.mmu.mem[f..f + PAGE_SIZE])
  }

  // Write the page to a fresh slot.  A slot that turns out to lie beyond the disk stays
  // marked as used.
  function Store(k: State, v: PageId): (State, Option<nat>)
    requires k.disk.Valid()
  {
    match Swap.Allocate(k.swap, v.pid, v.vaddr / PAGE_SIZE)
    case (_, None) => (k, None)
    case (swap, Some(slot)) =>
      var (disk, ok) := Swap.SwapOut(k.disk, slot, PageImage(k.mmu, v.pid, v.vaddr));
      (k.(swap := swap, disk := disk), if ok then Some(slot) else None)
  }

  // Take the frame away from a page that has been stored.
  function Relocate(k: State, v: PageId, slot: nat): State
    requires v in k.mmu.tables
  {
    k.(frames := Frames.FreeFrame(k.frames, v.pid, k.mmu.tables[v].frame / PAGE_SIZE).0,
       mmu := UnmapPage(k.mmu, v.pid, v.vaddr),
       swapped := k.swapped[v := slot])
  }

  function Evict(k: State, v: PageId): (State, bool)
    requires v in k.mmu.tables && k.disk.Valid()
  {
    match Store(k, v)
    case (k1, None) => (k1, false)
    case (k1, Some(slot)) => (Relocate(k1, v, slot), true)
  }

  // `order` is the order in which the tables happen to enumerate the present pages.
  function Fault(k: State, pid: nat, addr: nat, order: seq<PageId>): (State, Reply)
    requires Inv(k) && forall v :: v in order ==> v in k.mmu.tables
  {
    var p := PageOf(pid, addr);
    if k.frames.queue != [] then
      assert k.frames.queue[0] in k.frames.queue;
      (if p in k.swapped then SwapIn(k, p) else Fresh(k, p), Mapped(k.frames.queue[0] * PAGE_SIZE))
    else
      match FindVictim(order, pid)
      case None => (k, Exhausted)
      case Some(v) =>
        VictimListed(order, pid);
        var (k1, ok) := Evict(k, v);
        if ok && k1.frames.queue != [] then (Fresh(k1, p), Mapped(k1.frames.queue[0] * PAGE_SIZE))
        else (k1, Exhausted)
  }

  // The victim is a listed page; it belongs to the faulting process only when every
  // listed page does.
  lemma VictimListed(order: seq<PageId>, exclude: nat)
    ensures var v := FindVictim(order, exclude);
      && (v.None? <==> order == [])
      && (v.Some? ==> v.value in order)
      && (v.Some? && v.value.pid == exclude ==> forall q :: q in order ==> q.pid == exclude)
  {
    if order != [] {
      VictimListed(order[1..], exclude);
      assert order == [order[0]] + order[1..];
    }
  }

  // ---------------------------------------------------------------------
  // Handing out a frame
  // ---------------------------------------------------------------------

  lemma FrameBounds(k: State, n: nat)
    requires FramesOwned(k) && n < |k.frames.frames|
    ensures n * PAGE_SIZE + PAGE_SIZE <= |k.mmu.mem|
  {
  }

  // The frame handed out is nobody's: no present page sits in it.
  lemma FreshFrameUnused(k: State)
    requires TableOk(k.mmu) && FramesOwned(k) && k.frames.queue != []
    ensures k.frames.queue[0] < |k.frames.frames|
    ensures forall q :: q in k.mmu.tables ==> k.mmu.tables[q].frame != k.frames.queue[0] * PAGE_SIZE
  {
    var n := k.frames.queue[0];
    assert n in k.frames.queue;
    forall q | q in k.mmu.tables
      ensures k.mmu.tables[q].frame != n * PAGE_SIZE
    {
      assert k.frames.frames[k.mmu.tables[q].frame / PAGE_SIZE] != Frames.FREE_FRAME;
    }
  }

  lemma FreshTable(k: State, p: PageId)
    requires TableOk(k.mmu) && FramesOwned(k) && k.frames.queue != [] && p.vaddr % PAGE_SIZE == 0
    ensures var k' := Fresh(k, p);
      && TableOk(k'.mmu) && k'.mmu.mem == k.mmu.mem && p in k'.mmu.tables
      && k'.mmu.tables[p].frame == k.frames.queue[0] * PAGE_SIZE
      && k'.mmu.tables.Keys == k.mmu.tables.Keys + {p}
      && forall q :: q in k.mmu.tables && q != p ==> k'.mmu.tables[q] == k.mmu.tables[q]
  {
    hide FramesOwned, Frames.AllocateFrames;
    FreshFrameUnused(k);
    FrameBounds(k, k.frames.queue[0]);
    AlignUnique(p.vaddr, p.vaddr);
    var a := k.frames.queue[0] * PAGE_SIZE;
    AlignUnique(a, a);
  }

  lemma FreshOwned(k: State, p: PageId)
    requires TableOk(k.mmu) && FramesOwned(k) && k.frames.queue != [] && p.vaddr % PAGE_SIZE == 0
    ensures FramesOwned(Fresh(k, p))
  {
    FreshFrameUnused(k);
    Frames.AllocateSucceeds(k.frames, p.pid, 1);
    FreshTable(k, p);
    var k' := Fresh(k, p);
    assert Frames.AllocateFrames(k.frames, p.pid, 1).1 == [k.frames.queue[0]];
    hide Frames.Inv, Frames.AllocateFrames;
    forall q | q in k'.mmu.tables
      ensures var n := k'.mmu.tables[q].frame / PAGE_SIZE;
        n < |k'.frames.frames| && k'.frames.frames[n] == Frames.Frame(true, Some(q.pid))
    {
      if q != p {
        var n := k.mmu.tables[q].frame / PAGE_SIZE;
        assert k.mmu.tables[q].frame == n * PAGE_SIZE;
        assert n !in [k.frames.queue[0]];
      }
    }
  }

  lemma FreshKeepsInv(k: State, p: PageId)
    requires Inv(k) && k.frames.queue != [] && p.vaddr % PAGE_SIZE == 0
    ensures Inv(Fresh(k, p))
  {
    FreshTable(k, p);
    FreshOwned(k, p);
    SameSlots(k, Fresh(k, p));
    hide TableOk, FramesOwned, SlotsOwned, Fresh;
  }

  // Fresh shows a page whatever the first free frame holds and moves no other page.
  lemma FreshLookup(k: State, p: PageId, q: PageId)
    requires Inv(k) && k.frames.queue != [] && p.vaddr % PAGE_SIZE == 0
    ensures k.frames.queue[0] * PAGE_SIZE + PAGE_SIZE <= |k.mmu.mem|
    ensures Lookup(Fresh(k, p), q) == if q == p then FirstFree(k) else Lookup(k, q)
  {
    hide TableOk, FramesOwned, SlotsOwned, Fresh, Frames.AllocateFrames;
    FreshFrameUnused(k);
    FrameBounds(k, k.frames.queue[0]);
    FreshTable(k, p);
    FreshParts(k, p);
    if q == p {
      LookupPresent(Fresh(k, p), p);
    } else {
      SameLookup(k, Fresh(k, p), q);
    }
  }

  lemma FreshParts(k: State, p: PageId)
    requires k.frames.queue != []
    ensures var k' := Fresh(k, p);
      k'.swap == k.swap && k'.disk == k.disk && k'.swapped == k.swapped && k'.frames.queue == k.frames.queue[1..]
  {
  }

  lemma SameSlots(k: State, k': State)
    requires SlotsOwned(k) && k'.swap == k.swap && k'.disk == k.disk && k'.swapped == k.swapped
    ensures SlotsOwned(k')
  {
    hide Swap.Inv;
  }

  lemma SameLookup(k: State, k': State, q: PageId)
    requires q in k'.mmu.tables <==> q in k.mmu.tables
    requires q in k.mmu.tables ==> k'.mmu.tables[q] == k.mmu.tables[q] && k'.mmu.mem == k.mmu.mem
    requires k'.disk == k.disk && (q in k'.swapped <==> q in k.swapped) && (q in k.swapped ==> k'.swapped[q] == k.swapped[q])
    ensures Lookup(k', q) == Lookup(k, q)
  {
  }

  // ---------------------------------------------------------------------
  // Swapping in
  // ---------------------------------------------------------------------

  lemma FillPageSpec(mem: seq<byte>, f: nat, data: Page, g: nat)
    requires f + PAGE_SIZE <= |mem| && g + PAGE_SIZE <= |mem|
    requires f % PAGE_SIZE == 0 && g % PAGE_SIZE == 0
    ensures |FillPage(mem, f, data)| == |mem|
    ensures FillPage(mem, f, data)[g..g + PAGE_SIZE] == if g == f then data else mem[g..g + PAGE_SIZE]
  {
    var r := FillPage(mem, f, data);
    if g < f {
      PagesApart(g, f);
      assert r[g..g + PAGE_SIZE] == mem[..f][g..g + PAGE_SIZE];
    } else if f < g {
      PagesApart(f, g);
      assert mem[f + PAGE_SIZE..][g - f - PAGE_SIZE..g - f] == mem[g..g + PAGE_SIZE];
      assert r[g..g + PAGE_SIZE] == mem[f + PAGE_SIZE..][g - f - PAGE_SIZE..g - f];
    } else {
      assert r[f..f + PAGE_SIZE] == data;
    }
  }

  lemma PagesApart(f: nat, g: nat)
    requires f % PAGE_SIZE == 0 && g % PAGE_SIZE == 0 && f < g
    ensures f + PAGE_SIZE <= g
  {
    var a, b := f / PAGE_SIZE, g / PAGE_SIZE;
    assert f == 4096 * a && g == 4096 * b;
  }

  lemma SwapInTable(k: State, p: PageId)
    requires TableOk(k.mmu) && FramesOwned(k) && SlotsOwned(k)
    requires k.frames.queue != [] && p in k.swapped
    requires k.frames.queue[0] * PAGE_SIZE + PAGE_SIZE <= |k.mmu.mem|
    ensures var k' := SwapIn(k, p);
      && TableOk(k'.mmu) && FramesOwned(k') && p in k'.mmu.tables
      && k'.mmu.tables.Keys == k.mmu.tables.Keys + {p}
      && PageBytes(k'.mmu, p) == Swap.SlotBytes(k.disk, k.swapped[p])
      && forall q :: q in k.mmu.tables && q != p ==>
           k'.mmu.tables[q] == k.mmu.tables[q] && PageBytes(k'.mmu, q) == PageBytes(k.mmu, q)
  {
    hide Fresh, FramesOwned, TableOk, FillPage, Frames.AllocateFrames, Swap.Inv, Swap.Release, Swap.SlotBytes;
    var k1 := Fresh(k, p);
    FreshTable(k, p);
    FreshOwned(k, p);
    SwapInParts(k, p);
    FilledTable(k1.mmu, p, Swap.SlotBytes(k.disk, k.swapped[p]));
    SameTablesOwned(k1, SwapIn(k, p));
  }

  lemma SwapInParts(k: State, p: PageId)
    requires SlotsOwned(k) && k.frames.queue != [] && p in k.swapped
    requires k.frames.queue[0] * PAGE_SIZE + PAGE_SIZE <= |k.mmu.mem|
    ensures SwapIn(k, p).mmu == Fresh(k, p).mmu.(mem := FillPage(k.mmu.mem, k.frames.queue[0] * PAGE_SIZE, Swap.SlotBytes(k.disk, k.swapped[p])))
    ensures SwapIn(k, p).frames == Fresh(k, p).frames && Fresh(k, p).mmu.mem == k.mmu.mem
    ensures SwapIn(k, p).disk == k.disk && SwapIn(k, p).swapped == k.swapped - {p}
    ensures SwapIn(k, p).swap == Swap.Release(k.swap, k.swapped[p]).0
  {
    hide FillPage, Frames.AllocateFrames, Swap.Inv, Swap.Release, Swap.SlotBytes;
  }

  // Filling one page's frame changes that page and no other.
  lemma FilledTable(s: Mmu.State, p: PageId, data: Page)
    requires TableOk(s) && p in s.tables
    ensures var s' := s.(mem := FillPage(s.mem, s.tables[p].frame, data));
      && |s'.mem| == |s.mem| && TableOk(s') && PageBytes(s', p) == data
      && forall q :: q in s.tables && q != p ==> PageBytes(s', q) == PageBytes(s, q)
  {
    var f := s.tables[p].frame;
    FillPageSpec(s.mem, f, data, f);
    forall q | q in s.tables && q != p
      ensures FillPage(s.mem, f, data)[s.tables[q].frame..s.tables[q].frame + PAGE_SIZE] == PageBytes(s, q)
    {
      FillPageSpec(s.mem, f, data, s.tables[q].frame);
    }
    hide FillPage;
  }

  lemma SameTablesOwned(k: State, k': State)
    requires FramesOwned(k) && k'.frames == k.frames && k'.mmu.tables == k.mmu.tables && |k'.mmu.mem| == |k.mmu.mem|
    ensures FramesOwned(k')
  {
  }

  lemma SwapInSlots(k: State, p: PageId)
    requires Inv(k) && k.frames.queue != [] && p in k.swapped
    requires k.frames.queue[0] * PAGE_SIZE + PAGE_SIZE <= |k.mmu.mem|
    ensures SlotsOwned(SwapIn(k, p))
  {
    Swap.ReleaseKeepsInv(k.swap, k.swapped[p]);
    forall q | q in k.swapped && q != p
      ensures k.swapped[q] != k.swapped[p]
    {
      SlotsApart(k, p, q);
    }
  }

  lemma SwappedParts(k: State, p: PageId)
    requires Inv(k) && p in k.swapped
    ensures Frames.Inv(k.frames) && Swap.Inv(k.swap) && k.disk.Valid()
    ensures p.vaddr % PAGE_SIZE == 0 && Swap.OnDisk(k.disk, k.swapped[p]) && k.swapped[p] < |k.swap.slots|
    ensures k.swap.slots[k.swapped[p]].occupied ==> k.swap.slots[k.swapped[p]].owner.Some?
  {
  }

  // Two swapped pages never share a slot: the slot names its page.
  lemma SlotsApart(k: State, p: PageId, q: PageId)
    requires SlotsOwned(k) && p in k.swapped && q in k.swapped && p != q
    ensures k.swapped[p] != k.swapped[q]
  {
    assert p.vaddr == PAGE_SIZE * (p.vaddr / PAGE_SIZE);
    assert q.vaddr == PAGE_SIZE * (q.vaddr / PAGE_SIZE);
  }

  // Swapping in gives the page the bytes of its slot and moves no other page.
  lemma SwapInPreserves(k: State, p: PageId)
    requires Inv(k) && k.frames.queue != [] && p in k.swapped
    requires k.frames.queue[0] * PAGE_SIZE + PAGE_SIZE <= |k.mmu.mem|
    ensures var k' := SwapIn(k, p);
      && Inv(k') && p in k'.mmu.tables && k'.mmu.tables.Keys == k.mmu.tables.Keys + {p}
      && Lookup(k', p) == Some(Swap.SlotBytes(k.disk, k.swapped[p]))
      && forall q :: q != p ==> Lookup(k', q) == Lookup(k, q)
  {
    hide TableOk, FramesOwned, Swap.Inv, SwapIn, Lookup, Swap.SlotBytes;
    SwapInTable(k, p);
    SwapInSlots(k, p);
    var k' := SwapIn(k, p);
    LookupPresent(k', p);
    forall q | q != p
      ensures Lookup(k', q) == Lookup(k, q)
    {
      SwapInLookup(k, p, q);
    }
  }

  lemma SwapInLookup(k: State, p: PageId, q: PageId)
    requires Inv(k) && k.frames.queue != [] && p in k.swapped && q != p
    requires k.frames.queue[0] * PAGE_SIZE + PAGE_SIZE <= |k.mmu.mem|
    ensures Lookup(SwapIn(k, p), q) == Lookup(k, q)
  {
    hide TableOk, FramesOwned, Swap.Inv, Swap.SlotBytes, SwapIn;
    SwapInTable(k, p);
    SwapInParts(k, p);
    if q in k.mmu.tables {
      LookupPresent(k, q);
      LookupPresent(SwapIn(k, p), q);
    }
  }

  lemma LookupPresent(k: State, q: PageId)
    requires TableOk(k.mmu) && q in k.mmu.tables
    ensures Lookup(k, q) == Some(PageBytes(k.mmu, q))
  {
  }

  // ---------------------------------------------------------------------
  // Evicting
  // ---------------------------------------------------------------------

  lemma {:induction false} ReadBytesSpec(s: Mmu.State, v: PageId, n: nat)
    requires TableOk(s) && v in s.tables && n <= PAGE_SIZE
    ensures ReadBytes(s, v.pid, v.vaddr, n) == PageBytes(s, v)[..n]
  {
    if n > 0 {
      ReadBytesSpec(s, v, n - 1);
      AlignUnique(v.vaddr + n - 1, v.vaddr);
      assert ReadU8(s, v.pid, v.vaddr + n - 1) == Ok(PageBytes(s, v)[n - 1]);
    }
  }

  lemma ImageIsContent(k: State, v: PageId)
    requires TableOk(k.mmu) && v in k.mmu.tables
    ensures PageImage(k.mmu, v.pid, v.vaddr) == PageBytes(k.mmu, v)
  {
    ReadBytesSpec(k.mmu, v, PAGE_SIZE);
  }

  lemma StoreSlots(k: State, v: PageId)
    requires SlotsOwned(k)
    ensures var (k', r) := Store(k, v);
      && SlotsOwned(k')
      && (forall p :: p in k.swapped ==> Swap.SlotBytes(k'.disk, k.swapped[p]) == Swap.SlotBytes(k.disk, k.swapped[p]))
      && (r.Some? ==>
            && Swap.OnDisk(k'.disk, r.value) && r.value < |k'.swap.slots|
            && k'.swap.slots[r.value] == Swap.Slot(true, Some(v.pid), Some(v.vaddr / PAGE_SIZE))
            && Swap.SlotBytes(k'.disk, r.value) == PageImage(k.mmu, v.pid, v.vaddr))
  {
    var data := PageImage(k.mmu, v.pid, v.vaddr);
    Swap.AllocateKeepsInv(k.swap, v.pid, v.vaddr / PAGE_SIZE);
    var (swap, r) := Swap.Allocate(k.swap, v.pid, v.vaddr / PAGE_SIZE);
    if r.Some? {
      Swap.SwapOutKeepsValid(k.disk, r.value, data);
      hide Swap.Inv, Swap.Allocate, Swap.SwapOut, PageImage, Swap.SlotBytes;
      forall p | p in k.swapped
        ensures k.swapped[p] != r.value
        ensures Swap.SlotBytes(Swap.SwapOut(k.disk, r.value, data).0, k.swapped[p]) == Swap.SlotBytes(k.disk, k.swapped[p])
      {
        Swap.SwapFrame(k.disk, r.value, data, k.swapped[p]);
      }
      if Swap.OnDisk(k.disk, r.value) {
        Swap.SwapRoundTrip(k.disk, r.value, data);
      }
    }
  }

  // Storing a page, whether or not the disk is large enough, changes no byte of memory.
  lemma StorePreserves(k: State, v: PageId)
    requires Inv(k)
    ensures var (k', r) := Store(k, v);
      && Inv(k') && SameMemory(k, k')
      && k'.mmu == k.mmu && k'.frames == k.frames && k'.swapped == k.swapped
  {
    hide TableOk, Frames.Inv, Swap.Inv, Swap.SlotBytes, Swap.Allocate, Swap.SwapOut, PageImage;
    StoreSlots(k, v);
    var (k', r) := Store(k, v);
    assert k'.mmu == k.mmu && k'.frames == k.frames && k'.swapped == k.swapped;
    StoreInvParts(k, k');
  }

  // Frames and tables as before, slots in order: the invariant.
  lemma StoreInvParts(k: State, k': State)
    requires Inv(k) && SlotsOwned(k') && k'.mmu == k.mmu && k'.frames == k.frames && k'.swapped == k.swapped
    ensures Inv(k')
  {
    hide TableOk, Frames.Inv, Swap.Inv;
  }

  lemma RelocateFrames(k: State, v: PageId, slot: nat)
    requires TableOk(k.mmu) && FramesOwned(k) && v in k.mmu.tables
    ensures var k' := Relocate(k, v, slot);
      && TableOk(k'.mmu) && FramesOwned(k')
      && k'.frames.queue == k.frames.queue + [k.mmu.tables[v].frame / PAGE_SIZE]
      && k'.mmu.tables == k.mmu.tables - {v} && k'.mmu.mem == k.mmu.mem
  {
    AlignUnique(v.vaddr, v.vaddr);
    var n := k.mmu.tables[v].frame / PAGE_SIZE;
    Frames.FreeKeepsInv(k.frames, v.pid, n);
    var frames' := Frames.FreeFrame(k.frames, v.pid, n).0;
    assert frames'.frames == k.frames.frames[n := Frames.FREE_FRAME] && frames'.queue == k.frames.queue + [n];
    hide Frames.Inv, Frames.FreeFrame;
    forall q | q in k.mmu.tables && q != v
      ensures k.mmu.tables[q].frame / PAGE_SIZE != n
    {
      assert k.mmu.tables[q].frame == PAGE_SIZE * (k.mmu.tables[q].frame / PAGE_SIZE);
    }
  }

  // Moving a stored page out of its frame changes no byte of memory.
  lemma RelocatePreserves(k: State, v: PageId, slot: nat)
    requires Inv(k) && v in k.mmu.tables
    requires Swap.OnDisk(k.disk, slot) && slot < |k.swap.slots|
    requires k.swap.slots[slot] == Swap.Slot(true, Some(v.pid), Some(v.vaddr / PAGE_SIZE))
    requires Swap.SlotBytes(k.disk, slot) == PageBytes(k.mmu, v)
    ensures var k' := Relocate(k, v, slot);
      && Inv(k') && SameMemory(k, k')
      && k'.frames.queue == k.frames.queue + [k.mmu.tables[v].frame / PAGE_SIZE]
      && k'.mmu == k.mmu.(tables := k.mmu.tables - {v})
  {
    hide FramesOwned, Swap.Inv, Swap.SlotBytes, Frames.FreeFrame;
    RelocateFrames(k, v, slot);
    var k' := Relocate(k, v, slot);
    assert k'.swap == k.swap && k'.disk == k.disk && k'.swapped == k.swapped[v := slot];
    assert v.vaddr % PAGE_SIZE == 0;
    assert SlotsOwned(k');
    forall q
      ensures Lookup(k', q) == Lookup(k, q)
    {
      if q == v {
        LookupPresent(k, q);
      } else {
        SameLookup(k, k', q);
      }
    }
  }

  // A successful eviction keeps every byte of memory: the victim's page is now in its
  // slot, every other page is where it was.  A failed one keeps everything in place.
  lemma EvictPreserves(k: State, v: PageId)
    requires Inv(k) && v in k.mmu.tables
    ensures var (k', ok) := Evict(k, v);
      && Inv(k') && SameMemory(k, k')
      && (ok ==>
            && k'.frames.queue == k.frames.queue + [k.mmu.tables[v].frame / PAGE_SIZE]
            && k'.mmu == k.mmu.(tables := k.mmu.tables - {v}) && k'.swapped.Keys == k.swapped.Keys + {v})
      && (!ok ==> k'.mmu == k.mmu && k'.swapped == k.swapped && k'.frames == k.frames)
  {
    hide Store, PageImage, Swap.SlotBytes, Swap.Inv, Frames.Inv, Frames.FreeFrame;
    var (k1, r) := Store(k, v);
    StorePreserves(k, v);
    if r.Some? {
      StoreSlots(k, v);
      ImageIsContent(k, v);
      RelocatePreserves(k1, v, r.value);
    }
  }

  // ---------------------------------------------------------------------
  // Serving a fault
  // ---------------------------------------------------------------------

  // Some page can be evicted: there is one, and the next free slot lies on the disk.
  predicate CanEvict(k: State, order: seq<PageId>) {
    order != [] && k.swap.enabled && k.swap.queue != [] && Swap.OnDisk(k.disk, k.swap.queue[0])
  }

  lemma StoreSucceedsIff(k: State, v: PageId)
    requires SlotsOwned(k)
    ensures Store(k, v).1.Some? <==> k.swap.enabled && k.swap.queue != [] && Swap.OnDisk(k.disk, k.swap.queue[0])
  {
    if k.swap.queue != [] {
      assert k.swap.queue[0] in k.swap.queue;
    }
  }

  // The fault is answered with a frame exactly when one is free or a page can be evicted.
  lemma FaultAnsweredIff(k: State, pid: nat, addr: nat, order: seq<PageId>)
    requires Inv(k) && forall v :: v in order ==> v in k.mmu.tables
    ensures Fault(k, pid, addr, order).1.Mapped? <==> k.frames.queue != [] || CanEvict(k, order)
  {
    if k.frames.queue == [] {
      VictimListed(order, pid);
      if order != [] {
        var v := FindVictim(order, pid).value;
        StoreSucceedsIff(k, v);
        EvictPreserves(k, v);
      }
    }
  }

  // The bytes the handler leaves the page with, when it answers with a frame: those of
  // its slot, those of the first free frame, or those of the page it evicts.
  ghost function Handed(k: State, pid: nat, addr: nat, order: seq<PageId>): Option<seq<byte>>
    requires Inv(k)
  {
    var p := PageOf(pid, addr);
    if k.frames.queue != [] then
      assert k.frames.queue[0] in k.frames.queue;
      if p in k.swapped then Some(Swap.SlotBytes(k.disk, k.swapped[p])) else FirstFree(k)
    else if CanEvict(k, order) then
      VictimListed(order, pid);
      Lookup(k, FindVictim(order, pid).value)
    else None
  }

  lemma EvictedFrame(k: State, v: PageId)
    requires Inv(k) && v in k.mmu.tables && k.frames.queue == [] && Evict(k, v).1
    ensures var k1 := Evict(k, v).0;
      && k1.frames.queue != []
      && k1.frames.queue[0] * PAGE_SIZE == k.mmu.tables[v].frame
      && k1.frames.queue[0] * PAGE_SIZE + PAGE_SIZE <= |k1.mmu.mem|
      && FirstFree(k1) == Lookup(k, v)
  {
    hide Evict, FramesOwned, SlotsOwned;
    EvictPreserves(k, v);
    assert k.mmu.tables[v].frame % PAGE_SIZE == 0;
  }

  // Evicting for a page: it gets the victim's frame with the victim's bytes.
  lemma EvictThenFresh(k: State, p: PageId, v: PageId)
    requires Inv(k) && v in k.mmu.tables && p.vaddr % PAGE_SIZE == 0 && k.frames.queue == [] && Evict(k, v).1
    ensures var k1 := Evict(k, v).0;
      && k1.frames.queue != []
      && Inv(Fresh(k1, p)) && p in Fresh(k1, p).mmu.tables
      && Fresh(k1, p).mmu.tables.Keys == k.mmu.tables.Keys - {v} + {p}
      && Fresh(k1, p).swapped.Keys == k.swapped.Keys + {v}
      && Lookup(Fresh(k1, p), p) == Lookup(k, v)
      && forall q :: q != p ==> Lookup(Fresh(k1, p), q) == Lookup(k, q)
  {
    hide Evict, Fresh, Lookup, TableOk, FramesOwned, Swap.Inv, FirstFree;
    EvictedFrame(k, v);
    EvictPreserves(k, v);
    var k1 := Evict(k, v).0;
    FreshKeepsInv(k1, p);
    FreshTable(k1, p);
    FreshParts(k1, p);
    FreshLookup(k1, p, p);
    forall q | q != p
      ensures Lookup(Fresh(k1, p), q) == Lookup(k, q)
    {
      FreshLookup(k1, p, q);
    }
  }

  lemma FaultWithFrame(k: State, pid: nat, addr: nat, order: seq<PageId>)
    requires Inv(k) && k.frames.queue != [] && forall v :: v in order ==> v in k.mmu.tables
    ensures var (k', p) := (Fault(k, pid, addr, order).0, PageOf(pid, addr));
      && Inv(k') && p in k'.mmu.tables && k'.mmu.tables.Keys == k.mmu.tables.Keys + {p}
      && k'.swapped == k.swapped - {p}
      && Lookup(k', p) == Handed(k, pid, addr, order)
      && forall q :: q != p ==> Lookup(k', q) == Lookup(k, q)
  {
    hide Fresh, SwapIn, Evict, Lookup, TableOk, FramesOwned, SlotsOwned, FirstFree, Swap.SlotBytes;
    var p := PageOf(pid, addr);
    AlignFacts(addr);
    FreshFrameUnused(k);
    FrameBounds(k, k.frames.queue[0]);
    if p in k.swapped {
      SwapInPreserves(k, p);
      SwapInParts(k, p);
    } else {
      FreshKeepsInv(k, p);
      FreshTable(k, p);
      FreshParts(k, p);
      assert k.swapped - {p} == k.swapped;
      FreshLookup(k, p, p);
      forall q | q != p
        ensures Lookup(Fresh(k, p), q) == Lookup(k, q)
      {
        FreshLookup(k, p, q);
      }
    }
  }

  lemma FaultWithoutFrame(k: State, pid: nat, addr: nat, order: seq<PageId>)
    requires Inv(k) && k.frames.queue == [] && forall v :: v in order ==> v in k.mmu.tables
    ensures var (k', p) := (Fault(k, pid, addr, order).0, PageOf(pid, addr));
      if CanEvict(k, order) then
        (VictimListed(order, pid);
         var v := FindVictim(order, pid).value;
         && Evict(k, v).1 && Evict(k, v).0.frames.queue != [] && k' == Fresh(Evict(k, v).0, p))
      else Inv(k') && SameMemory(k, k') && k'.mmu == k.mmu && k'.swapped == k.swapped
  {
    hide Fresh, SwapIn, Store, Relocate, Lookup, TableOk, FramesOwned;
    VictimListed(order, pid);
    if order != [] {
      var v := FindVictim(order, pid).value;
      StoreSucceedsIff(k, v);
      EvictPreserves(k, v);
    }
  }

  // What serving a fault does, for any page and in every state: the handler keeps its
  // invariant, no page but the faulting one changes, and that one ends up with the
  // bytes handed out, if any.  Answered with a frame, it is present in it.
  lemma FaultEffect(k: State, pid: nat, addr: nat, order: seq<PageId>)
    requires Inv(k) && forall v :: v in order ==> v in k.mmu.tables
    ensures var ((k', r), p) := (Fault(k, pid, addr, order), PageOf(pid, addr));
      && Inv(k')
      && (forall q :: q != p ==> Lookup(k', q) == Lookup(k, q))
      && (r.Mapped? <==> Handed(k, pid, addr, order).Some?)
      && (r.Mapped? ==> p in k'.mmu.tables && Lookup(k', p) == Handed(k, pid, addr, order))
      && (!r.Mapped? ==> Lookup(k', p) == Lookup(k, p) && k'.mmu == k.mmu)
  {
    hide Fault, Fresh, Lookup, Evict, FramesOwned, SlotsOwned, TableOk;
    FaultAnsweredIff(k, pid, addr, order);
    if k.frames.queue != [] {
      FaultWithFrame(k, pid, addr, order);
      HandedSome(k, pid, addr, order);
    } else {
      AlignFacts(addr);
      FaultWithoutFrame(k, pid, addr, order);
      HandedSome(k, pid, addr, order);
      if CanEvict(k, order) {
        VictimListed(order, pid);
        EvictThenFresh(k, PageOf(pid, addr), FindVictim(order, pid).value);
      }
    }
  }

  lemma HandedSome(k: State, pid: nat, addr: nat, order: seq<PageId>)
    requires Inv(k) && forall v :: v in order ==> v in k.mmu.tables
    ensures Handed(k, pid, addr, order).Some? <==> k.frames.queue != [] || CanEvict(k, order)
    ensures Handed(k, pid, addr, order).Some? ==> |Handed(k, pid, addr, order).value| == PAGE_SIZE
    ensures k.frames.queue == [] && CanEvict(k, order) ==>
      FindVictim(order, pid).Some? && Handed(k, pid, addr, order) == Lookup(k, FindVictim(order, pid).value)
  {
    hide Swap.Inv, Lookup, FirstFree, Swap.SlotBytes;
    if k.frames.queue != [] {
      assert k.frames.queue[0] in k.frames.queue;
    } else if CanEvict(k, order) {
      VictimListed(order, pid);
      LookupPresent(k, FindVictim(order, pid).value);
    }
  }

  // ---------------------------------------------------------------------
  // When a fault loses memory, and when it does not
  // ---------------------------------------------------------------------

  // The page has no bytes to lose, or is brought back from its slot, or nothing can be
  // handed out, or what is handed out holds the page's own bytes anyway.
  ghost predicate Harmless(k: State, pid: nat, addr: nat, order: seq<PageId>)
    requires Inv(k)
  {
    var p := PageOf(pid, addr);
    || (p !in k.mmu.tables && p !in k.swapped)
    || (p !in k.mmu.tables && k.frames.queue != [])
    || (k.frames.queue == [] && !CanEvict(k, order))
    || Handed(k, pid, addr, order) == Lookup(k, p)
  }

  // Serving a fault, for a page that is present or swapped out or new, keeps the bytes
  // of every known page exactly in these cases.
  lemma FaultKeepsMemoryIff(k: State, pid: nat, addr: nat, order: seq<PageId>)
    requires Inv(k) && forall v :: v in order ==> v in k.mmu.tables
    ensures (forall q :: Lookup(k, q).Some? ==> Lookup(Fault(k, pid, addr, order).0, q) == Lookup(k, q))
      <==> Harmless(k, pid, addr, order)
  {
    FaultEffect(k, pid, addr, order);
    HandedSome(k, pid, addr, order);
    LookupKnown(k, PageOf(pid, addr));
    hide Fault, FramesOwned, SlotsOwned, TableOk, CanEvict;
  }

  // Pages stay in one place each exactly if the handler neither maps a swapped-out page
  // over an evicted one nor evicts the very page it is asked for.
  lemma FaultKeepsOnePlaceIff(k: State, pid: nat, addr: nat, order: seq<PageId>)
    requires Inv(k) && OnePlaceEach(k) && forall v :: v in order ==> v in k.mmu.tables
    ensures OnePlaceEach(Fault(k, pid, addr, order).0)
      <==> !(&& k.frames.queue == [] && CanEvict(k, order)
             && (PageOf(pid, addr) in k.swapped || FindVictim(order, pid) == Some(PageOf(pid, addr))))
  {
    hide Fault, Fresh, Lookup, Evict, FramesOwned, SlotsOwned, TableOk, Handed;
    var p := PageOf(pid, addr);
    if k.frames.queue != [] {
      FaultWithFrame(k, pid, addr, order);
    } else {
      AlignFacts(addr);
      FaultWithoutFrame(k, pid, addr, order);
      if CanEvict(k, order) {
        VictimListed(order, pid);
        var v := FindVictim(order, pid).value;
        EvictThenFresh(k, p, v);
        var k' := Fault(k, pid, addr, order).0;
        assert p in k'.mmu.tables.Keys;
        assert p in k'.swapped.Keys <==> p in k.swapped || p == v;
        if p !in k.swapped && p != v {
          forall q | q in k'.mmu.tables
            ensures q !in k'.swapped
          {
            assert q in k'.mmu.tables.Keys;
            assert q !in k'.swapped.Keys;
          }
        }
      }
    }
  }

  // A swapped-out page that finds no free frame is not loaded: after the eviction it
  // is mapped to the victim's frame, with the victim's bytes, while its own bytes stay
  // behind on the disk.
  lemma FallThroughLoses(k: State, p: PageId, v: PageId)
    requires Inv(k) && v in k.mmu.tables && p in k.swapped && k.frames.queue == []
    requires Evict(k, v).1
    ensures var k1 := Evict(k, v).0;
      && k1.frames.queue != []
      && var k' := Fresh(k1, p);
         p in k'.mmu.tables && p in k'.swapped && Lookup(k', p) == Lookup(k, v)
  {
    hide Evict, Fresh, Lookup, FramesOwned, TableOk;
    EvictThenFresh(k, p, v);
    assert p in Fresh(Evict(k, v).0, p).swapped.Keys;
  }

  // A fault on a page that is already present, and nowhere else, with a frame free, gives
  // the page the free frame: its bytes survive only if the frame happens to hold the
  // same ones.
  lemma PresentPageIsReplaced(k: State, pid: nat, addr: nat, order: seq<PageId>)
    requires Inv(k) && forall v :: v in order ==> v in k.mmu.tables
    requires PageOf(pid, addr) in k.mmu.tables && PageOf(pid, addr) !in k.swapped && k.frames.queue != []
    ensures k.frames.queue[0] * PAGE_SIZE + PAGE_SIZE <= |k.mmu.mem|
    ensures var k' := Fault(k, pid, addr, order).0;
      var (p, f) := (PageOf(pid, addr), k.frames.queue[0] * PAGE_SIZE);
      && p in k'.mmu.tables && k'.mmu.tables[p].frame != k.mmu.tables[p].frame
      && (Lookup(k', p) == Lookup(k, p) <==> k.mmu.mem[f..f + PAGE_SIZE] == PageBytes(k.mmu, p))
  {
    hide TableOk, FramesOwned, SlotsOwned, Frames.AllocateFrames, SwapIn, Evict, Fresh;
    AlignFacts(addr);
    var p := PageOf(pid, addr);
    FreshFrameUnused(k);
    FreshTable(k, p);
    FreshLookup(k, p, p);
    LookupPresent(k, p);
  }

  // ---------------------------------------------------------------------
  // Runs
  // ---------------------------------------------------------------------

  datatype Op =
    | OpFault(pid: nat, addr: nat, order: seq<PageId>)
    | OpRead(pid: nat, addr: nat)
    | OpWrite(pid: nat, addr: nat, b: byte)

  // The handler sees the present pages, in whatever order the tables enumerate them.
  ghost predicate Legal(k: State, op: Op) {
    op.OpFault? ==> forall v :: v in op.order <==> v in k.mmu.tables
  }

  ghost function Step(k: State, op: Op): State
    requires Inv(k) && Legal(k, op)
  {
    match op
    case OpFault(pid, addr, order) => Fault(k, pid, addr, order).0
    case OpRead(_, _) => k
    case OpWrite(pid, addr, b) => k.(mmu := WriteU8(k.mmu, pid, addr, b).0)
  }

  lemma WriteKeepsInv(k: State, pid: nat, addr: nat, b: byte)
    requires Inv(k)
    ensures Inv(k.(mmu := WriteU8(k.mmu, pid, addr, b).0))
  {
    WriteAgrees(k.mmu, pid, addr, b);
    SameTablesKeepInv(k, WriteU8(k.mmu, pid, addr, b).0);
  }

  lemma SameTablesKeepInv(k: State, mmu: Mmu.State)
    requires Inv(k) && TableOk(mmu) && mmu.tables == k.mmu.tables && |mmu.mem| == |k.mmu.mem|
    ensures Inv(k.(mmu := mmu))
  {
    hide Frames.Inv, Swap.Inv, TableOk;
  }

  lemma WriteLookup(k: State, pid: nat, addr: nat, b: byte, q: PageId)
    requires Inv(k)
    ensures var k' := k.(mmu := WriteU8(k.mmu, pid, addr, b).0);
      var p := PageOf(pid, addr);
      if q == p && p in k.mmu.tables then
        (&& Lookup(k, p).Some? && |Lookup(k, p).value| == PAGE_SIZE
         && Lookup(k', p) == Some(Lookup(k, p).value[addr % PAGE_SIZE := b]))
      else Lookup(k', q) == Lookup(k, q)
  {
    WriteAgrees(k.mmu, pid, addr, b);
    var k' := k.(mmu := WriteU8(k.mmu, pid, addr, b).0);
    ViewKeys(k.mmu, pid, AlignDown(addr));
    if q in k.mmu.tables {
      LookupPresent(k, q);
      LookupPresent(k', q);
    }
    hide FramesOwned, SlotsOwned, WriteU8, View;
  }

  lemma StepKeepsInv(k: State, op: Op)
    requires Inv(k) && Legal(k, op)
    ensures Inv(Step(k, op))
  {
    match op
    case OpFault(pid, addr, order) => FaultEffect(k, pid, addr, order);
    case OpRead(_, _) =>
    case OpWrite(pid, addr, b) => WriteKeepsInv(k, pid, addr, b);
  }

  ghost predicate LegalRun(k: State, ops: seq<Op>)
    requires Inv(k)
    decreases ops
  {
    ops == [] || (Legal(k, ops[0]) && (StepKeepsInv(k, ops[0]); LegalRun(Step(k, ops[0]), ops[1..])))
  }

  ghost function Exec(k: State, ops: seq<Op>): (k': State)
    requires Inv(k) && LegalRun(k, ops)
    ensures Inv(k')
    decreases ops
  {
    if ops == [] then k
    else
      StepKeepsInv(k, ops[0]);
      Exec(Step(k, ops[0]), ops[1..])
  }

  // A flat page after one operation: a write that reaches a present page changes it.
  ghost function FlatStep(k: State, op: Op, p: PageId, bytes: seq<byte>): (r: seq<byte>)
    requires |bytes| == PAGE_SIZE
    ensures |r| == PAGE_SIZE
  {
    if op.OpWrite? && PageOf(op.pid, op.addr) == p && p in k.mmu.tables then bytes[op.addr % PAGE_SIZE := op.b]
    else bytes
  }

  // The same, with what faults hand out.
  ghost function ExactStep(k: State, op: Op, p: PageId, bytes: seq<byte>): (r: seq<byte>)
    requires Inv(k) && Legal(k, op) && |bytes| == PAGE_SIZE
    ensures |r| == PAGE_SIZE
  {
    if op.OpFault? && PageOf(op.pid, op.addr) == p && Handed(k, op.pid, op.addr, op.order).Some? then
      HandedSome(k, op.pid, op.addr, op.order);
      Handed(k, op.pid, op.addr, op.order).value
    else FlatStep(k, op, p, bytes)
  }

  ghost function Replay(k: State, ops: seq<Op>, p: PageId, bytes: seq<byte>): seq<byte>
    requires Inv(k) && LegalRun(k, ops) && |bytes| == PAGE_SIZE
    decreases ops
  {
    if ops == [] then bytes
    else
      StepKeepsInv(k, ops[0]);
      Replay(Step(k, ops[0]), ops[1..], p, FlatStep(k, ops[0], p, bytes))
  }

  ghost function ExactReplay(k: State, ops: seq<Op>, p: PageId, bytes: seq<byte>): seq<byte>
    requires Inv(k) && LegalRun(k, ops) && |bytes| == PAGE_SIZE
    decreases ops
  {
    if ops == [] then bytes
    else
      StepKeepsInv(k, ops[0]);
      ExactReplay(Step(k, ops[0]), ops[1..], p, ExactStep(k, ops[0], p, bytes))
  }

  lemma StepIsExact(k: State, op: Op, p: PageId)
    requires Inv(k) && Legal(k, op)
    requires Lookup(k, p).Some? && |Lookup(k, p).value| == PAGE_SIZE
    ensures Lookup(Step(k, op), p) == Some(ExactStep(k, op, p, Lookup(k, p).value))
  {
    hide Fault, FramesOwned, SlotsOwned, TableOk, Lookup, Handed, WriteU8;
    match op
    case OpFault(pid, addr, order) => FaultEffect(k, pid, addr, order);
    case OpRead(_, _) =>
    case OpWrite(pid, addr, b) => WriteLookup(k, pid, addr, b, p);
  }

  // Over every run of faults, reads and writes by any number of processes, each page
  // known at the start holds at the end what its writes and the frames handed out for
  // it left there.
  lemma {:induction false} EveryRunReplays(k: State, ops: seq<Op>, p: PageId)
    requires Inv(k) && LegalRun(k, ops)
    requires Lookup(k, p).Some? && |Lookup(k, p).value| == PAGE_SIZE
    ensures Lookup(Exec(k, ops), p) == Some(ExactReplay(k, ops, p, Lookup(k, p).value))
    decreases ops
  {
    if ops != [] {
      hide Inv, Legal, Step, ExactStep, Lookup;
      StepKeepsInv(k, ops[0]);
      StepIsExact(k, ops[0], p);
      EveryRunReplays(Step(k, ops[0]), ops[1..], p);
    }
  }

  // Every fault of the run for the page is one that keeps memory.
  ghost predicate HarmlessRun(k: State, ops: seq<Op>, p: PageId)
    requires Inv(k) && LegalRun(k, ops)
    decreases ops
  {
    ops == [] || (
      && (ops[0].OpFault? && PageOf(ops[0].pid, ops[0].addr) == p ==>
            Harmless(k, ops[0].pid, ops[0].addr, ops[0].order))
      && (StepKeepsInv(k, ops[0]); HarmlessRun(Step(k, ops[0]), ops[1..], p)))
  }

  lemma StepIsFlat(k: State, op: Op, p: PageId)
    requires Inv(k) && Legal(k, op)
    requires Lookup(k, p).Some? && |Lookup(k, p).value| == PAGE_SIZE
    requires op.OpFault? && PageOf(op.pid, op.addr) == p ==> Harmless(k, op.pid, op.addr, op.order)
    ensures Lookup(Step(k, op), p) == Some(FlatStep(k, op, p, Lookup(k, p).value))
  {
    hide Fault, FramesOwned, SlotsOwned, TableOk, Lookup, Handed, WriteU8, Harmless;
    match op
    case OpFault(pid, addr, order) =>
      FaultEffect(k, pid, addr, order);
      FaultKeepsMemoryIff(k, pid, addr, order);
    case OpRead(_, _) =>
    case OpWrite(pid, addr, b) => WriteLookup(k, pid, addr, b, p);
  }

  // However often a page moves between frames and swap, it holds at the end exactly
  // what a flat memory would hold after the same writes, as long as its own faults are
  // of the kind that keeps memory; the faults of other pages may be of any kind.
  lemma {:induction false} PagingIsFlatMemory(k: State, ops: seq<Op>, p: PageId)
    requires Inv(k) && LegalRun(k, ops) && HarmlessRun(k, ops, p)
    requires Lookup(k, p).Some? && |Lookup(k, p).value| == PAGE_SIZE
    ensures Lookup(Exec(k, ops), p) == Some(Replay(k, ops, p, Lookup(k, p).value))
    decreases ops
  {
    if ops != [] {
      hide Inv, Legal, Step, FlatStep, Lookup, Harmless;
      StepKeepsInv(k, ops[0]);
      StepIsFlat(k, ops[0], p);
      PagingIsFlatMemory(Step(k, ops[0]), ops[1..], p);
    }
  }

  // A read that succeeds returns the flat byte.
  lemma ReadsSeeFlatMemory(k: State, pid: nat, addr: nat)
    requires Inv(k)
    ensures var p := PageOf(pid, addr);
      match ReadU8(k.mmu, pid, addr)
      case Ok(b) => p in k.mmu.tables && Lookup(k, p).Some? && |Lookup(k, p).value| == PAGE_SIZE
        && b == Lookup(k, p).value[addr % PAGE_SIZE]
      case Err(_) => p !in k.mmu.tables
  {
    ReadAgrees(k.mmu, pid, addr);
    ViewKeys(k.mmu, pid, AlignDown(addr));
  }

  // ---------------------------------------------------------------------
  // A machine on which a write is lost
  // ---------------------------------------------------------------------

  ghost function BootState(memorySize: nat, swapSize: nat, sectors: nat): State {
    Kernel(Frames.Boot(memorySize), Swap.Boot(swapSize),
           DiskState(sectors, seq((sectors + 63) / 64, _ => 0), seq(sectors, _ => ZERO_SECTOR)),
           Mmu.State(map[], seq(memorySize, _ => 0)), map[])
  }

  lemma BootInv(memorySize: nat, swapSize: nat, sectors: nat)
    requires 8 <= sectors
    ensures Inv(BootState(memorySize, swapSize, sectors))
  {
    Frames.BootInv(memorySize);
    Swap.BootInv(swapSize);
    hide Frames.Inv, Swap.Inv;
  }

  lemma EvictTakesSlot(k: State, v: PageId)
    requires Inv(k) && v in k.mmu.tables && Evict(k, v).1
    ensures k.swap.queue != [] && Evict(k, v).0.swap.queue == k.swap.queue[1..]
    ensures Evict(k, v).0.swap.enabled == k.swap.enabled && Evict(k, v).0.disk.total == k.disk.total
  {
  }

  // One frame, two pages.  Page 0 is written with a 7 and evicted for page 4096, which
  // is written with a 9; the fault that should bring page 0 back makes it read 9.
  lemma WriteIsLost() returns (k0: State, k1: State, k2: State, k3: State, k4: State, k5: State)
    ensures k0 == BootState(4096, 8192, 256) && Inv(k0)
    ensures Legal(k0, OpFault(1, 0, [])) && k1 == Step(k0, OpFault(1, 0, [])) && Inv(k1)
    ensures Legal(k1, OpWrite(1, 0, 7)) && k2 == Step(k1, OpWrite(1, 0, 7)) && Inv(k2)
    ensures ReadU8(k2.mmu, 1, 0) == Ok(7)
    ensures Legal(k2, OpFault(1, 4096, [PageId(1, 0)])) && k3 == Step(k2, OpFault(1, 4096, [PageId(1, 0)])) && Inv(k3)
    ensures Legal(k3, OpWrite(1, 4096, 9)) && k4 == Step(k3, OpWrite(1, 4096, 9)) && Inv(k4)
    ensures Legal(k4, OpFault(1, 0, [PageId(1, 4096)])) && k5 == Step(k4, OpFault(1, 0, [PageId(1, 4096)]))
    ensures ReadU8(k5.mmu, 1, 0) == Ok(9)
  {
    var p, q := PageId(1, 0), PageId(1, 4096);
    k0 := BootState(4096, 8192, 256);
    BootInv(4096, 8192, 256);
    k1 := FirstFault(k0, p);
    k2 := FaultThenWrite(k1, p, 7);
    k3 := SecondFault(k2, q, p);
    k4 := FaultThenWrite(k3, q, 9);
    k5 := ThirdFault(k4, p, q);
  }

  // The frame accounting of the demonstration: `n` frames free, `m` slots free.
  ghost predicate Leaves(k: State, frames: seq<nat>, slots: seq<nat>) {
    k.frames.queue == frames && k.swap.queue == slots && k.swap.enabled && k.disk.total == 256
  }

  lemma ReadFirstByte(s: Mmu.State, p: PageId)
    requires TableOk(s) && p in s.tables
    ensures ReadU8(s, p.pid, p.vaddr) == Ok(PageBytes(s, p)[0])
  {
    AlignUnique(p.vaddr, p.vaddr);
  }

  lemma FirstFault(k: State, p: PageId) returns (k': State)
    requires Inv(k) && Leaves(k, [0], [0, 1]) && k.mmu.tables == map[] && k.swapped == map[] && p == PageId(1, 0)
    ensures Legal(k, OpFault(1, 0, [])) && k' == Step(k, OpFault(1, 0, [])) && Inv(k')
    ensures Leaves(k', [], [0, 1]) && k'.mmu.tables.Keys == {p} && k'.swapped == map[]
  {
    FreshParts(k, p);
    FreshTable(k, p);
    FreshKeepsInv(k, p);
    k' := Fresh(k, p);
  }

  lemma FaultThenWrite(k: State, p: PageId, b: byte) returns (k': State)
    requires Inv(k) && k.mmu.tables.Keys == {p} && p.vaddr % PAGE_SIZE == 0
    ensures Legal(k, OpWrite(p.pid, p.vaddr, b)) && k' == Step(k, OpWrite(p.pid, p.vaddr, b)) && Inv(k')
    ensures k' == k.(mmu := k'.mmu) && k'.mmu.tables == k.mmu.tables
    ensures ReadU8(k'.mmu, p.pid, p.vaddr) == Ok(b)
  {
    AlignUnique(p.vaddr, p.vaddr);
    k' := Step(k, OpWrite(p.pid, p.vaddr, b));
    WriteKeepsInv(k, p.pid, p.vaddr, b);
    WriteAgrees(k.mmu, p.pid, p.vaddr, b);
    ReadFirstByte(k.mmu, p);
    ReadFirstByte(k'.mmu, p);
    hide Inv, TableOk, WriteU8, View, PageBytes;
  }

  lemma SecondFault(k: State, q: PageId, p: PageId) returns (k': State)
    requires Inv(k) && Leaves(k, [], [0, 1]) && k.mmu.tables.Keys == {p} && k.swapped == map[]
    requires p == PageId(1, 0) && q == PageId(1, 4096)
    ensures Legal(k, OpFault(1, 4096, [p])) && k' == Step(k, OpFault(1, 4096, [p])) && Inv(k')
    ensures Leaves(k', [], [1]) && k'.mmu.tables.Keys == {q} && p in k'.swapped
  {
    hide Fresh, Store, Relocate, TableOk, FramesOwned, Lookup, Swap.Inv;
    AlignUnique(4096, 4096);
    StoreSucceedsIff(k, p);
    assert Evict(k, p).1;
    var k1 := Evict(k, p).0;
    EvictPreserves(k, p);
    EvictTakesSlot(k, p);
    FreshParts(k1, q);
    EvictThenFresh(k, q, p);
    k' := Fresh(k1, q);
    assert FindVictim([p], 1) == Some(p);
    assert k'.mmu.tables.Keys == {q} && p in k'.swapped.Keys;
  }

  lemma ThirdFault(k: State, p: PageId, q: PageId) returns (k': State)
    requires Inv(k) && Leaves(k, [], [1]) && k.mmu.tables.Keys == {q} && p in k.swapped
    requires p == PageId(1, 0) && q == PageId(1, 4096) && ReadU8(k.mmu, 1, 4096) == Ok(9)
    ensures k' == Fault(k, 1, 0, [q]).0 && ReadU8(k'.mmu, 1, 0) == Ok(9)
  {
    StoreSucceedsIff(k, q);
    assert Evict(k, q).1;
    FallThroughLoses(k, p, q);
    assert FindVictim([q], 1) == Some(q);
    k' := Fresh(Evict(k, q).0, p);
    FallThroughReads(k, p, q);
  }

  lemma FallThroughReads(k: State, p: PageId, q: PageId)
    requires Inv(k) && q in k.mmu.tables && p in k.swapped && k.frames.queue == [] && Evict(k, q).1
    ensures Evict(k, q).0.frames.queue != []
    ensures ReadU8(Fresh(Evict(k, q).0, p).mmu, p.pid, p.vaddr) == ReadU8(k.mmu, q.pid, q.vaddr)
  {
    FallThroughLoses(k, p, q);
    EvictPreserves(k, q);
    FreshTable(Evict(k, q).0, p);
    ReadFirstByte(k.mmu, q);
    ReadFirstByte(Fresh(Evict(k, q).0, p).mmu, p);
    LookupPresent(k, q);
    LookupPresent(Fresh(Evict(k, q).0, p), p);
    hide Evict, Fresh, Lookup, TableOk, PageBytes, Inv, FramesOwned, SlotsOwned;
  }
}
