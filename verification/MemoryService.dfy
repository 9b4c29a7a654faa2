// The memory service as an object: it drives the frame manager, the swap manager and
// the MMU, and remembers which pages are swapped out.
module MemoryServices {
  import opened Prelude
  import opened AddressSpace
  import opened Mmu
  import Disk
  import Frames
  import Swap
  import F = PageFaults

  // Memory with the first `i` bytes of a page already copied to address `f`.
  function FillPrefix(mem: seq<byte>, f: nat, data: Page, i: nat): seq<byte>
    requires f + PAGE_SIZE <= |mem| && i <= PAGE_SIZE
  {
    mem[..f] + data[..i] + mem[f + i..]
  }

  lemma WriteByteOfPage(tables: map<PageId, Pte>, mem: seq<byte>, p: PageId, data: Page, i: nat)
    requires TableOk(Mmu.State(tables, mem)) && p in tables && i < PAGE_SIZE
    ensures tables[p].frame + PAGE_SIZE <= |mem|
    ensures var f := tables[p].frame;
      WriteU8(Mmu.State(tables, FillPrefix(mem, f, data, i)), p.pid, p.vaddr + i, data[i]).0
      == Mmu.State(tables, FillPrefix(mem, f, data, i + 1))
  {
    AlignUnique(p.vaddr + i, p.vaddr);
    var f := tables[p].frame;
    assert FillPrefix(mem, f, data, i)[f + i := data[i]] == FillPrefix(mem, f, data, i + 1);
  }

  class MemoryService {
    const frames: Frames.PhysicalMemoryManager
    const swap: Swap.SwapManager
    const mmu: MemoryUnit
    var swapped: map<PageId, nat>

    function Model(): F.State
      reads this, frames, swap, swap.disk, mmu, mmu.memory
    {
      F.Kernel(frames.Model(), swap.Model(), swap.disk.Model(), mmu.Model(), swapped)
    }

    ghost predicate Valid()
      reads this, frames, swap, swap.disk, mmu, mmu.memory
    {
      F.Inv(Model()) && mmu.Valid()
    }

    constructor (frames: Frames.PhysicalMemoryManager, swap: Swap.SwapManager, mmu: MemoryUnit)
      requires frames.Valid() && swap.Valid() && mmu.Valid()
      requires mmu.tables == map[] && PAGE_SIZE * |frames.frames| <= |mmu.memory.data|
      ensures Valid() && swapped == map[]
      ensures this.frames == frames && this.swap == swap && this.mmu == mmu
    {
      this.frames, this.swap, this.mmu := frames, swap, mmu;
      swapped := map[];
    }

    method FindVictimPage(order: seq<PageId>, exclude: nat) returns (v: Option<PageId>)
      ensures v == F.FindVictim(order, exclude)
    {
      for i := 0 to |order|
        invariant F.FindVictim(order, exclude) == Pending(order, exclude, i)
      {
        assert order[i..][0] == order[i] && order[i..][1..] == order[i + 1..];
        if order[i].pid != exclude {
          return Some(order[i]);
        }
      }
      if order == [] {
        return None;
      }
      return Some(order[0]);
    }

    // The answer when the first `i` pages all belong to the excluded process.
    ghost function Pending(order: seq<PageId>, exclude: nat, i: nat): Option<PageId>
      requires i <= |order|
    {
      match F.FindVictim(order[i..], exclude)
      case Some(v) => if v.pid != exclude || i == 0 then Some(v) else Some(order[0])
      case None => if order == [] then None else Some(order[0])
    }

    // Take one frame and map the page to it.
    method MapFresh(p: PageId) returns (r: Option<nat>)
      requires Frames.Inv(frames.Model()) && mmu.Valid() && p.vaddr % PAGE_SIZE == 0
      modifies frames, mmu
      ensures old(frames.queue) == [] ==> r == None && Model() == old(Model())
      ensures old(frames.queue) != [] ==> r == Some(old(frames.queue)[0]) && Model() == F.Fresh(old(Model()), p)
    {
      var taken := frames.AllocateMany(p.pid, 1);
      if taken == [] {
        return None;
      }
      mmu.Map(p.pid, p.vaddr, taken[0] * PAGE_SIZE, true);
      return Some(taken[0]);
    }

    // Copy a page into memory through its fresh mapping.
    method LoadPage(p: PageId, f: nat, data: Page)
      requires mmu.Valid() && TableOk(mmu.Model()) && p in mmu.tables && mmu.tables[p].frame == f
      modifies mmu.memory
      ensures mmu.Valid() && mmu.memory.data == F.FillPage(old(mmu.memory.data), f, data)
    {
      ghost var mem := mmu.memory.data;
      for i := 0 to PAGE_SIZE
        invariant mmu.Valid() && |mmu.memory.data| == |mem|
        invariant mmu.memory.data == FillPrefix(mem, f, data, i)
      {
        WriteByteOfPage(mmu.tables, mem, p, data, i);
        var _ := mmu.WriteVirtual(p.pid, p.vaddr + i, data[i]);
      }
    }

    method ReadPage(p: PageId) returns (data: seq<byte>)
      requires mmu.Valid()
      ensures data == F.PageImage(mmu.Model(), p.pid, p.vaddr)
    {
      data := [];
      for i := 0 to PAGE_SIZE
        invariant data == F.ReadBytes(mmu.Model(), p.pid, p.vaddr, i)
      {
        var b := mmu.ReadVirtual(p.pid, p.vaddr + i);
        data := data + [F.ByteOrZero(b)];
      }
    }

    // Bring a page back, if a frame is free.
    method TrySwapIn(p: PageId) returns (n: Option<nat>)
      requires Valid() && p in swapped
      modifies this, frames, swap, mmu, mmu.memory
      ensures mmu.Valid()
      ensures old(frames.queue) == [] ==> n == None && Model() == old(Model())
      ensures old(frames.queue) != [] ==>
        (old(frames.queue)[0] * PAGE_SIZE + PAGE_SIZE <= |old(mmu.memory.data)|
         && n == Some(old(frames.queue)[0]) && Model() == F.SwapIn(old(Model()), p))
    {
      hide Swap.SlotBytes, Frames.AllocateFrames, Frames.Inv, F.FillPage, Swap.Release;
      hide F.Fresh, F.SwapIn, F.SlotsOwned, F.FramesOwned, TableOk, Swap.Inv;
      ghost var k := Model();
      F.SwappedParts(k, p);
      if frames.queue != [] {
        F.FreshFrameUnused(k);
        F.FrameBounds(k, k.frames.queue[0]);
        F.FreshTable(k, p);
        F.FreshParts(k, p);
        F.SwapInParts(k, p);
      }
      var slot := swapped[p];
      var data := swap.ReadSlot(slot);
      var frame := MapFresh(p);
      if frame.None? {
        return None;
      }
      LoadPage(p, frame.value * PAGE_SIZE, data.value);
      swapped := swapped - {p};
      var _ := swap.FreeSlot(slot);
      return frame;
    }

    method EvictPage(v: PageId) returns (ok: bool)
      requires Valid() && v in mmu.tables
      modifies this, frames, swap, swap.disk, mmu
      ensures mmu.Valid() && (Model(), ok) == F.Evict(old(Model()), v)
    {
      hide Swap.Allocate, Swap.SwapOut, F.PageImage, Frames.FreeFrame, Swap.SlotBytes;
      ghost var k := Model();
      Swap.AllocateKeepsInv(k.swap, v.pid, v.vaddr / PAGE_SIZE);
      var slot := swap.AllocateSlot(v.pid, v.vaddr / PAGE_SIZE);
      if slot.None? {
        return false;
      }
      var data := ReadPage(v);
      ok := swap.WriteSlot(slot.value, data);
      if ok {
        var f := mmu.tables[v].frame;
        AlignUnique(v.vaddr, v.vaddr);
        mmu.Unmap(v.pid, v.vaddr);
        var _ := frames.Free(v.pid, f / PAGE_SIZE);
        swapped := swapped[v := slot.value];
      }
    }

    // `order` lists the present pages as the tables enumerate them.
    method HandlePageFault(pid: nat, addr: nat, order: seq<PageId>) returns (r: F.Reply)
      requires Valid() && forall v :: v in order ==> v in mmu.tables
      modifies this, frames, swap, swap.disk, mmu, mmu.memory
      ensures Valid() && (Model(), r) == F.Fault(old(Model()), pid, addr, order)
    {
      var p := PageOf(pid, addr);
      ghost var k := Model();
      AlignFacts(addr);
      F.FaultEffect(k, pid, addr, order);
      if p in swapped {
        var n := TrySwapIn(p);
        if n.Some? {
          return F.Mapped(n.value * PAGE_SIZE);
        }
      }
      var frame := MapFresh(p);
      if frame.Some? {
        return F.Mapped(frame.value * PAGE_SIZE);
      }
      var v := FindVictimPage(order, pid);
      if v.Some? {
        F.VictimListed(order, pid);
        F.EvictPreserves(k, v.value);
        var ok := EvictPage(v.value);
        if ok {
          frame := MapFresh(p);
          if frame.Some? {
            return F.Mapped(frame.value * PAGE_SIZE);
          }
        }
      }
      return F.Exhausted;
    }
  }
}
