// A process's address space as the programs see it: 4096-byte pages at aligned
// addresses, read and written a byte (or an aligned word) at a time.
module AddressSpace {
  import opened Prelude

  const PAGE_SIZE: nat := 4096

  type Page = s: seq<byte> | |s| == 4096 witness seq(4096, _ => 0)

  // The pages that are present, by address.
  type Memory = map<nat, Page>

  // `addr & !(PAGE_SIZE - 1)`
  function AlignDown(a: nat): nat {
    a - a % PAGE_SIZE
  }

  // Little-endian words.
  function Word32(b0: byte, b1: byte, b2: byte, b3: byte): nat {
    b0 + 0x100 * b1 + 0x1_0000 * b2 + 0x100_0000 * b3
  }

  function Bytes32(x: nat): (s: seq<byte>)
    ensures |s| == 4
  {
    [x % 0x100, x / 0x100 % 0x100, x / 0x1_0000 % 0x100, x / 0x100_0000 % 0x100]
  }

  // Four bytes keep a number modulo 2^32, in both directions.
  lemma WordRoundTrip(x: nat)
    ensures Word32(Bytes32(x)[0], Bytes32(x)[1], Bytes32(x)[2], Bytes32(x)[3]) == x % TWO_32
  {
    var a, b, c := x / 0x100, x / 0x1_0000, x / 0x100_0000;
    assert b == a / 0x100 && c == b / 0x100;
    assert x == 0x100 * a + x % 0x100 && a == 0x100 * b + a % 0x100 && b == 0x100 * c + b % 0x100;
    assert c == 0x100 * (c / 0x100) + c % 0x100;
    assert x == TWO_32 * (c / 0x100) + Word32(x % 0x100, a % 0x100, b % 0x100, c % 0x100);
  }

  lemma BytesRoundTrip(b0: byte, b1: byte, b2: byte, b3: byte)
    ensures Bytes32(Word32(b0, b1, b2, b3)) == [b0, b1, b2, b3]
  {
    var x := Word32(b0, b1, b2, b3);
    LowByte(b1 + 0x100 * b2 + 0x1_0000 * b3, b0);
    LowByte(b2 + 0x100 * b3, b1);
    LowByte(b3, b2);
    assert x / 0x1_0000 == x / 0x100 / 0x100 && x / 0x100_0000 == x / 0x100 / 0x100 / 0x100;
  }

  lemma LowByte(high: nat, low: byte)
    ensures (low + 0x100 * high) / 0x100 == high && (low + 0x100 * high) % 0x100 == low
  {
  }

  function Read8(m: Memory, a: nat): Option<byte> {
    if AlignDown(a) in m then Some(m[AlignDown(a)][a % PAGE_SIZE]) else None
  }

  function Read32(m: Memory, a: nat): Option<nat> {
    if AlignDown(a) in m && a % 4 == 0 then
      var p, o := m[AlignDown(a)], a % PAGE_SIZE;
      Some(Word32(p[o], p[o + 1], p[o + 2], p[o + 3]))
    else None
  }

  function Write8(m: Memory, a: nat, b: byte): Option<Memory> {
    if AlignDown(a) in m then
      var v := AlignDown(a);
      Some(m[v := m[v][a % PAGE_SIZE := b]])
    else None
  }

  lemma AlignFacts(a: nat)
    ensures AlignDown(a) <= a < AlignDown(a) + PAGE_SIZE
    ensures AlignDown(a) % PAGE_SIZE == 0
    ensures AlignDown(AlignDown(a)) == AlignDown(a)
    ensures a == AlignDown(a) + a % PAGE_SIZE
  {
  }

  lemma AlignUnique(a: nat, v: nat)
    requires v % PAGE_SIZE == 0 && v <= a < v + PAGE_SIZE
    ensures AlignDown(a) == v && a % PAGE_SIZE == a - v
  {
  }
}

// Physical memory and the page tables in front of it.
module Mmu {
  import opened Prelude
  import opened AddressSpace

  datatype PageId = PageId(pid: nat, vaddr: nat)

  datatype Pte = Pte(frame: nat, present: bool, writable: bool)

  datatype Access = Read | Write | Execute

  datatype MmuError = PageNotPresent | PermissionDenied | InvalidPhysicalAddress

  datatype MemoryError = OutOfBounds | Misaligned

  datatype State = State(tables: map<PageId, Pte>, mem: seq<byte>)

  function PageOf(pid: nat, vaddr: nat): PageId {
    PageId(pid, AlignDown(vaddr))
  }

  function Translate(s: State, pid: nat, vaddr: nat, access: Access): Result<nat, MmuError> {
    var p := PageOf(pid, vaddr);
    if p !in s.tables || !s.tables[p].present then Err(PageNotPresent)
    else if !access.Read? && !s.tables[p].writable then Err(PermissionDenied)
    else Ok(s.tables[p].frame + (vaddr - AlignDown(vaddr)))
  }

  function ReadU8(s: State, pid: nat, vaddr: nat): Result<byte, MmuError> {
    match Translate(s, pid, vaddr, Read)
    case Err(e) => Err(e)
    case Ok(a) => if a < |s.mem| then Ok(s.mem[a]) else Err(InvalidPhysicalAddress)
  }

  function ReadU32(s: State, pid: nat, vaddr: nat): Result<nat, MmuError> {
    match Translate(s, pid, vaddr, Read)
    case Err(e) => Err(e)
    case Ok(a) =>
      if a % 4 == 0 && a + 4 <= |s.mem| then Ok(Word32(s.mem[a], s.mem[a + 1], s.mem[a + 2], s.mem[a + 3]))
      else Err(InvalidPhysicalAddress)
  }

  function WriteU8(s: State, pid: nat, vaddr: nat, b: byte): (State, Result<(), MmuError>) {
    match Translate(s, pid, vaddr, Write)
    case Err(e) => (s, Err(e))
    case Ok(a) => if a < |s.mem| then (s.(mem := s.mem[a := b]), Ok(())) else (s, Err(InvalidPhysicalAddress))
  }

  function MapPage(s: State, pid: nat, vaddr: nat, paddr: nat, writable: bool): State {
    s.(tables := s.tables[PageOf(pid, vaddr) := Pte(AlignDown(paddr), true, writable)])
  }

  function UnmapPage(s: State, pid: nat, vaddr: nat): State {
    s.(tables := s.tables - {PageOf(pid, vaddr)})
  }

  // ---------------------------------------------------------------------
  // What the tables mean
  // ---------------------------------------------------------------------

  // Every entry is present and writable and names a whole frame of memory; no two
  // entries name the same one.
  ghost predicate TableOk(s: State) {
    && (forall p :: p in s.tables ==>
          && p.vaddr % PAGE_SIZE == 0 && s.tables[p].present && s.tables[p].writable
          && s.tables[p].frame % PAGE_SIZE == 0 && s.tables[p].frame + PAGE_SIZE <= |s.mem|)
    && (forall p, q :: p in s.tables && q in s.tables && p != q ==> s.tables[p].frame != s.tables[q].frame)
  }

  ghost function PageBytes(s: State, p: PageId): Page
    requires TableOk(s) && p in s.tables
  {
    var f := s.tables[p].frame;
    s.mem[f..f + PAGE_SIZE]
  }

  // The present pages of one process.
  ghost function View(s: State, pid: nat): Memory
    requires TableOk(s)
  {
    map p | p in s.tables && p.pid == pid :: p.vaddr := PageBytes(s, p)
  }

  lemma ViewKeys(s: State, pid: nat, v: nat)
    requires TableOk(s)
    ensures v in View(s, pid) <==> PageId(pid, v) in s.tables
    ensures v in View(s, pid) ==> View(s, pid)[v] == PageBytes(s, PageId(pid, v))
  {
    if v in View(s, pid) {
      var p :| p in s.tables && p.pid == pid && p.vaddr == v;
      assert p == PageId(pid, v);
    }
    if PageId(pid, v) in s.tables {
      assert PageId(pid, v).vaddr in View(s, pid);
    }
  }

  // Reading through the tables is reading the process's own address space.
  lemma ReadAgrees(s: State, pid: nat, vaddr: nat)
    requires TableOk(s)
    ensures ReadU8(s, pid, vaddr) == match Read8(View(s, pid), vaddr) case Some(b) => Ok(b) case None => Err(PageNotPresent)
  {
    ViewKeys(s, pid, AlignDown(vaddr));
    hide View;
    var p := PageOf(pid, vaddr);
    if p in s.tables {
      var f, o := s.tables[p].frame, vaddr % PAGE_SIZE;
      assert PageBytes(s, p)[o] == s.mem[f + o];
    }
  }

  // A word read succeeds exactly on a present page at a multiple of four.
  lemma WordReadAgrees(s: State, pid: nat, vaddr: nat)
    requires TableOk(s)
    ensures ReadU32(s, pid, vaddr).Ok? <==> Read32(View(s, pid), vaddr).Some?
    ensures ReadU32(s, pid, vaddr).Ok? ==> ReadU32(s, pid, vaddr).value == Read32(View(s, pid), vaddr).value
  {
    hide View, Word32, AlignDown;
    AlignFacts(vaddr);
    ViewKeys(s, pid, AlignDown(vaddr));
    var p := PageOf(pid, vaddr);
    if p in s.tables {
      FrameOffset(s.tables[p].frame, vaddr);
      if vaddr % 4 == 0 {
        WordOfPage(s, p, vaddr % PAGE_SIZE);
      }
    }
  }

  lemma WordOfPage(s: State, p: PageId, o: nat)
    requires TableOk(s) && p in s.tables && o + 4 <= PAGE_SIZE
    ensures var (f, page) := (s.tables[p].frame, PageBytes(s, p));
      && f + o + 4 <= |s.mem|
      && page[o] == s.mem[f + o] && page[o + 1] == s.mem[f + o + 1]
      && page[o + 2] == s.mem[f + o + 2] && page[o + 3] == s.mem[f + o + 3]
  {
  }

  lemma FrameOffset(f: nat, a: nat)
    requires f % PAGE_SIZE == 0
    ensures (f + a % PAGE_SIZE) % 4 == a % 4 && (a % PAGE_SIZE) % 4 == a % 4
    ensures a % 4 == 0 ==> a % PAGE_SIZE + 4 <= PAGE_SIZE
  {
    var o := a % PAGE_SIZE;
    QuarterMod(1024 * (a / PAGE_SIZE), o);
    QuarterMod(1024 * (f / PAGE_SIZE), o);
  }

  lemma QuarterMod(k: nat, o: nat)
    ensures (4 * k + o) % 4 == o % 4
  {
  }

  // Writing through the tables changes the writer's byte, and no byte of any other
  // page of any process.
  lemma WriteAgrees(s: State, pid: nat, vaddr: nat, b: byte)
    requires TableOk(s)
    ensures var (s', r) := WriteU8(s, pid, vaddr, b);
      && TableOk(s') && s'.tables == s.tables && |s'.mem| == |s.mem|
      && (r.Ok? <==> Write8(View(s, pid), vaddr, b).Some?)
      && (r.Err? ==> s' == s)
      && (r.Ok? ==> View(s', pid) == Write8(View(s, pid), vaddr, b).value)
      && (forall p :: p in s.tables && p != PageOf(pid, vaddr) ==> PageBytes(s', p) == PageBytes(s, p))
      && (r.Ok? ==> PageBytes(s', PageOf(pid, vaddr)) == PageBytes(s, PageOf(pid, vaddr))[vaddr % PAGE_SIZE := b])
  {
    hide View;
    var (s', r) := WriteU8(s, pid, vaddr, b);
    var w := PageOf(pid, vaddr);
    ViewKeys(s, pid, AlignDown(vaddr));
    if w in s.tables {
      var a := s.tables[w].frame + vaddr % PAGE_SIZE;
      forall p | p in s.tables && p != w
        ensures PageBytes(s', p) == PageBytes(s, p)
      {
        FramesApart(s.tables[p].frame, s.tables[w].frame, a);
      }
      assert PageBytes(s', w) == PageBytes(s, w)[vaddr % PAGE_SIZE := b];
      ViewAfterWrite(s, s', pid, vaddr, b);
    }
  }

  lemma FramesApart(f: nat, g: nat, a: nat)
    requires f % PAGE_SIZE == 0 && g % PAGE_SIZE == 0 && f != g
    requires g <= a < g + PAGE_SIZE
    ensures a < f || f + PAGE_SIZE <= a
  {
  }

  lemma ViewAfterWrite(s: State, s': State, pid: nat, vaddr: nat, b: byte)
    requires TableOk(s) && TableOk(s') && s'.tables == s.tables && PageOf(pid, vaddr) in s.tables
    requires forall p :: p in s.tables && p != PageOf(pid, vaddr) ==> PageBytes(s', p) == PageBytes(s, p)
    requires PageBytes(s', PageOf(pid, vaddr)) == PageBytes(s, PageOf(pid, vaddr))[vaddr % PAGE_SIZE := b]
    ensures Write8(View(s, pid), vaddr, b) == Some(View(s', pid))
  {
    var m, m' := View(s, pid), View(s', pid);
    ViewKeys(s, pid, AlignDown(vaddr));
    var w := m[AlignDown(vaddr) := m[AlignDown(vaddr)][vaddr % PAGE_SIZE := b]];
    forall v
      ensures v in m' <==> v in w
      ensures v in m' ==> m'[v] == w[v]
    {
      if v >= 0 {
        ViewKeys(s, pid, v);
        ViewKeys(s', pid, v);
      }
    }
    assert m' == w;
  }

  // ---------------------------------------------------------------------
  // The objects
  // ---------------------------------------------------------------------

  class PhysicalMemory {
    var data: seq<byte>
    const size: nat

    ghost predicate Valid()
      reads this
    {
      |data| == size
    }

    constructor (size: nat)
      requires 0 < size
      ensures Valid() && this.size == size && data == seq(size, _ => 0)
    {
      this.size := size;
      data := seq(size, _ => 0);
    }

    method ReadByte(addr: nat) returns (r: Result<byte, MemoryError>)
      requires Valid()
      ensures r == if addr < |data| then Ok(data[addr]) else Err(OutOfBounds)
    {
      if addr + 1 > size {
        return Err(OutOfBounds);
      }
      return Ok(data[addr]);
    }

    method ReadWord(addr: nat) returns (r: Result<nat, MemoryError>)
      requires Valid()
      ensures addr % 4 != 0 ==> r == Err(Misaligned)
      ensures addr % 4 == 0 && addr + 4 > |data| ==> r == Err(OutOfBounds)
      ensures addr % 4 == 0 && addr + 4 <= |data| ==>
        r == Ok(Word32(data[addr], data[addr + 1], data[addr + 2], data[addr + 3]))
    {
      if addr % 4 != 0 {
        return Err(Misaligned);
      }
      if addr + 4 > size {
        return Err(OutOfBounds);
      }
      return Ok(Word32(data[addr], data[addr + 1], data[addr + 2], data[addr + 3]));
    }

    method WriteByte(addr: nat, b: byte) returns (r: Result<(), MemoryError>)
      requires Valid()
      modifies this
      ensures Valid()
      ensures addr < |old(data)| ==> r == Ok(()) && data == old(data)[addr := b]
      ensures addr >= |old(data)| ==> r == Err(OutOfBounds) && data == old(data)
    {
      if addr + 1 > size {
        return Err(OutOfBounds);
      }
      data := data[addr := b];
      return Ok(());
    }

    // A word written is the word read back, modulo its width.
    method WriteWord(addr: nat, x: nat) returns (r: Result<(), MemoryError>)
      requires Valid()
      modifies this
      ensures Valid()
      ensures r.Err? ==> data == old(data) && (addr % 4 != 0 || addr + 4 > |data|)
      ensures r.Ok? ==>
        (addr % 4 == 0 && addr + 4 <= |data|
         && Word32(data[addr], data[addr + 1], data[addr + 2], data[addr + 3]) == x % TWO_32
         && data == old(data)[..addr] + data[addr..addr + 4] + old(data)[addr + 4..])
    {
      if addr % 4 != 0 {
        return Err(Misaligned);
      }
      if addr + 4 > size {
        return Err(OutOfBounds);
      }
      var bytes := Bytes32(x);
      data := data[addr := bytes[0]];
      data := data[addr + 1 := bytes[1]];
      data := data[addr + 2 := bytes[2]];
      data := data[addr + 3 := bytes[3]];
      WordRoundTrip(x);
      return Ok(());
    }
  }

  class MemoryUnit {
    var tables: map<PageId, Pte>
    const memory: PhysicalMemory

    function Model(): State
      reads this, memory
    {
      State(tables, memory.data)
    }

    ghost predicate Valid()
      reads this, memory
    {
      memory.Valid()
    }

    constructor (memory: PhysicalMemory)
      requires memory.Valid()
      ensures Valid() && tables == map[] && this.memory == memory
    {
      this.memory := memory;
      tables := map[];
    }

    method Map(pid: nat, vaddr: nat, paddr: nat, writable: bool)
      modifies this
      ensures Model() == MapPage(old(Model()), pid, vaddr, paddr, writable)
    {
      tables := tables[PageId(pid, AlignDown(vaddr)) := Pte(AlignDown(paddr), true, writable)];
    }

    method Unmap(pid: nat, vaddr: nat)
      modifies this
      ensures Model() == UnmapPage(old(Model()), pid, vaddr)
    {
      tables := tables - {PageId(pid, AlignDown(vaddr))};
    }

    method ReadVirtual(pid: nat, vaddr: nat) returns (r: Result<byte, MmuError>)
      requires Valid()
      ensures r == ReadU8(Model(), pid, vaddr)
    {
      var a := Translate(Model(), pid, vaddr, Read);
      if a.Err? {
        return Err(a.error);
      }
      var b := memory.ReadByte(a.value);
      return if b.Ok? then Ok(b.value) else Err(InvalidPhysicalAddress);
    }

    method ReadVirtualWord(pid: nat, vaddr: nat) returns (r: Result<nat, MmuError>)
      requires Valid()
      ensures r == ReadU32(Model(), pid, vaddr)
    {
      var a := Translate(Model(), pid, vaddr, Read);
      if a.Err? {
        return Err(a.error);
      }
      var w := memory.ReadWord(a.value);
      return if w.Ok? then Ok(w.value) else Err(InvalidPhysicalAddress);
    }

    method WriteVirtual(pid: nat, vaddr: nat, b: byte) returns (r: Result<(), MmuError>)
      requires Valid()
      modifies memory
      ensures Valid() && (Model(), r) == WriteU8(old(Model()), pid, vaddr, b)
    {
      var a := Translate(Model(), pid, vaddr, Write);
      if a.Err? {
        return Err(a.error);
      }
      var w := memory.WriteByte(a.value, b);
      return if w.Ok? then Ok(()) else Err(InvalidPhysicalAddress);
    }
  }
}
