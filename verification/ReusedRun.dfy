// What a write that finds no room leads to: the sectors it gave back are handed to the
// next file, and after a restart the first file shows the second one's bytes.
module ReusedRun {
  import opened Prelude
  import opened Disk
  import opened Files
  import opened Paths
  import opened FileService
  import V = Vfs
  import I = VfsImage

  // ---------------------------------------------------------------------
  // Two programs of the default tree
  // ---------------------------------------------------------------------

  const ADD := "/programs/" + "add.asm"
  const BUSY := "/programs/" + "busy.asm"

  ghost predicate Links(v: V.State, at: nat, name: string, to: nat) {
    at in v.nodes && name in v.nodes[at].children && v.nodes[at].children[name] == to && to in v.nodes
  }

  // Both programs are where the default tree has them.
  ghost predicate Linked(v: V.State) {
    && Links(v, V.ROOT, "programs", 7) && Links(v, 7, "add.asm", 8) && Links(v, 7, "busy.asm", 9)
    && v.nodes[8].kind == V.File && v.nodes[9].kind == V.File
  }

  lemma ProgramComponents(name: string)
    requires '/' !in name && name != ""
    ensures V.Components("/programs/" + name) == ["programs", name]
  {
    hide V.Components;
    assert "/programs/" + name == "/" + ("programs" + "/" + name);
    RootedComponents("programs" + "/" + name);
    ComponentsStep("programs", name);
    ComponentsStep(name, "");
  }

  lemma ProgramFound(v: V.State, name: string, i: nat)
    requires Links(v, V.ROOT, "programs", 7) && Links(v, 7, name, i) && '/' !in name && name != ""
    ensures V.LookupPath(v, "/programs/" + name) == Some(i)
  {
    hide V.Components;
    ProgramComponents(name);
    assert V.Walk(v, i, []) == Some(i);
    assert [name][1..] == [] && ["programs", name][1..] == [name];
    assert V.Walk(v, 7, [name]) == Some(i);
  }

  lemma DefaultLinked()
    ensures Linked(I.Default()) && V.ROOT in I.Default().nodes
    ensures I.Default().nodes[8].blocks == [] && I.Default().nodes[9].blocks == []
  {
    hide I.Default, V.Tree;
    I.DefaultTree();
    assert I.PROGRAMS[0] == "add.asm" && I.PROGRAMS[1] == "busy.asm";
  }

  // ---------------------------------------------------------------------
  // Single steps
  // ---------------------------------------------------------------------

  lemma OpenExisting(s: State, path: string, i: nat, mode: OpenMode)
    requires V.LookupPath(s.vfs, path) == Some(i) && i in s.vfs.nodes && s.vfs.nodes[i].kind.File? && i !in s.open
    ensures Open(s, path, false, mode) == (s.(open := s.open[i := Loaded(s.vfs.nodes[i], mode, s.disk)]), Ok(i))
  {
    hide V.LookupPath, Loaded;
  }

  // A sync that succeeds lands on the first fit.
  lemma SyncLands(d: DiskState, f: File, start: nat)
    requires d.Valid() && Placed(d, f) && f.dirty && f.data != [] && f.size == |f.data|
    requires FIRST_DATA_SECTOR <= start && start + Needed(|f.data|) <= d.total
    requires FreeRun(d.Used() - RunOf(f), start, Needed(|f.data|))
    requires forall t :: FIRST_DATA_SECTOR <= t < start ==> !FreeRun(d.Used() - RunOf(f), t, Needed(|f.data|))
    ensures Sync(f, d).0.start == Some(start)
  {
    hide UsedSet, FreeRun, FirstFit, MarkUsedRange, WriteRun, Run;
    ReleasedSpec(d, f);
    assert Needed(|f.data|) > 0;
    FirstFitUnique(d.Used() - RunOf(f), d.total, Needed(|f.data|), start);
  }

  // The used sectors after a sync that finds no room: the old run is gone.
  lemma FailedSyncFrees(d: DiskState, f: File)
    requires d.Valid() && Placed(d, f) && f.dirty && !Fits(d, f)
    ensures Sync(f, d).0 == f && !Sync(f, d).2 && Sync(f, d).1.Valid() && Sync(f, d).1.total == d.total
    ensures Sync(f, d).1.Used() == d.Used() - RunOf(f)
  {
    SyncSucceedsIff(d, f);
    ReleasedSpec(d, f);
    hide Released, Fits, UsedSet, DiskState.Allocate, WriteRun;
  }

  // ---------------------------------------------------------------------
  // The run
  // ---------------------------------------------------------------------

  function Fill(b: byte, n: nat): seq<byte> {
    seq(n, _ => b)
  }

  // A blank disk of eight sectors: four of them can hold data.
  ghost function Blank(): DiskState {
    DiskState(8, MarkUsedRange([0], 0, 3), seq(8, _ => ZERO_SECTOR))
  }

  ghost predicate Small(d: DiskState, used: set<nat>) {
    d.Valid() && d.total == 8 && d.Used() == used
  }

  lemma BlankDisk()
    ensures Small(Blank(), {0, 1, 2})
  {
    hide BitAt, MarkUsedRange;
    MarkRun([0], 0, 3);
    BlankUsed(1);
    assert seq(1, _ => 0 as bv64) == [0];
    assert Run(0, 3) == {0, 1, 2};
    assert UsedSet([0]) == {};
  }

  ghost predicate Untouched(s: State, i: nat) {
    && i in s.open && s.open[i].data == [] && s.open[i].start.None? && s.open[i].position == 0
    && s.open[i].mode.ReadWrite?
  }

  lemma OpenUntouched(s: State, name: string, i: nat)
    requires Inv(s) && Links(s.vfs, V.ROOT, "programs", 7) && Links(s.vfs, 7, name, i) && '/' !in name && name != ""
    requires s.vfs.nodes[i].kind.File? && s.vfs.nodes[i].blocks == [] && i !in s.open
    ensures var t := Open(s, "/programs/" + name, false, ReadWrite).0;
      && Inv(t) && t == s.(open := t.open) && Untouched(t, i) && t.open == s.open[i := t.open[i]]
  {
    hide Inv, V.LookupPath;
    ProgramFound(s.vfs, name, i);
    OpenExisting(s, "/programs/" + name, i, ReadWrite);
    OpenSpec(s, "/programs/" + name, false, ReadWrite);
  }

  lemma BothOpened() returns (s0: State, s1: State, s2: State)
    ensures s0 == Service(I.Default(), I.Default(), Blank(), map[])
    ensures s1 == Open(s0, ADD, false, ReadWrite).0 && s2 == Open(s1, BUSY, false, ReadWrite).0
    ensures Inv(s2) && Linked(s2.vfs) && s2.disk == Blank() && s2.base == s2.vfs == I.Default()
    ensures Untouched(s2, 8) && Untouched(s2, 9)
  {
    hide Inv, Open, I.Default, Blank;
    BlankDisk();
    DefaultLinked();
    s0 := Service(I.Default(), I.Default(), Blank(), map[]);
    NewServiceInv(Blank());
    OpenUntouched(s0, "add.asm", 8);
    s1 := Open(s0, ADD, false, ReadWrite).0;
    OpenUntouched(s1, "busy.asm", 9);
    s2 := Open(s1, BUSY, false, ReadWrite).0;
  }

  lemma FillWritten(f: File, b: byte, n: nat)
    requires f.data == [] && f.position == 0 && f.mode.ReadWrite?
    ensures WriteBytes(f, Fill(b, n)) == (f.(data := Fill(b, n), position := n, dirty := true, size := n), Ok(n))
  {
    assert Put([], 0, Fill(b, n)) == Fill(b, n);
  }

  // One sector of bytes for a file that has none lands on sector 4.
  lemma LandsOnFour(d: DiskState, f: File, b: byte)
    requires Small(d, {0, 1, 2}) && f.data == Fill(b, 512) && f.size == 512 && f.dirty && f.start.None?
    ensures Fits(d, f) && Sync(f, d).2
    ensures Sync(f, d).0.start == Some(4) && SyncedApart(d, f, Sync(f, d).1, Sync(f, d).0)
    ensures Small(Sync(f, d).1, {0, 1, 2, 4}) && Sync(f, d).0.count == 1
    ensures ReadRun(Sync(f, d).1, 4, 1) == Fill(b, 512)
  {
    hide Sync, UsedSet, ReadRun;
    assert Needed(512) == 1 && d.Used() - RunOf(f) == {0, 1, 2};
    assert FreeRun(d.Used() - RunOf(f), 4, 1);
    SyncLands(d, f, 4);
    SyncSucceedsIff(d, f);
    SyncSpec(d, f);
    var (g, e, _) := Sync(f, d);
    assert RunOf(g) == {4};
    ReadRunLength(e, 4, 1);
    assert ReadRun(e, 4, 1) == ReadRun(e, 4, 1)[..512];
  }

  lemma ReadRunLength(d: DiskState, start: nat, count: nat)
    requires start + count <= |d.sectors|
    ensures |ReadRun(d, start, count)| == 512 * count
  {
  }

  // The first write: the file lies on sector 4, and its node says so.
  lemma FirstWrite(s: State) returns (t: State)
    requires Inv(s) && Linked(s.vfs) && Small(s.disk, {0, 1, 2}) && Untouched(s, 8) && Untouched(s, 9)
    ensures (t, Ok(512)) == WriteFile(s, 8, Fill(7, 512)) && t.base == s.base
    ensures t.vfs.nodes.Keys == s.vfs.nodes.Keys
    ensures Inv(t) && Linked(t.vfs) && Small(t.disk, {0, 1, 2, 4}) && Untouched(t, 9)
    ensures 8 in t.open && t.open[8].data == Fill(7, 512) && t.open[8].start == Some(4) && t.open[8].count == 1
    ensures t.open[8].mode.ReadWrite? && t.open[8].position == 512
    ensures t.vfs.nodes[8].blocks == [4] && t.vfs.nodes[8].size == 512
  {
    hide Inv, Fits, Sync, SyncedApart, V.LookupPath;
    InvParts(s);
    FillWritten(s.open[8], 7, 512);
    var f := WriteBytes(s.open[8], Fill(7, 512)).0;
    LandsOnFour(s.disk, f, 7);
    WriteSpec(s, 8, Fill(7, 512));
    t := WriteFile(s, 8, Fill(7, 512)).0;
    NodesAfterWrite(s, 8, Fill(7, 512));
    SyncShape(s.disk, f);
    assert Blocks(4, 1) == [4];
  }

  lemma SyncShape(d: DiskState, f: File)
    requires d.Valid()
    ensures var g := Sync(f, d).0; g.data == f.data && g.mode == f.mode && g.position == f.position
  {
    hide DiskState.Allocate, Released, WriteRun;
  }

  // The second write wants five sectors in a row, of which there are four: sector 4 is
  // given back, nothing is stored, and the answer is success.
  lemma SecondWrite(s: State) returns (t: State)
    requires Inv(s) && Linked(s.vfs) && Small(s.disk, {0, 1, 2, 4}) && Untouched(s, 9)
    requires 8 in s.open && s.open[8].data == Fill(7, 512) && s.open[8].start == Some(4) && s.open[8].count == 1
    requires s.open[8].mode.ReadWrite? && s.open[8].position == 512
    ensures (t, Ok(2048)) == WriteFile(s, 8, Fill(7, 2048)) && t.base == s.base
    ensures !Fits(s.disk, WriteBytes(s.open[8], Fill(7, 2048)).0) && !Inv(t)
    ensures t.vfs == s.vfs && Small(t.disk, {0, 1, 2}) && Untouched(t, 9)
  {
    hide Inv, Sync, UsedSet, ReadRun, V.LookupPath;
    InvParts(s);
    OpenPlaced(s, 8);
    var f := WriteBytes(s.open[8], Fill(7, 2048)).0;
    PlacedAfterWrite(s.disk, s.open[8], Fill(7, 2048));
    assert |f.data| == 2560 && Needed(2560) == 5;
    WriteKeepsInvIff(s, 8, Fill(7, 2048));
    FailedSyncFrees(s.disk, f);
    assert RunOf(f) == {4};
    t := WriteFile(s, 8, Fill(7, 2048)).0;
  }

  // The third write, to the other file, takes sector 4.
  lemma ThirdWrite(s: State) returns (t: State)
    requires VfsInv(s.base, s.vfs) && Linked(s.vfs) && Small(s.disk, {0, 1, 2}) && Untouched(s, 9)
    ensures (t, Ok(512)) == WriteFile(s, 9, Fill(9, 512)) && t.base == s.base
    ensures t.vfs.nodes.Keys == s.vfs.nodes.Keys
    ensures VfsInv(t.base, t.vfs) && Linked(t.vfs) && t.vfs.nodes[8] == s.vfs.nodes[8]
    ensures Small(t.disk, {0, 1, 2, 4}) && ReadRun(t.disk, 4, 1) == Fill(9, 512)
  {
    hide Fits, Sync, SyncedApart, VfsInv, UsedSet, ReadRun;
    FillWritten(s.open[9], 9, 512);
    LandsOnFour(s.disk, WriteBytes(s.open[9], Fill(9, 512)).0, 9);
    t := WriteFile(s, 9, Fill(9, 512)).0;
    NodesAfterWrite(s, 9, Fill(9, 512));
    WriteKeepsVfsInv(s, 9, Fill(9, 512));
  }

  // After a restart the first program opens with the second one's bytes.
  lemma ReopenedForeign(s: State, order: seq<nat>)
    requires VfsInv(s.base, s.vfs) && Linked(s.vfs) && I.Enumerates(s.vfs, order)
    requires s.vfs.nodes[8].blocks == [4] && s.vfs.nodes[8].size == 512
    requires Small(s.disk, {0, 1, 2, 4}) && ReadRun(s.disk, 4, 1) == Fill(9, 512)
    ensures var (u, r) := Open(Restart(s, order), ADD, false, Read);
      r == Ok(8) && 8 in u.open && u.open[8].data == Fill(9, 512)
  {
    hide VfsInv, UsedSet, ReadRun, I.Load, I.Save, I.Enumerates, V.LookupPath;
    var t := Restart(s, order);
    ReloadedDisk(s.disk);
    RunFrame(s.disk, t.disk, 4, 1);
    NextIsFresh(s.base, s.vfs);
    ProgramFound(s.vfs, "add.asm", 8);
    RestartVfs(s, order);
    I.LoadAt(s.base, s.vfs, order, 8);
    assert t.vfs.nodes[8] == s.vfs.nodes[8].(refs := 0, deleted := false);
    OpenExisting(t, ADD, 8, Read);
    ReadRunLength(t.disk, 4, 1);
  }

  // A file is written, grown beyond what the disk has room for, and the reply is success;
  // another file is written; after a restart the first file holds the second one's bytes.
  lemma ForeignBytes(order: seq<nat>)
      returns (s0: State, s1: State, s2: State, s3: State, s4: State, s5: State, u: State)
    requires I.Enumerates(I.Default(), order)
    ensures s0 == Service(I.Default(), I.Default(), Blank(), map[]) && Inv(s0)
    ensures s1 == Open(s0, ADD, false, ReadWrite).0 && s2 == Open(s1, BUSY, false, ReadWrite).0
    ensures s2.disk.Valid() && 8 in s2.open && (s3, Ok(512)) == WriteFile(s2, 8, Fill(7, 512)) && Inv(s3)
    ensures s3.disk.Valid() && 8 in s3.open && (s4, Ok(2048)) == WriteFile(s3, 8, Fill(7, 2048)) && !Inv(s4)
    ensures s4.disk.Valid() && 9 in s4.open && (s5, Ok(512)) == WriteFile(s4, 9, Fill(9, 512))
    ensures s5.disk.Valid() && I.Enumerates(s5.vfs, order)
    ensures (u, Ok(8)) == Open(Restart(s5, order), ADD, false, Read)
    ensures 8 in u.open && u.open[8].data == Fill(9, 512)
  {
    hide Inv, Open, I.Default, Blank, WriteFile, VfsInv, Restart;
    BlankDisk();
    NewServiceInv(Blank());
    s0, s1, s2 := BothOpened();
    s3 := FirstWrite(s2);
    InvParts(s3);
    s4 := SecondWrite(s3);
    s5 := ThirdWrite(s4);
    assert s5.vfs.nodes.Keys == I.Default().nodes.Keys;
    ReopenedForeign(s5, order);
    u := Open(Restart(s5, order), ADD, false, Read).0;
  }
}
