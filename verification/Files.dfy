// An open file and its run of sectors.
module Files {
  import opened Prelude
  import opened Disk

  datatype OpenMode = Read | Write | ReadWrite | Append

  datatype FileError = PermissionDenied | NoSpace | BadSector

  // `size` is the size in the metadata; `start` and `count` the run on disk, if any.
  datatype File = File(
    inode: nat,
    data: seq<byte>,
    position: nat,
    mode: OpenMode,
    dirty: bool,
    eof: bool,
    start: Option<nat>,
    count: nat,
    size: nat)

  function NewFile(inode: nat, mode: OpenMode): File {
    File(inode, [], 0, mode, false, false, None, 0, 0)
  }

  // ---------------------------------------------------------------------
  // Reading and writing
  // ---------------------------------------------------------------------

  // `data` with `bytes` laid over it at `pos`; a gap is filled with zeros.
  function Put(data: seq<byte>, pos: nat, bytes: seq<byte>): seq<byte> {
    seq(Max(|data|, pos + |bytes|), i requires 0 <= i < Max(|data|, pos + |bytes|) =>
      if pos <= i < pos + |bytes| then bytes[i - pos] else if i < |data| then data[i] else 0)
  }

  function Resized(data: seq<byte>, n: nat): seq<byte> {
    if n <= |data| then data[..n] else data + seq(n - |data|, _ => 0)
  }

  function WritePosition(f: File): nat {
    if f.mode.Append? then |f.data| else f.position
  }

  function WriteBytes(f: File, bytes: seq<byte>): (File, Result<nat, FileError>) {
    if f.mode.Read? then (f, Err(PermissionDenied))
    else
      var pos := WritePosition(f);
      var data := Put(f.data, pos, bytes);
      (f.(data := data, position := pos + |bytes|, dirty := true, size := |data|), Ok(|bytes|))
  }

  function ReadBytes(f: File, count: nat): (File, Result<seq<byte>, FileError>) {
    if f.mode.Write? then (f, Err(PermissionDenied))
    else if f.position >= |f.data| then (f.(eof := true), Ok([]))
    else
      var end := Min(f.position + count, |f.data|);
      (f.(position := end, eof := end == |f.data|), Ok(f.data[f.position..end]))
  }

  function Truncate(f: File, n: nat): File {
    f.(data := Resized(f.data, n), size := n, dirty := true)
  }

  // What was written can be read back from where it was written.
  lemma WriteThenRead(f: File, bytes: seq<byte>)
    requires f.mode.ReadWrite?
    ensures var w := WriteBytes(f, bytes).0;
      ReadBytes(w.(position := f.position), |bytes|).1 == Ok(bytes)
  {
    var w := WriteBytes(f, bytes).0;
    assert w.data[f.position..f.position + |bytes|] == bytes;
  }

  // Reads return the bytes from the cursor on, stop at the end and move the cursor
  // past what they return: two reads in a row are one.
  lemma ReadsConcatenate(f: File, m: nat, n: nat)
    requires !f.mode.Write? && f.position <= |f.data|
    ensures var (g, r) := ReadBytes(f, m);
      var (h, q) := ReadBytes(g, n);
      var (k, both) := ReadBytes(f, m + n);
      r.Ok? && q.Ok? && both == Ok(r.value + q.value) && h.position == k.position
  {
    var a, b, c := f.position, Min(f.position + m, |f.data|), Min(f.position + (m + n), |f.data|);
    assert f.data[a..b] + f.data[b..c] == f.data[a..c];
  }

  // ---------------------------------------------------------------------
  // Disk and file
  // ---------------------------------------------------------------------

  function Needed(n: nat): nat {
    (n + 511) / 512
  }

  function Released(d: DiskState, f: File): DiskState
    requires d.Valid()
  {
    if f.start.Some? && f.count > 0 then d.Free(f.start.value, f.count) else d
  }

  // The old run is given back before a new one is looked for.
  ghost function Sync(f: File, d: DiskState): (File, DiskState, bool)
    requires d.Valid()
  {
    if !f.dirty && f.start.Some? then (f, d, true)
    else
      var n := Needed(|f.data|);
      var d1 := Released(d, f);
      ReleasedSpec(d, f);
      if n == 0 then (f.(start := None, count := 0, dirty := false), d1, true)
      else
        match d1.Allocate(n)
        case (d2, None) => (f, d1, false)
        case (d2, Some(s)) => (f.(start := Some(s), count := n, dirty := false), WriteRun(d2, s, f.data, n), true)
  }

  function Load(f: File, d: DiskState): (File, Result<(), FileError>) {
    if f.start.None? || f.count == 0 then (f.(data := []), Ok(()))
    else if f.start.value + f.count > |d.sectors| then (f, Err(BadSector))
    else
      var bytes := ReadRun(d, f.start.value, f.count);
      (f.(data := if f.size < |bytes| then bytes[..f.size] else bytes, dirty := false, eof := false, position := 0), Ok(()))
  }

  ghost function RunOf(f: File): set<nat> {
    if f.start.Some? then Run(f.start.value, f.count) else {}
  }

  // The file's run consists of used data sectors.
  ghost predicate Placed(d: DiskState, f: File) {
    f.start.Some? ==>
      && FIRST_DATA_SECTOR <= f.start.value && 0 < f.count && f.start.value + f.count <= d.total
      && RunOf(f) <= d.Used()
  }

  // The run holds the file's bytes.
  ghost predicate Stored(d: DiskState, f: File) {
    if f.start.None? then f.data == []
    else
      && !f.dirty && f.size == |f.data| && f.count == Needed(|f.data|)
      && f.start.value + f.count <= |d.sectors|
      && ReadRun(d, f.start.value, f.count)[..|f.data|] == f.data
  }

  lemma ReleasedSpec(d: DiskState, f: File)
    requires d.Valid()
    ensures var e := Released(d, f);
      && e.Valid() && e.total == d.total && |e.sectors| == |d.sectors| && |e.bitmap| == |d.bitmap|
      && (forall s :: 1 <= s < |d.sectors| ==> e.sectors[s] == d.sectors[s])
      && (Placed(d, f) ==> e.Used() == d.Used() - RunOf(f))
  {
    if f.start.Some? && f.count > 0 {
      FreeSpec(d, f.start.value, f.count);
      UnmarkRun(d.bitmap, f.start.value, f.count);
    }
  }

  // The sync of a dirty file fits if, once the file's own run is given back, enough free
  // sectors lie in a row.
  ghost predicate Fits(d: DiskState, f: File) {
    var n := Needed(|f.data|);
    n == 0 || exists t :: FIRST_DATA_SECTOR <= t && t + n <= d.total && FreeRun(d.Used() - RunOf(f), t, n)
  }

  lemma SyncSucceedsIff(d: DiskState, f: File)
    requires d.Valid() && Placed(d, f) && f.dirty
    ensures Sync(f, d).2 <==> Fits(d, f)
  {
    ReleasedSpec(d, f);
    var n := Needed(|f.data|);
    if n > 0 {
      AllocateSpec(Released(d, f), n);
      var r := Released(d, f).Allocate(n).1;
      if r.Some? {
        assert FreeRun(d.Used() - RunOf(f), r.value, n);
      }
    }
  }

  lemma WriteRunKeeps(d: DiskState, start: nat, data: seq<byte>, count: nat)
    ensures var e := WriteRun(d, start, data, count);
      && e.total == d.total && e.bitmap == d.bitmap && |e.sectors| == |d.sectors|
      && forall s :: 0 <= s < |d.sectors| && s !in Run(start, count) ==> e.sectors[s] == d.sectors[s]
  {
  }

  // Writing a file's bytes on a run taken from a disk.
  lemma StoreOnRun(d1: DiskState, f: File)
    requires d1.Valid() && f.data != [] && f.size == |f.data| && d1.Allocate(Needed(|f.data|)).1.Some?
    ensures var n := Needed(|f.data|);
      var (d2, r) := d1.Allocate(n);
      var (g, e) := (f.(start := r, count := n, dirty := false), WriteRun(d2, r.value, f.data, n));
      && e.Valid() && e.total == d1.total && |e.bitmap| == |d1.bitmap|
      && Placed(e, g) && Stored(e, g)
      && e.Used() == d1.Used() + RunOf(g) && RunOf(g) !! d1.Used()
      && forall s :: 1 <= s < |d1.sectors| && s !in RunOf(g) ==> e.sectors[s] == d1.sectors[s]
  {
    hide FirstFit, UsedSet, MarkUsedRange, BitmapBytes, ReadRun, WriteRun, DiskState.Allocate, Run;
    var n := Needed(|f.data|);
    AllocateSpec(d1, n);
    var (d2, r) := d1.Allocate(n);
    assert r.value + n <= |d2.sectors| && |f.data| <= 512 * n;
    RunRoundTrip(d2, r.value, f.data, n);
    WriteRunKeeps(d2, r.value, f.data, n);
  }

  // A sync that finds no room returns the file as it was: dirty, with bytes that are
  // nowhere on disk.
  lemma FailedSync(d: DiskState, f: File, e: DiskState)
    requires d.Valid() && Placed(d, f) && f.dirty && !Fits(d, f)
    ensures Sync(f, d).0 == f && !Sync(f, d).2 && !Stored(e, f)
  {
    SyncSucceedsIff(d, f);
    hide ReadRun, Released, Placed;
  }

  // A successful sync takes a run no other file owns, stores the bytes on it and leaves
  // every sector in use by anybody else as it was.
  lemma SyncSpec(d: DiskState, f: File)
    requires d.Valid() && Placed(d, f) && f.dirty && f.size == |f.data| && Sync(f, d).2
    ensures var (g, e, _) := Sync(f, d);
      && e.Valid() && e.total == d.total && |e.sectors| == |d.sectors| && |e.bitmap| == |d.bitmap|
      && g == f.(start := g.start, count := g.count, dirty := false) && (g.start.Some? <==> f.data != [])
      && Placed(e, g) && Stored(e, g)
      && e.Used() == d.Used() - RunOf(f) + RunOf(g) && RunOf(g) !! (d.Used() - RunOf(f))
      && forall s :: 1 <= s < |d.sectors| && s !in RunOf(g) ==> e.sectors[s] == d.sectors[s]
  {
    ReleasedSpec(d, f);
    hide Released, Placed, Stored, WriteRun, ReadRun;
    if f.data != [] {
      StoreOnRun(Released(d, f), f);
    } else {
      EmptyStored(Released(d, f), f);
    }
    hide RunOf;
  }

  lemma EmptyStored(d: DiskState, f: File)
    requires f.data == []
    ensures var g := f.(start := None, count := 0, dirty := false); Placed(d, g) && Stored(d, g) && RunOf(g) == {}
  {
  }

  lemma PlacedAfterWrite(d: DiskState, f: File, bytes: seq<byte>)
    requires Placed(d, f)
    ensures var g := WriteBytes(f, bytes).0; Placed(d, g) && RunOf(g) == RunOf(f)
    ensures !f.mode.Read? ==> WriteBytes(f, bytes).0.dirty && WriteBytes(f, bytes).0.size == |WriteBytes(f, bytes).0.data|
  {
  }

  // File f on disk d has become file g on disk e: g holds f's bytes on a run that nobody
  // else uses, and no other used sector has changed.
  ghost predicate SyncedApart(d: DiskState, f: File, e: DiskState, g: File) {
    && d.Valid() && e.Valid() && e.total == d.total && Placed(e, g) && Stored(e, g)
    && g.data == f.data && (g.start.Some? <==> f.data != [])
    && e.Used() == d.Used() - RunOf(f) + RunOf(g) && RunOf(g) !! (d.Used() - RunOf(f))
    && forall k :: 1 <= k < |d.sectors| && k !in RunOf(g) ==> e.sectors[k] == d.sectors[k]
  }

  lemma SyncWritten(d: DiskState, f: File, bytes: seq<byte>)
    requires d.Valid() && Placed(d, f) && !f.mode.Read? && Fits(d, WriteBytes(f, bytes).0)
    ensures var h := WriteBytes(f, bytes).0;
      && Sync(h, d).2 && SyncedApart(d, h, Sync(h, d).1, Sync(h, d).0)
  {
    hide Sync, Fits, Stored;
    PlacedAfterWrite(d, f, bytes);
    var h := WriteBytes(f, bytes).0;
    hide Placed, RunOf, WriteBytes;
    SyncSucceedsIff(d, h);
    SyncSpec(d, h);
  }

  lemma StoredNeedsBytes(d: DiskState, f: File)
    requires Placed(d, f) && Stored(d, f)
    ensures f.start.Some? <==> f.data != []
  {
    hide ReadRun;
  }

  // Another file's bytes on disk, as seen through its run.
  lemma OtherRunKept(d: DiskState, e: DiskState, g: File, h: File)
    requires d.Valid() && e.Valid() && e.total == d.total && Placed(d, h) && RunOf(h) !! RunOf(g)
    requires forall s :: 1 <= s < |d.sectors| && s !in RunOf(g) ==> e.sectors[s] == d.sectors[s]
    ensures h.start.Some? ==> ReadRun(e, h.start.value, h.count) == ReadRun(d, h.start.value, h.count)
    ensures Load(h, e) == Load(h, d)
    ensures Stored(d, h) ==> Stored(e, h)
  {
    if h.start.Some? {
      forall s | h.start.value <= s < h.start.value + h.count
        ensures e.sectors[s] == d.sectors[s]
      {
        assert s in RunOf(h);
      }
      RunFrame(d, e, h.start.value, h.count);
      hide ReadRun;
    }
  }

  // A stored file loads as its data, whatever the padding.
  lemma LoadStored(d: DiskState, f: File)
    requires d.Valid() && Stored(d, f) && Placed(d, f)
    ensures Load(f, d).0.data == f.data && Load(f, d).1 == Ok(())
  {
    if f.start.Some? {
      var bytes := ReadRun(d, f.start.value, f.count);
      assert |bytes| == 512 * f.count && |f.data| <= |bytes|;
      assert bytes[..|bytes|] == bytes;
    }
    hide ReadRun, UsedSet;
  }

  // ---------------------------------------------------------------------
  // Many files
  // ---------------------------------------------------------------------

  // All runs lie in used data sectors and no two files share one.
  ghost predicate Owned(d: DiskState, fs: map<nat, File>) {
    && d.Valid()
    && (forall i :: i in fs ==> Placed(d, fs[i]))
    && (forall i, j :: i in fs && j in fs && i != j ==> RunOf(fs[i]) !! RunOf(fs[j]))
  }

  // A successful sync of one file keeps all runs apart, stores that file exactly, and is
  // invisible through every other file.
  lemma SyncKeepsFilesApart(d: DiskState, fs: map<nat, File>, i: nat)
    requires Owned(d, fs) && i in fs && fs[i].dirty && fs[i].size == |fs[i].data|
    requires Sync(fs[i], d).2
    ensures var (g, e, _) := Sync(fs[i], d);
      && Owned(e, fs[i := g])
      && Load(g, e).0.data == fs[i].data
      && forall j :: j in fs && j != i ==> Load(fs[j], e) == Load(fs[j], d)
  {
    var (g, e, _) := Sync(fs[i], d);
    SyncSpec(d, fs[i]);
    LoadStored(e, g);
    hide Sync, Placed, Stored, Load;
    forall j | j in fs && j != i
      ensures Placed(e, fs[j]) && RunOf(fs[j]) !! RunOf(g) && Load(fs[j], e) == Load(fs[j], d)
    {
      OtherPlaced(d, e, fs[i], g, fs[j]);
      OtherRunKept(d, e, g, fs[j]);
    }
  }

  lemma OtherPlaced(d: DiskState, e: DiskState, f: File, g: File, h: File)
    requires d.Valid() && Placed(d, h) && RunOf(h) !! RunOf(f) && e.total == d.total
    requires e.Used() == d.Used() - RunOf(f) + RunOf(g) && RunOf(g) !! (d.Used() - RunOf(f))
    ensures Placed(e, h) && RunOf(h) !! RunOf(g)
  {
    hide UsedSet;
  }

  // The failing case, exactly: a sync that finds no room has already given the old run
  // away, so the files stay apart if and only if there was room or there was no run.
  lemma SyncKeepsOwnedIff(d: DiskState, fs: map<nat, File>, i: nat)
    requires Owned(d, fs) && i in fs && fs[i].dirty && fs[i].size == |fs[i].data|
    ensures var (g, e, _) := Sync(fs[i], d);
      Owned(e, fs[i := g]) <==> Fits(d, fs[i]) || fs[i].start.None?
  {
    SyncSucceedsIff(d, fs[i]);
    var (g, e, ok) := Sync(fs[i], d);
    if ok {
      SyncKeepsFilesApart(d, fs, i);
    } else {
      ReleasedSpec(d, fs[i]);
      assert g == fs[i] && e == Released(d, g);
      hide Sync;
      if g.start.Some? {
        assert g.start.value in RunOf(g) && g.start.value !in e.Used();
        assert !Placed(e, fs[i := g][i]);
      } else {
        assert e == d && fs[i := g] == fs;
      }
    }
  }

  // ---------------------------------------------------------------------
  // Runs of edits and syncs
  // ---------------------------------------------------------------------

  datatype Edit = Fetch(count: nat) | Lay(bytes: seq<byte>) | Move(to: nat) | Cut(length: nat)

  datatype FileOp = Change(i: nat, edit: Edit) | Flush(i: nat)

  function Edited(f: File, e: Edit): File {
    match e
    case Fetch(count) => ReadBytes(f, count).0
    case Lay(bytes) => WriteBytes(f, bytes).0
    case Move(to) => f.(position := to, eof := false)
    case Cut(length) => Truncate(f, length)
  }

  // What is true of a file between operations: the size in the metadata is the number of
  // bytes, and a file that is not dirty is stored.
  ghost predicate InOrder(d: DiskState, f: File) {
    f.size == |f.data| && (!f.dirty ==> Stored(d, f))
  }

  ghost predicate AllInOrder(d: DiskState, fs: map<nat, File>) {
    Owned(d, fs) && forall i :: i in fs ==> InOrder(d, fs[i])
  }

  // A sync that would lose the file's run is left out (`SyncKeepsOwnedIff`).
  ghost predicate LegalOp(d: DiskState, fs: map<nat, File>, op: FileOp) {
    && op.i in fs
    && (op.Flush? && fs[op.i].dirty ==> Fits(d, fs[op.i]) || fs[op.i].start.None?)
  }

  ghost function Apply(d: DiskState, fs: map<nat, File>, op: FileOp): (DiskState, map<nat, File>)
    requires d.Valid() && op.i in fs
  {
    match op
    case Change(i, e) => (d, fs[i := Edited(fs[i], e)])
    case Flush(i) =>
      var (g, e, _) := Sync(fs[i], d);
      (e, fs[i := g])
  }

  // The same with no disk in sight.
  function ApplyFlat(fs: map<nat, File>, op: FileOp): map<nat, File>
    requires op.i in fs
  {
    if op.Change? then fs[op.i := Edited(fs[op.i], op.edit)] else fs
  }

  // Everything a reader or writer of the file can see.
  predicate LooksLike(f: File, g: File) {
    f.data == g.data && f.position == g.position && f.mode == g.mode && f.eof == g.eof && f.size == g.size
  }

  predicate AllLookLike(fs: map<nat, File>, gs: map<nat, File>) {
    fs.Keys == gs.Keys && forall i :: i in fs ==> LooksLike(fs[i], gs[i])
  }

  lemma EditInOrder(d: DiskState, f: File, e: Edit)
    requires InOrder(d, f) && Placed(d, f)
    ensures var g := Edited(f, e);
      InOrder(d, g) && Placed(d, g) && RunOf(g) == RunOf(f) && g.start == f.start
  {
    hide ReadRun, UsedSet, Put;
  }

  lemma EditLooksLike(f: File, g: File, e: Edit)
    requires LooksLike(f, g)
    ensures LooksLike(Edited(f, e), Edited(g, e))
  {
    hide Put, Resized;
  }

  lemma ChangeInOrder(d: DiskState, fs: map<nat, File>, i: nat, e: Edit)
    requires AllInOrder(d, fs) && i in fs
    ensures AllInOrder(d, fs[i := Edited(fs[i], e)])
  {
    hide Edited, InOrder, Placed, RunOf;
    EditInOrder(d, fs[i], e);
  }

  // A file that is not dirty, or has neither a run nor room for one, is only told so.
  lemma QuietSync(d: DiskState, f: File)
    requires d.Valid() && Placed(d, f) && InOrder(d, f)
    requires !f.dirty || (f.start.None? && !Fits(d, f))
    ensures var (g, e, _) := Sync(f, d);
      && e == d && g == f.(count := g.count)
      && InOrder(d, g) && Placed(d, g) && RunOf(g) == RunOf(f)
  {
    if f.dirty {
      FailedSync(d, f, d);
      hide Fits, Stored;
    }
    hide DiskState.Allocate, WriteRun, ReadRun, UsedSet;
  }

  lemma FlushInOrder(d: DiskState, fs: map<nat, File>, i: nat)
    requires AllInOrder(d, fs) && LegalOp(d, fs, Flush(i))
    ensures var (g, e, _) := Sync(fs[i], d);
      AllInOrder(e, fs[i := g]) && LooksLike(g, fs[i])
  {
    hide Sync, Placed, Stored, RunOf, Fits, UsedSet;
    var (g, e, ok) := Sync(fs[i], d);
    if fs[i].dirty && Fits(d, fs[i]) {
      SyncSucceedsIff(d, fs[i]);
      SyncKeepsFilesApart(d, fs, i);
      SyncSpec(d, fs[i]);
      forall j | j in fs && j != i
        ensures InOrder(e, fs[j])
      {
        OtherPlaced(d, e, fs[i], g, fs[j]);
        OtherRunKept(d, e, g, fs[j]);
      }
    } else {
      QuietSync(d, fs[i]);
    }
  }

  lemma OpInOrder(d: DiskState, fs: map<nat, File>, op: FileOp)
    requires AllInOrder(d, fs) && LegalOp(d, fs, op)
    ensures var (e, gs) := Apply(d, fs, op);
      AllInOrder(e, gs) && gs.Keys == fs.Keys
  {
    hide AllInOrder, Edited, Sync, Fits;
    OpReady(d, fs, op);
    match op
    case Change(i, e) => ChangeInOrder(d, fs, i, e);
    case Flush(i) => FlushInOrder(d, fs, i);
  }

  lemma OpReady(d: DiskState, fs: map<nat, File>, op: FileOp)
    requires AllInOrder(d, fs) && LegalOp(d, fs, op)
    ensures d.Valid() && op.i in fs
  {
  }

  lemma OpLooksFlat(d: DiskState, fs: map<nat, File>, op: FileOp, gs: map<nat, File>)
    requires AllInOrder(d, fs) && LegalOp(d, fs, op) && AllLookLike(fs, gs)
    ensures AllLookLike(Apply(d, fs, op).1, ApplyFlat(gs, op))
  {
    hide AllInOrder, Edited, Sync, Fits, LooksLike;
    OpReady(d, fs, op);
    assert LooksLike(fs[op.i], gs[op.i]);
    match op
    case Change(i, e) => EditLooksLike(fs[i], gs[i], e);
    case Flush(i) =>
      FlushInOrder(d, fs, i);
      LooksLikeTwice(Sync(fs[i], d).0, fs[i], gs[i]);
  }

  lemma LooksLikeTwice(f: File, g: File, h: File)
    requires LooksLike(f, g) && LooksLike(g, h)
    ensures LooksLike(f, h)
  {
  }

  ghost predicate LegalOps(d: DiskState, fs: map<nat, File>, ops: seq<FileOp>)
    requires AllInOrder(d, fs)
    decreases |ops|
  {
    ops == [] || (
      LegalOp(d, fs, ops[0])
      && (OpInOrder(d, fs, ops[0]);
          var (e, gs) := Apply(d, fs, ops[0]);
          LegalOps(e, gs, ops[1..])))
  }

  ghost function ApplyAll(d: DiskState, fs: map<nat, File>, ops: seq<FileOp>): (r: (DiskState, map<nat, File>))
    requires AllInOrder(d, fs) && LegalOps(d, fs, ops)
    ensures AllInOrder(r.0, r.1) && r.1.Keys == fs.Keys
    decreases |ops|
  {
    if ops == [] then (d, fs)
    else
      OpInOrder(d, fs, ops[0]);
      var (e, gs) := Apply(d, fs, ops[0]);
      ApplyAll(e, gs, ops[1..])
  }

  function ApplyAllFlat(fs: map<nat, File>, ops: seq<FileOp>): (r: map<nat, File>)
    requires forall k :: 0 <= k < |ops| ==> ops[k].i in fs
    ensures r.Keys == fs.Keys
    decreases |ops|
  {
    if ops == [] then fs else ApplyAllFlat(ApplyFlat(fs, ops[0]), ops[1..])
  }

  lemma {:induction false} LegalNames(d: DiskState, fs: map<nat, File>, ops: seq<FileOp>)
    requires AllInOrder(d, fs) && LegalOps(d, fs, ops)
    ensures forall k :: 0 <= k < |ops| ==> ops[k].i in fs
    decreases |ops|
  {
    hide AllInOrder, Apply, LegalOp;
    if ops != [] {
      OpReady(d, fs, ops[0]);
      OpInOrder(d, fs, ops[0]);
      var (e, gs) := Apply(d, fs, ops[0]);
      LegalNames(e, gs, ops[1..]);
      forall k | 0 <= k < |ops|
        ensures ops[k].i in fs
      {
        assert k > 0 ==> ops[k] == ops[1..][k - 1];
        assert ops[k].i in fs.Keys;
      }
    }
  }

  lemma {:induction false} AllLookFlat(d: DiskState, fs: map<nat, File>, ops: seq<FileOp>, gs: map<nat, File>)
    requires AllInOrder(d, fs) && LegalOps(d, fs, ops) && AllLookLike(fs, gs)
    requires forall k :: 0 <= k < |ops| ==> ops[k].i in gs
    ensures AllLookLike(ApplyAll(d, fs, ops).1, ApplyAllFlat(gs, ops))
    decreases |ops|
  {
    hide AllInOrder, Apply, ApplyFlat, LegalOp, AllLookLike;
    if ops != [] {
      OpReady(d, fs, ops[0]);
      OpInOrder(d, fs, ops[0]);
      OpLooksFlat(d, fs, ops[0], gs);
      var (e, hs) := Apply(d, fs, ops[0]);
      SameNames(gs, ops[0]);
      forall k | 0 <= k < |ops[1..]|
        ensures ops[1..][k].i in ApplyFlat(gs, ops[0])
      {
        assert ops[1..][k] == ops[k + 1];
      }
      AllLookFlat(e, hs, ops[1..], ApplyFlat(gs, ops[0]));
    }
  }

  lemma SameNames(gs: map<nat, File>, op: FileOp)
    requires op.i in gs
    ensures forall i :: i in ApplyFlat(gs, op) <==> i in gs
  {
  }

  // Any number of files read, written, moved about, cut and synced in any order: sizes
  // agree with the bytes, the files stay apart, every file looks as if there were no disk,
  // and loading a file that is not dirty gives what it looks like.
  lemma FilesStayInOrder(d: DiskState, fs: map<nat, File>, ops: seq<FileOp>)
    requires AllInOrder(d, fs) && LegalOps(d, fs, ops)
    ensures forall k :: 0 <= k < |ops| ==> ops[k].i in fs
    ensures var (e, gs) := ApplyAll(d, fs, ops);
      && AllInOrder(e, gs) && AllLookLike(gs, ApplyAllFlat(fs, ops))
      && forall i :: i in gs && !gs[i].dirty ==> Load(gs[i], e).0.data == ApplyAllFlat(fs, ops)[i].data
  {
    hide Apply, ApplyFlat, LegalOp, LegalOps;
    LegalNames(d, fs, ops);
    AllLookFlat(d, fs, ops, fs);
    var (e, gs) := ApplyAll(d, fs, ops);
    forall i | i in gs && !gs[i].dirty
      ensures Load(gs[i], e).0.data == gs[i].data
    {
      LoadStored(e, gs[i]);
    }
  }

  // ---------------------------------------------------------------------
  // The file as an object
  // ---------------------------------------------------------------------

  class OpenFile {
    const inode: nat
    var data: seq<byte>
    var position: nat
    var mode: OpenMode
    var dirty: bool
    var eof: bool
    var startSector: Option<nat>
    var sectorCount: nat
    var size: nat

    function Model(): File
      reads this
    {
      File(inode, data, position, mode, dirty, eof, startSector, sectorCount, size)
    }

    constructor (inode: nat, mode: OpenMode)
      ensures Model() == NewFile(inode, mode)
    {
      this.inode, this.mode := inode, mode;
      data, position, dirty, eof := [], 0, false, false;
      startSector, sectorCount, size := None, 0, 0;
    }

    method ReadData(count: nat) returns (r: Result<seq<byte>, FileError>)
      modifies this
      ensures (Model(), r) == ReadBytes(old(Model()), count)
    {
      if mode.Write? {
        return Err(PermissionDenied);
      }
      var start, end := position, Min(position + count, |data|);
      if start >= |data| {
        eof := true;
        return Ok([]);
      }
      position := position + (end - start);
      eof := end == |data|;
      return Ok(data[start..end]);
    }

    method WriteData(bytes: seq<byte>) returns (r: Result<nat, FileError>)
      modifies this
      ensures (Model(), r) == WriteBytes(old(Model()), bytes)
    {
      if mode.Read? {
        return Err(PermissionDenied);
      }
      var pos := if mode.Append? then |data| else position;
      var required := pos + |bytes|;
      if required > |data| {
        data := Resized(data, required);
      }
      data := data[..pos] + bytes + data[required..];
      assert data == Put(old(data), pos, bytes);
      position := required;
      dirty := true;
      size := |data|;
      return Ok(|bytes|);
    }

    method Seek(to: nat) returns (was: nat)
      modifies this
      ensures was == old(position) && Model() == old(Model()).(position := to, eof := false)
    {
      was := position;
      position := to;
      eof := false;
    }

    method SetLength(n: nat)
      modifies this
      ensures Model() == Truncate(old(Model()), n)
    {
      data := Resized(data, n);
      size := n;
      dirty := true;
    }

    method SyncToDisk(disk: VirtualDisk) returns (ok: bool)
      requires disk.Valid()
      modifies this, disk
      ensures disk.Valid() && (Model(), disk.Model(), ok) == Sync(old(Model()), old(disk.Model()))
    {
      if !dirty && startSector.Some? {
        return true;
      }
      ReleasedSpec(disk.Model(), Model());
      var needed := (|data| + 511) / 512;
      GiveBack(disk);
      hide Released;
      if needed == 0 {
        startSector, sectorCount, dirty := None, 0, false;
        return true;
      }
      ok := TakeAndWrite(disk, needed);
    }

    method GiveBack(disk: VirtualDisk)
      requires disk.Valid()
      modifies disk
      ensures disk.Valid() && disk.Model() == Released(old(disk.Model()), Model())
    {
      if startSector.Some? && sectorCount > 0 {
        disk.FreeSectors(startSector.value, sectorCount);
      }
    }

    method TakeAndWrite(disk: VirtualDisk, needed: nat) returns (ok: bool)
      requires disk.Valid() && needed == Needed(|data|) && needed > 0
      modifies this, disk
      ensures disk.Valid()
      ensures match old(disk.Model()).Allocate(needed)
        case (d, None) => !ok && disk.Model() == d && Model() == old(Model())
        case (d, Some(s)) =>
          && ok && disk.Model() == WriteRun(d, s, old(data), needed)
          && Model() == old(Model()).(start := Some(s), count := needed, dirty := false)
    {
      hide FirstFit, UsedSet, MarkUsedRange, BitmapBytes, WriteRun, Run, FreeRun, DiskState.Flush;
      AllocateSpec(disk.Model(), needed);
      var start := disk.AllocateSectors(needed);
      if start.Err? {
        return false;
      }
      WriteAll(disk, start.value, needed);
      startSector, sectorCount, dirty := Some(start.value), needed, false;
      return true;
    }

    method WriteAll(disk: VirtualDisk, start: nat, needed: nat)
      requires disk.Valid() && needed == Needed(|data|) && start + needed <= disk.total
      modifies disk`sectors
      ensures disk.Valid() && disk.Model() == WriteRun(old(disk.Model()), start, data, needed)
    {
      WriteRunNone(disk.Model(), start, data);
      for i := 0 to needed
        invariant disk.Valid() && disk.Model() == WriteRun(old(disk.Model()), start, data, i)
      {
        WriteRunNext(old(disk.Model()), start, data, i);
        var offset := i * 512;
        var end := Min(offset + 512, |data|);
        var buf := data[offset..end] + seq(512 - (end - offset), _ => 0);
        assert buf == SectorOf(data, i);
        hide WriteRun, SectorOf;
        var _ := disk.WriteSector(start + i, buf);
      }
    }

    method LoadFromDisk(disk: VirtualDisk) returns (r: Result<(), FileError>)
      requires disk.Valid()
      modifies this
      ensures (Model(), r) == Load(old(Model()), disk.Model())
    {
      if startSector.None? || sectorCount == 0 {
        data := [];
        return Ok(());
      }
      var start := startSector.value;
      var bytes: seq<byte> := [];
      for i := 0 to sectorCount
        invariant Model() == old(Model())
        invariant i > 0 ==> start + i <= disk.total && bytes == ReadRun(disk.Model(), start, i)
        invariant i == 0 ==> bytes == []
      {
        var s := disk.ReadSector(start + i);
        if s.Err? {
          return Err(BadSector);
        }
        ReadRunNext(disk.Model(), start, i);
        if i == 0 {
          assert ReadRun(disk.Model(), start, 0) == [];
        }
        bytes := bytes + s.value;
      }
      data := if size < |bytes| then bytes[..size] else bytes;
      dirty, eof, position := false, false, 0;
      return Ok(());
    }
  }
}
