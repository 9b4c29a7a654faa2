// The file service: open, read, write, delete, and starting again from what is on disk.
module FileService {
  import opened Prelude
  import opened Disk
  import opened Files
  import opened Paths
  import V = Vfs
  import I = VfsImage

  // `base` is the tree a new file system starts with; `open` caches an open file by its inode.
  datatype State = Service(base: V.State, vfs: V.State, disk: DiskState, open: map<nat, File>)

  datatype ServiceError = NotFound | NoParent | NotAFile | NotPermitted | CannotCreate | CannotRemove

  function ModeOf(read: bool, write: bool, append: bool): OpenMode {
    if read && write then ReadWrite
    else if write then Write
    else if append then Append
    else Read
  }

  // Writing takes the write or the append flag; reading is refused only to those who asked
  // to write and not to read.
  lemma FlagsGrant(read: bool, write: bool, append: bool, f: File, bytes: seq<byte>, count: nat)
    requires f.mode == ModeOf(read, write, append)
    ensures WriteBytes(f, bytes).1.Ok? <==> write || append
    ensures ReadBytes(f, count).1.Ok? <==> read || !write
  {
    hide Put;
  }

  // ---------------------------------------------------------------------
  // The handlers on values
  // ---------------------------------------------------------------------

  // The sectors of a run, one by one, as a node lists them.
  function Blocks(start: nat, count: nat): (r: seq<nat>)
    ensures |r| == count && forall k :: 0 <= k < count ==> r[k] == start + k
  {
    seq(count, k requires 0 <= k => start + k)
  }

  // A file that is not open, from its node; the contents are still to be loaded.
  function Closed(n: V.Node, mode: OpenMode): File {
    if n.blocks == [] then NewFile(n.inode, mode)
    else NewFile(n.inode, mode).(start := Some(n.blocks[0]), count := |n.blocks|, size := n.size)
  }

  function Loaded(n: V.Node, mode: OpenMode, d: DiskState): File {
    if n.blocks == [] then Closed(n, mode) else Load(Closed(n, mode), d).0
  }

  // Find the file's node, creating it if asked to.
  function Locate(v: V.State, path: string, create: bool): (V.State, Result<nat, ServiceError>) {
    match V.LookupPath(v, path)
    case Some(i) => (v, Ok(i))
    case None =>
      if !create then (v, Err(NotFound))
      else
        match SplitLast(path)
        case None => (v, Err(NoParent))
        case Some((dir, name)) =>
          match V.LookupPath(v, dir)
          case None => (v, Err(NotFound))
          case Some(p) =>
            var (w, r) := V.Create(v, p, name, V.File);
            if r.Err? then (w, Err(CannotCreate))
            else
              match V.LookupPath(w, path)
              case Some(i) => (w, Ok(i))
              case None => (w, Err(NotFound))
  }

  // A file that is already open is shared: its cursor goes back to the start.
  function OpenNode(s: State, i: nat, mode: OpenMode): State
    requires i in s.vfs.nodes
  {
    s.(open := s.open[i :=
      if i in s.open then s.open[i].(mode := mode, position := 0, eof := false)
      else Loaded(s.vfs.nodes[i], mode, s.disk)])
  }

  function Open(s: State, path: string, create: bool, mode: OpenMode): (State, Result<nat, ServiceError>) {
    var (v, r) := Locate(s.vfs, path, create);
    var t := s.(vfs := v);
    match r
    case Err(e) => (t, Err(e))
    case Ok(i) =>
      if i !in v.nodes || !v.nodes[i].kind.File? then (t, Err(NotAFile)) else (OpenNode(t, i, mode), Ok(i))
  }

  // Write, sync, and tell the node where the bytes are.  The reply is the same when the
  // sync fails.
  ghost function WriteFile(s: State, i: nat, bytes: seq<byte>): (State, Result<nat, ServiceError>)
    requires s.disk.Valid() && i in s.open
  {
    var (f, r) := WriteBytes(s.open[i], bytes);
    if r.Err? then (s, Err(NotPermitted))
    else
      var (g, d, ok) := Sync(f, s.disk);
      (Service(
         s.base,
         if ok && g.start.Some? then V.SetBlocks(s.vfs, i, |g.data|, Blocks(g.start.value, g.count)) else s.vfs,
         d, s.open[i := g]),
       Ok(|bytes|))
  }

  function ReadFile(s: State, i: nat, count: nat): (State, Result<seq<byte>, ServiceError>)
    requires i in s.open
  {
    match ReadBytes(s.open[i], count)
    case (f, Ok(bytes)) => (s.(open := s.open[i := f]), Ok(bytes))
    case (_, Err(_)) => (s, Err(NotPermitted))
  }

  function Seek(s: State, i: nat, to: nat): State
    requires i in s.open
  {
    s.(open := s.open[i := s.open[i].(position := to, eof := false)])
  }

  // The sectors of a deleted file stay marked, and an open file stays open.
  function Remove(s: State, path: string): (State, Result<(), ServiceError>) {
    match V.LookupPath(s.vfs, path)
    case None => (s, Err(NotFound))
    case Some(i) =>
      match V.Delete(s.vfs, i)
      case (v, Ok(_)) => (s.(vfs := v), Ok(()))
      case (v, Err(_)) => (s.(vfs := v), Err(CannotRemove))
  }

  function MakeDirectory(s: State, path: string): (State, Result<nat, ServiceError>) {
    match SplitPath(path)
    case None => (s, Err(NotFound))
    case Some((dir, name)) =>
      match V.LookupPath(s.vfs, dir)
      case None => (s, Err(NotFound))
      case Some(p) =>
        if p !in s.vfs.nodes || !s.vfs.nodes[p].kind.Directory? then (s, Err(NotAFile))
        else
          match V.Create(s.vfs, p, name, V.Directory)
          case (v, Ok(i)) => (s.(vfs := v), Ok(i))
          case (v, Err(_)) => (s.(vfs := v), Err(CannotCreate))
  }

  // Start again from the saved tree and the disk image; nothing is open.
  ghost function Restart(s: State, order: seq<nat>): State
    requires s.disk.Valid() && I.Enumerates(s.vfs, order)
  {
    Service(s.base, I.Load(s.base, I.Save(s.vfs, order)), s.disk.Flush().Reload(), map[])
  }

  // ---------------------------------------------------------------------
  // The invariant
  // ---------------------------------------------------------------------

  ghost predicate Known(s: State, i: nat) {
    i in s.open || i in s.vfs.nodes
  }

  // The file with its bytes, open or not.
  ghost function FileAt(s: State, i: nat): File
    requires Known(s, i)
  {
    if i in s.open then s.open[i] else Loaded(s.vfs.nodes[i], Read, s.disk)
  }

  // What the file holds.
  ghost function Content(s: State, i: nat): seq<byte>
    requires Known(s, i)
  {
    FileAt(s, i).data
  }

  predicate NodeAgrees(n: V.Node, f: File) {
    if f.start.None? then n.blocks == []
    else n.blocks == Blocks(f.start.value, f.count) && n.size == |f.data| && n.kind.File?
  }

  ghost predicate GoodFile(s: State, i: nat)
    requires Known(s, i)
  {
    && Placed(s.disk, FileAt(s, i)) && Stored(s.disk, FileAt(s, i))
    && (i in s.vfs.nodes ==> NodeAgrees(s.vfs.nodes[i], FileAt(s, i)))
  }

  ghost predicate Apart(s: State, i: nat, j: nat)
    requires Known(s, i) && Known(s, j)
  {
    RunOf(FileAt(s, i)) !! RunOf(FileAt(s, j))
  }

  ghost predicate OpenOk(s: State, i: nat) {
    i < s.vfs.next && (i in s.vfs.nodes ==> s.vfs.nodes[i].kind.File?)
  }

  // The tree is in order, and no file of the tree it started with has been written yet there.
  ghost predicate VfsInv(base: V.State, v: V.State) {
    I.Inv(base, v) && forall i :: i in base.nodes ==> base.nodes[i].blocks == []
  }

  // Every file lies on used sectors of its own that hold exactly its bytes, and its node
  // says where.
  ghost predicate Inv(s: State) {
    && s.disk.Valid() && VfsInv(s.base, s.vfs)
    && (forall i :: Known(s, i) ==> GoodFile(s, i))
    && (forall i, j :: Known(s, i) && Known(s, j) && i != j ==> Apart(s, i, j))
    && (forall i :: i in s.open ==> OpenOk(s, i))
  }

  lemma InvParts(s: State)
    requires Inv(s)
    ensures s.disk.Valid() && VfsInv(s.base, s.vfs)
  {
    hide VfsInv, GoodFile, Apart;
  }

  lemma InvFile(s: State, i: nat)
    requires Inv(s) && Known(s, i)
    ensures GoodFile(s, i) && (i in s.open ==> OpenOk(s, i))
  {
    hide VfsInv, GoodFile, Apart, OpenOk;
  }

  lemma InvApart(s: State, i: nat, j: nat)
    requires Inv(s) && Known(s, i) && Known(s, j) && i != j
    ensures Apart(s, i, j)
  {
    hide VfsInv, GoodFile, Apart, OpenOk;
  }

  // Two files that differ at most in cursor, mode and the end-of-file flag.
  predicate SameFile(f: File, g: File) {
    f.data == g.data && f.dirty == g.dirty && f.start == g.start && f.count == g.count && f.size == g.size
  }

  predicate Blank(f: File) {
    f.data == [] && f.start.None?
  }

  // ---------------------------------------------------------------------
  // Changes that do not touch the disk
  // ---------------------------------------------------------------------

  // Every file of `t` is one of `s`, or is new and empty.
  ghost predicate SameFiles(s: State, t: State) {
    forall i :: Known(t, i) ==>
      if Known(s, i) then SameFile(FileAt(t, i), FileAt(s, i)) else Blank(FileAt(t, i))
  }

  lemma SameFileFacts(d: DiskState, f: File, g: File)
    requires SameFile(f, g)
    ensures RunOf(f) == RunOf(g) && (Placed(d, f) <==> Placed(d, g)) && (Stored(d, f) <==> Stored(d, g))
  {
  }

  lemma BlankFacts(d: DiskState, f: File)
    requires Blank(f)
    ensures RunOf(f) == {} && Placed(d, f) && Stored(d, f)
  {
  }

  ghost predicate SameNode(m: V.Node, n: V.Node) {
    m.inode == n.inode && m.blocks == n.blocks && m.size == n.size && m.kind == n.kind
  }

  // Nodes of `t` are nodes of `s`, or are new, empty and nobody has them open.
  ghost predicate SameNodes(s: State, t: State) {
    forall i :: i in t.vfs.nodes ==>
      if i in s.vfs.nodes then SameNode(t.vfs.nodes[i], s.vfs.nodes[i])
      else i !in s.open && t.vfs.nodes[i].blocks == []
  }

  lemma QuietStep(s: State, t: State)
    requires Inv(s) && t.disk == s.disk && t.base == s.base && VfsInv(s.base, t.vfs)
    requires SameFiles(s, t) && SameNodes(s, t) && forall i :: i in t.open ==> OpenOk(t, i)
    ensures Inv(t)
  {
    hide VfsInv, Placed, Stored, RunOf, Loaded, SameFile;
    forall i | Known(t, i)
      ensures GoodFile(t, i)
    {
      if Known(s, i) {
        assert GoodFile(s, i);
        SameFileFacts(s.disk, FileAt(t, i), FileAt(s, i));
        AgreesTransfer(s, t, i);
      } else {
        BlankFacts(s.disk, FileAt(t, i));
      }
    }
    forall i, j | Known(t, i) && Known(t, j) && i != j
      ensures Apart(t, i, j)
    {
      if Known(s, i) {
        SameFileFacts(s.disk, FileAt(t, i), FileAt(s, i));
      } else {
        BlankFacts(s.disk, FileAt(t, i));
      }
      if Known(s, j) {
        SameFileFacts(s.disk, FileAt(t, j), FileAt(s, j));
      } else {
        BlankFacts(s.disk, FileAt(t, j));
      }
      if Known(s, i) && Known(s, j) {
        assert Apart(s, i, j);
      }
    }
  }

  lemma AgreesTransfer(s: State, t: State, i: nat)
    requires Known(s, i) && Known(t, i) && SameNodes(s, t) && SameFile(FileAt(t, i), FileAt(s, i))
    requires i in s.vfs.nodes ==> NodeAgrees(s.vfs.nodes[i], FileAt(s, i))
    ensures i in t.vfs.nodes ==> NodeAgrees(t.vfs.nodes[i], FileAt(t, i))
  {
    assert i in t.vfs.nodes ==> i in s.vfs.nodes;
    hide Loaded;
  }

  // ---------------------------------------------------------------------
  // The tree changes
  // ---------------------------------------------------------------------

  lemma NextIsFresh(base: V.State, v: V.State)
    requires VfsInv(base, v)
    ensures v.next !in v.nodes && V.Tree(v) && I.IsBase(base)
  {
    assert v.next in v.nodes ==> V.NodeOk(v, v.next);
  }

  lemma CreateKeepsVfsInv(base: V.State, v: V.State, parent: nat, name: string, kind: V.NodeType)
    requires VfsInv(base, v) && parent in v.nodes
    ensures VfsInv(base, V.Create(v, parent, name, kind).0)
  {
    NextIsFresh(base, v);
    assert V.NodeOk(v, parent);
    I.StepKeepsInv(base, v, I.Make(parent, name, kind));
  }

  // Nodes may go, and new empty ones come under new numbers.
  ghost predicate NodesStep(v: V.State, w: V.State) {
    v.next <= w.next && forall i :: i in w.nodes ==>
      if i in v.nodes then SameNode(w.nodes[i], v.nodes[i]) else v.next <= i && w.nodes[i].blocks == []
  }

  lemma CreateNodes(v: V.State, parent: nat, name: string, kind: V.NodeType)
    requires parent in v.nodes && v.next !in v.nodes
    ensures var w := V.Create(v, parent, name, kind).0;
      NodesStep(v, w) && forall i :: i in v.nodes ==> i in w.nodes
  {
  }

  lemma DeleteNodes(v: V.State, inode: nat)
    ensures NodesStep(v, V.Delete(v, inode).0)
  {
  }

  lemma VfsStep(s: State, v: V.State)
    requires Inv(s) && VfsInv(s.base, v) && NodesStep(s.vfs, v)
    ensures var t := s.(vfs := v); Inv(t) && SameFiles(s, t)
  {
    var t := s.(vfs := v);
    hide VfsInv, GoodFile, Apart;
    forall i | i in t.open
      ensures OpenOk(t, i) && i < s.vfs.next
    {
      assert OpenOk(s, i);
    }
    assert SameNodes(s, t);
    SameNodesSameFiles(s, t);
    QuietStep(s, t);
  }

  lemma CreateQuiet(s: State, parent: nat, name: string, kind: V.NodeType)
    requires Inv(s) && parent in s.vfs.nodes
    ensures var t := s.(vfs := V.Create(s.vfs, parent, name, kind).0);
      Inv(t) && SameFiles(s, t) && forall i :: Known(s, i) ==> Known(t, i)
  {
    hide Inv, VfsInv, V.Create, V.Tree, SameFiles, NodesStep;
    InvParts(s);
    NextIsFresh(s.base, s.vfs);
    CreateKeepsVfsInv(s.base, s.vfs, parent, name, kind);
    CreateNodes(s.vfs, parent, name, kind);
    VfsStep(s, V.Create(s.vfs, parent, name, kind).0);
  }

  lemma SameNodesSameFiles(s: State, t: State)
    requires SameNodes(s, t) && t.open == s.open && t.disk == s.disk
    ensures SameFiles(s, t)
  {
    hide Load;
  }

  lemma DeleteQuiet(s: State, inode: nat)
    requires Inv(s)
    ensures var t := s.(vfs := V.Delete(s.vfs, inode).0);
      Inv(t) && SameFiles(s, t) && forall i :: Known(t, i) ==> Known(s, i)
  {
    hide Inv, VfsInv, V.Delete, SameFiles, NodesStep;
    InvParts(s);
    DeleteKeepsVfsInv(s.base, s.vfs, inode);
    DeleteNodes(s.vfs, inode);
    VfsStep(s, V.Delete(s.vfs, inode).0);
    FewerNodes(s, inode);
  }

  lemma FewerNodes(s: State, inode: nat)
    ensures forall i :: Known(s.(vfs := V.Delete(s.vfs, inode).0), i) ==> Known(s, i)
  {
  }

  lemma DeleteKeepsVfsInv(base: V.State, v: V.State, inode: nat)
    requires VfsInv(base, v)
    ensures VfsInv(base, V.Delete(v, inode).0)
  {
    I.StepKeepsInv(base, v, I.Remove(inode));
  }

  // ---------------------------------------------------------------------
  // Opening, reading, seeking
  // ---------------------------------------------------------------------

  lemma LocateQuiet(s: State, path: string, create: bool)
    requires Inv(s)
    ensures var (v, r) := Locate(s.vfs, path, create);
      var t := s.(vfs := v);
      && Inv(t) && SameFiles(s, t) && (forall i :: Known(s, i) ==> Known(t, i))
      && (r.Ok? ==> V.LookupPath(v, path) == Some(r.value) && r.value in v.nodes)
  {
    hide Inv, V.Create, V.Walk, V.Components, SplitLast;
    var (v, r) := Locate(s.vfs, path, create);
    if v != s.vfs {
      var (dir, name) := SplitLast(path).value;
      WalkEnds(s.vfs, V.ROOT, V.Components(dir));
      CreateQuiet(s, V.LookupPath(s.vfs, dir).value, name, V.File);
    } else {
      assert s.(vfs := v) == s;
    }
    WalkEnds(v, V.ROOT, V.Components(path));
  }

  lemma {:induction false} WalkEnds(v: V.State, at: nat, names: seq<string>)
    ensures V.Walk(v, at, names).Some? ==> V.Walk(v, at, names).value in v.nodes
    decreases |names|
  {
    if at in v.nodes && names != [] && names[0] in v.nodes[at].children {
      WalkEnds(v, v.nodes[at].children[names[0]], names[1..]);
    }
  }

  lemma OpenedSameFiles(s: State, t: State, i: nat)
    requires Known(s, i) && i in t.open && SameFile(t.open[i], FileAt(s, i))
    requires t.base == s.base && t.vfs == s.vfs && t.disk == s.disk && t.open == s.open[i := t.open[i]]
    ensures SameFiles(s, t) && SameNodes(s, t)
  {
    hide Loaded;
  }

  lemma OpenedSame(s: State, t: State, i: nat)
    requires Inv(s) && Known(s, i) && i in t.open && SameFile(t.open[i], FileAt(s, i))
    requires t.base == s.base && t.vfs == s.vfs && t.disk == s.disk && t.open == s.open[i := t.open[i]] && OpenOk(t, i)
    ensures Inv(t) && SameFiles(s, t)
  {
    hide Inv, VfsInv, FileAt, SameFile, SameFiles, SameNodes, GoodFile, Apart;
    InvParts(s);
    OpenedSameFiles(s, t, i);
    forall j | j in t.open
      ensures OpenOk(t, j)
    {
      if j != i {
        InvFile(s, j);
      }
    }
    QuietStep(s, t);
  }

  lemma OpenNodeSpec(u: State, i: nat, mode: OpenMode)
    requires Inv(u) && i in u.vfs.nodes && u.vfs.nodes[i].kind.File?
    ensures var t := OpenNode(u, i, mode);
      && Inv(t) && SameFiles(u, t) && (forall j :: Known(t, j) <==> Known(u, j))
      && i in t.open && t.open[i].position == 0 && t.open[i].mode == mode
  {
    hide Inv, Loaded, FileAt, SameFile, SameFiles;
    OpenOkOf(u, i);
    OpenNodeSame(u, i, mode);
    OpenedSame(u, OpenNode(u, i, mode), i);
  }

  lemma OpenNodeSame(u: State, i: nat, mode: OpenMode)
    requires i in u.vfs.nodes
    ensures var f := OpenNode(u, i, mode).open[i];
      SameFile(f, FileAt(u, i)) && f.position == 0 && f.mode == mode
  {
    hide Loaded;
    LoadedMode(u.vfs.nodes[i], mode, u.disk);
  }

  // Opening gives the file its path names, with everything that is stored, and changes
  // no content; a file that did not exist is new and empty.
  lemma OpenSpec(s: State, path: string, create: bool, mode: OpenMode)
    requires Inv(s)
    ensures var (t, r) := Open(s, path, create, mode);
      && Inv(t)
      && (forall i :: Known(s, i) ==> Known(t, i) && Content(t, i) == Content(s, i))
      && (forall i :: Known(t, i) && !Known(s, i) ==> Content(t, i) == [])
      && (r.Ok? ==>
            var i := r.value;
            && V.LookupPath(t.vfs, path) == Some(i) && i in t.open
            && t.open[i].data == Content(t, i) && t.open[i].position == 0 && t.open[i].mode == mode)
  {
    hide Inv, Locate, Loaded;
    LocateQuiet(s, path, create);
    var (v, r) := Locate(s.vfs, path, create);
    var u := s.(vfs := v);
    SameContents(s, u);
    if r.Ok? && v.nodes[r.value].kind.File? {
      OpenNodeSpec(u, r.value, mode);
      SameContents(u, OpenNode(u, r.value, mode));
    }
  }

  lemma OpenOkOf(u: State, i: nat)
    requires Inv(u) && i in u.vfs.nodes && u.vfs.nodes[i].kind.File?
    ensures OpenOk(u, i)
  {
    assert V.NodeOk(u.vfs, i);
  }

  lemma LoadedMode(n: V.Node, mode: OpenMode, d: DiskState)
    ensures SameFile(Loaded(n, mode, d), Loaded(n, Read, d))
    ensures Loaded(n, mode, d).mode == mode && Loaded(n, mode, d).position == 0
  {
    hide ReadRun;
  }

  lemma SameContents(s: State, t: State)
    requires SameFiles(s, t)
    ensures forall i :: Known(s, i) && Known(t, i) ==> Content(t, i) == Content(s, i)
    ensures forall i :: Known(t, i) && !Known(s, i) ==> Content(t, i) == []
  {
    hide Loaded;
  }

  // Moving the cursor changes no content.
  lemma CursorQuiet(s: State, i: nat, f: File)
    requires Inv(s) && i in s.open && SameFile(f, s.open[i])
    ensures var t := s.(open := s.open[i := f]); Inv(t) && SameFiles(s, t)
  {
    hide Inv, SameFile, SameFiles, Loaded, GoodFile;
    var t := s.(open := s.open[i := f]);
    InvFile(s, i);
    OpenedSame(s, t, i);
  }

  // ---------------------------------------------------------------------
  // Writing
  // ---------------------------------------------------------------------

  // The write is allowed, and the file as it grows finds room once its old run is back.
  ghost predicate Writable(s: State, i: nat, bytes: seq<byte>)
    requires i in s.open
  {
    !s.open[i].mode.Read? && Fits(s.disk, WriteBytes(s.open[i], bytes).0)
  }

  lemma OpenPlaced(s: State, i: nat)
    requires Inv(s) && i in s.open
    ensures Placed(s.disk, s.open[i]) && Stored(s.disk, s.open[i])
  {
    hide Inv, Placed, Stored;
    InvParts(s);
    InvFile(s, i);
  }

  // The closed file of a node keeps its bytes when somebody else syncs.
  lemma ClosedKept(n: V.Node, d: DiskState, e: DiskState, g: File)
    requires d.Valid() && e.Valid() && e.total == d.total
    requires Placed(d, Loaded(n, Read, d)) && RunOf(Loaded(n, Read, d)) !! RunOf(g)
    requires forall s :: 1 <= s < |d.sectors| && s !in RunOf(g) ==> e.sectors[s] == d.sectors[s]
    ensures Loaded(n, Read, e) == Loaded(n, Read, d)
  {
    LoadKeepsRun(Closed(n, Read), d);
    hide Load, UsedSet;
    OtherRunKept(d, e, g, Closed(n, Read));
  }

  lemma LoadKeepsRun(f: File, d: DiskState)
    ensures Load(f, d).0.start == f.start && Load(f, d).0.count == f.count
  {
  }

  // Another file, while file f becomes g on the way from disk d to disk e.
  lemma OtherFileKept(s: State, e: DiskState, f: File, g: File, t: State, j: nat)
    requires s.disk.Valid() && e.Valid() && e.total == s.disk.total && t.disk == e
    requires Known(s, j) && Known(t, j)
    requires Placed(s.disk, FileAt(s, j)) && Stored(s.disk, FileAt(s, j)) && RunOf(FileAt(s, j)) !! RunOf(f)
    requires e.Used() == s.disk.Used() - RunOf(f) + RunOf(g) && RunOf(g) !! (s.disk.Used() - RunOf(f))
    requires forall k :: 1 <= k < |s.disk.sectors| && k !in RunOf(g) ==> e.sectors[k] == s.disk.sectors[k]
    requires if j in s.open then j in t.open && t.open[j] == s.open[j] else j !in t.open && t.vfs.nodes[j] == s.vfs.nodes[j]
    ensures FileAt(t, j) == FileAt(s, j) && Placed(e, FileAt(s, j)) && Stored(e, FileAt(s, j))
    ensures RunOf(FileAt(s, j)) !! RunOf(g)
  {
    hide UsedSet, Placed, Stored, RunOf, Loaded;
    OtherPlaced(s.disk, e, f, g, FileAt(s, j));
    OtherRunKept(s.disk, e, g, FileAt(s, j));
    if j !in s.open {
      ClosedKept(s.vfs.nodes[j], s.disk, e, g);
    }
  }

  // The disk and the written file after a write that finds room.
  lemma WriteDisk(s: State, i: nat, bytes: seq<byte>)
    requires Inv(s) && i in s.open && Writable(s, i, bytes)
    ensures var (t, f) := (WriteFile(s, i, bytes).0, WriteBytes(s.open[i], bytes).0);
      && i in t.open && t.open == s.open[i := t.open[i]]
      && SyncedApart(s.disk, f, t.disk, t.open[i]) && RunOf(f) == RunOf(s.open[i])
  {
    hide Inv, Placed, Stored, RunOf, Sync, Fits, SyncedApart;
    OpenPlaced(s, i);
    InvParts(s);
    PlacedAfterWrite(s.disk, s.open[i], bytes);
    SyncWritten(s.disk, s.open[i], bytes);
  }

  // The write, taken apart: everybody but file i.
  lemma WriteOthers(s: State, i: nat, bytes: seq<byte>)
    requires Inv(s) && i in s.open && Writable(s, i, bytes)
    ensures var t := WriteFile(s, i, bytes).0;
      && t.disk.Valid() && i in t.open && Placed(t.disk, t.open[i]) && Stored(t.disk, t.open[i])
      && t.open[i].data == WriteBytes(s.open[i], bytes).0.data
      && (forall j :: Known(t, j) <==> Known(s, j))
      && (forall j :: Known(s, j) && j != i ==>
            FileAt(t, j) == FileAt(s, j) && Placed(t.disk, FileAt(s, j)) && Stored(t.disk, FileAt(s, j))
            && RunOf(FileAt(s, j)) !! RunOf(t.open[i]))
  {
    hide Inv, WriteFile, UsedSet, Placed, Stored, WriteBytes, RunOf, Loaded, VfsInv, OpenOk, Writable;
    InvParts(s);
    WriteDisk(s, i, bytes);
    NodesAfterWrite(s, i, bytes);
    var t := WriteFile(s, i, bytes).0;
    forall j | Known(s, j) && j != i
      ensures FileAt(t, j) == FileAt(s, j) && Placed(t.disk, FileAt(s, j)) && Stored(t.disk, FileAt(s, j))
      ensures RunOf(FileAt(s, j)) !! RunOf(t.open[i])
    {
      InvFile(s, j);
      InvApart(s, j, i);
      assert FileAt(s, i) == s.open[i];
      OtherFileKept(s, t.disk, WriteBytes(s.open[i], bytes).0, t.open[i], t, j);
    }
  }

  // A write touches no node but its own, and of that one only size and blocks.
  lemma NodesAfterWrite(s: State, i: nat, bytes: seq<byte>)
    requires s.disk.Valid() && i in s.open
    ensures var t := WriteFile(s, i, bytes).0;
      && t.vfs.nodes.Keys == s.vfs.nodes.Keys && t.vfs.next == s.vfs.next
      && (forall j :: j in s.vfs.nodes && j != i ==> t.vfs.nodes[j] == s.vfs.nodes[j])
      && (i in s.vfs.nodes ==> t.vfs.nodes[i].kind == s.vfs.nodes[i].kind)
  {
    hide Sync, WriteBytes, Released;
  }

  lemma WriteKeepsVfsInv(s: State, i: nat, bytes: seq<byte>)
    requires VfsInv(s.base, s.vfs) && s.disk.Valid() && i in s.open
    ensures VfsInv(s.base, WriteFile(s, i, bytes).0.vfs)
  {
    hide Sync, WriteBytes;
    var t := WriteFile(s, i, bytes).0;
    if t.vfs != s.vfs {
      var g := t.open[i];
      I.StepKeepsInv(s.base, s.vfs, I.Synced(i, |g.data|, Blocks(g.start.value, g.count)));
    }
  }

  // The written file's node: new size and blocks if the file has a run, and otherwise
  // what it was.
  lemma WrittenNode(s: State, i: nat, bytes: seq<byte>)
    requires s.disk.Valid() && i in s.open && i in s.vfs.nodes
    requires !s.open[i].mode.Read? && Sync(WriteBytes(s.open[i], bytes).0, s.disk).2
    ensures var t := WriteFile(s, i, bytes).0;
      && i in t.vfs.nodes && i in t.open && t.open[i] == Sync(WriteBytes(s.open[i], bytes).0, s.disk).0
      && t.vfs.nodes[i] ==
           if t.open[i].start.None? then s.vfs.nodes[i]
           else s.vfs.nodes[i].(size := |t.open[i].data|, blocks := Blocks(t.open[i].start.value, t.open[i].count))
  {
    hide Sync;
  }

  // The node of the written file says where its bytes are now.
  lemma OwnNodeAgrees(s: State, i: nat, bytes: seq<byte>)
    requires Inv(s) && i in s.open && Writable(s, i, bytes) && i in s.vfs.nodes
    ensures var t := WriteFile(s, i, bytes).0; i in t.vfs.nodes && i in t.open && NodeAgrees(t.vfs.nodes[i], t.open[i])
  {
    hide Inv, Placed, Stored, RunOf, Sync, Fits, ReadRun, WriteFile, WriteBytes;
    OpenPlaced(s, i);
    InvParts(s);
    InvFile(s, i);
    SyncWritten(s.disk, s.open[i], bytes);
    WrittenNode(s, i, bytes);
    StoredNeedsBytes(s.disk, s.open[i]);
    GrowsFromBytes(s.open[i], bytes);
    WriteIsAllowed(s, i, bytes);
  }

  // A write never leaves a file with bytes empty.
  lemma GrowsFromBytes(f: File, bytes: seq<byte>)
    ensures WriteBytes(f, bytes).0.data == [] ==> f.data == []
  {
  }

  lemma WriteReply(s: State, i: nat, bytes: seq<byte>)
    requires s.disk.Valid() && i in s.open && !s.open[i].mode.Read?
    ensures var (t, r) := WriteFile(s, i, bytes);
      r == Ok(|bytes|) && i in t.open && t.open.Keys == s.open.Keys
    ensures WriteBytes(s.open[i], bytes).0.data == Put(s.open[i].data, WritePosition(s.open[i]), bytes)
  {
    hide Sync, Put;
  }

  // A write that finds room changes the content of its own file, as laid down over the
  // old bytes, and of no other, and keeps the invariant.
  lemma WriteSpec(s: State, i: nat, bytes: seq<byte>)
    requires Inv(s) && i in s.open && Writable(s, i, bytes)
    ensures var (t, r) := WriteFile(s, i, bytes);
      && Inv(t) && r == Ok(|bytes|) && i in t.open
      && Content(t, i) == Put(Content(s, i), WritePosition(s.open[i]), bytes)
      && (forall j :: Known(t, j) <==> Known(s, j))
      && (forall j :: Known(s, j) && j != i ==> Content(t, j) == Content(s, j))
  {
    assert VfsInv(s.base, s.vfs) && s.disk.Valid() && Content(s, i) == s.open[i].data;
    hide WriteFile, Inv, VfsInv, Placed, Stored, RunOf, Writable, NodeAgrees, WriteBytes, Put, Loaded;
    var t := WriteFile(s, i, bytes).0;
    WriteOthers(s, i, bytes);
    WriteIsAllowed(s, i, bytes);
    WriteReply(s, i, bytes);
    WriteKeepsVfsInv(s, i, bytes);
    NodesAfterWrite(s, i, bytes);
    if i in s.vfs.nodes {
      OwnNodeAgrees(s, i, bytes);
    }
    GoodAfterWrite(s, t, i);
  }

  lemma WriteIsAllowed(s: State, i: nat, bytes: seq<byte>)
    requires i in s.open && Writable(s, i, bytes)
    ensures !s.open[i].mode.Read?
  {
  }

  lemma GoodAfterWrite(s: State, t: State, i: nat)
    requires Inv(s) && i in s.open && i in t.open && t.disk.Valid() && VfsInv(t.base, t.vfs) && t.open.Keys == s.open.Keys
    requires Placed(t.disk, t.open[i]) && Stored(t.disk, t.open[i])
    requires i in t.vfs.nodes ==> NodeAgrees(t.vfs.nodes[i], t.open[i])
    requires t.vfs.nodes.Keys == s.vfs.nodes.Keys && t.vfs.next == s.vfs.next
    requires forall j :: j in s.vfs.nodes && j != i ==> t.vfs.nodes[j] == s.vfs.nodes[j]
    requires i in s.vfs.nodes ==> t.vfs.nodes[i].kind == s.vfs.nodes[i].kind
    requires forall j :: Known(s, j) && j != i ==>
      Known(t, j) && FileAt(t, j) == FileAt(s, j) && Placed(t.disk, FileAt(s, j)) && Stored(t.disk, FileAt(s, j))
      && RunOf(FileAt(s, j)) !! RunOf(t.open[i])
    ensures Inv(t)
  {
    hide VfsInv, Placed, Stored, RunOf, NodeAgrees, Loaded;
    forall j | Known(t, j)
      ensures GoodFile(t, j)
    {
      assert GoodFile(s, j);
    }
    forall j, k | Known(t, j) && Known(t, k) && j != k
      ensures Apart(t, j, k)
    {
      assert Apart(s, j, k);
    }
    forall j | j in t.open
      ensures OpenOk(t, j)
    {
      assert OpenOk(s, j);
    }
  }

  lemma FailedWriteBreaks(s: State, i: nat, bytes: seq<byte>)
    requires Inv(s) && i in s.open && !s.open[i].mode.Read?
    requires !Fits(s.disk, WriteBytes(s.open[i], bytes).0)
    ensures var t := WriteFile(s, i, bytes).0;
      i in t.open && Known(t, i) && FileAt(t, i) == t.open[i] && !Stored(t.disk, t.open[i])
  {
    hide Inv, Placed, Stored, Fits, Sync;
    OpenPlaced(s, i);
    InvParts(s);
    PlacedAfterWrite(s.disk, s.open[i], bytes);
    FailedSync(s.disk, WriteBytes(s.open[i], bytes).0, WriteFile(s, i, bytes).0.disk);
  }

  // The write answers as if all were well whether or not its sync finds room; the service
  // is in order afterwards if and only if it does.
  lemma WriteKeepsInvIff(s: State, i: nat, bytes: seq<byte>)
    requires Inv(s) && i in s.open && !s.open[i].mode.Read?
    ensures WriteFile(s, i, bytes).1 == Ok(|bytes|)
    ensures Inv(WriteFile(s, i, bytes).0) <==> Fits(s.disk, WriteBytes(s.open[i], bytes).0)
  {
    assert s.disk.Valid();
    hide Inv, WriteFile, VfsInv, Stored, Placed, FileAt, Fits, Sync;
    WriteReply(s, i, bytes);
    if Fits(s.disk, WriteBytes(s.open[i], bytes).0) {
      WriteSpec(s, i, bytes);
    } else {
      FailedWriteBreaks(s, i, bytes);
      UnstoredBreaks(WriteFile(s, i, bytes).0, i);
    }
  }

  lemma UnstoredBreaks(t: State, i: nat)
    requires Known(t, i) && !Stored(t.disk, FileAt(t, i))
    ensures !Inv(t)
  {
    assert !GoodFile(t, i);
    hide VfsInv, Stored, Placed, FileAt;
  }

  // ---------------------------------------------------------------------
  // Starting again
  // ---------------------------------------------------------------------

  // A file opened from a node that agrees with it has the same bytes on the same run.
  lemma Reopened(d: DiskState, n: V.Node, f: File)
    requires d.Valid() && Placed(d, f) && Stored(d, f) && NodeAgrees(n, f)
    ensures var g := Loaded(n, Read, d);
      g.data == f.data && RunOf(g) == RunOf(f) && Placed(d, g) && Stored(d, g) && NodeAgrees(n, g)
  {
    if f.start.Some? {
      assert n.blocks[0] == f.start.value && |n.blocks| == f.count;
      var bytes := ReadRun(d, f.start.value, f.count);
      assert |bytes| == 512 * f.count && |f.data| <= |bytes|;
      assert bytes[..|bytes|] == bytes;
    }
    hide ReadRun, UsedSet;
  }

  // The disk after a restart differs at most in sector 0.
  lemma ReloadedDisk(d: DiskState)
    requires d.Valid() && Describable(d)
    ensures var e := d.Flush().Reload();
      && e.Valid() && e.total == d.total && e.Used() == d.Used()
      && forall s :: 1 <= s < |d.sectors| ==> e.sectors[s] == d.sectors[s]
  {
    RestartKeepsUsed(d);
    hide UsedSet, BitmapBytes;
  }

  // The node of a known file after a restart.
  lemma ReloadedNode(s: State, order: seq<nat>, i: nat)
    requires Inv(s) && I.Enumerates(s.vfs, order)
    ensures var w := I.Load(s.base, I.Save(s.vfs, order));
      && (i in s.vfs.nodes ==> i in w.nodes && NodeAgrees(w.nodes[i], FileAt(s, i)))
      && (i !in s.vfs.nodes && i in w.nodes ==> w.nodes[i].blocks == [])
  {
    NextIsFresh(s.base, s.vfs);
    I.LoadAt(s.base, s.vfs, order, i);
    assert i in s.vfs.nodes ==> GoodFile(s, i);
    if i in s.vfs.nodes && i == V.ROOT {
      assert s.vfs.nodes[i].kind == s.base.nodes[V.ROOT].kind;
    }
    hide I.Load, I.Save, FileAt, Placed, Stored, I.Enumerates, V.Tree;
  }

  lemma RestartFile(s: State, order: seq<nat>, i: nat)
    requires Inv(s) && I.Enumerates(s.vfs, order) && Describable(s.disk) && Known(Restart(s, order), i)
    ensures var t := Restart(s, order);
      && t.disk.Valid() && GoodFile(t, i)
      && (if i in s.vfs.nodes then Content(t, i) == Content(s, i) && RunOf(FileAt(t, i)) == RunOf(FileAt(s, i))
          else Content(t, i) == [] && RunOf(FileAt(t, i)) == {})
  {
    var t := Restart(s, order);
    ReloadedDisk(s.disk);
    ReloadedNode(s, order, i);
    assert t.open == map[] && t.disk == s.disk.Flush().Reload();
    if i in s.vfs.nodes {
      assert GoodFile(s, i) && s.disk.Valid();
      hide Inv, Restart, Placed, Stored, Loaded, UsedSet, NodeAgrees;
      SameDiskFile(s.disk, t.disk, FileAt(s, i));
      Reopened(t.disk, t.vfs.nodes[i], FileAt(s, i));
    } else {
      hide Inv, Restart;
      BlankFacts(t.disk, FileAt(t, i));
    }
  }

  lemma SameDiskFile(d: DiskState, e: DiskState, f: File)
    requires d.Valid() && e.Valid() && e.total == d.total && e.Used() == d.Used() && Placed(d, f) && Stored(d, f)
    requires forall s :: 1 <= s < |d.sectors| ==> e.sectors[s] == d.sectors[s]
    ensures Placed(e, f) && Stored(e, f)
  {
    hide UsedSet, Stored;
    OtherRunKept(d, e, NewFile(0, Read), f);
  }

  lemma RestartVfs(s: State, order: seq<nat>)
    requires VfsInv(s.base, s.vfs) && s.disk.Valid() && I.Enumerates(s.vfs, order)
    ensures VfsInv(s.base, Restart(s, order).vfs)
    ensures forall i :: i in s.vfs.nodes ==> i in Restart(s, order).vfs.nodes
    ensures V.ROOT in s.vfs.nodes ==> forall path :: V.LookupPath(Restart(s, order).vfs, path) == V.LookupPath(s.vfs, path)
  {
    I.LoadKeepsInv(s.base, s.vfs, order);
    I.LoadKeepsPathsIff(s.base, s.vfs, order);
    NextIsFresh(s.base, s.vfs);
    forall i | i in s.vfs.nodes
      ensures i in Restart(s, order).vfs.nodes
    {
      I.LoadAt(s.base, s.vfs, order, i);
    }
    hide I.Load, I.Save, V.Components, I.Inv;
  }

  lemma RestartApart(s: State, order: seq<nat>, i: nat, j: nat)
    requires Inv(s) && I.Enumerates(s.vfs, order) && Describable(s.disk) && i != j
    requires Known(Restart(s, order), i) && Known(Restart(s, order), j)
    ensures Apart(Restart(s, order), i, j)
  {
    hide Inv, Restart, FileAt, I.Enumerates;
    RestartFile(s, order, i);
    RestartFile(s, order, j);
    if i in s.vfs.nodes && j in s.vfs.nodes {
      InvApart(s, i, j);
    }
  }

  lemma RestartParts(s: State, order: seq<nat>)
    requires Inv(s) && I.Enumerates(s.vfs, order) && Describable(s.disk)
    ensures var t := Restart(s, order);
      && t.open == map[] && t.disk.Valid() && t.disk.Used() == s.disk.Used() && VfsInv(t.base, t.vfs)
  {
    hide Inv, VfsInv, UsedSet, I.Enumerates, I.Load, I.Save;
    InvParts(s);
    ReloadedDisk(s.disk);
    RestartVfs(s, order);
  }

  lemma RestartKeepsInv(s: State, order: seq<nat>)
    requires Inv(s) && I.Enumerates(s.vfs, order) && Describable(s.disk)
    ensures Inv(Restart(s, order))
  {
    hide Restart, VfsInv, FileAt, UsedSet, GoodFile, RunOf, Apart, OpenOk, I.Enumerates;
    InvParts(s);
    RestartParts(s, order);
    var t := Restart(s, order);
    forall i | Known(t, i)
      ensures GoodFile(t, i)
    {
      RestartFile(s, order, i);
    }
    forall i, j | Known(t, i) && Known(t, j) && i != j
      ensures Apart(t, i, j)
    {
      RestartApart(s, order, i, j);
    }
  }

  // Durability: after starting again from the saved tree and the disk, every file that
  // has a node holds what it held, the used sectors are the same, and, as long as there
  // is a root, every path names what it named.
  lemma RestartSpec(s: State, order: seq<nat>)
    requires Inv(s) && I.Enumerates(s.vfs, order) && Describable(s.disk)
    ensures var t := Restart(s, order);
      && Inv(t) && t.open == map[] && t.disk.Used() == s.disk.Used()
      && (forall i :: i in s.vfs.nodes ==> Known(t, i) && Content(t, i) == Content(s, i))
      && (V.ROOT in s.vfs.nodes ==> forall path :: V.LookupPath(t.vfs, path) == V.LookupPath(s.vfs, path))
  {
    hide Inv, Restart, VfsInv, FileAt, UsedSet, GoodFile, RunOf, I.Enumerates, V.LookupPath;
    InvParts(s);
    var t := Restart(s, order);
    RestartParts(s, order);
    RestartVfs(s, order);
    RestartKeepsInv(s, order);
    forall i | i in s.vfs.nodes
      ensures Known(t, i) && Content(t, i) == Content(s, i)
    {
      RestartFile(s, order, i);
    }
  }

  // ---------------------------------------------------------------------
  // Runs
  // ---------------------------------------------------------------------

  datatype Op =
    | DoOpen(path: string, create: bool, mode: OpenMode)
    | DoWrite(i: nat, bytes: seq<byte>)
    | DoRead(i: nat, count: nat)
    | DoSeek(i: nat, to: nat)
    | DoRemove(path: string)
    | DoMakeDirectory(path: string)
    | DoRestart(order: seq<nat>)

  // A permitted write finds room; a restart is on a disk whose sector 0 can say what is used.
  ghost predicate Legal(s: State, op: Op) {
    match op
    case DoWrite(i, bytes) => i in s.open && (s.open[i].mode.Read? || Fits(s.disk, WriteBytes(s.open[i], bytes).0))
    case DoRead(i, _) => i in s.open
    case DoSeek(i, _) => i in s.open
    case DoRestart(order) => I.Enumerates(s.vfs, order) && Describable(s.disk)
    case _ => true
  }

  // What the handlers rely on; it follows from the invariant.
  ghost predicate Ready(s: State, op: Op) {
    match op
    case DoWrite(i, _) => s.disk.Valid() && i in s.open
    case DoRead(i, _) => i in s.open
    case DoSeek(i, _) => i in s.open
    case DoRestart(order) => s.disk.Valid() && I.Enumerates(s.vfs, order)
    case _ => true
  }

  ghost function Step(s: State, op: Op): State
    requires Ready(s, op)
  {
    match op
    case DoOpen(path, create, mode) => Open(s, path, create, mode).0
    case DoWrite(i, bytes) => WriteFile(s, i, bytes).0
    case DoRead(i, count) => ReadFile(s, i, count).0
    case DoSeek(i, to) => Seek(s, i, to)
    case DoRemove(path) => Remove(s, path).0
    case DoMakeDirectory(path) => MakeDirectory(s, path).0
    case DoRestart(order) => Restart(s, order)
  }

  // What a write does to the bytes of its file, with no disk in sight.
  function FlatStep(s: State, op: Op, i: nat, bytes: seq<byte>): seq<byte> {
    if op.DoWrite? && op.i == i && i in s.open && !s.open[i].mode.Read? then
      Put(bytes, WritePosition(s.open[i]), op.bytes)
    else bytes
  }

  // The invariant holds again, and files that have a node before and after hold what the
  // flat step says.
  ghost predicate StepOk(s: State, op: Op, t: State) {
    && Inv(t)
    && forall i :: i in s.vfs.nodes && i in t.vfs.nodes ==> Content(t, i) == FlatStep(s, op, i, Content(s, i))
  }

  lemma QuietIsOk(s: State, op: Op, t: State)
    requires Inv(t) && SameFiles(s, t)
    requires !op.DoWrite? || op.i !in s.open || s.open[op.i].mode.Read?
    ensures StepOk(s, op, t)
  {
    hide Inv, FileAt;
    SameContents(s, t);
  }

  lemma NoChange(s: State)
    ensures SameFiles(s, s)
  {
    hide FileAt;
  }

  lemma OpenIsOk(s: State, op: Op)
    requires Inv(s) && op.DoOpen?
    ensures Ready(s, op) && StepOk(s, op, Step(s, op))
  {
    hide Inv, FileAt, Open, V.LookupPath;
    OpenSpec(s, op.path, op.create, op.mode);
  }

  lemma WriteIsOk(s: State, op: Op)
    requires Inv(s) && op.DoWrite? && Legal(s, op)
    ensures Ready(s, op) && StepOk(s, op, Step(s, op))
  {
    hide Inv, FileAt, WriteFile, Fits, SameFiles, DiskState.Valid, Put;
    InvParts(s);
    OpenPlaced(s, op.i);
    if s.open[op.i].mode.Read? {
      RefusedWrite(s, op.i, op.bytes);
      NoChange(s);
      QuietIsOk(s, op, s);
    } else {
      PermittedWrite(s, op);
    }
  }

  lemma PermittedWrite(s: State, op: Op)
    requires Inv(s) && op.DoWrite? && Ready(s, op) && Legal(s, op) && !s.open[op.i].mode.Read?
    ensures StepOk(s, op, WriteFile(s, op.i, op.bytes).0)
  {
    hide Inv, FileAt, WriteFile, Fits, DiskState.Valid, Put;
    WriteSpec(s, op.i, op.bytes);
  }

  lemma RefusedWrite(s: State, i: nat, bytes: seq<byte>)
    requires s.disk.Valid() && i in s.open && s.open[i].mode.Read?
    ensures WriteFile(s, i, bytes) == (s, Err(NotPermitted))
  {
    hide Sync;
  }

  lemma ReadIsOk(s: State, op: Op)
    requires Inv(s) && op.DoRead? && Legal(s, op)
    ensures Ready(s, op) && StepOk(s, op, Step(s, op))
  {
    hide Inv, FileAt, SameFiles;
    var f := ReadBytes(s.open[op.i], op.count).0;
    if s.open[op.i].mode.Write? {
      NoChange(s);
      QuietIsOk(s, op, s);
    } else {
      CursorQuiet(s, op.i, f);
      QuietIsOk(s, op, s.(open := s.open[op.i := f]));
    }
  }

  lemma SeekIsOk(s: State, op: Op)
    requires Inv(s) && op.DoSeek? && Legal(s, op)
    ensures Ready(s, op) && StepOk(s, op, Step(s, op))
  {
    hide Inv, FileAt, SameFiles;
    CursorQuiet(s, op.i, s.open[op.i].(position := op.to, eof := false));
    QuietIsOk(s, op, Step(s, op));
  }

  lemma RemoveIsOk(s: State, op: Op)
    requires Inv(s) && op.DoRemove?
    ensures Ready(s, op) && StepOk(s, op, Step(s, op))
  {
    hide Inv, FileAt, SameFiles, V.Delete, V.LookupPath;
    match V.LookupPath(s.vfs, op.path)
    case None =>
      NoChange(s);
      QuietIsOk(s, op, s);
    case Some(i) =>
      DeleteQuiet(s, i);
      QuietIsOk(s, op, s.(vfs := V.Delete(s.vfs, i).0));
  }

  lemma MakeDirectoryIsOk(s: State, op: Op)
    requires Inv(s) && op.DoMakeDirectory?
    ensures Ready(s, op) && StepOk(s, op, Step(s, op))
  {
    hide Inv, FileAt, SameFiles, V.Create, V.LookupPath, SplitPath;
    NoChange(s);
    QuietIsOk(s, op, s);
    if SplitPath(op.path).Some? {
      var (dir, name) := SplitPath(op.path).value;
      var p := V.LookupPath(s.vfs, dir);
      if p.Some? && p.value in s.vfs.nodes {
        CreateQuiet(s, p.value, name, V.Directory);
        QuietIsOk(s, op, s.(vfs := V.Create(s.vfs, p.value, name, V.Directory).0));
      }
    }
  }

  lemma RestartIsOk(s: State, op: Op)
    requires Inv(s) && op.DoRestart? && Legal(s, op)
    ensures Ready(s, op) && StepOk(s, op, Step(s, op))
  {
    hide Inv, FileAt, Restart, I.Enumerates, I.Load, I.Save, DiskState.Valid;
    InvParts(s);
    RestartKeepsInv(s, op.order);
    RestartContents(s, op.order);
  }

  lemma RestartContents(s: State, order: seq<nat>)
    requires Inv(s) && s.disk.Valid() && I.Enumerates(s.vfs, order) && Describable(s.disk)
    ensures forall i :: i in s.vfs.nodes && i in Restart(s, order).vfs.nodes ==> Content(Restart(s, order), i) == Content(s, i)
  {
    hide Inv, FileAt, Restart, I.Enumerates, I.Load, I.Save, DiskState.Valid, GoodFile;
    forall i | i in s.vfs.nodes && i in Restart(s, order).vfs.nodes
      ensures Content(Restart(s, order), i) == Content(s, i)
    {
      RestartFile(s, order, i);
    }
  }

  lemma StepIsOk(s: State, op: Op)
    requires Inv(s) && Legal(s, op)
    ensures Ready(s, op) && StepOk(s, op, Step(s, op)) && Inv(Step(s, op))
  {
    hide Step, Legal, Ready, Inv, Content, FlatStep;
    match op
    case DoOpen(_, _, _) => OpenIsOk(s, op);
    case DoWrite(_, _) => WriteIsOk(s, op);
    case DoRead(_, _) => ReadIsOk(s, op);
    case DoSeek(_, _) => SeekIsOk(s, op);
    case DoRemove(_) => RemoveIsOk(s, op);
    case DoMakeDirectory(_) => MakeDirectoryIsOk(s, op);
    case DoRestart(_) => RestartIsOk(s, op);
  }

  // A run in which node i lives throughout.
  ghost predicate LegalRun(s: State, ops: seq<Op>, i: nat)
    requires Inv(s)
    decreases |ops|
  {
    && i in s.vfs.nodes
    && (ops == [] || (Legal(s, ops[0]) && (StepIsOk(s, ops[0]); LegalRun(Step(s, ops[0]), ops[1..], i))))
  }

  ghost function Exec(s: State, ops: seq<Op>, i: nat): (t: State)
    requires Inv(s) && LegalRun(s, ops, i)
    ensures Inv(t) && i in t.vfs.nodes
    decreases |ops|
  {
    if ops == [] then s
    else
      StepIsOk(s, ops[0]);
      Exec(Step(s, ops[0]), ops[1..], i)
  }

  ghost function Replay(s: State, ops: seq<Op>, i: nat, bytes: seq<byte>): seq<byte>
    requires Inv(s) && LegalRun(s, ops, i)
    decreases |ops|
  {
    if ops == [] then bytes
    else
      StepIsOk(s, ops[0]);
      Replay(Step(s, ops[0]), ops[1..], i, FlatStep(s, ops[0], i, bytes))
  }

  // In every run of opens, reads, writes, deletions and restarts, a file holds exactly
  // what its own writes have put there, whatever sectors it has lived on meanwhile.
  lemma {:induction false} FilesAreFlat(s: State, ops: seq<Op>, i: nat)
    requires Inv(s) && LegalRun(s, ops, i)
    ensures Content(Exec(s, ops, i), i) == Replay(s, ops, i, Content(s, i))
    decreases |ops|
  {
    hide Inv, Legal, Ready, Step, Content, FlatStep;
    if ops != [] {
      StepIsOk(s, ops[0]);
      FilesAreFlat(Step(s, ops[0]), ops[1..], i);
    }
  }

  // Written, shut down, started again and opened: the bytes are there.
  lemma ReopenedAfterRestart(s: State, ops: seq<Op>, i: nat, order: seq<nat>, path: string, mode: OpenMode)
    requires Inv(s) && LegalRun(s, ops, i)
    requires var t := Exec(s, ops, i);
      && I.Enumerates(t.vfs, order) && t.disk.Valid() && Describable(t.disk)
      && V.ROOT in t.vfs.nodes && V.LookupPath(t.vfs, path) == Some(i)
    ensures var t := Exec(s, ops, i);
      var (u, r) := Open(Restart(t, order), path, false, mode);
      r == Ok(i) ==> (i in u.open && u.open[i].data == Replay(s, ops, i, Content(s, i)) && u.open[i].position == 0)
    ensures var t := Exec(s, ops, i);
      t.vfs.nodes[i].kind.File? ==> Open(Restart(t, order), path, false, mode).1 == Ok(i)
  {
    hide Inv, FileAt, Restart, I.Enumerates, DiskState.Used, V.Components, LegalRun, Exec, Replay, DiskState.Valid;
    var t := Exec(s, ops, i);
    FilesAreFlat(s, ops, i);
    RestartSpec(t, order);
    OpenSpec(Restart(t, order), path, false, mode);
    RestartedKind(t, order, i);
  }

  lemma RestartedKind(s: State, order: seq<nat>, i: nat)
    requires Inv(s) && s.disk.Valid() && I.Enumerates(s.vfs, order) && i in s.vfs.nodes
    ensures var w := Restart(s, order).vfs;
      i in w.nodes && w.nodes[i].kind == s.vfs.nodes[i].kind
  {
    hide I.Load, I.Save, I.Enumerates, GoodFile, Apart;
    NextIsFresh(s.base, s.vfs);
    I.LoadAt(s.base, s.vfs, order, i);
  }

  // A new system: the default tree, nothing open, and any disk that is in order.
  lemma NewServiceInv(d: DiskState)
    requires d.Valid()
    ensures Inv(Service(I.Default(), I.Default(), d, map[]))
  {
    var s := Service(I.Default(), I.Default(), d, map[]);
    hide I.Default;
    I.DefaultTree();
    I.NewIsATree();
    forall i | Known(s, i)
      ensures GoodFile(s, i) && RunOf(FileAt(s, i)) == {}
    {
      BlankFacts(d, FileAt(s, i));
    }
  }
}
