// The file service as an object over the tree, the disk and the open files.
module FileServers {
  import opened Prelude
  import opened Disk
  import opened Files
  import opened Paths
  import opened FileService
  import V = Vfs
  import VirtualFileSystems

  class FileServer {
    // The tree new file systems start with.
    ghost const base: V.State
    const vfs: VirtualFileSystems.VirtualFileSystem
    const disk: VirtualDisk
    var openFiles: map<nat, OpenFile>

    // Every inode has a file object of its own.
    ghost predicate Valid()
      reads this, disk
    {
      && disk.Valid()
      && forall i, j :: i in openFiles && j in openFiles && i != j ==> openFiles[i] != openFiles[j]
    }

    ghost function Model(): State
      reads this, vfs, disk, openFiles.Values
    {
      Service(base, vfs.Model(), disk.Model(), map i | i in openFiles :: openFiles[i].Model())
    }

    constructor (ghost base: V.State, vfs: VirtualFileSystems.VirtualFileSystem, disk: VirtualDisk)
      requires disk.Valid()
      ensures Valid() && Model() == Service(base, vfs.Model(), disk.Model(), map[])
    {
      this.base, this.vfs, this.disk := base, vfs, disk;
      openFiles := map[];
    }

    method FindNode(path: string, create: bool) returns (r: Result<nat, ServiceError>)
      requires Valid()
      modifies vfs
      ensures Valid()
      ensures (vfs.Model(), r) == Locate(old(vfs.Model()), path, create)
    {
      hide V.Walk, V.Components, SplitLast, V.Create;
      var found := vfs.FindPath(path);
      if found.Some? {
        return Ok(found.value);
      }
      if !create {
        return Err(ServiceError.NotFound);
      }
      var split := SplitLast(path);
      if split.None? {
        return Err(NoParent);
      }
      var parent := vfs.FindPath(split.value.0);
      if parent.None? {
        return Err(ServiceError.NotFound);
      }
      var made := vfs.Make(parent.value, split.value.1, V.File);
      if made.Err? {
        return Err(CannotCreate);
      }
      found := vfs.FindPath(path);
      return if found.Some? then Ok(found.value) else Err(ServiceError.NotFound);
    }

    method HandleOpen(path: string, create: bool, mode: OpenMode) returns (r: Result<nat, ServiceError>)
      requires Valid()
      modifies this, vfs, openFiles.Values
      ensures Valid() && (Model(), r) == Open(old(Model()), path, create, mode)
    {
      hide Locate, OpenNode;
      r := FindNode(path, create);
      assert Model().open == old(Model()).open;
      if r.Err? {
        return;
      }
      if r.value !in vfs.nodes || !vfs.nodes[r.value].kind.File? {
        return Err(NotAFile);
      }
      OpenFound(r.value, mode);
    }

    method OpenFound(i: nat, mode: OpenMode)
      requires Valid() && i in vfs.nodes
      modifies this, openFiles.Values
      ensures Valid() && Model() == OpenNode(old(Model()), i, mode)
    {
      hide Loaded;
      if i in openFiles {
        Rewind(i, mode);
      } else {
        var file := LoadNode(vfs.nodes[i], mode);
        ghost var before := Model();
        openFiles := openFiles[i := file];
        assert Model().open == before.open[i := file.Model()];
      }
    }

    method Rewind(i: nat, mode: OpenMode)
      requires Valid() && i in openFiles
      modifies openFiles[i]
      ensures Valid()
      ensures Model() == old(Model()).(open := old(Model()).open[i := old(Model()).open[i].(mode := mode, position := 0, eof := false)])
    {
      var file := openFiles[i];
      file.mode, file.position, file.eof := mode, 0, false;
    }

    method LoadNode(n: V.Node, mode: OpenMode) returns (file: OpenFile)
      requires Valid()
      ensures fresh(file) && file.Model() == Loaded(n, mode, disk.Model())
    {
      file := new OpenFile(n.inode, mode);
      if n.blocks != [] {
        file.startSector := Some(n.blocks[0]);
        file.sectorCount := |n.blocks|;
        file.size := n.size;
        var _ := file.LoadFromDisk(disk);
      }
    }

    method HandleWrite(i: nat, bytes: seq<byte>) returns (r: Result<nat, ServiceError>)
      requires Valid() && i in openFiles
      modifies vfs, disk, openFiles[i]
      ensures Valid() && (Model(), r) == WriteFile(old(Model()), i, bytes)
    {
      hide Sync, WriteBytes, V.SetBlocks, Blocks;
      ghost var before := openFiles[i].Model();
      r := WriteAndSync(i, bytes);
      assert Model().open == old(Model()).open[i := openFiles[i].Model()];
      if r.Err? {
        WriteKeepsRun(before, bytes);
        assert Model().open == old(Model()).open;
      }
    }

    // The part that concerns one file, the disk and one node.
    method WriteAndSync(i: nat, bytes: seq<byte>) returns (r: Result<nat, ServiceError>)
      requires disk.Valid() && i in openFiles
      modifies vfs, disk, openFiles[i]
      ensures disk.Valid()
      ensures var (f, w) := WriteBytes(old(openFiles[i].Model()), bytes);
        if w.Err? then
          r == Err(NotPermitted) && openFiles[i].Model() == f && disk.Model() == old(disk.Model()) && vfs.Model() == old(vfs.Model())
        else
          var (g, d, ok) := Sync(f, old(disk.Model()));
          && r == Ok(|bytes|) && openFiles[i].Model() == g && disk.Model() == d
          && vfs.Model() ==
               if ok && g.start.Some? then V.SetBlocks(old(vfs.Model()), i, |g.data|, Blocks(g.start.value, g.count))
               else old(vfs.Model())
    {
      hide Sync, WriteBytes, V.SetBlocks;
      var file := openFiles[i];
      var written := file.WriteData(bytes);
      if written.Err? {
        return Err(NotPermitted);
      }
      WriteCount(old(openFiles[i].Model()), bytes);
      var ok := file.SyncToDisk(disk);
      if ok && file.startSector.Some? {
        var blocks := Blocks(file.startSector.value, file.sectorCount);
        vfs.UpdateBlocks(i, |file.data|, blocks);
      }
      return Ok(|bytes|);
    }

    lemma WriteCount(f: File, bytes: seq<byte>)
      ensures WriteBytes(f, bytes).1.Ok? ==> WriteBytes(f, bytes).1.value == |bytes|
    {
      hide Put;
    }

    lemma WriteKeepsRun(f: File, bytes: seq<byte>)
      ensures var g := WriteBytes(f, bytes).0; g.start == f.start && g.count == f.count
      ensures WriteBytes(f, bytes).1.Err? ==> WriteBytes(f, bytes).0 == f
    {
      hide Put;
    }
  }
}
