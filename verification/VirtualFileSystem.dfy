// The virtual file system as an object.
module VirtualFileSystems {
  import opened Prelude
  import opened Vfs
  import opened VfsImage

  // The default tree, a step at a time.
  lemma DefaultSteps(d: State)
    requires d == CreateAll(Empty(), ROOT, DIRECTORIES, Directory)
    ensures Default() ==
      if ROOT in d.nodes && "programs" in d.nodes[ROOT].children then
        CreateAll(d, d.nodes[ROOT].children["programs"], PROGRAMS, File)
      else d
  {
    hide CreateAll;
  }

  class VirtualFileSystem {
    var nodes: map<nat, Node>
    var nextInode: nat

    function Model(): State
      reads this
    {
      State(nodes, nextInode)
    }

    constructor ()
      ensures Model() == Default()
    {
      nodes := map[ROOT := Node(ROOT, Directory, "/", None, 0, [], map[], 0, false)];
      nextInode := 1;
      new;
      hide CreateAll, Default;
      assert Model() == Empty();
      MakeAll(ROOT, DIRECTORIES, Directory);
      DefaultSteps(Model());
      if ROOT in nodes && "programs" in nodes[ROOT].children {
        MakeAll(nodes[ROOT].children["programs"], PROGRAMS, File);
      }
    }

    method MakeAll(parent: nat, names: seq<string>, kind: NodeType)
      modifies this
      ensures Model() == CreateAll(old(Model()), parent, names, kind)
    {
      hide Create;
      for i := 0 to |names|
        invariant CreateAll(Model(), parent, names[i..], kind) == CreateAll(old(Model()), parent, names, kind)
      {
        assert names[i..][0] == names[i] && names[i..][1..] == names[i + 1..];
        var _ := Make(parent, names[i], kind);
      }
    }

    // Create a file or a directory.  On failure the new node stays behind, unlinked.
    method Make(parent: nat, name: string, kind: NodeType) returns (r: Result<nat, VfsError>)
      modifies this
      ensures (Model(), r) == Create(old(Model()), parent, name, kind)
    {
      var inode := nextInode;
      nextInode := nextInode + 1;
      nodes := nodes[inode := Node(inode, kind, name, Some(parent), 0, [], map[], 0, false)];
      if parent in nodes {
        if !nodes[parent].kind.Directory? {
          return Err(NotADirectory);
        }
        if name in nodes[parent].children {
          return Err(ChildExists);
        }
        var children := nodes[parent].children[name := inode];
        nodes := nodes[parent := nodes[parent].(children := children)];
      }
      return Ok(inode);
    }

    method FindPath(path: string) returns (r: Option<nat>)
      ensures r == LookupPath(Model(), path)
    {
      var components := Components(path);
      var current := ROOT;
      for i := 0 to |components|
        invariant Walk(Model(), ROOT, components) == Walk(Model(), current, components[i..])
      {
        assert components[i..][0] == components[i] && components[i..][1..] == components[i + 1..];
        if current !in nodes || components[i] !in nodes[current].children {
          return None;
        }
        current := nodes[current].children[components[i]];
      }
      return if current in nodes then Some(current) else None;
    }

    method DeleteNode(inode: nat) returns (r: Result<(), VfsError>)
      modifies this
      ensures (Model(), r) == Delete(old(Model()), inode)
    {
      if inode !in nodes {
        return Err(NotFound);
      }
      var node := nodes[inode];
      if !node.CanDelete() {
        return Err(CannotDelete);
      }
      if node.parent.Some? && node.parent.value in nodes && nodes[node.parent.value].kind.Directory? {
        var p := node.parent.value;
        var children := nodes[p].children - {node.name};
        nodes := nodes[p := nodes[p].(children := children)];
      }
      if node.refs == 0 {
        nodes := nodes - {inode};
      } else {
        nodes := nodes[inode := nodes[inode].(deleted := true)];
      }
      return Ok(());
    }

    method UpdateBlocks(inode: nat, size: nat, blocks: seq<nat>)
      modifies this
      ensures Model() == SetBlocks(old(Model()), inode, size, blocks)
    {
      if inode in nodes {
        nodes := nodes[inode := nodes[inode].(size := size, blocks := blocks)];
      }
    }

    method SaveToFile(order: seq<nat>) returns (image: seq<Saved>)
      requires forall i :: i in order ==> i in nodes
      ensures image == Save(Model(), order)
    {
      image := [];
      for i := 0 to |order|
        invariant |image| == i && forall k :: 0 <= k < i ==> image[k] == SaveNode(nodes[order[k]])
      {
        image := image + [SaveNode(nodes[order[i]])];
      }
    }

    constructor LoadFromFile(image: seq<Saved>)
      ensures Model() == Load(Default(), image)
    {
      nodes := map[ROOT := Node(ROOT, Directory, "/", None, 0, [], map[], 0, false)];
      nextInode := 1;
      new;
      hide CreateAll, Default;
      assert Model() == Empty();
      MakeAll(ROOT, DIRECTORIES, Directory);
      DefaultSteps(Model());
      if ROOT in nodes && "programs" in nodes[ROOT].children {
        MakeAll(nodes[ROOT].children["programs"], PROGRAMS, File);
      }
      RestoreAllNodes(image);
      RestoreAllEntries(image);
    }

    method RestoreAllNodes(image: seq<Saved>)
      modifies this
      ensures Model() == RestoreNodes(old(Model()), image)
    {
      for i := 0 to |image|
        invariant RestoreNodes(Model(), image[i..]) == RestoreNodes(old(Model()), image)
      {
        assert image[i..][0] == image[i] && image[i..][1..] == image[i + 1..];
        var s := image[i];
        if s.inode != ROOT {
          nodes := nodes[s.inode := Node(s.inode, s.kind, s.name, s.parent, s.size, s.blocks, map[], 0, false)];
          if s.inode >= nextInode {
            nextInode := s.inode + 1;
          }
        }
      }
    }

    method RestoreAllEntries(image: seq<Saved>)
      modifies this
      ensures Model() == RestoreEntries(old(Model()), image)
    {
      for i := 0 to |image|
        invariant RestoreEntries(Model(), image[i..]) == RestoreEntries(old(Model()), image)
      {
        assert image[i..][0] == image[i] && image[i..][1..] == image[i + 1..];
        var s := image[i];
        if s.inode in nodes {
          nodes := nodes[s.inode := nodes[s.inode].(children := s.children)];
        }
      }
    }
  }
}
