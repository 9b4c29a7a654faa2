// The virtual file system: inodes, directories, paths, and the saved image.
module Vfs {
  import opened Prelude

  datatype NodeType = File | Directory | SymLink | BlockDevice | CharDevice

  datatype Node = Node(
    inode: nat,
    kind: NodeType,
    name: string,
    parent: Option<nat>,
    size: nat,
    blocks: seq<nat>,
    children: map<string, nat>,
    refs: nat,
    deleted: bool)
  {
    predicate CanDelete() {
      (refs == 0 && !kind.Directory?) || (kind.Directory? && children == map[])
    }
  }

  const ROOT: nat := 0

  datatype State = State(nodes: map<nat, Node>, next: nat)

  datatype VfsError = NotFound | NotADirectory | ChildExists | CannotDelete

  function Empty(): State {
    State(map[ROOT := Node(ROOT, Directory, "/", None, 0, [], map[], 0, false)], 1)
  }

  // ---------------------------------------------------------------------
  // Creating
  // ---------------------------------------------------------------------

  // The node is there, and the inode number spent, before the parent is looked at.
  function WithNode(v: State, parent: nat, name: string, kind: NodeType): State {
    State(v.nodes[v.next := Node(v.next, kind, name, Some(parent), 0, [], map[], 0, false)], v.next + 1)
  }

  function Create(v: State, parent: nat, name: string, kind: NodeType): (State, Result<nat, VfsError>) {
    var w := WithNode(v, parent, name, kind);
    if parent !in w.nodes then (w, Ok(v.next))
    else
      var p := w.nodes[parent];
      if !p.kind.Directory? then (w, Err(NotADirectory))
      else if name in p.children then (w, Err(ChildExists))
      else (w.(nodes := w.nodes[parent := p.(children := p.children[name := v.next])]), Ok(v.next))
  }

  // ---------------------------------------------------------------------
  // Paths
  // ---------------------------------------------------------------------

  // The non-empty pieces between slashes.
  function Components(path: string): seq<string>
    decreases |path|
  {
    if path == "" then []
    else
      var n := IndexOf(path, '/');
      (if n == 0 then [] else [path[..n]]) + if n < |path| then Components(path[n + 1..]) else []
  }

  // Follow names from a node; the node reached must exist.
  function Walk(v: State, at: nat, names: seq<string>): Option<nat>
    decreases |names|
  {
    if at !in v.nodes then None
    else if names == [] then Some(at)
    else if names[0] !in v.nodes[at].children then None
    else Walk(v, v.nodes[at].children[names[0]], names[1..])
  }

  function LookupPath(v: State, path: string): Option<nat> {
    Walk(v, ROOT, Components(path))
  }

  // ---------------------------------------------------------------------
  // Deleting
  // ---------------------------------------------------------------------

  // Take the entry of that name out of the parent, whatever node it names.
  function Unlink(v: State, parent: Option<nat>, name: string): State {
    if parent.None? || parent.value !in v.nodes then v
    else
      var p := v.nodes[parent.value];
      if p.kind.Directory? then v.(nodes := v.nodes[parent.value := p.(children := p.children - {name})]) else v
  }

  function Delete(v: State, inode: nat): (State, Result<(), VfsError>) {
    if inode !in v.nodes then (v, Err(NotFound))
    else
      var n := v.nodes[inode];
      if !n.CanDelete() then (v, Err(CannotDelete))
      else
        var w := Unlink(v, n.parent, n.name);
        (if n.refs == 0 then w.(nodes := w.nodes - {inode})
         else if inode in w.nodes then w.(nodes := w.nodes[inode := w.nodes[inode].(deleted := true)]) else w,
         Ok(()))
  }

  // What a synced write leaves in the node.
  function SetBlocks(v: State, inode: nat, size: nat, blocks: seq<nat>): State {
    if inode in v.nodes then v.(nodes := v.nodes[inode := v.nodes[inode].(size := size, blocks := blocks)]) else v
  }

  // ---------------------------------------------------------------------
  // The tree invariant
  // ---------------------------------------------------------------------

  ghost predicate NodeOk(v: State, i: nat)
    requires i in v.nodes
  {
    && v.nodes[i].inode == i && i < v.next
    && (!v.nodes[i].kind.Directory? ==> v.nodes[i].children == map[])
  }

  // A directory entry names an existing node that has this name and this parent, and
  // a larger inode number.
  ghost predicate EntryOk(v: State, i: nat, name: string)
    requires i in v.nodes && name in v.nodes[i].children
  {
    var c := v.nodes[i].children[name];
    i < c && c in v.nodes && v.nodes[c].name == name && v.nodes[c].parent == Some(i)
  }

  ghost predicate Tree(v: State) {
    && 0 < v.next
    && (forall i :: i in v.nodes ==> NodeOk(v, i))
    && (forall i, name :: i in v.nodes && name in v.nodes[i].children ==> EntryOk(v, i, name))
  }

  lemma EmptyTree()
    ensures Tree(Empty())
  {
  }

  // Creating keeps the tree exactly when the new directory is not its own parent: a
  // caller can guess the next inode number, and then the directory contains itself.
  lemma CreateKeepsTreeIff(v: State, parent: nat, name: string, kind: NodeType)
    requires Tree(v)
    ensures Tree(Create(v, parent, name, kind).0) <==> !(kind.Directory? && parent == v.next)
  {
    var w := Create(v, parent, name, kind).0;
    if kind.Directory? && parent == v.next {
      assert name in w.nodes[parent].children;
      assert !EntryOk(w, parent, name);
      hide NodeOk, EntryOk;
    } else {
      assert v.next !in v.nodes by {
        assert v.next in v.nodes ==> NodeOk(v, v.next);
      }
      assert parent in v.nodes ==> NodeOk(v, parent);
      hide Create, EntryOk;
      forall i, n | i in w.nodes && n in w.nodes[i].children
        ensures EntryOk(w, i, n)
      {
        CreatedEntry(v, parent, name, kind, i, n);
      }
      forall i | i in w.nodes
        ensures NodeOk(w, i)
      {
        CreatedNode(v, parent, name, kind, i);
      }
      assert 0 < w.next by { CreatedNode(v, parent, name, kind, v.next); }
    }
  }

  lemma CreatedNode(v: State, parent: nat, name: string, kind: NodeType, i: nat)
    requires Tree(v)
    ensures var w := Create(v, parent, name, kind).0;
      v.next in w.nodes && v.next < w.next && (i in w.nodes ==> NodeOk(w, i))
  {
    if i in v.nodes {
      assert NodeOk(v, i);
    }
  }

  lemma CreatedEntry(v: State, parent: nat, name: string, kind: NodeType, i: nat, n: string)
    requires v.next !in v.nodes && !(kind.Directory? && parent == v.next) && (parent in v.nodes ==> parent < v.next)
    requires i in v.nodes && n in v.nodes[i].children ==> EntryOk(v, i, n)
    ensures var w := Create(v, parent, name, kind).0;
      i in w.nodes && n in w.nodes[i].children ==> EntryOk(w, i, n)
  {
    var w := Create(v, parent, name, kind).0;
    if i in w.nodes && n in w.nodes[i].children {
      if i in v.nodes && n in v.nodes[i].children {
        var c := v.nodes[i].children[n];
        assert w.nodes[i].children[n] == c && c in w.nodes;
        assert w.nodes[c].name == v.nodes[c].name && w.nodes[c].parent == v.nodes[c].parent;
      } else {
        assert i == parent && n == name && w.nodes[i].children[n] == v.next;
      }
    }
  }

  lemma DeleteKeepsTree(v: State, inode: nat)
    requires Tree(v)
    ensures Tree(Delete(v, inode).0)
  {
    var w := Delete(v, inode).0;
    forall i | i in w.nodes
      ensures NodeOk(w, i)
    {
      assert NodeOk(v, i);
    }
    forall i, n | i in w.nodes && n in w.nodes[i].children
      ensures EntryOk(w, i, n)
    {
      DeletedEntry(v, inode, i, n);
    }
  }

  lemma DeletedEntry(v: State, inode: nat, i: nat, n: string)
    requires Tree(v)
    ensures var w := Delete(v, inode).0;
      i in w.nodes && n in w.nodes[i].children ==> EntryOk(w, i, n)
  {
    var w := Delete(v, inode).0;
    if i in w.nodes && n in w.nodes[i].children {
      assert EntryOk(v, i, n);
      assert w.nodes[i].children[n] == v.nodes[i].children[n];
    }
  }

  lemma SetBlocksKeepsTree(v: State, inode: nat, size: nat, blocks: seq<nat>)
    requires Tree(v)
    ensures Tree(SetBlocks(v, inode, size, blocks))
  {
    var w := SetBlocks(v, inode, size, blocks);
    forall i, n | i in w.nodes && n in w.nodes[i].children
      ensures EntryOk(w, i, n)
    {
      assert EntryOk(v, i, n);
    }
    forall i | i in w.nodes
      ensures NodeOk(w, i)
    {
      assert NodeOk(v, i);
    }
  }

  // ---------------------------------------------------------------------
  // Path framing
  // ---------------------------------------------------------------------

  function Init(names: seq<string>): seq<string>
    requires names != []
  {
    names[..|names| - 1]
  }

  function Last(names: seq<string>): string
    requires names != []
  {
    names[|names| - 1]
  }

  lemma {:induction false} WalkAppend(v: State, at: nat, names: seq<string>, name: string)
    ensures Walk(v, at, names + [name]) ==
      match Walk(v, at, names)
      case None => None
      case Some(p) => Walk(v, p, [name])
    decreases |names|
  {
    if names == [] {
      assert names + [name] == [name];
    } else {
      assert (names + [name])[1..] == names[1..] + [name];
      if at in v.nodes && names[0] in v.nodes[at].children {
        WalkAppend(v, v.nodes[at].children[names[0]], names[1..], name);
      }
    }
  }

  // The end of a walk is a node, at least as large as its start.
  lemma {:induction false} WalkGrows(v: State, at: nat, names: seq<string>)
    requires Tree(v) && Walk(v, at, names).Some?
    ensures var e := Walk(v, at, names).value; e in v.nodes && at <= e && (names != [] ==> at < e)
    decreases |names|
  {
    if names != [] {
      assert EntryOk(v, at, names[0]);
      WalkGrows(v, v.nodes[at].children[names[0]], names[1..]);
    }
  }

  // No cycles and no sharing: from any node, two walks with the same end are the same walk.
  lemma {:induction false} PathsUnique(v: State, at: nat, a: seq<string>, b: seq<string>)
    requires Tree(v) && Walk(v, at, a).Some? && Walk(v, at, b) == Walk(v, at, a)
    ensures a == b
    decreases |a|
  {
    WalkGrows(v, at, a);
    WalkGrows(v, at, b);
    if a != [] && b != [] {
      var (x, y) := (Init(a), Init(b));
      assert a == x + [Last(a)] && b == y + [Last(b)];
      WalkAppend(v, at, x, Last(a));
      WalkAppend(v, at, y, Last(b));
      var p, q := Walk(v, at, x).value, Walk(v, at, y).value;
      assert EntryOk(v, p, Last(a)) && EntryOk(v, q, Last(b));
      assert p == q;
      PathsUnique(v, at, x, y);
    }
  }

  // Does the path name the entry `name` of directory `parent`?
  predicate Names(v: State, at: nat, names: seq<string>, parent: nat, name: string) {
    names != [] && Last(names) == name && Walk(v, at, Init(names)) == Some(parent)
  }

  lemma NamesStep(v: State, at: nat, names: seq<string>, parent: nat, name: string)
    requires at in v.nodes && names != []
    ensures Names(v, at, names, parent, name) <==>
      if |names| == 1 then names[0] == name && at == parent
      else names[0] in v.nodes[at].children && Names(v, v.nodes[at].children[names[0]], names[1..], parent, name)
  {
    if |names| == 1 {
      assert Init(names) == [];
    } else {
      assert Init(names)[0] == names[0] && Init(names)[1..] == Init(names[1..]) && Last(names) == Last(names[1..]);
    }
  }

  // Creating `name` in an existing directory makes exactly the paths that name this entry
  // resolve, to the new inode, and changes no other path.
  lemma {:induction false} CreateWalk(v: State, parent: nat, name: string, kind: NodeType, at: nat, names: seq<string>)
    requires Tree(v) && parent in v.nodes && Create(v, parent, name, kind).1.Ok? && at != v.next
    ensures Walk(Create(v, parent, name, kind).0, at, names) ==
      if Names(v, at, names, parent, name) then Some(v.next) else Walk(v, at, names)
    decreases |names|
  {
    var w := Create(v, parent, name, kind).0;
    assert NodeOk(v, parent);
    if at in v.nodes && names != [] {
      NamesStep(v, at, names, parent, name);
      if names[0] in v.nodes[at].children {
        assert EntryOk(v, at, names[0]);
        assert NodeOk(v, v.nodes[at].children[names[0]]);
        CreateWalk(v, parent, name, kind, v.nodes[at].children[names[0]], names[1..]);
        if |names| == 1 {
          assert names[1..] == [];
        }
      } else if at == parent && names[0] == name {
        assert w.nodes[v.next].children == map[];
        assert names[1..] == [] <==> |names| == 1;
      }
    }
  }

  // A create that links nothing (it fails, or the parent does not exist) changes no path.
  lemma {:induction false} FailedCreateWalk(v: State, parent: nat, name: string, kind: NodeType, at: nat, names: seq<string>)
    requires Tree(v) && at != v.next && parent != v.next
    requires parent !in v.nodes || Create(v, parent, name, kind).1.Err?
    ensures Walk(Create(v, parent, name, kind).0, at, names) == Walk(v, at, names)
    decreases |names|
  {
    if at in v.nodes && names != [] && names[0] in v.nodes[at].children {
      assert EntryOk(v, at, names[0]);
      assert NodeOk(v, v.nodes[at].children[names[0]]);
      FailedCreateWalk(v, parent, name, kind, v.nodes[at].children[names[0]], names[1..]);
    }
  }

  // The directory entry that names the node.
  ghost predicate Linked(v: State, inode: nat) {
    && inode in v.nodes
    && var n := v.nodes[inode];
    && n.parent.Some? && n.parent.value in v.nodes
    && n.name in v.nodes[n.parent.value].children
    && v.nodes[n.parent.value].children[n.name] == inode
  }

  // The parent's entry of the node's name, if there is one, names the node.
  ghost predicate OwnEntry(v: State, inode: nat)
    requires inode in v.nodes
  {
    var n := v.nodes[inode];
    n.parent.Some? && n.parent.value in v.nodes && n.name in v.nodes[n.parent.value].children ==>
      v.nodes[n.parent.value].children[n.name] == inode
  }

  // Deleting such a node takes away exactly the paths to it.
  lemma {:induction false} DeleteWalk(v: State, inode: nat, at: nat, names: seq<string>)
    requires Tree(v) && inode in v.nodes && OwnEntry(v, inode) && Delete(v, inode).1.Ok? && at != inode
    ensures Walk(Delete(v, inode).0, at, names) ==
      if Walk(v, at, names) == Some(inode) then None else Walk(v, at, names)
    decreases |names|
  {
    hide Delete, OwnEntry, NodeOk, EntryOk;
    if at in v.nodes && names != [] {
      DeletedAt(v, inode, at, names[0]);
      if names[0] in v.nodes[at].children {
        var c := v.nodes[at].children[names[0]];
        if c == inode {
          assert Walk(v, inode, names[1..]) == if names[1..] == [] then Some(inode) else None;
        } else {
          DeleteWalk(v, inode, c, names[1..]);
        }
      }
    } else {
      DeletedAt(v, inode, at, "");
    }
  }

  // One node and one name after such a deletion.
  lemma DeletedAt(v: State, inode: nat, at: nat, name: string)
    requires Tree(v) && inode in v.nodes && OwnEntry(v, inode) && Delete(v, inode).1.Ok? && at != inode
    ensures var w := Delete(v, inode).0;
      && v.nodes[inode].children == map[]
      && (at in w.nodes <==> at in v.nodes)
      && (at in v.nodes ==>
            && (name in w.nodes[at].children <==>
                  name in v.nodes[at].children && v.nodes[at].children[name] != inode)
            && (name in w.nodes[at].children ==> w.nodes[at].children[name] == v.nodes[at].children[name]))
  {
    var n := v.nodes[inode];
    assert NodeOk(v, inode);
    if at in v.nodes && name in v.nodes[at].children {
      assert EntryOk(v, at, name);
      assert NodeOk(v, at);
    }
  }

  // Deleting only ever takes paths away.
  lemma {:induction false} DeleteShrinks(v: State, inode: nat, at: nat, names: seq<string>)
    requires Walk(Delete(v, inode).0, at, names).Some?
    ensures Walk(v, at, names) == Walk(Delete(v, inode).0, at, names)
    decreases |names|
  {
    if names != [] {
      DeleteShrinks(v, inode, Delete(v, inode).0.nodes[at].children[names[0]], names[1..]);
    }
  }

  // A delete leaves the paths of all other nodes alone if and only if the entry it takes
  // out of the parent, when there is one, is the node's own.
  lemma DeleteFrameIff(v: State, inode: nat, dir: seq<string>)
    requires Tree(v) && inode in v.nodes && inode != ROOT && Delete(v, inode).1.Ok?
    requires v.nodes[inode].parent.Some? && Walk(v, ROOT, dir) == v.nodes[inode].parent
    ensures OwnEntry(v, inode) <==>
      forall names :: Walk(v, ROOT, names) == Some(inode) || Walk(Delete(v, inode).0, ROOT, names) == Walk(v, ROOT, names)
  {
    var w, n := Delete(v, inode).0, v.nodes[inode];
    if OwnEntry(v, inode) {
      forall names
        ensures Walk(v, ROOT, names) == Some(inode) || Walk(w, ROOT, names) == Walk(v, ROOT, names)
      {
        DeleteWalk(v, inode, ROOT, names);
      }
    } else {
      var p := n.parent.value;
      var path := dir + [n.name];
      WalkAppend(v, ROOT, dir, n.name);
      assert NodeOk(v, p) && EntryOk(v, p, n.name);
      assert [n.name][1..] == [];
      assert Walk(v, ROOT, path) == Some(v.nodes[p].children[n.name]);
      WalkAppend(w, ROOT, dir, n.name);
      if Walk(w, ROOT, dir).Some? {
        DeleteShrinks(v, inode, ROOT, dir);
        assert n.name !in w.nodes[p].children;
      }
      assert Walk(w, ROOT, path) == None;
    }
  }

  // Creating under an existing, reachable directory adds exactly one resolvable path;
  // every other path resolves as before.
  lemma CreateAddsOnePath(v: State, dir: seq<string>, name: string, kind: NodeType, names: seq<string>)
    requires Tree(v) && Walk(v, ROOT, dir).Some? && Create(v, Walk(v, ROOT, dir).value, name, kind).1.Ok?
    ensures Walk(Create(v, Walk(v, ROOT, dir).value, name, kind).0, ROOT, names) ==
      if names == dir + [name] then Some(v.next) else Walk(v, ROOT, names)
    ensures Walk(v, ROOT, dir + [name]).None?
  {
    var p := Walk(v, ROOT, dir).value;
    WalkGrows(v, ROOT, dir);
    assert NodeOk(v, p);
    CreateWalk(v, p, name, kind, ROOT, names);
    WalkAppend(v, ROOT, dir, name);
    if Names(v, ROOT, names, p, name) {
      PathsUnique(v, ROOT, Init(names), dir);
      assert names == Init(names) + [Last(names)];
    }
    assert Init(dir + [name]) == dir;
  }

  // Deleting what a path names removes exactly that path.
  lemma DeleteRemovesOnePath(v: State, path: seq<string>, names: seq<string>)
    requires Tree(v) && path != [] && Walk(v, ROOT, path).Some? && Delete(v, Walk(v, ROOT, path).value).1.Ok?
    ensures Walk(Delete(v, Walk(v, ROOT, path).value).0, ROOT, names) ==
      if names == path then None else Walk(v, ROOT, names)
  {
    var i := Walk(v, ROOT, path).value;
    ReachedIsLinked(v, path);
    assert OwnEntry(v, i);
    WalkGrows(v, ROOT, path);
    DeleteWalk(v, i, ROOT, names);
    if Walk(v, ROOT, names) == Some(i) {
      PathsUnique(v, ROOT, names, path);
    }
  }

  lemma ReachedIsLinked(v: State, path: seq<string>)
    requires Tree(v) && path != [] && Walk(v, ROOT, path).Some?
    ensures Linked(v, Walk(v, ROOT, path).value)
  {
    assert path == Init(path) + [Last(path)];
    WalkAppend(v, ROOT, Init(path), Last(path));
    var p := Walk(v, ROOT, Init(path)).value;
    assert EntryOk(v, p, Last(path));
  }

  // A second create of the same name fails but leaves a node behind; deleting that node
  // by its number takes the first one's path away.
  lemma OrphanTakesPathAway()
    ensures var (v1, r1) := Create(Empty(), ROOT, "a", File);
      var (v2, r2) := Create(v1, ROOT, "a", File);
      var (v3, r3) := Delete(v2, 2);
      && r1 == Ok(1) && r2 == Err(ChildExists) && r3 == Ok(())
      && Walk(v2, ROOT, ["a"]) == Some(1) && 1 in v3.nodes && Walk(v3, ROOT, ["a"]) == None
  {
    var v1 := Create(Empty(), ROOT, "a", File).0;
    assert v1.nodes[ROOT].children == map["a" := 1];
    var v2 := Create(v1, ROOT, "a", File).0;
    assert v2.nodes[ROOT].children == map["a" := 1];
    assert ["a"][1..] == [];
    assert Walk(v2, 1, []) == Some(1);
    var v3 := Delete(v2, 2).0;
    assert "a" !in v3.nodes[ROOT].children;
  }
}
