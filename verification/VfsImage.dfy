// The default tree, the saved image, and runs that save and load in between.
module VfsImage {
  import opened Prelude
  import opened Vfs

  const DIRECTORIES: seq<string> := ["bin", "home", "tmp", "etc", "var", "examples", "programs"]

  const PROGRAMS: seq<string> := [
    "add.asm", "busy.asm", "cat.asm", "count.asm", "divide.asm", "exec.asm", "fork.asm",
    "hello.asm", "init.asm", "loop.asm", "ls.asm", "mkdir.asm", "multiply.asm", "pf.asm",
    "rm.asm", "stat.asm", "sub.asm", "swaptest.asm", "touch.asm", "tree.asm", "write.asm"]

  // ---------------------------------------------------------------------
  // The default tree
  // ---------------------------------------------------------------------

  function CreateAll(v: State, parent: nat, names: seq<string>, kind: NodeType): State
    decreases |names|
  {
    if names == [] then v else CreateAll(Create(v, parent, names[0], kind).0, parent, names[1..], kind)
  }

  function Default(): State {
    var d := CreateAll(Empty(), ROOT, DIRECTORIES, Directory);
    if ROOT in d.nodes && "programs" in d.nodes[ROOT].children then
      CreateAll(d, d.nodes[ROOT].children["programs"], PROGRAMS, File)
    else d
  }

  // `names` have become the entries numbered from `v.next` on of directory `parent`, and
  // nothing else has changed.
  ghost predicate Filled(v: State, w: State, parent: nat, names: seq<string>, kind: NodeType)
    requires parent in v.nodes
  {
    && w.next == v.next + |names|
    && (forall i :: i in w.nodes <==> i in v.nodes || v.next <= i < w.next)
    && (forall i :: i in v.nodes && i != parent ==> w.nodes[i] == v.nodes[i])
    && w.nodes[parent] == v.nodes[parent].(children := w.nodes[parent].children)
    && (forall k :: 0 <= k < |names| ==>
          names[k] in w.nodes[parent].children && w.nodes[parent].children[names[k]] == v.next + k)
    && (forall i :: v.next <= i < w.next ==> w.nodes[i].kind == kind && w.nodes[i].blocks == [])
    && (forall i :: v.next <= i < w.next && i != parent ==> w.nodes[i].children == map[])
  }

  lemma CreateOne(v: State, parent: nat, name: string, kind: NodeType)
    requires Tree(v) && parent in v.nodes && v.nodes[parent].kind.Directory? && name !in v.nodes[parent].children
    ensures var w := Create(v, parent, name, kind).0;
      && Tree(w) && parent < v.next && v.next !in v.nodes && Filled(v, w, parent, [name], kind)
      && w.nodes[parent].children == v.nodes[parent].children[name := v.next]
  {
    assert NodeOk(v, parent);
    CreateKeepsTreeIff(v, parent, name, kind);
    assert v.next in v.nodes ==> NodeOk(v, v.next);
    hide Tree;
  }

  lemma FilledStep(v: State, u: State, w: State, parent: nat, names: seq<string>, kind: NodeType)
    requires names != [] && parent in v.nodes && parent < v.next && parent in u.nodes
    requires Filled(v, u, parent, [names[0]], kind) && Filled(u, w, parent, names[1..], kind)
    requires names[0] in w.nodes[parent].children && w.nodes[parent].children[names[0]] == v.next
    ensures Filled(v, w, parent, names, kind)
  {
    forall k | 0 <= k < |names|
      ensures names[k] in w.nodes[parent].children && w.nodes[parent].children[names[k]] == v.next + k
    {
      if k > 0 {
        assert names[1..][k - 1] == names[k];
      }
    }
  }

  // Distinct new names become the parent's entries, numbered in order.
  lemma {:induction false} CreateAllLinks(v: State, parent: nat, names: seq<string>, kind: NodeType)
    requires Tree(v) && parent in v.nodes && v.nodes[parent].kind.Directory?
    requires Distinct(names) && forall k :: 0 <= k < |names| ==> names[k] !in v.nodes[parent].children
    ensures var w := CreateAll(v, parent, names, kind);
      && Tree(w) && Filled(v, w, parent, names, kind)
      && (forall n :: n in v.nodes[parent].children ==>
            n in w.nodes[parent].children && w.nodes[parent].children[n] == v.nodes[parent].children[n])
    decreases |names|
  {
    if names != [] {
      CreateOne(v, parent, names[0], kind);
      var u := Create(v, parent, names[0], kind).0;
      var rest := names[1..];
      hide Tree, Create;
      forall k | 0 <= k < |rest|
        ensures rest[k] !in u.nodes[parent].children
      {
        assert names[k + 1] != names[0];
      }
      CreateAllLinks(u, parent, rest, kind);
      var w := CreateAll(u, parent, rest, kind);
      assert names[0] in u.nodes[parent].children;
      FilledStep(v, u, w, parent, names, kind);
      hide Filled;
      assert w == CreateAll(v, parent, names, kind);
    }
  }

  lemma NamesDistinct()
    ensures Distinct(DIRECTORIES) && Distinct(PROGRAMS)
  {
    hide Distinct;
    DirectoriesDistinct();
    ProgramsDistinct();
  }

  lemma DirectoriesDistinct()
    ensures Distinct(DIRECTORIES)
  {
  }

  // The names are listed in the order of their first two letters.
  function Rank(name: string): int {
    if |name| < 2 then 0 else 256 * (name[0] as int) + name[1] as int
  }

  lemma RanksRise(k: nat)
    requires k + 1 < |PROGRAMS|
    ensures Rank(PROGRAMS[k]) < Rank(PROGRAMS[k + 1])
  {
  }

  lemma {:induction false} RanksOrdered(i: nat, j: nat)
    requires i < j < |PROGRAMS|
    ensures Rank(PROGRAMS[i]) < Rank(PROGRAMS[j])
    decreases j
  {
    hide Rank;
    RanksRise(j - 1);
    if i < j - 1 {
      RanksOrdered(i, j - 1);
    }
  }

  lemma ProgramsDistinct()
    ensures Distinct(PROGRAMS)
  {
    hide Rank;
    forall i, j | 0 <= i < j < |PROGRAMS|
      ensures PROGRAMS[i] != PROGRAMS[j]
    {
      RanksOrdered(i, j);
    }
  }

  // The programs are the entries of node 7, numbered from 8 on.
  ghost predicate HasPrograms(v: State) {
    && ROOT in v.nodes && "programs" in v.nodes[ROOT].children && v.nodes[ROOT].children["programs"] == 7
    && 7 in v.nodes
    && forall k :: 0 <= k < |PROGRAMS| ==>
         && PROGRAMS[k] in v.nodes[7].children && v.nodes[7].children[PROGRAMS[k]] == 8 + k
         && 8 + k in v.nodes && v.nodes[8 + k].kind == File
  }

  // A new file system has the root, seven directories and twenty-one programs.
  lemma DefaultTree()
    ensures Tree(Default()) && Default().next == 29
    ensures forall i :: i in Default().nodes <==> 0 <= i < 29
    ensures forall i :: i in Default().nodes ==> Default().nodes[i].blocks == []
    ensures var r := Default().nodes[ROOT]; r == Node(ROOT, Directory, "/", None, 0, [], r.children, 0, false)
    ensures HasPrograms(Default())
  {
    EmptyTree();
    NamesDistinct();
    hide Tree, CreateAll, Distinct;
    CreateAllLinks(Empty(), ROOT, DIRECTORIES, Directory);
    var d := CreateAll(Empty(), ROOT, DIRECTORIES, Directory);
    assert DIRECTORIES[6] == "programs" && |DIRECTORIES| == 7 && |PROGRAMS| == 21;
    assert d.nodes[7].children == map[] && d.nodes[7].kind.Directory?;
    CreateAllLinks(d, 7, PROGRAMS, File);
  }

  // ---------------------------------------------------------------------
  // Saving and loading
  // ---------------------------------------------------------------------

  datatype Saved = Saved(
    inode: nat,
    kind: NodeType,
    name: string,
    parent: Option<nat>,
    size: nat,
    children: map<string, nat>,
    blocks: seq<nat>)

  function SaveNode(n: Node): Saved {
    Saved(n.inode, n.kind, n.name, n.parent, n.size, n.children, n.blocks)
  }

  // `order` is the order in which the table happens to enumerate its nodes.
  ghost predicate Enumerates(v: State, order: seq<nat>) {
    Distinct(order) && forall i :: i in order <==> i in v.nodes
  }

  function Save(v: State, order: seq<nat>): (s: seq<Saved>)
    requires forall i :: i in order ==> i in v.nodes
    ensures |s| == |order| && forall k :: 0 <= k < |s| ==> s[k] == SaveNode(v.nodes[order[k]])
  {
    if order == [] then [] else [SaveNode(v.nodes[order[0]])] + Save(v, order[1..])
  }

  // First all nodes but the root, without entries and over the default tree; then
  // everybody's entries.
  function RestoreNode(v: State, s: Saved): State {
    if s.inode == ROOT then v
    else
      State(v.nodes[s.inode := Node(s.inode, s.kind, s.name, s.parent, s.size, s.blocks, map[], 0, false)],
            if s.inode >= v.next then s.inode + 1 else v.next)
  }

  function RestoreNodes(v: State, saved: seq<Saved>): State
    decreases |saved|
  {
    if saved == [] then v else RestoreNodes(RestoreNode(v, saved[0]), saved[1..])
  }

  function RestoreEntries(v: State, saved: seq<Saved>): State
    decreases |saved|
  {
    if saved == [] then v
    else
      var s := saved[0];
      var w := if s.inode in v.nodes then v.(nodes := v.nodes[s.inode := v.nodes[s.inode].(children := s.children)]) else v;
      RestoreEntries(w, saved[1..])
  }

  // `base` is the tree a new file system starts with.
  function Load(base: State, saved: seq<Saved>): State {
    RestoreEntries(RestoreNodes(base, saved), saved)
  }

  // A tree whose root has never been touched but for its entries.
  ghost predicate IsBase(base: State) {
    && Tree(base) && ROOT in base.nodes
    && base.nodes[ROOT] == Node(ROOT, Directory, "/", None, 0, [], base.nodes[ROOT].children, 0, false)
  }

  // ---------------------------------------------------------------------
  // What loading an image gives
  // ---------------------------------------------------------------------

  ghost predicate DistinctInodes(saved: seq<Saved>) {
    forall j, k :: 0 <= j < k < |saved| ==> saved[j].inode != saved[k].inode
  }

  ghost predicate HasInode(saved: seq<Saved>, i: nat) {
    exists k :: 0 <= k < |saved| && saved[k].inode == i
  }

  lemma {:induction false} RestoreNodesAt(v: State, saved: seq<Saved>, i: nat)
    requires DistinctInodes(saved)
    ensures var w := RestoreNodes(v, saved);
      && v.next <= w.next
      && (i == ROOT || !HasInode(saved, i) ==> ((i in w.nodes <==> i in v.nodes) && (i in v.nodes ==> w.nodes[i] == v.nodes[i])))
      && (forall k :: 0 <= k < |saved| && saved[k].inode == i && i != ROOT ==>
            var s := saved[k];
            i < w.next && i in w.nodes && w.nodes[i] == Node(i, s.kind, s.name, s.parent, s.size, s.blocks, map[], 0, false))
    decreases |saved|
  {
    if saved != [] {
      var u, rest := RestoreNode(v, saved[0]), saved[1..];
      assert forall k :: 0 <= k < |rest| ==> rest[k] == saved[k + 1];
      RestoreNodesAt(u, rest, i);
      assert HasInode(rest, i) ==> HasInode(saved, i);
      assert saved[0].inode == i ==> HasInode(saved, i) && !HasInode(rest, i);
      forall k | 0 <= k < |saved| && saved[k].inode == i && i != ROOT
        ensures var (s, w) := (saved[k], RestoreNodes(v, saved));
          i < w.next && i in w.nodes && w.nodes[i] == Node(i, s.kind, s.name, s.parent, s.size, s.blocks, map[], 0, false)
      {
        if k > 0 {
          assert rest[k - 1] == saved[k];
        }
      }
    }
  }

  lemma {:induction false} RestoreEntriesAt(v: State, saved: seq<Saved>, i: nat)
    requires DistinctInodes(saved)
    ensures var w := RestoreEntries(v, saved);
      && w.next == v.next && (i in w.nodes <==> i in v.nodes)
      && (!HasInode(saved, i) && i in v.nodes ==> w.nodes[i] == v.nodes[i])
      && (forall k :: 0 <= k < |saved| && saved[k].inode == i && i in v.nodes ==>
            w.nodes[i] == v.nodes[i].(children := saved[k].children))
    decreases |saved|
  {
    if saved != [] {
      var s, rest := saved[0], saved[1..];
      var u := if s.inode in v.nodes then v.(nodes := v.nodes[s.inode := v.nodes[s.inode].(children := s.children)]) else v;
      assert forall k :: 0 <= k < |rest| ==> rest[k] == saved[k + 1];
      RestoreEntriesAt(u, rest, i);
      assert HasInode(rest, i) ==> HasInode(saved, i);
      assert s.inode == i ==> HasInode(saved, i) && !HasInode(rest, i);
      forall k | 0 <= k < |saved| && saved[k].inode == i && i in v.nodes
        ensures RestoreEntries(v, saved).nodes[i] == v.nodes[i].(children := saved[k].children)
      {
        if k > 0 {
          assert rest[k - 1] == saved[k];
        }
      }
    }
  }

  lemma SavedInode(v: State, order: seq<nat>, k: nat)
    requires Tree(v) && Enumerates(v, order) && k < |order|
    ensures order[k] in v.nodes && Save(v, order)[k].inode == order[k]
  {
    hide Tree, Save, Distinct;
    assert order[k] in order;
    InodeField(v, order[k]);
  }

  lemma SaveInodes(v: State, order: seq<nat>)
    requires Tree(v) && Enumerates(v, order)
    ensures DistinctInodes(Save(v, order)) && forall i: nat :: HasInode(Save(v, order), i) <==> i in v.nodes
  {
    hide Tree, Save, HasInode;
    var s := Save(v, order);
    forall k | 0 <= k < |s|
      ensures s[k].inode == order[k]
    {
      SavedInode(v, order, k);
    }
    forall i: nat
      ensures HasInode(s, i) <==> i in v.nodes
    {
      SavedHas(v, order, i);
    }
  }

  lemma SavedHas(v: State, order: seq<nat>, i: nat)
    requires Tree(v) && Enumerates(v, order)
    ensures HasInode(Save(v, order), i) <==> i in v.nodes
  {
    hide Tree, Save, Distinct;
    var s := Save(v, order);
    if i in v.nodes {
      var k :| 0 <= k < |order| && order[k] == i;
      SavedInode(v, order, k);
      assert s[k].inode == i;
    } else if HasInode(s, i) {
      var k :| 0 <= k < |s| && s[k].inode == i;
      SavedInode(v, order, k);
    }
  }

  // Every saved node is back, but for its reference count; the root gets its entries
  // back; a node that was not saved is whatever the default tree has there.
  lemma LoadAt(base: State, v: State, order: seq<nat>, i: nat)
    requires IsBase(base) && Tree(v) && Enumerates(v, order)
    ensures var w := Load(base, Save(v, order));
      && base.next <= w.next
      && (i in v.nodes && i != ROOT ==> i < w.next && i in w.nodes && w.nodes[i] == v.nodes[i].(refs := 0, deleted := false))
      && (i in v.nodes && i == ROOT ==> i in w.nodes && w.nodes[i] == base.nodes[ROOT].(children := v.nodes[ROOT].children))
      && (i !in v.nodes ==> ((i in w.nodes <==> i in base.nodes) && (i in w.nodes ==> w.nodes[i] == base.nodes[i])))
  {
    hide Tree, NodeOk;
    var s := Save(v, order);
    SaveInodes(v, order);
    RestoreNodesAt(base, s, i);
    RestoreEntriesAt(RestoreNodes(base, s), s, i);
    if i in v.nodes {
      var k :| 0 <= k < |order| && order[k] == i;
      assert s[k] == SaveNode(v.nodes[i]);
      InodeField(v, i);
    }
    hide RestoreNodes, RestoreEntries, HasInode, DistinctInodes;
  }

  lemma InodeField(v: State, i: nat)
    requires Tree(v) && i in v.nodes
    ensures v.nodes[i].inode == i && i < v.next
  {
    assert NodeOk(v, i);
  }

  // ---------------------------------------------------------------------
  // Paths survive
  // ---------------------------------------------------------------------

  // Inode numbers of the default tree still belong to the nodes they were made for.
  ghost predicate Compatible(base: State, v: State) {
    forall i :: i in v.nodes && i in base.nodes ==>
      var (n, d) := (v.nodes[i], base.nodes[i]);
      n.name == d.name && n.parent == d.parent && n.kind == d.kind
  }

  ghost predicate Inv(base: State, v: State) {
    IsBase(base) && Tree(v) && base.next <= v.next && Compatible(base, v)
  }

  lemma LoadEntryOk(base: State, v: State, order: seq<nat>, i: nat, name: string)
    requires Inv(base, v) && Enumerates(v, order)
    requires var w := Load(base, Save(v, order)); i in w.nodes && name in w.nodes[i].children
    ensures EntryOk(Load(base, Save(v, order)), i, name)
  {
    LoadAt(base, v, order, i);
    var w := Load(base, Save(v, order));
    var c := w.nodes[i].children[name];
    LoadAt(base, v, order, c);
    hide Load, Save, Enumerates;
    if i in v.nodes {
      assert EntryOk(v, i, name);
    } else {
      assert EntryOk(base, i, name);
    }
  }

  lemma LoadNodeOk(base: State, v: State, order: seq<nat>, i: nat)
    requires Inv(base, v) && Enumerates(v, order) && i in Load(base, Save(v, order)).nodes
    ensures NodeOk(Load(base, Save(v, order)), i)
  {
    LoadAt(base, v, order, i);
    hide Load, Save, Enumerates;
    if i in v.nodes {
      assert NodeOk(v, i);
    } else {
      assert NodeOk(base, i);
    }
  }

  lemma LoadKeepsInv(base: State, v: State, order: seq<nat>)
    requires Inv(base, v) && Enumerates(v, order)
    ensures Inv(base, Load(base, Save(v, order)))
  {
    var w := Load(base, Save(v, order));
    LoadAt(base, v, order, ROOT);
    hide Load, Save, Enumerates;
    forall i, n | i in w.nodes && n in w.nodes[i].children
      ensures EntryOk(w, i, n)
    {
      LoadEntryOk(base, v, order, i, n);
    }
    forall i | i in w.nodes
      ensures NodeOk(w, i)
    {
      LoadNodeOk(base, v, order, i);
    }
    assert Tree(w);
    hide Tree, NodeOk, EntryOk;
    forall i | i in w.nodes && i in base.nodes
      ensures w.nodes[i].name == base.nodes[i].name && w.nodes[i].parent == base.nodes[i].parent
      ensures w.nodes[i].kind == base.nodes[i].kind
    {
      LoadAt(base, v, order, i);
    }
  }

  lemma {:induction false} LoadWalk(base: State, v: State, order: seq<nat>, at: nat, names: seq<string>)
    requires Inv(base, v) && Enumerates(v, order) && at in v.nodes
    ensures Walk(Load(base, Save(v, order)), at, names) == Walk(v, at, names)
    decreases |names|
  {
    LoadAt(base, v, order, at);
    hide Load, Save, Enumerates, Compatible;
    if names != [] && names[0] in v.nodes[at].children {
      assert EntryOk(v, at, names[0]);
      LoadWalk(base, v, order, v.nodes[at].children[names[0]], names[1..]);
    }
  }

  ghost predicate SamePaths(v: State, w: State) {
    forall names :: Walk(w, ROOT, names) == Walk(v, ROOT, names)
  }

  // Saving and loading keeps what every path resolves to, failures included, if and only
  // if there is a root to save: without one, the default tree's root comes back.
  lemma LoadKeepsPathsIff(base: State, v: State, order: seq<nat>)
    requires Inv(base, v) && Enumerates(v, order)
    ensures SamePaths(v, Load(base, Save(v, order))) <==> ROOT in v.nodes
  {
    var w := Load(base, Save(v, order));
    if ROOT in v.nodes {
      forall names
        ensures Walk(w, ROOT, names) == Walk(v, ROOT, names)
      {
        LoadWalk(base, v, order, ROOT, names);
      }
    } else {
      LoadAt(base, v, order, ROOT);
      hide Load, Save;
      assert ROOT in w.nodes;
      assert Walk(w, ROOT, []) != Walk(v, ROOT, []);
    }
  }

  // ---------------------------------------------------------------------
  // Runs
  // ---------------------------------------------------------------------

  datatype Op =
    | Make(parent: nat, name: string, kind: NodeType)
    | Remove(inode: nat)
    | Synced(inode: nat, size: nat, blocks: seq<nat>)
    | Restart(order: seq<nat>)

  ghost predicate Legal(v: State, op: Op) {
    match op
    case Make(parent, _, kind) => !(kind.Directory? && parent == v.next)
    case Restart(order) => Enumerates(v, order)
    case _ => true
  }

  function Step(base: State, v: State, op: Op): State
    requires op.Restart? ==> forall i :: i in op.order ==> i in v.nodes
  {
    match op
    case Make(parent, name, kind) => Create(v, parent, name, kind).0
    case Remove(inode) => Delete(v, inode).0
    case Synced(inode, size, blocks) => SetBlocks(v, inode, size, blocks)
    case Restart(order) => Load(base, Save(v, order))
  }

  // What the operations on a running system leave alone.
  lemma StepKeepsIdentity(base: State, v: State, op: Op, i: nat)
    requires Tree(v) && Legal(v, op) && !op.Restart? && i in Step(base, v, op).nodes && i < v.next
    ensures v.next <= Step(base, v, op).next && i in v.nodes
    ensures var (n, d) := (Step(base, v, op).nodes[i], v.nodes[i]); n.name == d.name && n.parent == d.parent && n.kind == d.kind
  {
  }

  lemma StepNext(base: State, v: State, op: Op)
    requires !op.Restart?
    ensures v.next <= Step(base, v, op).next
  {
  }

  lemma StepKeepsInv(base: State, v: State, op: Op)
    requires Inv(base, v) && Legal(v, op)
    ensures Inv(base, Step(base, v, op))
  {
    match op
    case Restart(order) => LoadKeepsInv(base, v, order);
    case _ =>
      match op {
        case Make(parent, name, kind) => CreateKeepsTreeIff(v, parent, name, kind);
        case Remove(inode) => DeleteKeepsTree(v, inode);
        case Synced(inode, size, blocks) => SetBlocksKeepsTree(v, inode, size, blocks);
      }
      StepNext(base, v, op);
      assert Tree(Step(base, v, op));
      forall i | i in Step(base, v, op).nodes && i in base.nodes
        ensures var (n, d) := (Step(base, v, op).nodes[i], base.nodes[i]); n.name == d.name && n.parent == d.parent && n.kind == d.kind
      {
        assert i < v.next;
        StepKeepsIdentity(base, v, op, i);
      }
      hide Tree, Step;
  }

  ghost predicate LegalRun(base: State, v: State, ops: seq<Op>)
    decreases |ops|
  {
    ops == [] || (Legal(v, ops[0]) && LegalRun(base, Step(base, v, ops[0]), ops[1..]))
  }

  ghost function Exec(base: State, v: State, ops: seq<Op>): State
    requires LegalRun(base, v, ops)
    decreases |ops|
  {
    if ops == [] then v else Exec(base, Step(base, v, ops[0]), ops[1..])
  }

  // In every state reachable from a new file system, across any number of restarts, the
  // directories form a tree and the next inode number exceeds all in use.
  lemma {:induction false} AlwaysATree(base: State, v: State, ops: seq<Op>)
    requires Inv(base, v) && LegalRun(base, v, ops)
    ensures Inv(base, Exec(base, v, ops))
    decreases |ops|
  {
    if ops != [] {
      StepKeepsInv(base, v, ops[0]);
      AlwaysATree(base, Step(base, v, ops[0]), ops[1..]);
    }
  }

  lemma NewIsATree()
    ensures Inv(Default(), Default())
  {
    DefaultTree();
    hide Default;
  }
}
