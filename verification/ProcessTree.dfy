// Processes and their parents: process numbers, and the process listing.
module ProcessTree {
  import opened Prelude

  datatype Proc = Proc(pid: nat, parent: Option<nat>)

  // ---------------------------------------------------------------------
  // Numbering
  // ---------------------------------------------------------------------

  datatype Table = Table(procs: map<nat, Option<nat>>, next: nat)

  datatype ForkError = NoSuchProcess

  // Process 0 stands for the kernel: its children have no parent.
  function Fork(t: Table, parent: nat): (Table, Result<nat, ForkError>) {
    if parent == 0 then (Table(t.procs[t.next := None], t.next + 1), Ok(t.next))
    else if parent !in t.procs then (t, Err(NoSuchProcess))
    else (Table(t.procs[t.next := Some(parent)], t.next + 1), Ok(t.next))
  }

  function Reap(t: Table, pid: nat): Table {
    t.(procs := t.procs - {pid})
  }

  // Parents have smaller numbers than their children, and no number comes back.
  ghost predicate Numbered(t: Table) {
    forall p :: p in t.procs ==> p < t.next && (t.procs[p].Some? ==> t.procs[p].value < p)
  }

  datatype Op = DoFork(parent: nat) | DoReap(pid: nat)

  function Step(t: Table, op: Op): Table {
    match op
    case DoFork(parent) => Fork(t, parent).0
    case DoReap(pid) => Reap(t, pid)
  }

  function Exec(t: Table, ops: seq<Op>): Table
    decreases |ops|
  {
    if ops == [] then t else Exec(Step(t, ops[0]), ops[1..])
  }

  lemma {:induction false} AlwaysNumbered(t: Table, ops: seq<Op>)
    requires Numbered(t)
    ensures Numbered(Exec(t, ops)) && t.next <= Exec(t, ops).next
    decreases |ops|
  {
    if ops != [] {
      AlwaysNumbered(Step(t, ops[0]), ops[1..]);
    }
  }

  // ---------------------------------------------------------------------
  // The list the listing works on
  // ---------------------------------------------------------------------

  ghost predicate DistinctPids(procs: seq<Proc>) {
    forall i, j :: 0 <= i < j < |procs| ==> procs[i].pid != procs[j].pid
  }

  // Every process once, parents numbered below their children.
  ghost predicate Ordered(procs: seq<Proc>) {
    DistinctPids(procs) && forall i :: 0 <= i < |procs| && procs[i].parent.Some? ==> procs[i].parent.value < procs[i].pid
  }

  // The list is the table's contents, in any order.
  ghost predicate ListOf(t: Table, procs: seq<Proc>) {
    && DistinctPids(procs)
    && (forall i :: 0 <= i < |procs| ==> procs[i].pid in t.procs && procs[i].parent == t.procs[procs[i].pid])
    && (forall p :: p in t.procs ==> Has(procs, p))
  }

  predicate Has(procs: seq<Proc>, pid: nat) {
    exists i :: 0 <= i < |procs| && procs[i].pid == pid
  }

  // The parent on record, if the process is listed.
  function ParentOf(procs: seq<Proc>, pid: nat): Option<nat> {
    if procs == [] then None
    else if procs[0].pid == pid then procs[0].parent
    else ParentOf(procs[1..], pid)
  }

  function ChildrenOf(procs: seq<Proc>, pid: nat): seq<nat> {
    if procs == [] then []
    else (if procs[0].parent == Some(pid) then [procs[0].pid] else []) + ChildrenOf(procs[1..], pid)
  }

  // No pid is larger.
  function Bound(procs: seq<Proc>): nat {
    if procs == [] then 0 else Max(procs[0].pid, Bound(procs[1..]))
  }

  lemma {:induction false} ParentAt(procs: seq<Proc>, i: nat)
    requires DistinctPids(procs) && i < |procs|
    ensures ParentOf(procs, procs[i].pid) == procs[i].parent && procs[i].pid <= Bound(procs)
  {
    if i > 0 {
      assert procs[0].pid != procs[i].pid;
      ParentAt(procs[1..], i - 1);
    }
  }

  lemma {:induction false} ChildrenSpec(procs: seq<Proc>, pid: nat)
    requires DistinctPids(procs)
    ensures Distinct(ChildrenOf(procs, pid))
    ensures forall c :: c in ChildrenOf(procs, pid) <==> Has(procs, c) && ParentOf(procs, c) == Some(pid)
  {
    if procs != [] {
      var rest := procs[1..];
      assert DistinctPids(rest);
      ChildrenSpec(rest, pid);
      forall c
        ensures c in ChildrenOf(procs, pid) <==> Has(procs, c) && ParentOf(procs, c) == Some(pid)
      {
        if c == procs[0].pid {
          assert !Has(rest, c);
        } else if Has(procs, c) {
          var i :| 0 <= i < |procs| && procs[i].pid == c;
          assert rest[i - 1].pid == c;
        } else {
          assert forall i :: 0 <= i < |rest| ==> rest[i] == procs[i + 1];
        }
      }
      assert !Has(rest, procs[0].pid);
    }
  }

  lemma ParentIsSmaller(procs: seq<Proc>, pid: nat)
    requires Ordered(procs) && Has(procs, pid)
    ensures pid <= Bound(procs)
    ensures ParentOf(procs, pid).Some? ==> ParentOf(procs, pid).value < pid
  {
    var i :| 0 <= i < |procs| && procs[i].pid == pid;
    ParentAt(procs, i);
  }

  lemma ChildrenAreLarger(procs: seq<Proc>, pid: nat)
    requires Ordered(procs)
    ensures forall c :: c in ChildrenOf(procs, pid) ==> pid < c <= Bound(procs)
  {
    ChildrenSpec(procs, pid);
    forall c | c in ChildrenOf(procs, pid)
      ensures pid < c <= Bound(procs)
    {
      ParentIsSmaller(procs, c);
    }
  }

  // ---------------------------------------------------------------------
  // The listing
  // ---------------------------------------------------------------------

  // One line of output: what is drawn in front, and whose line it is.
  datatype Line = Line(prefix: string, connector: string, pid: nat)

  const LAST: string := "\U{2514}\U{2500}\U{2500} "
  const MIDDLE: string := "\U{251C}\U{2500}\U{2500} "
  const BLANK: string := "    "
  const BAR: string := "\U{2502}   "

  // A process, then its descendants, depth first.
  function Format(procs: seq<Proc>, pid: nat, prefix: string, isLast: bool): seq<Line>
    requires Ordered(procs)
    decreases Bound(procs) + 1 - Min(pid, Bound(procs) + 1), 1, 0
  {
    if !Has(procs, pid) then []
    else
      ParentIsSmaller(procs, pid);
      ChildrenAreLarger(procs, pid);
      [Line(prefix, if isLast then LAST else MIDDLE, pid)]
      + FormatAll(procs, pid, ChildrenOf(procs, pid), prefix + if isLast then BLANK else BAR)
  }

  function FormatAll(procs: seq<Proc>, pid: nat, kids: seq<nat>, prefix: string): seq<Line>
    requires Ordered(procs) && pid <= Bound(procs) && forall c :: c in kids ==> pid < c <= Bound(procs)
    decreases Bound(procs) + 1 - Min(pid, Bound(procs) + 1), 0, |kids|
  {
    if kids == [] then []
    else
      assert kids[0] in kids && forall c :: c in kids[1..] ==> c in kids;
      Format(procs, kids[0], prefix, |kids| == 1) + FormatAll(procs, pid, kids[1..], prefix)
  }

  predicate IsRoot(procs: seq<Proc>, p: Proc) {
    p.parent.None? || !Has(procs, p.parent.value)
  }

  // Every process without a listed parent, with everything below it.
  function Listing(procs: seq<Proc>, todo: seq<Proc>): seq<Line>
    requires Ordered(procs)
  {
    if todo == [] then []
    else
      (if IsRoot(procs, todo[0]) then Format(procs, todo[0].pid, "", true) else []) + Listing(procs, todo[1..])
  }

  // ---------------------------------------------------------------------
  // Every process once
  // ---------------------------------------------------------------------

  // `a` is `x` or stands above it, going by listed processes.
  predicate Above(procs: seq<Proc>, a: nat, x: nat)
    requires Ordered(procs)
    decreases x
  {
    Has(procs, x) && (a == x || (
      ParentOf(procs, x).Some? && (ParentIsSmaller(procs, x); Above(procs, a, ParentOf(procs, x).value))))
  }

  function Times(lines: seq<Line>, x: nat): nat {
    if lines == [] then 0 else (if lines[0].pid == x then 1 else 0) + Times(lines[1..], x)
  }

  lemma {:induction false} TimesAppend(a: seq<Line>, b: seq<Line>, x: nat)
    ensures Times(a + b, x) == Times(a, x) + Times(b, x)
  {
    if a == [] {
      assert a + b == b;
    } else {
      assert (a + b)[1..] == a[1..] + b;
      TimesAppend(a[1..], b, x);
    }
  }

  lemma {:induction false} AboveIsListed(procs: seq<Proc>, a: nat, x: nat)
    requires Ordered(procs) && Above(procs, a, x)
    ensures Has(procs, a) && a <= x
    decreases x
  {
    if a != x {
      ParentIsSmaller(procs, x);
      AboveIsListed(procs, a, ParentOf(procs, x).value);
    }
  }

  // The processes above one process form a chain.
  lemma {:induction false} AboveIsChain(procs: seq<Proc>, a: nat, b: nat, x: nat)
    requires Ordered(procs) && Above(procs, a, x) && Above(procs, b, x)
    ensures Above(procs, a, b) || Above(procs, b, a)
    decreases x
  {
    if a != x && b != x {
      ParentIsSmaller(procs, x);
      AboveIsChain(procs, a, b, ParentOf(procs, x).value);
    }
  }

  // Two children of one process are never both above the same process.
  lemma SiblingsApart(procs: seq<Proc>, pid: nat, c: nat, d: nat, x: nat)
    requires Ordered(procs) && c != d && ParentOf(procs, c) == Some(pid) && ParentOf(procs, d) == Some(pid)
    requires Above(procs, c, x)
    ensures !Above(procs, d, x)
  {
    if Above(procs, d, x) {
      AboveIsListed(procs, c, x);
      AboveIsListed(procs, d, x);
      ParentIsSmaller(procs, c);
      ParentIsSmaller(procs, d);
      AboveIsChain(procs, c, d, x);
      NotAboveSibling(procs, pid, c, d);
      NotAboveSibling(procs, pid, d, c);
    }
  }

  lemma NotAboveSibling(procs: seq<Proc>, pid: nat, c: nat, d: nat)
    requires Ordered(procs) && c != d && pid < c && ParentOf(procs, d) == Some(pid) && Has(procs, d)
    ensures !Above(procs, c, d)
  {
    ParentIsSmaller(procs, d);
    if Above(procs, c, d) {
      AboveIsListed(procs, c, pid);
    }
  }

  // Being above means being it, or having a child above.
  lemma {:induction false} ChildToward(procs: seq<Proc>, pid: nat, x: nat) returns (c: nat)
    requires Ordered(procs) && Above(procs, pid, x) && pid != x
    ensures Has(procs, c) && ParentOf(procs, c) == Some(pid) && Above(procs, c, x)
    decreases x
  {
    var p := ParentOf(procs, x).value;
    ParentIsSmaller(procs, x);
    if p == pid {
      c := x;
    } else {
      c := ChildToward(procs, pid, p);
    }
  }

  lemma {:induction false} ChildAbove(procs: seq<Proc>, pid: nat, c: nat, x: nat)
    requires Ordered(procs) && Above(procs, c, x) && ParentOf(procs, c) == Some(pid) && Has(procs, pid)
    ensures Above(procs, pid, x) && pid != x
    decreases x
  {
    AboveIsListed(procs, c, x);
    ParentIsSmaller(procs, c);
    if c != x {
      ParentIsSmaller(procs, x);
      ChildAbove(procs, pid, c, ParentOf(procs, x).value);
    }
  }

  predicate SomeAbove(procs: seq<Proc>, kids: seq<nat>, x: nat)
    requires Ordered(procs)
  {
    exists i :: 0 <= i < |kids| && Above(procs, kids[i], x)
  }

  // A process's lines name exactly what it is above, once each.
  lemma {:induction false} FormatTimes(procs: seq<Proc>, pid: nat, prefix: string, isLast: bool, x: nat)
    requires Ordered(procs)
    ensures Times(Format(procs, pid, prefix, isLast), x) == if Above(procs, pid, x) then 1 else 0
    decreases Bound(procs) + 1 - Min(pid, Bound(procs) + 1), 1, 0
  {
    if !Has(procs, pid) {
      if Above(procs, pid, x) {
        AboveIsListed(procs, pid, x);
      }
    } else {
      ParentIsSmaller(procs, pid);
      ChildrenAreLarger(procs, pid);
      ChildrenSpec(procs, pid);
      var kids := ChildrenOf(procs, pid);
      var below := prefix + if isLast then BLANK else BAR;
      var line := Line(prefix, if isLast then LAST else MIDDLE, pid);
      FormatAllTimes(procs, pid, kids, below, x);
      TimesAppend([line], FormatAll(procs, pid, kids, below), x);
      assert [line][1..] == [];
      assert Times([line], x) == if x == pid then 1 else 0;
      KidsAbove(procs, pid, x);
    }
  }

  lemma KidsAbove(procs: seq<Proc>, pid: nat, x: nat)
    requires Ordered(procs) && Has(procs, pid)
    ensures Above(procs, pid, x) <==> x == pid || SomeAbove(procs, ChildrenOf(procs, pid), x)
    ensures SomeAbove(procs, ChildrenOf(procs, pid), x) ==> x != pid
  {
    var kids := ChildrenOf(procs, pid);
    ChildrenSpec(procs, pid);
    if SomeAbove(procs, kids, x) {
      var i :| 0 <= i < |kids| && Above(procs, kids[i], x);
      assert kids[i] in kids;
      ChildAbove(procs, pid, kids[i], x);
    }
    if x != pid && Above(procs, pid, x) {
      var c := ChildToward(procs, pid, x);
      assert c in kids;
      var i :| 0 <= i < |kids| && kids[i] == c;
    }
  }

  lemma {:induction false} FormatAllTimes(procs: seq<Proc>, pid: nat, kids: seq<nat>, prefix: string, x: nat)
    requires Ordered(procs) && pid <= Bound(procs) && forall c :: c in kids ==> pid < c <= Bound(procs)
    requires Distinct(kids) && forall c :: c in kids ==> ParentOf(procs, c) == Some(pid)
    ensures Times(FormatAll(procs, pid, kids, prefix), x) == if SomeAbove(procs, kids, x) then 1 else 0
    decreases Bound(procs) + 1 - Min(pid, Bound(procs) + 1), 0, |kids|
  {
    if kids != [] {
      var rest := kids[1..];
      assert kids[0] in kids && forall c :: c in rest ==> c in kids;
      FormatTimes(procs, kids[0], prefix, |kids| == 1, x);
      FormatAllTimes(procs, pid, rest, prefix, x);
      TimesAppend(Format(procs, kids[0], prefix, |kids| == 1), FormatAll(procs, pid, rest, prefix), x);
      FirstOrRest(procs, kids, x);
      if Above(procs, kids[0], x) && SomeAbove(procs, rest, x) {
        var i :| 0 <= i < |rest| && Above(procs, rest[i], x);
        assert rest[i] == kids[i + 1];
        SiblingsApart(procs, pid, kids[0], rest[i], x);
      }
    }
  }

  lemma FirstOrRest(procs: seq<Proc>, kids: seq<nat>, x: nat)
    requires Ordered(procs) && kids != []
    ensures SomeAbove(procs, kids, x) <==> Above(procs, kids[0], x) || SomeAbove(procs, kids[1..], x)
  {
    if SomeAbove(procs, kids, x) {
      var i :| 0 <= i < |kids| && Above(procs, kids[i], x);
      if i > 0 {
        assert kids[1..][i - 1] == kids[i];
      }
    }
    if SomeAbove(procs, kids[1..], x) {
      var i :| 0 <= i < |kids[1..]| && Above(procs, kids[1..][i], x);
      assert kids[i + 1] == kids[1..][i];
    }
  }

  // ---------------------------------------------------------------------
  // Roots
  // ---------------------------------------------------------------------

  predicate Root(procs: seq<Proc>, r: nat) {
    Has(procs, r) && (ParentOf(procs, r).None? || !Has(procs, ParentOf(procs, r).value))
  }

  lemma {:induction false} RootAbove(procs: seq<Proc>, x: nat) returns (r: nat)
    requires Ordered(procs) && Has(procs, x)
    ensures Root(procs, r) && Above(procs, r, x)
    decreases x
  {
    if Root(procs, x) {
      r := x;
    } else {
      ParentIsSmaller(procs, x);
      r := RootAbove(procs, ParentOf(procs, x).value);
    }
  }

  lemma OneRootAbove(procs: seq<Proc>, r: nat, q: nat, x: nat)
    requires Ordered(procs) && Root(procs, r) && Root(procs, q) && Above(procs, r, x) && Above(procs, q, x)
    ensures r == q
  {
    AboveIsChain(procs, r, q, x);
    TopIsAlone(procs, r, q);
    TopIsAlone(procs, q, r);
  }

  lemma TopIsAlone(procs: seq<Proc>, a: nat, r: nat)
    requires Ordered(procs) && Root(procs, r) && Above(procs, a, r)
    ensures a == r
  {
    if a != r && ParentOf(procs, r).Some? {
      ParentIsSmaller(procs, r);
    }
  }

  // Is some process of the rest of the list a root above x?
  predicate RootIn(procs: seq<Proc>, todo: seq<Proc>, x: nat)
    requires Ordered(procs)
  {
    exists i :: 0 <= i < |todo| && IsRoot(procs, todo[i]) && Above(procs, todo[i].pid, x)
  }

  lemma {:induction false} ListingTimes(procs: seq<Proc>, n: nat, x: nat)
    requires Ordered(procs) && n <= |procs|
    ensures Times(Listing(procs, procs[n..]), x) == if RootIn(procs, procs[n..], x) then 1 else 0
    decreases |procs| - n
  {
    hide Has, Above, Format;
    if n < |procs| {
      var todo := procs[n..];
      assert todo[0] == procs[n] && todo[1..] == procs[n + 1..];
      ListingTimes(procs, n + 1, x);
      FormatTimes(procs, todo[0].pid, "", true, x);
      var first := if IsRoot(procs, todo[0]) then Format(procs, todo[0].pid, "", true) else [];
      TimesAppend(first, Listing(procs, todo[1..]), x);
      RootFirstOrRest(procs, todo, x);
      if IsRoot(procs, todo[0]) && Above(procs, todo[0].pid, x) && RootIn(procs, todo[1..], x) {
        var i :| 0 <= i < |todo[1..]| && IsRoot(procs, todo[1..][i]) && Above(procs, todo[1..][i].pid, x);
        assert procs[n + 1 + i] == todo[1..][i];
        ListedRoot(procs, n);
        ListedRoot(procs, n + 1 + i);
        OneRootAbove(procs, procs[n].pid, procs[n + 1 + i].pid, x);
      }
    }
  }

  lemma RootFirstOrRest(procs: seq<Proc>, todo: seq<Proc>, x: nat)
    requires Ordered(procs) && todo != []
    ensures RootIn(procs, todo, x) <==> (IsRoot(procs, todo[0]) && Above(procs, todo[0].pid, x)) || RootIn(procs, todo[1..], x)
  {
    if RootIn(procs, todo, x) {
      var i :| 0 <= i < |todo| && IsRoot(procs, todo[i]) && Above(procs, todo[i].pid, x);
      if i > 0 {
        assert todo[1..][i - 1] == todo[i];
      }
    }
    if RootIn(procs, todo[1..], x) {
      var i :| 0 <= i < |todo[1..]| && IsRoot(procs, todo[1..][i]) && Above(procs, todo[1..][i].pid, x);
      assert todo[i + 1] == todo[1..][i];
    }
  }

  lemma ListedRoot(procs: seq<Proc>, i: nat)
    requires Ordered(procs) && i < |procs|
    ensures IsRoot(procs, procs[i]) <==> Root(procs, procs[i].pid)
  {
    ParentAt(procs, i);
  }

  // The listing names every process exactly once and nothing else.
  lemma ListingCovers(procs: seq<Proc>, x: nat)
    requires Ordered(procs)
    ensures Times(Listing(procs, procs), x) == if Has(procs, x) then 1 else 0
  {
    assert procs[0..] == procs;
    ListingTimes(procs, 0, x);
    if Has(procs, x) {
      var r := RootAbove(procs, x);
      var i :| 0 <= i < |procs| && procs[i].pid == r;
      ListedRoot(procs, i);
      assert RootIn(procs, procs, x);
    }
  }

  // ---------------------------------------------------------------------
  // Parents first
  // ---------------------------------------------------------------------

  // Every line but those of roots comes after the line of its parent.
  ghost predicate ParentsFirst(procs: seq<Proc>, lines: seq<Line>) {
    forall k :: 0 <= k < |lines| ==> Announced(procs, lines, k)
  }

  ghost predicate Announced(procs: seq<Proc>, lines: seq<Line>, k: nat)
    requires k < |lines|
  {
    Root(procs, lines[k].pid) || exists j :: 0 <= j < k && ParentOf(procs, lines[k].pid) == Some(lines[j].pid)
  }

  lemma AnnouncedMore(procs: seq<Proc>, lines: seq<Line>, more: seq<Line>)
    requires ParentsFirst(procs, lines)
    ensures forall k :: 0 <= k < |lines| ==> Announced(procs, lines + more, k)
  {
    forall k | 0 <= k < |lines|
      ensures Announced(procs, lines + more, k)
    {
      assert Announced(procs, lines, k);
      if !Root(procs, lines[k].pid) {
        var j :| 0 <= j < k && ParentOf(procs, lines[k].pid) == Some(lines[j].pid);
        assert (lines + more)[j] == lines[j];
      }
    }
  }

  lemma OneMoreLine(procs: seq<Proc>, lines: seq<Line>, l: Line)
    requires ParentsFirst(procs, lines)
    requires Root(procs, l.pid) || exists j :: 0 <= j < |lines| && ParentOf(procs, l.pid) == Some(lines[j].pid)
    ensures ParentsFirst(procs, lines + [l])
  {
    AnnouncedMore(procs, lines, [l]);
    if !Root(procs, l.pid) {
      var j :| 0 <= j < |lines| && ParentOf(procs, l.pid) == Some(lines[j].pid);
      assert (lines + [l])[j] == lines[j];
    }
    assert Announced(procs, lines + [l], |lines|);
  }

  // Formatting below lines that already name the parent.
  lemma {:induction false} FormatAnnounced(procs: seq<Proc>, lines: seq<Line>, pid: nat, prefix: string, isLast: bool)
    requires Ordered(procs) && ParentsFirst(procs, lines)
    requires Root(procs, pid) || exists j :: 0 <= j < |lines| && ParentOf(procs, pid) == Some(lines[j].pid)
    ensures ParentsFirst(procs, lines + Format(procs, pid, prefix, isLast))
    decreases Bound(procs) + 1 - Min(pid, Bound(procs) + 1), 1, 0
  {
    if Has(procs, pid) {
      ParentIsSmaller(procs, pid);
      ChildrenAreLarger(procs, pid);
      ChildrenSpec(procs, pid);
      var line := Line(prefix, if isLast then LAST else MIDDLE, pid);
      var below := prefix + if isLast then BLANK else BAR;
      OneMoreLine(procs, lines, line);
      assert (lines + [line])[|lines|] == line;
      FormatAllAnnounced(procs, lines + [line], |lines|, pid, ChildrenOf(procs, pid), below);
      Regroup(lines, [line], FormatAll(procs, pid, ChildrenOf(procs, pid), below));
    } else {
      assert lines + [] == lines;
    }
  }

  lemma Regroup(a: seq<Line>, b: seq<Line>, c: seq<Line>)
    ensures a + b + c == a + (b + c)
  {
  }

  lemma {:induction false} FormatAllAnnounced(procs: seq<Proc>, lines: seq<Line>, at: nat, pid: nat, kids: seq<nat>, prefix: string)
    requires Ordered(procs) && ParentsFirst(procs, lines) && at < |lines| && lines[at].pid == pid
    requires pid <= Bound(procs) && forall c :: c in kids ==> pid < c <= Bound(procs)
    requires forall c :: c in kids ==> ParentOf(procs, c) == Some(pid)
    ensures ParentsFirst(procs, lines + FormatAll(procs, pid, kids, prefix))
    decreases Bound(procs) + 1 - Min(pid, Bound(procs) + 1), 0, |kids|
  {
    if kids == [] {
      assert lines + [] == lines;
    } else {
      assert kids[0] in kids && forall c :: c in kids[1..] ==> c in kids;
      var first := Format(procs, kids[0], prefix, |kids| == 1);
      assert ParentOf(procs, kids[0]) == Some(lines[at].pid);
      FormatAnnounced(procs, lines, kids[0], prefix, |kids| == 1);
      FormatAllAnnounced(procs, lines + first, at, pid, kids[1..], prefix);
      Regroup(lines, first, FormatAll(procs, pid, kids[1..], prefix));
    }
  }

  lemma {:induction false} ListingAnnounced(procs: seq<Proc>, lines: seq<Line>, n: nat)
    requires Ordered(procs) && ParentsFirst(procs, lines) && n <= |procs|
    ensures ParentsFirst(procs, lines + Listing(procs, procs[n..]))
    decreases |procs| - n
  {
    if n == |procs| {
      assert lines + [] == lines;
    } else {
      var todo := procs[n..];
      assert todo[0] == procs[n] && todo[1..] == procs[n + 1..];
      var first := if IsRoot(procs, todo[0]) then Format(procs, todo[0].pid, "", true) else [];
      ListedRoot(procs, n);
      if IsRoot(procs, todo[0]) {
        FormatAnnounced(procs, lines, todo[0].pid, "", true);
      } else {
        assert lines + first == lines;
      }
      ListingAnnounced(procs, lines + first, n + 1);
      Regroup(lines, first, Listing(procs, procs[n + 1..]));
    }
  }

  // In every state that forking and reaping can reach, listing the processes ends, names
  // every process exactly once and names parents before their children.
  lemma ListingIsComplete(t: Table, ops: seq<Op>, procs: seq<Proc>)
    requires Numbered(t) && ListOf(Exec(t, ops), procs)
    ensures Ordered(procs)
    ensures forall x: nat :: Times(Listing(procs, procs), x) == if x in Exec(t, ops).procs then 1 else 0
    ensures ParentsFirst(procs, Listing(procs, procs))
  {
    AlwaysNumbered(t, ops);
    hide Exec, Listing, Times;
    assert Ordered(procs);
    forall x: nat
      ensures Times(Listing(procs, procs), x) == if x in Exec(t, ops).procs then 1 else 0
    {
      ListingCovers(procs, x);
    }
    assert procs[0..] == procs && [] + Listing(procs, procs) == Listing(procs, procs);
    ListingAnnounced(procs, [], 0);
  }

  // ---------------------------------------------------------------------
  // The listing as it is computed
  // ---------------------------------------------------------------------

  method FormatTree(procs: seq<Proc>, pid: nat, prefix: string, isLast: bool, output: seq<Line>) returns (result: seq<Line>)
    requires Ordered(procs)
    ensures result == output + Format(procs, pid, prefix, isLast)
    decreases Bound(procs) + 1 - Min(pid, Bound(procs) + 1)
  {
    if !Has(procs, pid) {
      return output;
    }
    ParentIsSmaller(procs, pid);
    ChildrenAreLarger(procs, pid);
    var line := Line(prefix, if isLast then LAST else MIDDLE, pid);
    result := output + [line];
    var children := ChildrenOf(procs, pid);
    var childPrefix := prefix + if isLast then BLANK else BAR;
    Regroup(output, [line], FormatAll(procs, pid, children, childPrefix));
    assert children[0..] == children;
    hide Format, FormatAll, Ordered, Has;
    for i := 0 to |children|
      invariant forall c :: c in children[i..] ==> pid < c <= Bound(procs)
      invariant result + FormatAll(procs, pid, children[i..], childPrefix) == output + Format(procs, pid, prefix, isLast)
    {
      FormatAllStep(procs, pid, children[i..], childPrefix, result);
      assert children[i..][1..] == children[i + 1..];
      result := FormatTree(procs, children[i], childPrefix, i == |children| - 1, result);
    }
    FormatAllEnd(procs, pid, childPrefix, result);
  }

  lemma FormatAllEnd(procs: seq<Proc>, pid: nat, prefix: string, lines: seq<Line>)
    requires Ordered(procs) && pid <= Bound(procs)
    ensures lines + FormatAll(procs, pid, [], prefix) == lines
  {
    assert lines + [] == lines;
  }

  lemma FormatAllStep(procs: seq<Proc>, pid: nat, kids: seq<nat>, prefix: string, lines: seq<Line>)
    requires Ordered(procs) && pid <= Bound(procs) && kids != [] && forall c :: c in kids ==> pid < c <= Bound(procs)
    ensures pid < kids[0] <= Bound(procs) && forall c :: c in kids[1..] ==> pid < c <= Bound(procs)
    ensures lines + FormatAll(procs, pid, kids, prefix)
      == lines + Format(procs, kids[0], prefix, |kids| == 1) + FormatAll(procs, pid, kids[1..], prefix)
  {
    assert kids[0] in kids && forall c :: c in kids[1..] ==> c in kids;
    Regroup(lines, Format(procs, kids[0], prefix, |kids| == 1), FormatAll(procs, pid, kids[1..], prefix));
  }

  method ListProcesses(procs: seq<Proc>) returns (output: seq<Line>)
    requires Ordered(procs)
    ensures output == Listing(procs, procs)
  {
    hide Listing, Format, IsRoot, Ordered;
    output := [];
    assert procs[0..] == procs;
    for i := 0 to |procs|
      invariant output + Listing(procs, procs[i..]) == Listing(procs, procs)
    {
      ListingStep(procs, i);
      if IsRoot(procs, procs[i]) {
        Regroup(output, Format(procs, procs[i].pid, "", true), Listing(procs, procs[i + 1..]));
        output := FormatTree(procs, procs[i].pid, "", true, output);
      }
    }
    ListingEnd(procs);
  }

  lemma ListingStep(procs: seq<Proc>, i: nat)
    requires Ordered(procs) && i < |procs|
    ensures Listing(procs, procs[i..]) == if IsRoot(procs, procs[i])
      then Format(procs, procs[i].pid, "", true) + Listing(procs, procs[i + 1..])
      else Listing(procs, procs[i + 1..])
  {
    hide Format, IsRoot, Ordered;
    assert procs[i..][0] == procs[i] && procs[i..][1..] == procs[i + 1..];
  }

  lemma ListingEnd(procs: seq<Proc>)
    requires Ordered(procs)
    ensures Listing(procs, procs[|procs|..]) == []
  {
  }
}
