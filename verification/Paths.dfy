// Taking paths apart, in the two ways the file service does it.
module Paths {
  import opened Prelude
  import opened Vfs

  // Where the last slash is, or the length.
  function RFind(path: string): (n: nat)
    ensures n <= |path| && (n < |path| ==> path[n] == '/')
    ensures n < |path| ==> '/' !in path[n + 1..]
    ensures n == |path| <==> '/' !in path
  {
    if path == "" then 0
    else if path[|path| - 1] == '/' then |path| - 1
    else
      var init := path[..|path| - 1];
      assert path == init + [path[|path| - 1]];
      var n := RFind(init);
      if n < |init| then
        assert path[n + 1..] == init[n + 1..] + [path[|path| - 1]];
        n
      else |path|
  }

  // Opening splits at the last slash; without a slash there is no parent.
  function SplitLast(path: string): Option<(string, string)> {
    var n := RFind(path);
    if n == |path| then None
    else Some((if n == 0 then "/" else path[..n], path[n + 1..]))
  }

  function JoinSlash(parts: seq<string>): string {
    if parts == [] then ""
    else if |parts| == 1 then parts[0]
    else parts[0] + "/" + JoinSlash(parts[1..])
  }

  // Everything else splits into components first.
  function SplitPath(path: string): Option<(string, string)> {
    if path == "" then None
    else
      var parts := Components(path);
      if parts == [] then Some(("/", "/"))
      else Some(("/" + JoinSlash(Init(parts)), Last(parts)))
  }

  function Piece(name: string): seq<string> {
    if name == "" then [] else [name]
  }

  lemma FirstSlash(a: string, b: string)
    requires '/' !in a
    ensures IndexOf(a + "/" + b, '/') == |a|
    ensures IndexOf(a, '/') == |a|
  {
    var s := a + "/" + b;
    assert s[|a|] == '/' && s[..|a|] == a;
    assert IndexOf(s, '/') <= |a|;
  }

  lemma ComponentsStep(a: string, b: string)
    requires '/' !in a
    ensures Components(a + "/" + b) == Piece(a) + Components(b)
    ensures Components(a) == Piece(a)
  {
    FirstSlash(a, b);
    var s := a + "/" + b;
    assert s[..|a|] == a && s[|a| + 1..] == b && |s| > 0;
    assert a[..|a|] == a;
    hide IndexOf;
  }

  lemma AppendStep(x: string, y: string, b: string, a: string, ab: string)
    requires '/' !in x && a == x + "/" + y && ab == a + "/" + b
    requires Components(y + "/" + b) == Components(y) + Components(b)
    ensures Components(ab) == Components(a) + Components(b)
  {
    hide Components, Piece;
    assert ab == x + "/" + (y + "/" + b);
    ComponentsStep(x, y + "/" + b);
    ComponentsStep(x, y);
  }

  // A slash separates: the components of `a/b` are those of `a`, then those of `b`.
  lemma {:induction false} ComponentsAppend(a: string, b: string)
    ensures Components(a + "/" + b) == Components(a) + Components(b)
    decreases |a|
  {
    hide Components;
    if '/' !in a {
      ComponentsStep(a, b);
    } else {
      var n := IndexOf(a, '/');
      ComponentsAppend(a[n + 1..], b);
      assert a == a[..n] + "/" + a[n + 1..];
      hide IndexOf;
      AppendStep(a[..n], a[n + 1..], b, a, a + "/" + b);
    }
  }

  lemma RootedComponents(s: string)
    ensures Components("/" + s) == Components(s)
  {
    var p := "/" + s;
    assert p[0] == '/' && p[1..] == s;
    assert IndexOf(p, '/') == 0;
    hide IndexOf;
  }

  // The parent's components are all but the last.
  lemma SplitLastAgrees(path: string)
    requires SplitLast(path).Some?
    ensures var (dir, name) := SplitLast(path).value;
      Components(path) == Components(dir) + Piece(name)
  {
    var n := RFind(path);
    var name := path[n + 1..];
    assert path == path[..n] + "/" + name;
    ComponentsAppend(path[..n], name);
    ComponentsStep(name, "");
    if n == 0 {
      assert path[..0] == "";
      ComponentsStep("", "");
      assert "" + "/" + "" == "/";
      assert Components("") == [];
    }
    hide RFind, Components, IndexOf;
  }

  // Neither empty nor with a slash inside.
  predicate IsName(s: string) {
    s != "" && '/' !in s
  }

  predicate AreNames(parts: seq<string>) {
    forall k :: 0 <= k < |parts| ==> IsName(parts[k])
  }

  lemma {:induction false} ComponentsAreNames(path: string)
    ensures AreNames(Components(path))
    decreases |path|
  {
    hide IsName, IndexOf;
    if path != "" {
      var n := IndexOf(path, '/');
      FirstIsName(path);
      if n < |path| {
        ComponentsAreNames(path[n + 1..]);
      }
    }
  }

  lemma FirstIsName(path: string)
    ensures IndexOf(path, '/') > 0 ==> IsName(path[..IndexOf(path, '/')])
  {
    hide IndexOf;
  }

  lemma {:induction false} ComponentsOfJoin(parts: seq<string>)
    requires AreNames(parts)
    ensures Components(JoinSlash(parts)) == parts
  {
    hide Components;
    if |parts| == 1 {
      ComponentsStep(parts[0], "");
    } else if |parts| > 1 {
      assert IsName(parts[0]);
      ComponentsStep(parts[0], JoinSlash(parts[1..]));
      ComponentsOfJoin(parts[1..]);
    } else {
      NoComponents();
    }
  }

  lemma NoComponents()
    ensures Components("") == []
  {
  }

  // Splitting and looking up the parent finds the directory the last name is looked for in.
  lemma SplitPathAgrees(path: string)
    requires Components(path) != []
    ensures SplitPath(path).Some?
    ensures var (dir, name) := SplitPath(path).value;
      Components(path) == Components(dir) + [name]
  {
    hide Components, JoinSlash;
    var parts := Components(path);
    ComponentsAreNames(path);
    NotEmpty(path);
    JoinAndRoot(Init(parts));
    assert parts == Init(parts) + [Last(parts)];
  }

  lemma NotEmpty(path: string)
    requires Components(path) != []
    ensures path != ""
  {
  }

  lemma JoinAndRoot(parts: seq<string>)
    requires AreNames(parts)
    ensures Components("/" + JoinSlash(parts)) == parts
  {
    hide Components, JoinSlash;
    ComponentsOfJoin(parts);
    RootedComponents(JoinSlash(parts));
  }
}
