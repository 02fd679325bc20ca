/**
 The in-memory tree of files and directories that stands in when no volume is mounted: a pool of at most 256
 nodes, created one after the other and never removed, with lookup by path and printing of paths.
 */
module NodeTree {
  import opened Bytes

  const MAX_FILES: nat := 256
  const MAX_CHILDREN: nat := 32
  const MAX_COMPONENT: nat := 254
  const MAX_PATH: nat := 260
  const SLASH: Byte := 47
  const TILDE: Byte := 126
  const HERE: seq<Byte> := [46]
  const UP: seq<Byte> := [46, 46]
  const ROOT: seq<Byte> := [114, 111, 111, 116]
  const BIN: seq<Byte> := [98, 105, 110]
  const HOME: seq<Byte> := [104, 111, 109, 101]
  const ETC: seq<Byte> := [101, 116, 99]
  const WELCOME: seq<Byte> := [119, 101, 108, 99, 111, 109, 101, 46, 116, 120, 116]
  const GRADIENT: seq<Byte> := [103, 114, 97, 100, 105, 101, 110, 116, 46, 105, 109, 103]
  const RAINBOW: seq<Byte> := [114, 97, 105, 110, 98, 111, 119, 46, 105, 109, 103]
  const LOGO: seq<Byte> := [108, 111, 103, 111, 46, 98, 109, 112]
  const CHECKER: seq<Byte> := [99, 104, 101, 99, 107, 101, 114, 46, 112, 105, 99]

  /** A node; parent and children are indices into the pool. */
  datatype Node = Node(name: seq<Byte>, isDirectory: bool, parent: Option<nat>, children: seq<nat>)

  /** Two different children of a directory, of different names. */
  ghost predicate Apart(ns: seq<Node>, a: nat, b: nat) { a != b && a < |ns| && b < |ns| && ns[a].name != ns[b].name }

  /** Node `i` hangs where it says, below an older directory. */
  ghost predicate Hangs(ns: seq<Node>, i: nat)
  {
    && i < |ns| && (i == 0 <==> ns[i].parent.None?)
    && (ns[i].parent.Some? ==> var p := ns[i].parent.value; p < i && ns[p].isDirectory && i in ns[p].children)
  }

  /** The children that node `i` lists say so themselves and are apart. */
  ghost predicate Lists(ns: seq<Node>, i: nat)
  {
    && i < |ns| && |ns[i].children| <= MAX_CHILDREN && (!ns[i].isDirectory ==> ns[i].children == [])
    && (forall c :: c in ns[i].children ==> i < c < |ns| && ns[c].parent == Some(i))
    && (forall a, b :: 0 <= a < b < |ns[i].children| ==> Apart(ns, ns[i].children[a], ns[i].children[b]))
  }

  ghost predicate TreeOk(ns: seq<Node>)
  {
    && 1 <= |ns| <= MAX_FILES && ns[0].isDirectory
    && (forall i: nat :: i < |ns| ==> Hangs(ns, i) && Lists(ns, i))
  }

  // ---- children ----

  /** The first of the children from index `k` on with that name. */
  function FirstNamed(ns: seq<Node>, children: seq<nat>, k: nat, name: seq<Byte>): Option<nat>
    requires k <= |children|
    decreases |children| - k
  {
    if k == |children| then None
    else if children[k] < |ns| && ns[children[k]].name == name then Some(children[k])
    else FirstNamed(ns, children, k + 1, name)
  }

  /** `fs_find_node`. */
  function Child(ns: seq<Node>, dir: nat, name: seq<Byte>): Option<nat>
    requires dir < |ns|
  {
    if !ns[dir].isDirectory then None else FirstNamed(ns, ns[dir].children, 0, name)
  }

  lemma {:induction false} FirstNamedIs(ns: seq<Node>, children: seq<nat>, k: nat, name: seq<Byte>)
    requires k <= |children|
    ensures match FirstNamed(ns, children, k, name)
            case Some(c) => c in children && c < |ns| && ns[c].name == name
            case None => forall j :: k <= j < |children| && children[j] < |ns| ==> ns[children[j]].name != name
    decreases |children| - k
  {
    if k < |children| && !(children[k] < |ns| && ns[children[k]].name == name) {
      FirstNamedIs(ns, children, k + 1, name);
    }
  }

  /** Lookup finds exactly the child of that name. */
  lemma ChildIff(ns: seq<Node>, dir: nat, name: seq<Byte>, c: nat)
    requires TreeOk(ns) && dir < |ns|
    ensures Child(ns, dir, name) == Some(c) <==> c < |ns| && ns[c].parent == Some(dir) && ns[c].name == name
  {
    assert Lists(ns, dir);
    FirstNamedIs(ns, ns[dir].children, 0, name);
    if c < |ns| && ns[c].parent == Some(dir) && ns[c].name == name {
      assert Hangs(ns, c);
      var k :| 0 <= k < |ns[dir].children| && ns[dir].children[k] == c;
      var d := Child(ns, dir, name).value;
      var j :| 0 <= j < |ns[dir].children| && ns[dir].children[j] == d;
    }
  }

  // ---- creation ----

  /** `fs_create_file` and `fs_create_directory`: the pool and the new node's index. */
  function WithNode(ns: seq<Node>, dir: nat, name: seq<Byte>, isDirectory: bool): (seq<Node>, Option<nat>)
    requires dir < |ns|
  {
    if !ns[dir].isDirectory || |ns[dir].children| >= MAX_CHILDREN || |ns| >= MAX_FILES || Child(ns, dir, name).Some?
    then (ns, None)
    else (ns[dir := ns[dir].(children := ns[dir].children + [|ns|])] + [Node(name, isDirectory, Some(dir), [])],
          Some(|ns|))
  }

  lemma ListsAfter(ns: seq<Node>, dir: nat, name: seq<Byte>, isDirectory: bool, i: nat)
    requires TreeOk(ns) && dir < |ns| && WithNode(ns, dir, name, isDirectory).1.Some?
    requires i < |WithNode(ns, dir, name, isDirectory).0|
    ensures Lists(WithNode(ns, dir, name, isDirectory).0, i)
  {
    var ns' := WithNode(ns, dir, name, isDirectory).0;
    var n := |ns|;
    FirstNamedIs(ns, ns[dir].children, 0, name);
    if i < n {
      assert Lists(ns, i);
      var cs, cs' := ns[i].children, ns'[i].children;
      forall a, b | 0 <= a < b < |cs'|
        ensures Apart(ns', cs'[a], cs'[b])
      {
        assert cs[a] in cs;
        if b < |cs| { assert Apart(ns, cs[a], cs[b]); }
      }
    }
  }

  lemma HangsAfter(ns: seq<Node>, dir: nat, name: seq<Byte>, isDirectory: bool, i: nat)
    requires TreeOk(ns) && dir < |ns| && WithNode(ns, dir, name, isDirectory).1.Some?
    requires i < |WithNode(ns, dir, name, isDirectory).0|
    ensures Hangs(WithNode(ns, dir, name, isDirectory).0, i)
  {
    if i < |ns| { assert Hangs(ns, i); }
  }

  /** Creating a node keeps the tree a tree. It succeeds exactly when the directory is one, has room and no node of
      that name, and the pool is not full; the other nodes keep their names, kinds and parents. */
  lemma CreationKeepsTree(ns: seq<Node>, dir: nat, name: seq<Byte>, isDirectory: bool)
    requires TreeOk(ns) && dir < |ns|
    ensures var (ns', made) := WithNode(ns, dir, name, isDirectory);
            && TreeOk(ns')
            && (made.Some? <==> ns[dir].isDirectory && |ns[dir].children| < MAX_CHILDREN && |ns| < MAX_FILES
                                && forall c: nat :: c < |ns| && ns[c].parent == Some(dir) ==> ns[c].name != name)
            && (made.Some? ==>
                  made == Some(|ns|) && |ns'| == |ns| + 1 && ns'[|ns|] == Node(name, isDirectory, Some(dir), []))
            && (made.None? ==> ns' == ns)
            && (forall i: nat :: i < |ns| ==>
               ns'[i] == ns[i].(children := ns'[i].children) && (i != dir ==> ns'[i] == ns[i]))
  {
    var (ns', made) := WithNode(ns, dir, name, isDirectory);
    forall c: nat | c < |ns|
      ensures Child(ns, dir, name) == Some(c) <==> ns[c].parent == Some(dir) && ns[c].name == name
    {
      ChildIff(ns, dir, name, c);
    }
    FirstNamedIs(ns, ns[dir].children, 0, name);
    if made.Some? {
      forall i: nat | i < |ns'|
        ensures Hangs(ns', i) && Lists(ns', i)
      {
        HangsAfter(ns, dir, name, isDirectory, i);
        ListsAfter(ns, dir, name, isDirectory, i);
      }
    }
  }

  // ---- lookup by path ----

  /** Where the first component of a path ends: at a slash, at the end, or when the component buffer is full. */
  function ComponentEnd(path: seq<Byte>, i: nat): (e: nat)
    requires i <= |path|
    ensures i <= e <= |path|
    decreases |path| - i
  {
    if i == |path| || path[i] == SLASH || i >= MAX_COMPONENT then i else ComponentEnd(path, i + 1)
  }

  function SkipSlashes(path: seq<Byte>, i: nat): (e: nat)
    requires i <= |path|
    ensures i <= e <= |path|
    ensures i < |path| && path[i] == SLASH ==> e > i
    decreases |path| - i
  {
    if i == |path| || path[i] != SLASH then i else SkipSlashes(path, i + 1)
  }

  /** Where the loop of `fs_find_node_by_path` goes on after the first component. */
  function Rest(path: seq<Byte>): (r: seq<Byte>)
    requires path != []
    ensures |r| < |path|
  {
    path[SkipSlashes(path, ComponentEnd(path, 0))..]
  }

  function Head(path: seq<Byte>): seq<Byte> { path[..ComponentEnd(path, 0)] }

  /** One component: itself, the parent, or a child. */
  function Descend(ns: seq<Node>, current: nat, component: seq<Byte>): (r: Option<nat>)
    requires current < |ns|
  {
    if component == HERE then Some(current)
    else if component == UP then if ns[current].parent.Some? then ns[current].parent else Some(current)
    else Child(ns, current, component)
  }

  /** The loop over the components. */
  function Walk(ns: seq<Node>, current: nat, path: seq<Byte>): Option<nat>
    decreases |path|
  {
    if path == [] then Some(current)
    else if current >= |ns| then None
    else
      match Descend(ns, current, Head(path))
      case None => None
      case Some(next) =>
        if next < |ns| && Head(path) !in {HERE, UP} && !ns[next].isDirectory && Rest(path) != [] then None
        else Walk(ns, next, Rest(path))
  }

  /** `fs_find_node_by_path`. */
  function Resolve(ns: seq<Node>, cwd: nat, path: seq<Byte>): Option<nat>
  {
    if path == [] then None
    else if path[0] == SLASH then Walk(ns, 0, path[1..])
    else if path[0] == TILDE then Walk(ns, 0, if |path| > 1 && path[1] == SLASH then path[2..] else path[1..])
    else Walk(ns, cwd, path)
  }

  // ---- paths of nodes ----

  /** The path of a node from the root. */
  function PathOf(ns: seq<Node>, i: nat): seq<Byte>
    requires i < |ns|
    decreases i
  {
    if ns[i].parent.Some? && ns[i].parent.value < i then PathOf(ns, ns[i].parent.value) + [SLASH] + ns[i].name
    else [TILDE]
  }

  lemma TreeParts(ns: seq<Node>, i: nat)
    requires TreeOk(ns) && i < |ns|
    ensures Hangs(ns, i) && Lists(ns, i) && Hangs(ns, 0) && Lists(ns, 0) && 1 <= |ns| <= MAX_FILES
    ensures i == 0 ==> PathOf(ns, i) == [TILDE]
  {
  }

  /** A name that stands for itself in a path. */
  predicate Plain(name: seq<Byte>)
  {
    name != [] && |name| <= MAX_COMPONENT && name != HERE && name != UP && SLASH !in name
  }

  /** The node and all its ancestors but the root have plain names. */
  ghost predicate PlainPath(ns: seq<Node>, i: nat)
    requires i < |ns|
    decreases i
  {
    ns[i].parent.Some? && ns[i].parent.value < i ==> Plain(ns[i].name) && PlainPath(ns, ns[i].parent.value)
  }

  lemma {:induction false} ComponentEndIs(path: seq<Byte>, i: nat, e: nat)
    requires i <= e <= |path| && e <= MAX_COMPONENT && (forall k :: i <= k < e ==> path[k] != SLASH)
    requires e == |path| || path[e] == SLASH || e == MAX_COMPONENT
    ensures ComponentEnd(path, i) == e
    decreases e - i
  {
    if i < e { ComponentEndIs(path, i + 1, e); }
  }

  /** The end of a component does not depend on what follows behind a slash. */
  lemma {:induction false} ComponentEndOn(path: seq<Byte>, tail: seq<Byte>, i: nat)
    requires i <= |path| && (tail == [] || tail[0] == SLASH)
    ensures ComponentEnd(path + tail, i) == ComponentEnd(path, i)
    decreases |path| - i
  {
    if i < |path| && path[i] != SLASH && i < MAX_COMPONENT { ComponentEndOn(path, tail, i + 1); }
  }

  lemma {:induction false} SkipSlashesOn(path: seq<Byte>, tail: seq<Byte>, i: nat)
    requires i < |path| && path[|path| - 1] != SLASH
    ensures SkipSlashes(path, i) < |path| && SkipSlashes(path + tail, i) == SkipSlashes(path, i)
    decreases |path| - i
  {
    if path[i] == SLASH { SkipSlashesOn(path, tail, i + 1); }
  }

  /** The components of a path that does not end in a slash, with one more appended. */
  lemma SplitOn(path: seq<Byte>, name: seq<Byte>)
    requires path != [] && path[|path| - 1] != SLASH && Plain(name)
    ensures var longer := path + [SLASH] + name;
            && Head(longer) == Head(path)
            && (if Rest(path) == [] then Rest(longer) == name
                else Rest(longer) == Rest(path) + [SLASH] + name && Rest(path)[|Rest(path)| - 1] != SLASH)
  {
    var tail := [SLASH] + name;
    var longer := path + tail;
    assert longer == path + [SLASH] + name;
    var e := ComponentEnd(path, 0);
    ComponentEndOn(path, tail, 0);
    if e == |path| {
      assert longer[e] == SLASH && longer[e + 1] == name[0];
      assert SkipSlashes(longer, e) == e + 1;
      assert longer[e + 1..] == name;
    } else {
      SkipSlashesOn(path, tail, e);
      var s := SkipSlashes(path, e);
      assert longer[s..] == path[s..] + [SLASH] + name;
    }
  }

  /** Appending a plain component to a path that does not end in a slash: one more step. */
  lemma {:induction false} WalkOn(ns: seq<Node>, current: nat, path: seq<Byte>, name: seq<Byte>, dir: nat)
    requires path != [] && path[|path| - 1] != SLASH && Plain(name) && current < |ns| && TreeOk(ns)
    requires Walk(ns, current, path) == Some(dir) && dir < |ns| && ns[dir].isDirectory
    ensures Walk(ns, current, path + [SLASH] + name) == Walk(ns, dir, name)
    decreases |path|
  {
    hide TreeOk, Descend, Head, Rest;
    SplitOn(path, name);
    DescendInside(ns, current, Head(path));
    if Rest(path) != [] {
      WalkOn(ns, Descend(ns, current, Head(path)).value, Rest(path), name, dir);
    }
  }

  lemma DescendInside(ns: seq<Node>, current: nat, component: seq<Byte>)
    requires TreeOk(ns) && current < |ns|
    ensures Descend(ns, current, component).Some? ==> Descend(ns, current, component).value < |ns|
  {
    assert Hangs(ns, current);
    if ns[current].isDirectory { FirstNamedIs(ns, ns[current].children, 0, component); }
  }

  /** A plain name alone is looked up as a child. */
  lemma WalkName(ns: seq<Node>, dir: nat, name: seq<Byte>)
    requires TreeOk(ns) && dir < |ns| && Plain(name)
    ensures Walk(ns, dir, name) == Child(ns, dir, name)
  {
    ComponentEndIs(name, 0, |name|);
    assert name[..|name|] == name && Rest(name) == [];
    DescendInside(ns, dir, name);
  }

  lemma PathShape(ns: seq<Node>, i: nat)
    requires TreeOk(ns) && 0 < i < |ns| && PlainPath(ns, i)
    ensures var p := PathOf(ns, i); |p| > 2 && p[0] == TILDE && p[1] == SLASH && p[|p| - 1] != SLASH
    decreases i
  {
    assert Hangs(ns, i);
    var parent := ns[i].parent.value;
    if parent > 0 { PathShape(ns, parent); }
    else { assert Hangs(ns, 0); assert PathOf(ns, 0) == [TILDE]; }
    assert ns[i].name[|ns[i].name| - 1] in ns[i].name;
  }

  lemma PathStep(ns: seq<Node>, i: nat)
    requires TreeOk(ns) && 0 < i < |ns| && PlainPath(ns, i)
    ensures ns[i].parent.Some? && ns[i].parent.value < i && Plain(ns[i].name) && ns[ns[i].parent.value].isDirectory
    ensures PlainPath(ns, ns[i].parent.value) && PathOf(ns, i) == PathOf(ns, ns[i].parent.value) + [SLASH] + ns[i].name
    ensures PathOf(ns, 0) == [TILDE]
  {
    TreeParts(ns, i);
  }

  /** Following a node's path from the root, behind its "~/", leads to the node. */
  lemma {:induction false} PathLeadsBack(ns: seq<Node>, i: nat)
    requires TreeOk(ns) && 0 < i < |ns| && PlainPath(ns, i)
    ensures |PathOf(ns, i)| > 2 && Walk(ns, 0, PathOf(ns, i)[2..]) == Some(i)
    decreases i
  {
    hide TreeOk, Walk, PathOf, PlainPath, Plain, Child;
    PathStep(ns, i);
    var parent, name := ns[i].parent.value, ns[i].name;
    PathShape(ns, i);
    WalkName(ns, parent, name);
    ChildIff(ns, parent, name, i);
    if parent == 0 {
      assert PathOf(ns, i)[2..] == name;
    } else {
      PathShape(ns, parent);
      PathLeadsBack(ns, parent);
      var q := PathOf(ns, parent);
      assert PathOf(ns, i)[2..] == q[2..] + [SLASH] + name;
      WalkOn(ns, 0, q[2..], name, parent);
    }
  }

  /** Path round trip: resolving the path of any node whose path consists of plain names gives the node back,
      from every working directory. */
  lemma PathRoundTrip(ns: seq<Node>, cwd: nat, i: nat)
    requires TreeOk(ns) && i < |ns| && PlainPath(ns, i)
    ensures Resolve(ns, cwd, PathOf(ns, i)) == Some(i)
  {
    assert Hangs(ns, i);
    if i > 0 {
      PathShape(ns, i);
      PathLeadsBack(ns, i);
    }
  }

  /** Nodes with such paths have different paths. */
  lemma PathsDiffer(ns: seq<Node>, i: nat, j: nat)
    requires TreeOk(ns) && i < j < |ns| && PlainPath(ns, i) && PlainPath(ns, j)
    ensures PathOf(ns, i) != PathOf(ns, j)
  {
    PathRoundTrip(ns, 0, i);
    PathRoundTrip(ns, 0, j);
  }

  /** One turn of the loop over the components, on a tree. */
  lemma WalkStep(ns: seq<Node>, current: nat, path: seq<Byte>)
    requires TreeOk(ns) && current < |ns| && path != []
    ensures var component, rest := Head(path), Rest(path);
            && (component == HERE ==> Walk(ns, current, path) == Walk(ns, current, rest))
            && (component == UP ==>
                  var next := if ns[current].parent.Some? then ns[current].parent.value else current;
                  next < |ns| && Walk(ns, current, path) == Walk(ns, next, rest))
            && (component != HERE && component != UP ==>
                  match Child(ns, current, component)
                  case None => Walk(ns, current, path) == None
                  case Some(c) =>
                    c < |ns|
                    && Walk(ns, current, path) ==
                       if !ns[c].isDirectory && rest != [] then None else Walk(ns, c, rest))
  {
    DescendInside(ns, current, Head(path));
    hide Child, TreeOk;
  }

  lemma WalkEnds(ns: seq<Node>, current: nat)
    ensures Walk(ns, current, []) == Some(current)
  {
  }

  // ---- what a path means ----

  /** The components with slashes, 47, between them. */
  function Joined(cs: seq<seq<Byte>>): seq<Byte>
  {
    if cs == [] then [] else if |cs| == 1 then cs[0] else cs[0] + [47] + Joined(cs[1..])
  }

  /** A component that fits the component buffer and holds no slash. */
  predicate IsComponent(c: seq<Byte>) { 0 < |c| <= 254 && forall k :: 0 <= k < |c| ==> c[k] != 47 }

  predicate AreComponents(cs: seq<seq<Byte>>) { cs != [] && forall k :: 0 <= k < |cs| ==> IsComponent(cs[k]) }

  /** Component by component: "." stays, ".." goes to the parent if there is one, and a name to the child of that name,
      which must be a directory if more follows. */
  function Follow(ns: seq<Node>, from: nat, cs: seq<seq<Byte>>): Option<nat>
    decreases |cs|
  {
    if cs == [] then Some(from)
    else if from >= |ns| then None
    else if cs[0] == [46] then Follow(ns, from, cs[1..])
    else if cs[0] == [46, 46] then
      Follow(ns, if ns[from].parent.Some? then ns[from].parent.value else from, cs[1..])
    else
      match Child(ns, from, cs[0])
      case None => None
      case Some(c) => if c < |ns| && !ns[c].isDirectory && |cs| > 1 then None else Follow(ns, c, cs[1..])
  }

  /** The first component of a path and what follows it. */
  lemma FrontComponent(cs: seq<seq<Byte>>)
    requires AreComponents(cs)
    ensures Joined(cs) != [] && Joined(cs)[0] != 47
    ensures Head(Joined(cs)) == cs[0] && Rest(Joined(cs)) == Joined(cs[1..])
    ensures Joined(cs[1..]) == [] <==> |cs| == 1
  {
    assert IsComponent(cs[0]);
    JoinedStarts(cs);
    FrontPath(cs[0], Joined(cs[1..]));
    if |cs| == 1 {
      assert cs[1..] == [];
    } else {
      assert IsComponent(cs[1]) && AreComponents(cs[1..]);
      JoinedStarts(cs[1..]);
    }
  }

  lemma FrontPath(c: seq<Byte>, tail: seq<Byte>)
    requires IsComponent(c)
    ensures Head(c) == c && Rest(c) == []
    ensures tail != [] && tail[0] != 47 ==> Head(c + [47] + tail) == c && Rest(c + [47] + tail) == tail
  {
    ComponentEndIs(c, 0, |c|);
    var path := c + [47] + tail;
    assert path[..|c|] == c && path[|c|] == 47 && path[|c| + 1..] == tail;
    ComponentEndIs(path, 0, |c|);
    if tail != [] && tail[0] != 47 {
      assert path[|c| + 1] == tail[0];
      assert SkipSlashes(path, |c| + 1) == |c| + 1;
    }
  }

  lemma JoinedStarts(cs: seq<seq<Byte>>)
    requires AreComponents(cs)
    ensures Joined(cs) != [] && Joined(cs)[0] == cs[0][0] && Joined(cs)[0] != 47
  {
    assert IsComponent(cs[0]);
  }

  lemma {:induction false} WalkFollows(ns: seq<Node>, from: nat, cs: seq<seq<Byte>>)
    requires TreeOk(ns) && from < |ns| && AreComponents(cs)
    ensures Walk(ns, from, Joined(cs)) == Follow(ns, from, cs)
    decreases |cs|
  {
    hide TreeOk, Child, Head, Rest, Joined;
    FrontComponent(cs);
    DescendInside(ns, from, cs[0]);
    assert Hangs(ns, from) by { TreeParts(ns, from); }
    WalkStep(ns, from, Joined(cs));
    if |cs| == 1 {
      assert cs[1..] == [];
      if cs[0] != [46] && cs[0] != [46, 46] { DescendInside(ns, from, cs[0]); }
    } else {
      assert AreComponents(cs[1..]) by { assert forall k :: 0 <= k < |cs| - 1 ==> cs[1..][k] == cs[k + 1]; }
      hide Walk;
      if cs[0] == [46] {
        WalkFollows(ns, from, cs[1..]);
      } else if cs[0] == [46, 46] {
        WalkFollows(ns, if ns[from].parent.Some? then ns[from].parent.value else from, cs[1..]);
      } else if Child(ns, from, cs[0]).Some? {
        WalkFollows(ns, Child(ns, from, cs[0]).value, cs[1..]);
      }
    }
  }

  /** Every path of components is followed component by component: from the working directory, or from the root behind
      "/" and behind "~/" alike, 126 being the "~". */
  lemma PathsAreFollowed(ns: seq<Node>, cwd: nat, cs: seq<seq<Byte>>)
    requires TreeOk(ns) && cwd < |ns| && AreComponents(cs)
    ensures cs[0][0] != 126 ==> Resolve(ns, cwd, Joined(cs)) == Follow(ns, cwd, cs)
    ensures Resolve(ns, cwd, [47] + Joined(cs)) == Follow(ns, 0, cs)
    ensures Resolve(ns, cwd, [126, 47] + Joined(cs)) == Follow(ns, 0, cs)
    ensures Resolve(ns, cwd, []) == None && Resolve(ns, cwd, [47]) == Resolve(ns, cwd, [126]) == Some(0)
  {
    hide TreeOk, Walk, Joined, Follow;
    assert 0 < |ns| by { TreeParts(ns, cwd); }
    assert IsComponent(cs[0]);
    JoinedStarts(cs);
    WalkFollows(ns, cwd, cs);
    WalkFollows(ns, 0, cs);
    WalkEnds(ns, 0);
    var p := Joined(cs);
    assert ([47] + p)[1..] == p && ([126, 47] + p)[2..] == p;
    var root: seq<Byte>, home: seq<Byte> := [47], [126];
    assert root[1..] == [] && home[1..] == [];
  }

  /** A longer component is read as if there were a slash behind its first 254 bytes. */
  lemma LongComponent(ns: seq<Node>, from: nat, path: seq<Byte>)
    requires TreeOk(ns) && from < |ns| && |path| > 254 && forall k :: 0 <= k < 254 ==> path[k] != 47
    ensures Walk(ns, from, path) == Walk(ns, from, path[..254] + [47] + path[254..])
  {
    hide TreeOk, Child, Descend, Walk;
    var cut := path[..254] + [47] + path[254..];
    ComponentEndIs(path, 0, 254);
    ComponentEndIs(cut, 0, 254);
    assert cut[..254] == path[..254] == Head(cut) == Head(path);
    assert cut[255..] == path[254..];
    SkipMoves(path, 254, cut, 255);
    assert SkipSlashes(cut, 254) == SkipSlashes(cut, 255);
    assert Rest(cut) == Rest(path);
    DescendInside(ns, from, Head(path));
    WalkStep(ns, from, path);
    WalkStep(ns, from, cut);
  }

  lemma {:induction false} SkipMoves(p: seq<Byte>, i: nat, q: seq<Byte>, j: nat)
    requires i <= |p| && j <= |q| && p[i..] == q[j..]
    ensures p[SkipSlashes(p, i)..] == q[SkipSlashes(q, j)..]
    decreases |p| - i
  {
    if i < |p| && p[i] == 47 {
      assert p[i + 1..] == p[i..][1..] == q[j..][1..] == q[j + 1..];
      SkipMoves(p, i + 1, q, j + 1);
    } else if i < |p| {
      assert q[j] == q[j..][0] == p[i];
    }
  }

  /** Paths are spelled from "~", 126, with a slash, 47, in front of every name. */
  lemma PathSpelled(ns: seq<Node>, i: nat)
    requires TreeOk(ns) && i < |ns|
    ensures if i == 0 then PathOf(ns, i) == [126]
            else ns[i].parent.Some? && ns[i].parent.value < i
                 && PathOf(ns, i) == PathOf(ns, ns[i].parent.value) + [47] + ns[i].name
  {
    TreeParts(ns, i);
  }

  /** There is room for 32 children in a directory and for 256 nodes in all. */
  lemma RoomIff(ns: seq<Node>, dir: nat, name: seq<Byte>, isDirectory: bool)
    requires TreeOk(ns) && dir < |ns|
    ensures WithNode(ns, dir, name, isDirectory).1.Some? <==>
            ns[dir].isDirectory && |ns[dir].children| < 32 && |ns| < 256 && Child(ns, dir, name).None?
  {
  }

  // ---- runs of creations ----

  datatype Creation = Creation(dir: nat, name: seq<Byte>, isDirectory: bool)

  function CreateAll(ns: seq<Node>, cs: seq<Creation>): seq<Node>
    decreases |cs|
  {
    if cs == [] then ns
    else CreateAll(if cs[0].dir < |ns| then WithNode(ns, cs[0].dir, cs[0].name, cs[0].isDirectory).0 else ns, cs[1..])
  }

  const BARE: seq<Node> := [Node(ROOT, true, None, [])]

  /** What the tree starts with: three directories, the welcome file and the sample images. */
  function Initial(): (cs: seq<Creation>)
    ensures |cs| == 8
  {
    [Creation(0, BIN, true), Creation(0, HOME, true), Creation(0, ETC, true), Creation(0, WELCOME, false),
     Creation(0, GRADIENT, false), Creation(0, RAINBOW, false), Creation(0, LOGO, false), Creation(0, CHECKER, false)]
  }

  lemma {:induction false} CreateOneMore(ns: seq<Node>, cs: seq<Creation>, c: Creation)
    ensures var ns' := CreateAll(ns, cs);
            CreateAll(ns, cs + [c]) == if c.dir < |ns'| then WithNode(ns', c.dir, c.name, c.isDirectory).0 else ns'
    decreases |cs|
  {
    hide WithNode;
    if cs == [] {
      assert [c][1..] == [];
    } else {
      assert (cs + [c])[1..] == cs[1..] + [c];
      var ns1 := if cs[0].dir < |ns| then WithNode(ns, cs[0].dir, cs[0].name, cs[0].isDirectory).0 else ns;
      CreateOneMore(ns1, cs[1..], c);
    }
  }

  lemma NothingCreated(ns: seq<Node>)
    ensures CreateAll(ns, []) == ns
  {
  }

  /** The bare root with the first `k` nodes of `Initial` below it. */
  ghost predicate StartsWith(ns: seq<Node>, k: nat)
    requires k <= 8
  {
    && |ns| == k + 1 && ns[0].name == ROOT && ns[0].isDirectory && ns[0].parent == None && |ns[0].children| == k
    && (forall j :: 0 <= j < k ==> ns[0].children[j] == j + 1)
    && (forall j :: 0 <= j < k ==> ns[j + 1] == Node(Initial()[j].name, Initial()[j].isDirectory, Some(0), []))
  }

  lemma InitialIs()
    ensures Initial()[0] == Creation(0, BIN, true) && Initial()[1] == Creation(0, HOME, true)
    ensures Initial()[2] == Creation(0, ETC, true) && Initial()[3] == Creation(0, WELCOME, false)
    ensures Initial()[4] == Creation(0, GRADIENT, false) && Initial()[5] == Creation(0, RAINBOW, false)
    ensures Initial()[6] == Creation(0, LOGO, false) && Initial()[7] == Creation(0, CHECKER, false)
  {
  }

  lemma InitialApart(i: nat, j: nat)
    requires i < j < 8
    ensures Initial()[i].name != Initial()[j].name && Initial()[j].dir == 0
  {
    var a, b := Initial()[i].name, Initial()[j].name;
    assert |a| != |b| || a[0] != b[0];
  }

  lemma StartGrows(ns: seq<Node>, k: nat)
    requires k < 8 && StartsWith(ns, k)
    ensures StartsWith(WithNode(ns, 0, Initial()[k].name, Initial()[k].isDirectory).0, k + 1)
  {
    forall j: nat | j < k
      ensures Initial()[j].name != Initial()[k].name
    {
      InitialApart(j, k);
    }
    var name := Initial()[k].name;
    FirstNamedIs(ns, ns[0].children, 0, name);
    assert forall j :: 0 <= j < k ==> ns[ns[0].children[j]].name == Initial()[j].name;
    hide Initial;
  }

  lemma {:induction false} StartIs(k: nat)
    requires k <= 8
    ensures StartsWith(CreateAll(BARE, Initial()[..k]), k)
  {
    hide CreateAll, WithNode;
    if k == 0 {
      NothingCreated(BARE);
    } else {
      StartIs(k - 1);
      StartGrows(CreateAll(BARE, Initial()[..k - 1]), k - 1);
      CreateOneMore(BARE, Initial()[..k - 1], Initial()[k - 1]);
      assert Initial()[..k] == Initial()[..k - 1] + [Initial()[k - 1]];
      assert Initial()[k - 1].dir == 0;
    }
  }

  /** The tree at the start: the root with the three directories and the five files, in this order. */
  lemma TreeAtStart()
    ensures var ns := CreateAll(BARE, Initial());
            && |ns| == 9
            && ns[0].name == ROOT && ns[0].isDirectory && ns[0].parent == None && |ns[0].children| == 8
            && (forall k :: 0 <= k < 8 ==> ns[0].children[k] == k + 1)
            && ns[1] == Node(BIN, true, Some(0), []) && ns[2] == Node(HOME, true, Some(0), [])
            && ns[3] == Node(ETC, true, Some(0), []) && ns[4] == Node(WELCOME, false, Some(0), [])
            && ns[5] == Node(GRADIENT, false, Some(0), []) && ns[6] == Node(RAINBOW, false, Some(0), [])
            && ns[7] == Node(LOGO, false, Some(0), []) && ns[8] == Node(CHECKER, false, Some(0), [])
  {
    StartIs(8);
    assert Initial()[..8] == Initial();
    InitialIs();
    hide CreateAll, Initial, BIN, HOME, ETC, WELCOME, GRADIENT, RAINBOW, LOGO, CHECKER, ROOT;
    var ns := CreateAll(BARE, Initial());
    assert ns[0 + 1] == ns[1] && ns[1 + 1] == ns[2] && ns[2 + 1] == ns[3] && ns[3 + 1] == ns[4];
    assert ns[4 + 1] == ns[5] && ns[5 + 1] == ns[6] && ns[6 + 1] == ns[7] && ns[7 + 1] == ns[8];
  }

  /** A node's path does not change while other nodes are created. */
  lemma {:induction false} PathStays(ns: seq<Node>, ns': seq<Node>, i: nat)
    requires i < |ns| <= |ns'| && forall k: nat :: k < |ns| ==>
             ns'[k].name == ns[k].name && ns'[k].parent == ns[k].parent
    ensures PathOf(ns', i) == PathOf(ns, i) && (PlainPath(ns, i) <==> PlainPath(ns', i))
    decreases i
  {
    if ns[i].parent.Some? && ns[i].parent.value < i { PathStays(ns, ns', ns[i].parent.value); }
  }

  /** Over any sequence of creations the tree stays a tree, and every node keeps its index, its path and the lookup
      of that path. */
  lemma {:induction false} TreeOverRuns(ns: seq<Node>, cs: seq<Creation>, i: nat, cwd: nat)
    requires TreeOk(ns) && i < |ns| && PlainPath(ns, i)
    ensures var ns' := CreateAll(ns, cs);
            TreeOk(ns') && i < |ns'| && PathOf(ns', i) == PathOf(ns, i) && Resolve(ns', cwd, PathOf(ns, i)) == Some(i)
    decreases |cs|
  {
    hide TreeOk, Resolve, WithNode;
    if cs == [] {
      PathRoundTrip(ns, cwd, i);
    } else if cs[0].dir < |ns| {
      CreationKeepsTree(ns, cs[0].dir, cs[0].name, cs[0].isDirectory);
      var ns1 := WithNode(ns, cs[0].dir, cs[0].name, cs[0].isDirectory).0;
      PathStays(ns, ns1, i);
      TreeOverRuns(ns1, cs[1..], i, cwd);
    } else {
      TreeOverRuns(ns, cs[1..], i, cwd);
    }
  }

  // ---- the pool ----

  /** The path with the names on it cut off where the caller's buffer is full. */
  function Cut(path: seq<Byte>, size: nat): (r: seq<Byte>)
    requires size > 0
    ensures r <= path && |r| < size && (r == path || |r| == size - 1)
  {
    if |path| <= size - 1 then path else path[..size - 1]
  }

  /** The names of the nodes of `chain`, the last first, appended to a path. */
  function Climb(ns: seq<Node>, path: seq<Byte>, chain: seq<nat>): seq<Byte>
    requires forall k :: 0 <= k < |chain| ==> chain[k] < |ns|
    decreases |chain|
  {
    if chain == [] then path
    else Climb(ns, path + [SLASH] + ns[chain[|chain| - 1]].name, chain[..|chain| - 1])
  }

  lemma ClimbStep(ns: seq<Node>, path: seq<Byte>, chain: seq<nat>)
    requires chain != [] && forall k :: 0 <= k < |chain| ==> chain[k] < |ns|
    ensures Climb(ns, path, chain) == Climb(ns, path + [SLASH] + ns[chain[|chain| - 1]].name, chain[..|chain| - 1])
  {
  }

  lemma ClimbDone(ns: seq<Node>, path: seq<Byte>)
    ensures Climb(ns, path, []) == path
  {
  }

  /** `temp` is as good as `whole` for a buffer of that size. */
  ghost predicate CutShort(temp: seq<Byte>, whole: seq<Byte>, size: nat)
    requires size > 0
  {
    Cut(temp, size) == Cut(whole, size) && |temp| <= |whole| && (temp == whole || |temp| >= size - 1)
  }

  lemma CutGoesOn(temp: seq<Byte>, whole: seq<Byte>, name: seq<Byte>, size: nat)
    requires size > 0 && CutShort(temp, whole, size)
    ensures var t := temp + [SLASH]; var room := if |t| < size - 1 then size - 1 - |t| else 0;
            CutShort(t + name[..if |name| < room then |name| else room], whole + [SLASH] + name, size)
  {
    var t, w := temp + [SLASH], whole + [SLASH];
    var room := if |t| < size - 1 then size - 1 - |t| else 0;
    var part := name[..if |name| < room then |name| else room];
    if temp == whole {
      if |name| <= room { assert part == name; }
      else { assert (w + name)[..|w| + room] == w + name[..room]; }
    } else {
      assert (t + part)[..size - 1] == temp[..size - 1];
      assert (w + name)[..size - 1] == whole[..size - 1];
    }
  }

  class NodePool {
    var nodes: seq<Node>
    var cwd: nat

    ghost predicate Valid()
      reads this
    {
      TreeOk(nodes) && cwd < |nodes| && nodes[cwd].isDirectory
    }

    /** The root and what `fs_get_root` and `fs_create_sample_images` put below it. */
    constructor ()
      ensures Valid() && cwd == 0 && nodes == CreateAll(BARE, Initial())
    {
      nodes := BARE;
      cwd := 0;
      new;
      assert Lists(nodes, 0) && Hangs(nodes, 0);
      assert Initial()[..8] == Initial();
      hide CreateAll, TreeOk;
      NothingCreated(BARE);
      CreateNext(BIN, true, 0);
      CreateNext(HOME, true, 1);
      CreateNext(ETC, true, 2);
      CreateNext(WELCOME, false, 3);
      CreateNext(GRADIENT, false, 4);
      CreateNext(RAINBOW, false, 5);
      CreateNext(LOGO, false, 6);
      CreateNext(CHECKER, false, 7);
    }

    /** The next node below the root, number `k` of the initial ones. */
    method CreateNext(name: seq<Byte>, isDirectory: bool, ghost k: nat)
      requires k < |Initial()| && Initial()[k] == Creation(0, name, isDirectory)
      requires Valid() && nodes == CreateAll(BARE, Initial()[..k])
      modifies this`nodes
      ensures Valid() && nodes == CreateAll(BARE, Initial()[..k + 1])
    {
      hide WithNode;
      assert 0 < |nodes| by { TreeParts(nodes, cwd); }
      assert Initial()[..k + 1] == Initial()[..k] + [Initial()[k]];
      CreateOneMore(BARE, Initial()[..k], Initial()[k]);
      var made := Create(0, name, isDirectory);
    }

    /** `fs_find_node`. */
    method FindNode(dir: nat, name: seq<Byte>) returns (found: Option<nat>)
      requires Valid() && dir < |nodes|
      ensures found == Child(nodes, dir, name)
    {
      hide TreeOk;
      assert Lists(nodes, dir) by { TreeParts(nodes, dir); }
      if !nodes[dir].isDirectory { return None; }
      var i := 0;
      while i < |nodes[dir].children|
        invariant i <= |nodes[dir].children|
                  && FirstNamed(nodes, nodes[dir].children, i, name) == Child(nodes, dir, name)
      {
        var c := nodes[dir].children[i];
        assert c in nodes[dir].children;
        if nodes[c].name == name { return Some(c); }
        i := i + 1;
      }
      return None;
    }

    /** `fs_create_file` and `fs_create_directory`. */
    method Create(dir: nat, name: seq<Byte>, isDirectory: bool) returns (made: Option<nat>)
      requires Valid() && dir < |nodes|
      modifies this`nodes
      ensures Valid() && |nodes| >= |old(nodes)| && nodes[0] == old(nodes)[0].(children := nodes[0].children)
      ensures (nodes, made) == WithNode(old(nodes), dir, name, isDirectory)
    {
      hide TreeOk, Child;
      assert 1 <= |nodes| by { TreeParts(nodes, dir); }
      CreationKeepsTree(nodes, dir, name, isDirectory);
      if !nodes[dir].isDirectory || |nodes[dir].children| >= MAX_CHILDREN || |nodes| >= MAX_FILES { return None; }
      var found := FindNode(dir, name);
      if found.Some? { return None; }
      var node := |nodes|;
      nodes := nodes[dir := nodes[dir].(children := nodes[dir].children + [node])]
               + [Node(name, isDirectory, Some(dir), [])];
      return Some(node);
    }

    /** `fs_find_node_by_path`: it ends on every string. */
    method FindNodeByPath(path: seq<Byte>) returns (found: Option<nat>)
      requires Valid()
      ensures found == Resolve(nodes, cwd, path)
    {
      hide TreeOk, Walk, Descend, Child, Rest, Head;
      assert 1 <= |nodes| by { TreeParts(nodes, 0); }
      if path == [] { return None; }
      var current: nat := cwd;
      var p := path;
      if p[0] == SLASH {
        current, p := 0, p[1..];
      } else if p[0] == TILDE {
        current, p := 0, p[1..];
        if p != [] && p[0] == SLASH { p := p[1..]; }
      }
      assert Walk(nodes, current, p) == Resolve(nodes, cwd, path);
      while p != []
        invariant current < |nodes| && Walk(nodes, current, p) == Resolve(nodes, cwd, path)
        decreases |p|
      {
        WalkStep(nodes, current, p);
        var component, rest := NextComponent(p);
        p := rest;
        if component == UP {
          if nodes[current].parent.Some? { current := nodes[current].parent.value; }
        } else if component != HERE {
          var child := FindNode(current, component);
          if child.None? { return None; }
          current := child.value;
          if !nodes[current].isDirectory && p != [] { return None; }
        }
      }
      WalkEnds(nodes, current);
      return Some(current);
    }

    /** The two inner loops: copy a component, skip slashes. */
    method NextComponent(path: seq<Byte>) returns (component: seq<Byte>, rest: seq<Byte>)
      requires path != []
      ensures component == Head(path) && rest == Rest(path)
    {
      var i := 0;
      while i < |path| && path[i] != SLASH && i < MAX_COMPONENT
        invariant i <= |path| && i <= MAX_COMPONENT && ComponentEnd(path, i) == ComponentEnd(path, 0)
      {
        i := i + 1;
      }
      component := path[..i];
      ghost var e := i;
      while i < |path| && path[i] == SLASH
        invariant e <= i <= |path| && SkipSlashes(path, i) == SkipSlashes(path, e)
      {
        i := i + 1;
      }
      rest := path[i..];
    }

    /** `fs_get_path` into a buffer of `size` bytes: the path, cut off to fit, provided that the whole path fits
        the 260 bytes of the function's own buffer. */
    method GetPath(node: nat, size: nat) returns (out: seq<Byte>)
      requires Valid() && node < |nodes| && size >= 2 && |PathOf(nodes, node)| < MAX_PATH
      ensures out == Cut(PathOf(nodes, node), size)
    {
      hide TreeOk, PathOf, Climb;
      TreeParts(nodes, node);
      if node == 0 { return [TILDE]; }
      var chain := ClimbUp(node);
      out := ComeDown(chain, size);
    }

    /** The loop towards the root: the nodes passed, the lowest first. */
    method ClimbUp(node: nat) returns (chain: seq<nat>)
      requires Valid() && node < |nodes|
      ensures forall k :: 0 <= k < |chain| ==> chain[k] < |nodes|
      ensures PathOf(nodes, node) == Climb(nodes, [TILDE], chain)
    {
      hide TreeOk;
      chain := [];
      var current: nat := node;
      while current != 0
        invariant current < |nodes| && forall k :: 0 <= k < |chain| ==> chain[k] < |nodes|
        invariant PathOf(nodes, node) == Climb(nodes, PathOf(nodes, current), chain)
        decreases current
      {
        TreeParts(nodes, current);
        ghost var before := chain;
        chain := chain + [current];
        assert chain[..|chain| - 1] == before;
        current := nodes[current].parent.value;
      }
      TreeParts(nodes, 0);
    }

    /** The loop back that spells the names out. */
    method ComeDown(chain: seq<nat>, size: nat) returns (out: seq<Byte>)
      requires size >= 2 && forall k :: 0 <= k < |chain| ==> chain[k] < |nodes|
      ensures out == Cut(Climb(nodes, [TILDE], chain), size)
    {
      hide Climb;
      var temp: seq<Byte> := [TILDE];
      ghost var whole: seq<Byte> := [TILDE];
      assert chain[..|chain|] == chain;
      var i := |chain| - 1;
      while i >= 0
        invariant -1 <= i < |chain| && Climb(nodes, [TILDE], chain) == Climb(nodes, whole, chain[..i + 1])
        invariant CutShort(temp, whole, size)
      {
        var name := nodes[chain[i]].name;
        assert chain[..i + 1][..i] == chain[..i];
        ClimbStep(nodes, whole, chain[..i + 1]);
        CutGoesOn(temp, whole, name, size);
        temp := temp + [SLASH];
        var room := if |temp| < size - 1 then size - 1 - |temp| else 0;
        temp := temp + name[..if |name| < room then |name| else room];
        whole := whole + [SLASH] + name;
        i := i - 1;
      }
      ClimbDone(nodes, whole);
      return Cut(temp, size);
    }
  }
}
