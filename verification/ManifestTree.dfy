/** The filesystem tree a manifest is made from, the order in which its entries are visited, and
    why that order does not depend on how directories are listed. */
module ManifestTree {
  import opened Bytes
  import opened ManifestEntries

  type Name = Blob

  datatype Inode = Inode(device: U64, number: U64)

  datatype FileType = Regular | Directory | Symlink | CharDevice | BlockDevice | Fifo | Socket | Unknown

  /** What the kernel says about one entry; `None` and `false` are failing calls. Extended
      attributes come in the kernel's order. */
  datatype Meta = Meta(
    statOk: bool, fileType: FileType, mode: U32, uid: U32, gid: U32, size: U64, rdev: U64,
    mtimeSeconds: int, mtimeNanoseconds: int, inode: Inode, links: nat,
    target: Option<Blob>, content: Option<Sha>, xattrs: Option<seq<Xattr>>, listable: bool)

  datatype Node = Node(meta: Meta, children: map<Name, Node>)

  predicate IsDirectory(n: Node) {
    n.meta.fileType == Directory
  }

  /** The kernel never hands out a name with a slash in it. */
  ghost predicate WellNamed(n: Node) {
    forall name <- n.children :: SLASH !in name && WellNamed(n.children[name])
  }

  // ---------------------------------------------------------------------------------------
  // Sorted listings

  predicate Ascending(s: seq<Name>) {
    forall i, j :: 0 <= i < j < |s| ==> Less(s[i], s[j])
  }

  ghost predicate Lists(s: seq<Name>, keys: set<Name>) {
    forall n :: n in s <==> n in keys
  }

  /** A directory listing in any order: every name once. */
  ghost predicate Enumerates(s: seq<Name>, keys: set<Name>) {
    Lists(s, keys) && forall i, j :: 0 <= i < j < |s| ==> s[i] != s[j]
  }

  lemma HeadIsLeast(s: seq<Name>, n: Name)
    requires Ascending(s) && n in s
    ensures n == s[0] || Less(s[0], n)
  {
    var i :| 0 <= i < |s| && s[i] == n;
  }

  lemma EmptyLists(s: seq<Name>, keys: set<Name>)
    requires Lists(s, keys)
    ensures s == [] <==> keys == {}
  {
    if s != [] { assert s[0] in s; }
  }

  /** There is only one ascending listing. */
  lemma {:induction false} AscendingUnique(a: seq<Name>, b: seq<Name>, keys: set<Name>)
    requires Ascending(a) && Ascending(b) && Lists(a, keys) && Lists(b, keys)
    ensures a == b
    decreases |a|
  {
    EmptyLists(a, keys);
    EmptyLists(b, keys);
    if a != [] {
      assert a[0] in a && a[0] in b;
      assert b[0] in b && b[0] in a;
      HeadIsLeast(a, b[0]);
      HeadIsLeast(b, a[0]);
      if Less(a[0], b[0]) && Less(b[0], a[0]) {
        LessTransitive(a[0], b[0], a[0]);
        LessIrreflexive(a[0]);
      }
      TailLists(a, keys);
      TailLists(b, keys);
      AscendingUnique(a[1..], b[1..], keys - {a[0]});
      assert a == [a[0]] + a[1..] && b == [b[0]] + b[1..];
    }
  }

  lemma TailLists(s: seq<Name>, keys: set<Name>)
    requires s != [] && Ascending(s) && Lists(s, keys)
    ensures Ascending(s[1..]) && Lists(s[1..], keys - {s[0]})
  {
    LessIrreflexive(s[0]);
    forall n ensures n in s[1..] <==> n in keys - {s[0]} {
      if n in s[1..] {
        var i :| 0 <= i < |s[1..]| && s[1..][i] == n;
        assert s[i + 1] == n && Less(s[0], n) && n in s;
      }
      if n in keys - {s[0]} {
        assert n in s;
        var i :| 0 <= i < |s| && s[i] == n;
        assert s[1..][i - 1] == n;
      }
    }
  }

  function Insert(s: seq<Name>, n: Name): seq<Name> {
    if s == [] || Less(n, s[0]) then [n] + s else [s[0]] + Insert(s[1..], n)
  }

  lemma {:induction false} InsertKeeps(s: seq<Name>, n: Name)
    requires Ascending(s) && n !in s
    ensures Ascending(Insert(s, n)) && |Insert(s, n)| == |s| + 1
    ensures forall x :: x in Insert(s, n) <==> x == n || x in s
    ensures s != [] ==> Insert(s, n)[0] == n || Insert(s, n)[0] == s[0]
  {
    if s == [] {
    } else if Less(n, s[0]) {
      forall j | 0 <= j < |s| ensures Less(n, s[j]) {
        if j > 0 { LessTransitive(n, s[0], s[j]); }
      }
    } else {
      LessTotal(n, s[0]);
      assert s[0] in s;
      InsertKeeps(s[1..], n);
      var rest := Insert(s[1..], n);
      forall j | 0 <= j < |rest| ensures Less(s[0], rest[j]) {
        assert rest[j] in rest;
        if rest[j] != n {
          var k :| 0 <= k < |s[1..]| && s[1..][k] == rest[j];
        }
      }
      forall x ensures x in Insert(s, n) <==> x == n || x in s {
        assert s == [s[0]] + s[1..];
      }
    }
  }

  /** Sorts a listing by bytes, whatever order it came in. */
  method SortNames(names: seq<Name>, ghost keys: set<Name>) returns (sorted: seq<Name>)
    requires Enumerates(names, keys)
    ensures Ascending(sorted) && Lists(sorted, keys) && |sorted| == |names|
  {
    sorted := [];
    for i := 0 to |names|
      invariant Ascending(sorted) && |sorted| == i
      invariant forall x :: x in sorted <==> x in names[..i]
    {
      assert names[..i + 1] == names[..i] + [names[i]];
      InsertKeeps(sorted, names[i]);
      sorted := Insert(sorted, names[i]);
    }
    assert names[..|names|] == names;
  }

  ghost function Least(keys: set<Name>): (m: Name)
    requires keys != {}
    ensures m in keys && forall x <- keys :: x == m || Less(m, x)
  {
    var x :| x in keys;
    if keys == {x} then x
    else
      var m := Least(keys - {x});
      if Less(x, m) then
        assert forall y <- keys :: y == x || Less(x, y) by {
          forall y | y in keys && y != x && y != m ensures Less(x, y) { LessTransitive(x, m, y); }
        }
        x
      else
        assert x == m || Less(m, x) by { LessTotal(x, m); }
        m
  }

  /** The names of a directory in byte order. */
  ghost function Sorted(keys: set<Name>): (s: seq<Name>)
    ensures Ascending(s) && Lists(s, keys) && |s| == |keys|
  {
    if keys == {} then []
    else
      var m := Least(keys);
      var rest := Sorted(keys - {m});
      assert forall j :: 0 <= j < |rest| ==> rest[j] in rest;
      [m] + rest
  }

  lemma SortedUnique(s: seq<Name>, keys: set<Name>)
    requires Ascending(s) && Lists(s, keys)
    ensures s == Sorted(keys)
  {
    AscendingUnique(s, Sorted(keys), keys);
  }

  // ---------------------------------------------------------------------------------------
  // The visits

  type Path = seq<Name>

  datatype Visit = Visit(path: Path, node: Node)

  /** The entry, then its children's subtrees in byte order of their names. */
  ghost function Preorder(n: Node, path: Path): (vs: seq<Visit>)
    ensures vs != [] && vs[0] == Visit(path, n)
    decreases n, 1, 0
  {
    [Visit(path, n)] + (if IsDirectory(n) then Below(n, path, Sorted(n.children.Keys)) else [])
  }

  ghost function Below(n: Node, path: Path, names: seq<Name>): seq<Visit>
    requires forall i :: 0 <= i < |names| ==> names[i] in n.children
    decreases n, 0, |names|
  {
    if names == [] then []
    else Preorder(n.children[names[0]], path + [names[0]]) + Below(n, path, names[1..])
  }

  /** Component-wise byte order: a directory comes before what is in it. */
  predicate PathLess(a: Path, b: Path) {
    b != [] && (a == [] || Less(a[0], b[0]) || (a[0] == b[0] && PathLess(a[1..], b[1..])))
  }

  lemma {:induction false} PathLessIrreflexive(a: Path)
    ensures !PathLess(a, a)
  {
    if a != [] {
      LessIrreflexive(a[0]);
      PathLessIrreflexive(a[1..]);
    }
  }

  lemma {:induction false} PathLessAsymmetric(a: Path, b: Path)
    requires PathLess(a, b)
    ensures !PathLess(b, a)
  {
    if a != [] {
      if Less(a[0], b[0]) {
        if Less(b[0], a[0]) { LessTransitive(a[0], b[0], a[0]); }
        LessIrreflexive(a[0]);
      } else {
        LessIrreflexive(a[0]);
        PathLessAsymmetric(a[1..], b[1..]);
      }
    }
  }

  lemma {:induction false} PathLessExtend(a: Path, b: Path, prefix: Path)
    requires PathLess(a, b)
    ensures PathLess(prefix + a, prefix + b)
    decreases |prefix|
  {
    if prefix == [] {
      assert prefix + a == a && prefix + b == b;
    } else {
      PathLessExtend(a, b, prefix[1..]);
      assert (prefix + a)[1..] == prefix[1..] + a && (prefix + b)[1..] == prefix[1..] + b;
    }
  }

  ghost predicate Increasing(vs: seq<Visit>) {
    forall i, j :: 0 <= i < j < |vs| ==> PathLess(vs[i].path, vs[j].path)
  }

  /** All visits lie below `path`, through a child whose name is among `names`. */
  ghost predicate Through(vs: seq<Visit>, path: Path, names: seq<Name>) {
    forall i :: 0 <= i < |vs| ==> |vs[i].path| > |path| && vs[i].path[..|path|] == path && vs[i].path[|path|] in names
  }

  ghost predicate Under(vs: seq<Visit>, path: Path) {
    forall i :: 0 <= i < |vs| ==> |vs[i].path| >= |path| && vs[i].path[..|path|] == path
  }

  lemma SiblingsOrdered(a: Path, b: Path, path: Path)
    requires |a| > |path| && |b| > |path| && a[..|path|] == path == b[..|path|] && Less(a[|path|], b[|path|])
    ensures PathLess(a, b)
  {
    var x, y := a[|path|..], b[|path|..];
    assert a == path + x && b == path + y;
    PathLessExtend(x, y, path);
  }

  lemma {:induction false} PreorderIncreases(n: Node, path: Path)
    ensures Increasing(Preorder(n, path)) && Under(Preorder(n, path), path)
    decreases n, 1, 0
  {
    if IsDirectory(n) {
      var names := Sorted(n.children.Keys);
      BelowIncreases(n, path, names);
      var rest := Below(n, path, names);
      forall j | 0 <= j < |rest| ensures PathLess(path, rest[j].path) {
        PrefixFirst(path, rest[j].path);
      }
    }
  }

  lemma PrefixFirst(path: Path, longer: Path)
    requires |longer| > |path| && longer[..|path|] == path
    ensures PathLess(path, longer)
  {
    assert longer == path + longer[|path|..] && path + [] == path;
    PathLessExtend([], longer[|path|..], path);
  }

  lemma {:induction false} BelowIncreases(n: Node, path: Path, names: seq<Name>)
    requires Ascending(names) && forall i :: 0 <= i < |names| ==> names[i] in n.children
    ensures Increasing(Below(n, path, names)) && Through(Below(n, path, names), path, names)
    decreases n, 0, |names|
  {
    if names != [] {
      var first := Preorder(n.children[names[0]], path + [names[0]]);
      var rest := Below(n, path, names[1..]);
      PreorderIncreases(n.children[names[0]], path + [names[0]]);
      BelowIncreases(n, path, names[1..]);
      FirstThrough(first, path, names[0]);
      JoinIncreasing(first, rest, path, names);
    }
  }

  lemma FirstThrough(vs: seq<Visit>, path: Path, name: Name)
    requires Under(vs, path + [name])
    ensures Through(vs, path, [name])
  {
    forall i | 0 <= i < |vs| ensures |vs[i].path| > |path| && vs[i].path[..|path|] == path
        && vs[i].path[|path|] == name {
      var p := vs[i].path;
      assert p[..|path| + 1] == path + [name];
      assert p[..|path|] == p[..|path| + 1][..|path|] && p[|path|] == p[..|path| + 1][|path|];
    }
  }

  lemma JoinIncreasing(first: seq<Visit>, rest: seq<Visit>, path: Path, names: seq<Name>)
    requires names != [] && Ascending(names)
    requires Increasing(first) && Through(first, path, [names[0]])
    requires Increasing(rest) && Through(rest, path, names[1..])
    ensures Increasing(first + rest) && Through(first + rest, path, names)
  {
    forall i, j | 0 <= i < |first| && 0 <= j < |rest| ensures PathLess(first[i].path, rest[j].path) {
      var name := rest[j].path[|path|];
      var k :| 0 <= k < |names[1..]| && names[1..][k] == name;
      assert Less(names[0], names[k + 1]);
      SiblingsOrdered(first[i].path, rest[j].path, path);
    }
  }

  // ---------------------------------------------------------------------------------------
  // Every entry is visited once

  /** The entry a path leads to. */
  ghost function Lookup(n: Node, path: Path): Option<Node>
    decreases |path|
  {
    if path == [] then Some(n)
    else if IsDirectory(n) && path[0] in n.children then Lookup(n.children[path[0]], path[1..])
    else None
  }

  lemma {:induction false} BelowHas(n: Node, path: Path, names: seq<Name>, name: Name, v: Visit)
    requires forall i :: 0 <= i < |names| ==> names[i] in n.children
    requires name in names && v in Preorder(n.children[name], path + [name])
    ensures v in Below(n, path, names)
    decreases |names|
  {
    if name != names[0] {
      BelowHas(n, path, names[1..], name, v);
    }
  }

  lemma {:induction false} EntriesAreVisited(n: Node, path: Path, rest: Path)
    requires Lookup(n, rest).Some?
    ensures Visit(path + rest, Lookup(n, rest).value) in Preorder(n, path)
    decreases |rest|
  {
    if rest == [] {
      assert path + rest == path;
    } else {
      var name := rest[0];
      assert path + [name] + rest[1..] == path + rest;
      EntriesAreVisited(n.children[name], path + [name], rest[1..]);
      BelowHas(n, path, Sorted(n.children.Keys), name, Visit(path + rest, Lookup(n, rest).value));
    }
  }

  /** A visit is an entry of the tree, at the path it names. */
  ghost predicate Belongs(v: Visit, n: Node, path: Path) {
    |v.path| >= |path| && v.path[..|path|] == path && Lookup(n, v.path[|path|..]) == Some(v.node)
  }

  lemma {:induction false} VisitsAreEntries(n: Node, path: Path, v: Visit)
    requires v in Preorder(n, path)
    ensures Belongs(v, n, path)
    decreases n, 1, 0
  {
    if v != Visit(path, n) {
      VisitsBelow(n, path, Sorted(n.children.Keys), v);
    }
  }

  lemma {:induction false} VisitsBelow(n: Node, path: Path, names: seq<Name>, v: Visit)
    requires IsDirectory(n) && forall i :: 0 <= i < |names| ==> names[i] in n.children
    requires v in Below(n, path, names)
    ensures Belongs(v, n, path)
    decreases n, 0, |names|
  {
    var name := names[0];
    if v in Preorder(n.children[name], path + [name]) {
      VisitsAreEntries(n.children[name], path + [name], v);
      StepUp(n, path, name, v);
    } else {
      VisitsBelow(n, path, names[1..], v);
    }
  }

  lemma StepUp(n: Node, path: Path, name: Name, v: Visit)
    requires IsDirectory(n) && name in n.children && Belongs(v, n.children[name], path + [name])
    ensures Belongs(v, n, path)
  {
    var p := v.path;
    assert p[..|path|] == p[..|path| + 1][..|path|];
    var rest := p[|path|..];
    assert rest[0] == p[..|path| + 1][|path|] && rest[1..] == p[|path| + 1..];
  }

  function Parent(path: Path): Path
    requires path != []
  {
    path[..|path| - 1]
  }

  lemma ParentIsLess(path: Path)
    requires path != []
    ensures PathLess(Parent(path), path)
  {
    var last := [path[|path| - 1]];
    assert Parent(path) + [] == Parent(path) && Parent(path) + last == path;
    PathLessExtend([], last, Parent(path));
  }

  /** Whatever is an entry of the tree lies in a directory of the tree. */
  lemma {:induction false} ParentIsADirectory(n: Node, path: Path)
    requires path != [] && Lookup(n, path).Some?
    ensures Lookup(n, Parent(path)).Some? && IsDirectory(Lookup(n, Parent(path)).value)
    decreases |path|
  {
    if |path| > 1 {
      ParentIsADirectory(n.children[path[0]], path[1..]);
      assert Parent(path)[1..] == Parent(path[1..]) && Parent(path)[0] == path[0];
    }
  }

  /** The entry at `path` is the entry of visit `i`, and of no other visit. */
  ghost predicate VisitedAt(vs: seq<Visit>, path: Path, i: nat) {
    i < |vs| && vs[i].path == path && forall j: nat :: j < |vs| && vs[j].path == path ==> j == i
  }

  /** Each path is visited once. */
  ghost predicate Once(vs: seq<Visit>) {
    forall i: nat :: i < |vs| ==> VisitedAt(vs, vs[i].path, i)
  }

  /** Before every visit below the root there is one of the directory it lies in. */
  ghost predicate ParentsFirst(vs: seq<Visit>) {
    forall j: nat :: j < |vs| && vs[j].path != [] ==>
      exists i: nat :: i < j && vs[i].path == Parent(vs[j].path) && IsDirectory(vs[i].node)
  }

  lemma IncreasingVisitsOnce(vs: seq<Visit>)
    requires Increasing(vs)
    ensures Once(vs)
  {
    forall i: nat, j: nat | i < |vs| && j < |vs| && vs[j].path == vs[i].path ensures j == i {
      PathLessIrreflexive(vs[i].path);
    }
  }

  lemma ParentIsVisited(root: Node, j: nat) returns (i: nat)
    requires j < |Preorder(root, [])| && Preorder(root, [])[j].path != []
    ensures i < j && Preorder(root, [])[i].path == Parent(Preorder(root, [])[j].path)
    ensures IsDirectory(Preorder(root, [])[i].node)
  {
    var vs := Preorder(root, []);
    var path := vs[j].path;
    EntryIsVisited(root, vs[j]);
    ParentIsADirectory(root, path);
    var parent := Visit(Parent(path), Lookup(root, Parent(path)).value);
    EntryIsVisited(root, parent);
    i :| 0 <= i < |vs| && vs[i] == parent;
    ParentIsLess(path);
    PreorderIncreases(root, []);
    PathLessIrreflexive(path);
    if j < i {
      PathLessAsymmetric(Parent(path), path);
    }
  }

  /** The visits from the root are exactly the entries of the tree. */
  lemma EntryIsVisited(root: Node, v: Visit)
    ensures v in Preorder(root, []) <==> Lookup(root, v.path) == Some(v.node)
  {
    assert [] + v.path == v.path && v.path[0..] == v.path;
    if v in Preorder(root, []) {
      VisitsAreEntries(root, [], v);
    }
    if Lookup(root, v.path) == Some(v.node) {
      EntriesAreVisited(root, [], v.path);
    }
  }

  /** The walk visits every entry of the tree and nothing else, each once, in strictly
      increasing order, and every entry after the directory it lies in. */
  lemma VisitsAreTheTree(root: Node, v: Visit)
    ensures v in Preorder(root, []) <==> Lookup(root, v.path) == Some(v.node)
    ensures Increasing(Preorder(root, [])) && Once(Preorder(root, [])) && ParentsFirst(Preorder(root, []))
  {
    var vs := Preorder(root, []);
    EntryIsVisited(root, v);
    PreorderIncreases(root, []);
    IncreasingVisitsOnce(vs);
    forall j: nat | j < |vs| && vs[j].path != []
      ensures exists i: nat :: i < j && vs[i].path == Parent(vs[j].path) && IsDirectory(vs[i].node)
    {
      var i := ParentIsVisited(root, j);
    }
  }

  // ---------------------------------------------------------------------------------------
  // There is room for a directory's children

  lemma {:induction false} BelowIsLong(n: Node, path: Path, names: seq<Name>)
    requires forall i :: 0 <= i < |names| ==> names[i] in n.children
    ensures |Below(n, path, names)| >= |names|
    decreases |names|
  {
    if names != [] {
      BelowIsLong(n, path, names[1..]);
    }
  }

  /** After a directory's entry come at least as many entries as it has children. */
  lemma {:induction false} ChildrenFollow(n: Node, path: Path, i: nat)
    requires i < |Preorder(n, path)| && IsDirectory(Preorder(n, path)[i].node)
    ensures i + 1 + |Preorder(n, path)[i].node.children| <= |Preorder(n, path)|
    decreases n, 1, 0
  {
    var names := Sorted(n.children.Keys);
    if IsDirectory(n) {
      BelowIsLong(n, path, names);
      if i > 0 {
        ChildrenFollowBelow(n, path, names, i - 1);
      }
    }
  }

  lemma {:induction false} ChildrenFollowBelow(n: Node, path: Path, names: seq<Name>, i: nat)
    requires forall k :: 0 <= k < |names| ==> names[k] in n.children
    requires i < |Below(n, path, names)| && IsDirectory(Below(n, path, names)[i].node)
    ensures i + 1 + |Below(n, path, names)[i].node.children| <= |Below(n, path, names)|
    decreases n, 0, |names|
  {
    var first := Preorder(n.children[names[0]], path + [names[0]]);
    if i < |first| {
      ChildrenFollow(n.children[names[0]], path + [names[0]], i);
    } else {
      ChildrenFollowBelow(n, path, names[1..], i - |first|);
    }
  }
}
