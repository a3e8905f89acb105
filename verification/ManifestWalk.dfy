/** What the manifest walk does at each entry, and what a whole walk amounts to: the entries of
    the tree in order, hardlinks named after the first path of their inode, and every limit met. */
module ManifestWalk {
  import opened Bytes
  import opened ManifestEntries
  import opened ManifestTree
  import opened ManifestPacking
  import opened Sums

  // ---------------------------------------------------------------------------------------
  // One entry

  function Child(relative: Blob, name: Name): Blob {
    if relative == [] then name else relative + [SLASH] + name
  }

  /** The path text of an entry. */
  function Relative(path: Path): Blob {
    if path == [] then [] else Child(Relative(path[..|path| - 1]), path[|path| - 1])
  }

  /** It is the names of the path, joined by slashes. */
  lemma {:induction false} RelativeIsJoined(path: Path)
    requires forall i :: 0 <= i < |path| ==> path[i] != []
    ensures Relative(path) == Joined(path) && (path != [] ==> Relative(path) != [])
  {
    if |path| > 1 {
      var n := |path| - 1;
      RelativeIsJoined(path[..n]);
      JoinedSnoc(path[..n], path[n]);
      assert path[..n] + [path[n]] == path;
    }
  }

  lemma {:induction false} JoinedSnoc(parts: seq<Blob>, last: Blob)
    requires parts != []
    ensures Joined(parts + [last]) == Joined(parts) + [SLASH] + last
    decreases |parts|
  {
    assert (parts + [last])[1..] == parts[1..] + [last];
    if |parts| > 1 {
      JoinedSnoc(parts[1..], last);
      assert parts[0] + [SLASH] + (Joined(parts[1..]) + [SLASH] + last) ==
             parts[0] + [SLASH] + Joined(parts[1..]) + [SLASH] + last;
    }
  }

  function KindOf(t: FileType): Option<Byte> {
    match t
    case Regular => Some(1)
    case Directory => Some(2)
    case Symlink => Some(3)
    case CharDevice => Some(4)
    case BlockDevice => Some(5)
    case Fifo => Some(6)
    case Socket => Some(7)
    case Unknown => None
  }

  predicate MultiLink(n: Node) {
    n.meta.fileType == Regular && n.meta.links > 1
  }

  /** Length of the kernel's name list: every name is followed by a zero byte. */
  function NameListBytes(xs: seq<Xattr>): nat {
    if xs == [] then 0 else NameListBytes(xs[..|xs| - 1]) + |xs[|xs| - 1].name| + 1
  }

  function NameListCap(l: Limits): nat {
    if l.maxXattrsPerEntry * 256 <= l.maxXattrBytesPerEntry then l.maxXattrsPerEntry * 256 else l.maxXattrBytesPerEntry
  }

  predicate XattrListOk(l: Limits, xs: seq<Xattr>) {
    && NameListBytes(xs) <= NameListCap(l)
    && (forall i :: 0 <= i < |xs| ==> xs[i].name != [])
    && |xs| <= l.maxXattrsPerEntry && XattrBytes(xs) <= l.maxXattrBytesPerEntry
  }

  /** Insertion after all names that are not greater. */
  function InsertXattr(s: seq<Xattr>, x: Xattr): seq<Xattr> {
    if s == [] || Less(x.name, s[0].name) then [x] + s else [s[0]] + InsertXattr(s[1..], x)
  }

  function SortXattrs(xs: seq<Xattr>): seq<Xattr> {
    if xs == [] then [] else InsertXattr(SortXattrs(xs[..|xs| - 1]), xs[|xs| - 1])
  }

  function Evidence(n: Node, link: Option<Blob>): Option<(Option<Blob>, Option<Blob>)> {
    if n.meta.fileType != Regular then Some((None, None))
    else if MultiLink(n) && link.Some? then Some((None, link))
    else match n.meta.content case None => None case Some(sha) => Some((Some(sha), None))
  }

  function DeviceNumber(m: Meta): U64 {
    if m.fileType == CharDevice || m.fileType == BlockDevice then m.rdev else 0
  }

  /** The entry of a node; `link` is the first path of its inode, if that was seen before. */
  function EntryOf(l: Limits, n: Node, relative: Blob, link: Option<Blob>): Option<Entry> {
    var m := n.meta;
    if !m.statOk || KindOf(m.fileType).None? || (m.fileType == Symlink && m.target.None?)
        || Evidence(n, link).None? then None
    else if !(0 <= m.mtimeNanoseconds < 0x1_0000_0000) || m.xattrs.None? || !XattrListOk(l, m.xattrs.value) then None
    else
      var (content, hardlink) := Evidence(n, link).value;
      var target := if m.fileType == Symlink then m.target else None;
      var e := Entry(relative, KindOf(m.fileType).value, m.mode % 4096, m.uid, m.gid, m.size, DeviceNumber(m),
                     m.mtimeSeconds, m.mtimeNanoseconds, target, content, hardlink, SortXattrs(m.xattrs.value));
      if EntryOk(e) then Some(e) else None
  }

  predicate NameOk(n: Name) {
    n != [] && 0 !in n && n != [46] && n != [46, 46]
  }

  function Length(n: Name): nat { |n| }

  ghost predicate DirectoryOk(l: Limits, n: Node) {
    && n.meta.listable
    && (forall name <- n.children :: NameOk(name))
    && Sum(Length, Sorted(n.children.Keys)) <= l.maxDirectoryNameBytes
    && |n.children| <= l.maxDirectoryEntries
  }

  type Links = map<Inode, Blob>

  function LinkFor(links: Links, n: Node): Option<Blob> {
    if MultiLink(n) && n.meta.inode in links then Some(links[n.meta.inode]) else None
  }

  function Sized(l: Limits, b: Option<Blob>): Option<Piece> {
    if b.Some? && 1 <= |b.value| <= l.maxEntryBytes && |b.value| <= MAX_ENTRY_BYTES then Some(b.value) else None
  }

  /** The encoded entry of a visit that may be part of a manifest. */
  ghost function Admit(c: Codec, l: Limits, links: Links, v: Visit): Option<Piece> {
    if |v.path| > l.maxDepth || |Relative(v.path)| > l.maxPathBytes then None
    else if IsDirectory(v.node) && !DirectoryOk(l, v.node) then None
    else match EntryOf(l, v.node, Relative(v.path), LinkFor(links, v.node))
      case None => None
      case Some(e) => Sized(l, EncodeEntry(c, e))
  }

  predicate Meet(links: Links, v: Visit) { true }

  /** `admit` is the verdict on visits; it is looked up only where `Meet` is mentioned. */
  ghost predicate Admits(c: Codec, l: Limits, admit: (Links, Visit) -> Option<Piece>) {
    forall links, v {:trigger Meet(links, v)} :: Meet(links, v) ==> admit(links, v) == Admit(c, l, links, v)
  }

  ghost function AdmitOf(c: Codec, l: Limits): (Links, Visit) -> Option<Piece> {
    (links: Links, v: Visit) => Admit(c, l, links, v)
  }

  // ---------------------------------------------------------------------------------------
  // The walk

  datatype Walk = Walk(links: Links, linkBytes: nat, pk: Packer)

  function NewWalk(): Walk {
    Walk(map[], 0, NewPacker())
  }

  predicate Fresh(links: Links, n: Node) {
    MultiLink(n) && n.meta.inode !in links
  }

  function Remember(links: Links, v: Visit): Links {
    if Fresh(links, v.node) then links[v.node.meta.inode := Relative(v.path)] else links
  }

  function Remembered(links: Links, v: Visit): nat {
    if Fresh(links, v.node) then |Relative(v.path)| else 0
  }

  /** The tables for hardlinks stay within their limits after this visit. */
  predicate LinksFit(l: Limits, links: Links, linkBytes: nat) {
    |links| <= l.maxHardlinkGroups && linkBytes <= l.maxHardlinkPathBytes
  }

  /** A directory is refused as soon as its children alone would exceed the total. */
  predicate RoomFor(l: Limits, entries: nat, n: Node) {
    IsDirectory(n) ==> entries + |n.children| <= l.maxEntries
  }

  ghost function Step(admit: (Links, Visit) -> Option<Piece>, l: Limits, id: string, s: Walk, v: Visit): Option<Walk> {
    if admit(s.links, v).None? then None
    else if !LinksFit(l, Remember(s.links, v), s.linkBytes + Remembered(s.links, v)) then None
    else match Push(l, id, s.pk, admit(s.links, v).value)
      case None => None
      case Some(pk) =>
        if RoomFor(l, pk.entries, v.node)
            then Some(Walk(Remember(s.links, v), s.linkBytes + Remembered(s.links, v), pk)) else None
  }

  ghost function WalkAll(admit: (Links, Visit) -> Option<Piece>, l: Limits, id: string, s: Walk,
                         vs: seq<Visit>): Option<Walk>
    decreases |vs|
  {
    if vs == [] then Some(s)
    else if Step(admit, l, id, s, vs[0]).None? then None
    else WalkAll(admit, l, id, Step(admit, l, id, s, vs[0]).value, vs[1..])
  }

  lemma {:induction false} WalkAppend(admit: (Links, Visit) -> Option<Piece>, l: Limits, id: string, s: Walk,
                                      a: seq<Visit>, b: seq<Visit>)
    ensures WalkAll(admit, l, id, s, a + b) ==
            if WalkAll(admit, l, id, s, a).None?
                then None else WalkAll(admit, l, id, WalkAll(admit, l, id, s, a).value, b)
    decreases |a|
  {
    if a == [] {
      assert a + b == b;
    } else {
      assert (a + b)[1..] == a[1..] + b;
      if Step(admit, l, id, s, a[0]).Some? {
        WalkAppend(admit, l, id, Step(admit, l, id, s, a[0]).value, a[1..], b);
      }
    }
  }

  lemma WalkOne(admit: (Links, Visit) -> Option<Piece>, l: Limits, id: string, s: Walk, v: Visit)
    ensures WalkAll(admit, l, id, s, [v]) == Step(admit, l, id, s, v)
  {
    assert [v][1..] == [];
  }

  // ---------------------------------------------------------------------------------------
  // What a walk amounts to

  /** The first path of every inode with several links, after these visits. */
  ghost function LinksOf(vs: seq<Visit>): Links {
    if vs == [] then map[] else Remember(LinksOf(vs[..|vs| - 1]), vs[|vs| - 1])
  }

  /** The summed lengths of those paths. */
  ghost function LinkBytes(vs: seq<Visit>): nat {
    if vs == [] then 0 else LinkBytes(vs[..|vs| - 1]) + Remembered(LinksOf(vs[..|vs| - 1]), vs[|vs| - 1])
  }

  /** The encoded entries of all visits, if each of them may be part of a manifest. */
  ghost function PiecesOf(admit: (Links, Visit) -> Option<Piece>, vs: seq<Visit>): (r: Option<seq<Piece>>)
    ensures r.Some? ==> |r.value| == |vs|
  {
    if vs == [] then Some([])
    else
      var front, v := vs[..|vs| - 1], vs[|vs| - 1];
      if PiecesOf(admit, front).None? || admit(LinksOf(front), v).None? then None
      else Some(PiecesOf(admit, front).value + [admit(LinksOf(front), v).value])
  }

  ghost predicate AllRoom(l: Limits, vs: seq<Visit>) {
    forall i :: 0 <= i < |vs| ==> RoomFor(l, i + 1, vs[i].node)
  }

  lemma {:induction false} PushAllCounts(l: Limits, id: string, ps: seq<Piece>)
    requires PushAll(l, id, ps).Some?
    ensures PushAll(l, id, ps).value.entries == |ps|
  {
    if ps != [] {
      PushAllCounts(l, id, ps[..|ps| - 1]);
    }
  }

  lemma LinksGrow(l: Limits, links: Links, v: Visit, linkBytes: nat)
    requires LinksFit(l, Remember(links, v), linkBytes + Remembered(links, v))
    ensures LinksFit(l, links, linkBytes)
  {
    if Fresh(links, v.node) {
      assert Remember(links, v).Keys == links.Keys + {v.node.meta.inode};
    }
  }

  /** The conditions under which a walk goes through, apart from the final flush. */
  ghost predicate Walkable(admit: (Links, Visit) -> Option<Piece>, l: Limits, id: string, vs: seq<Visit>) {
    && PiecesOf(admit, vs).Some?
    && LinksFit(l, LinksOf(vs), LinkBytes(vs))
    && AllRoom(l, vs)
    && PushAll(l, id, PiecesOf(admit, vs).value).Some?
  }

  ghost function WalkResult(admit: (Links, Visit) -> Option<Piece>, l: Limits, id: string, vs: seq<Visit>): Walk
    requires Walkable(admit, l, id, vs)
  {
    Walk(LinksOf(vs), LinkBytes(vs), PushAll(l, id, PiecesOf(admit, vs).value).value)
  }

  lemma AllRoomSnoc(l: Limits, front: seq<Visit>, v: Visit)
    ensures AllRoom(l, front + [v]) <==> AllRoom(l, front) && RoomFor(l, |front| + 1, v.node)
  {
    var vs := front + [v];
    assert forall i :: 0 <= i < |front| ==> vs[i] == front[i];
    assert vs[|front|] == v;
  }

  /** One more visit, seen from the tables of a list. */
  lemma TablesSnoc(admit: (Links, Visit) -> Option<Piece>, front: seq<Visit>, v: Visit)
    ensures LinksOf(front + [v]) == Remember(LinksOf(front), v)
    ensures LinkBytes(front + [v]) == LinkBytes(front) + Remembered(LinksOf(front), v)
    ensures PiecesOf(admit, front + [v]) ==
            if PiecesOf(admit, front).None? || admit(LinksOf(front), v).None? then None
            else Some(PiecesOf(admit, front).value + [admit(LinksOf(front), v).value])
  {
    var vs := front + [v];
    assert vs[..|front|] == front && vs[|front|] == v;
  }

  lemma PushSnoc(l: Limits, id: string, ps: seq<Piece>, piece: Piece)
    ensures PushAll(l, id, ps + [piece]) ==
            if PushAll(l, id, ps).None? then None else Push(l, id, PushAll(l, id, ps).value, piece)
  {
    assert (ps + [piece])[..|ps|] == ps;
  }

  lemma WalkableFront(admit: (Links, Visit) -> Option<Piece>, l: Limits, id: string, front: seq<Visit>, v: Visit)
    requires Walkable(admit, l, id, front + [v])
    ensures Walkable(admit, l, id, front)
  {
    TablesSnoc(admit, front, v);
    AllRoomSnoc(l, front, v);
    LinksGrow(l, LinksOf(front), v, LinkBytes(front));
    PushSnoc(l, id, PiecesOf(admit, front).value, admit(LinksOf(front), v).value);
  }

  lemma WalkableStep(admit: (Links, Visit) -> Option<Piece>, l: Limits, id: string, front: seq<Visit>, v: Visit)
    requires Walkable(admit, l, id, front)
    ensures var step := Step(admit, l, id, WalkResult(admit, l, id, front), v);
            && (Walkable(admit, l, id, front + [v]) <==> step.Some?)
            && (step.Some? ==> WalkResult(admit, l, id, front + [v]) == step.value)
  {
    TablesSnoc(admit, front, v);
    AllRoomSnoc(l, front, v);
    if admit(LinksOf(front), v).Some? {
      var ps, piece := PiecesOf(admit, front).value, admit(LinksOf(front), v).value;
      PushSnoc(l, id, ps, piece);
      if PushAll(l, id, ps + [piece]).Some? {
        PushAllCounts(l, id, ps + [piece]);
      }
    }
  }

  /** One more visit, seen from the whole list. */
  lemma WalkableSnoc(admit: (Links, Visit) -> Option<Piece>, l: Limits, id: string, front: seq<Visit>, v: Visit)
    ensures Walkable(admit, l, id, front + [v]) <==>
              Walkable(admit, l, id, front) && Step(admit, l, id, WalkResult(admit, l, id, front), v).Some?
    ensures Walkable(admit, l, id, front + [v]) ==>
              WalkResult(admit, l, id, front + [v]) == Step(admit, l, id, WalkResult(admit, l, id, front), v).value
  {
    if Walkable(admit, l, id, front) {
      WalkableStep(admit, l, id, front, v);
    } else if Walkable(admit, l, id, front + [v]) {
      WalkableFront(admit, l, id, front, v);
    }
  }

  /** A walk over a list of visits succeeds exactly on walkable lists, and ends in the state the
      list determines. */
  lemma {:induction false} WalkIsExact(admit: (Links, Visit) -> Option<Piece>, l: Limits, id: string, vs: seq<Visit>)
    ensures WalkAll(admit, l, id, NewWalk(), vs).Some? <==> Walkable(admit, l, id, vs)
    ensures Walkable(admit, l, id, vs) ==> WalkAll(admit, l, id, NewWalk(), vs).value == WalkResult(admit, l, id, vs)
    decreases |vs|
  {
    if vs != [] {
      var front, v := vs[..|vs| - 1], vs[|vs| - 1];
      assert vs == front + [v];
      WalkIsExact(admit, l, id, front);
      WalkAppend(admit, l, id, NewWalk(), front, [v]);
      WalkableSnoc(admit, l, id, front, v);
      if Walkable(admit, l, id, front) {
        WalkOne(admit, l, id, WalkResult(admit, l, id, front), v);
      }
    }
  }

  // ---------------------------------------------------------------------------------------
  // Hardlinks

  /** `j` is the first of these visits whose inode has several links and is this one. */
  ghost predicate FirstLink(vs: seq<Visit>, inode: Inode, j: nat) {
    && j < |vs| && MultiLink(vs[j].node) && vs[j].node.meta.inode == inode
    && forall k :: 0 <= k < j ==> !(MultiLink(vs[k].node) && vs[k].node.meta.inode == inode)
  }

  /** The table names, for each inode seen with several links, the path of its first visit. */
  lemma {:induction false} LinksNameTheFirstPath(vs: seq<Visit>, inode: Inode, j: nat)
    requires FirstLink(vs, inode, j)
    ensures inode in LinksOf(vs) && LinksOf(vs)[inode] == Relative(vs[j].path)
  {
    var n := |vs| - 1;
    var front := vs[..n];
    if j < n {
      assert FirstLink(front, inode, j);
      LinksNameTheFirstPath(front, inode, j);
    } else {
      NoLinkYet(front, inode);
    }
  }

  lemma {:induction false} NoLinkYet(vs: seq<Visit>, inode: Inode)
    requires forall k :: 0 <= k < |vs| ==> !(MultiLink(vs[k].node) && vs[k].node.meta.inode == inode)
    ensures inode !in LinksOf(vs)
  {
    if vs != [] {
      NoLinkYet(vs[..|vs| - 1], inode);
    }
  }

  ghost function MultiInodes(vs: seq<Visit>): set<Inode> {
    set i | 0 <= i < |vs| && MultiLink(vs[i].node) :: vs[i].node.meta.inode
  }

  /** One group for each distinct inode with several links, none for anything else. */
  lemma {:induction false} GroupsAreTheInodes(vs: seq<Visit>)
    ensures LinksOf(vs).Keys == MultiInodes(vs) && |LinksOf(vs)| == |MultiInodes(vs)|
  {
    if vs != [] {
      var n := |vs| - 1;
      var front, v := vs[..n], vs[n];
      GroupsAreTheInodes(front);
      forall x ensures x in MultiInodes(vs) <==>
          x in MultiInodes(front) || (MultiLink(v.node) && x == v.node.meta.inode) {
        if x in MultiInodes(vs) {
          var i :| 0 <= i < |vs| && MultiLink(vs[i].node) && vs[i].node.meta.inode == x;
          if i < n { assert front[i] == vs[i]; }
        }
        if x in MultiInodes(front) {
          var i :| 0 <= i < |front| && MultiLink(front[i].node) && front[i].node.meta.inode == x;
          assert vs[i] == front[i];
        }
        if MultiLink(v.node) && x == v.node.meta.inode { assert vs[n] == v; }
      }
      assert LinksOf(vs).Keys == MultiInodes(vs);
    }
  }

  /** The summed path lengths are those of the paths in the table. */
  lemma {:induction false} LinkBytesAreThePaths(vs: seq<Visit>)
    ensures LinkBytes(vs) == PathTotal(LinksOf(vs))
  {
    if vs != [] {
      var front, v := vs[..|vs| - 1], vs[|vs| - 1];
      LinkBytesAreThePaths(front);
      if Fresh(LinksOf(front), v.node) {
        PathTotalGrows(LinksOf(front), v.node.meta.inode, Relative(v.path));
      }
    }
  }

  ghost function PathTotal(links: Links): nat {
    if links == map[] then 0
    else
      var k :| k in links;
      |links[k]| + PathTotal(links - {k})
  }

  lemma {:induction false} PathTotalAny(links: Links, k: Inode)
    requires k in links
    ensures PathTotal(links) == |links[k]| + PathTotal(links - {k})
    decreases |links|
  {
    var j :| j in links && PathTotal(links) == |links[j]| + PathTotal(links - {j});
    if j != k {
      PathTotalAny(links - {j}, k);
      PathTotalAny(links - {k}, j);
      assert links - {j} - {k} == links - {k} - {j};
    }
  }

  lemma PathTotalGrows(links: Links, k: Inode, path: Blob)
    requires k !in links
    ensures PathTotal(links[k := path]) == PathTotal(links) + |path|
  {
    PathTotalAny(links[k := path], k);
    assert links[k := path] - {k} == links;
  }

  // ---------------------------------------------------------------------------------------
  // Sorted attributes

  ghost predicate NotGreater(a: Xattr, b: Xattr) {
    !Less(b.name, a.name)
  }

  ghost predicate InOrder(s: seq<Xattr>) {
    forall i :: 0 < i < |s| ==> NotGreater(s[i - 1], s[i])
  }

  lemma {:induction false} InsertXattrKeeps(s: seq<Xattr>, x: Xattr)
    ensures multiset(InsertXattr(s, x)) == multiset(s) + multiset{x} && |InsertXattr(s, x)| == |s| + 1
    ensures InOrder(s) ==> InOrder(InsertXattr(s, x))
    ensures InsertXattr(s, x)[0] == x || (s != [] && InsertXattr(s, x)[0] == s[0])
  {
    if s == [] {
    } else if Less(x.name, s[0].name) {
      if Less(s[0].name, x.name) {
        LessTransitive(s[0].name, x.name, s[0].name);
        LessIrreflexive(s[0].name);
      }
    } else {
      InsertXattrKeeps(s[1..], x);
      assert s == [s[0]] + s[1..];
      assert InOrder(s) ==> InOrder(s[1..]);
      var rest := InsertXattr(s[1..], x);
      if InOrder(s) && rest[0] != x {
        assert NotGreater(s[0], s[1]);
      }
    }
  }

  /** Sorting keeps the attributes and puts their names in order. */
  lemma {:induction false} SortedXattrs(xs: seq<Xattr>)
    ensures multiset(SortXattrs(xs)) == multiset(xs) && |SortXattrs(xs)| == |xs| && InOrder(SortXattrs(xs))
  {
    if xs != [] {
      var n := |xs| - 1;
      SortedXattrs(xs[..n]);
      InsertXattrKeeps(SortXattrs(xs[..n]), xs[n]);
      assert xs == xs[..n] + [xs[n]];
    }
  }

  function XattrLength(x: Xattr): nat { |x.name| + |x.value| }

  lemma {:induction false} XattrBytesSum(xs: seq<Xattr>)
    ensures XattrBytes(xs) == Sum(XattrLength, xs)
  {
    if xs != [] {
      var n := |xs| - 1;
      XattrBytesSum(xs[..n]);
      SumAppend(XattrLength, xs[..n], [xs[n]]);
      SumOne(XattrLength, xs[n]);
      assert xs == xs[..n] + [xs[n]];
    }
  }

  lemma SortedXattrBytes(xs: seq<Xattr>)
    ensures XattrBytes(SortXattrs(xs)) == XattrBytes(xs)
  {
    SortedXattrs(xs);
    XattrBytesSum(xs);
    XattrBytesSum(SortXattrs(xs));
    SumIgnoresOrder(XattrLength, xs, SortXattrs(xs));
  }

  // ---------------------------------------------------------------------------------------
  // What an entry says

  predicate KindSays(kind: Byte, t: FileType) {
    && (kind == 1 <==> t == Regular) && (kind == 2 <==> t == Directory) && (kind == 3 <==> t == Symlink)
    && (kind == 4 <==> t == CharDevice) && (kind == 5 <==> t == BlockDevice) && (kind == 6 <==> t == Fifo)
    && (kind == 7 <==> t == Socket)
  }

  lemma KindMeans(t: FileType)
    ensures KindOf(t).Some? ==> KindSays(KindOf(t).value, t)
  {
  }

  /** The twelve permission bits of the mode, owner, group, size and times; the device number of
      devices only. */
  predicate SameNumbers(e: Entry, m: Meta) {
    && KindSays(e.kind, m.fileType)
    && e.mode < 4096 && (m.mode - e.mode) % 4096 == 0
    && e.uid == m.uid && e.gid == m.gid && e.size == m.size
    && e.mtimeSeconds == m.mtimeSeconds && e.mtimeNanoseconds == m.mtimeNanoseconds
    && e.rdev == (if m.fileType == CharDevice || m.fileType == BlockDevice then m.rdev else 0)
  }

  /** The target of links only; all attributes, in the order of their names. */
  predicate SameTexts(e: Entry, m: Meta) {
    && e.symlinkTarget == (if m.fileType == Symlink then m.target else None)
    && m.xattrs.Some? && multiset(e.xattrs) == multiset(m.xattrs.value) && NamesIncrease(e.xattrs)
  }

  lemma EntryNumbers(l: Limits, n: Node, relative: Blob, link: Option<Blob>)
    requires EntryOf(l, n, relative, link).Some?
    ensures SameNumbers(EntryOf(l, n, relative, link).value, n.meta)
    ensures EntryOf(l, n, relative, link).value.path == relative
  {
    KindMeans(n.meta.fileType);
  }

  lemma EntryTexts(l: Limits, n: Node, relative: Blob, link: Option<Blob>)
    requires EntryOf(l, n, relative, link).Some?
    ensures SameTexts(EntryOf(l, n, relative, link).value, n.meta)
  {
    SortedXattrs(n.meta.xattrs.value);
  }
}
