/** The walker itself: a recursive walk over directories listed in any order, with its chunk,
    counters, hash and hardlink table updated in place. */
module ManifestWalker {
  import opened Bytes
  import opened ManifestEntries
  import opened BuilderSession
  import opened ManifestTree
  import opened ManifestPacking
  import opened ManifestWalk
  import opened Sums

  // ---------------------------------------------------------------------------------------
  // Listings

  lemma {:induction false} OnceEach(s: seq<Name>, x: Name)
    requires forall i, j :: 0 <= i < j < |s| ==> s[i] != s[j]
    ensures multiset(s)[x] == if x in s then 1 else 0
  {
    if s != [] {
      assert s == [s[0]] + s[1..];
      OnceEach(s[1..], x);
      assert forall k :: 0 <= k < |s[1..]| ==> s[1..][k] == s[k + 1] && s[0] != s[k + 1];
    }
  }

  lemma AscendingIsDistinct(s: seq<Name>)
    requires Ascending(s)
    ensures forall i, j :: 0 <= i < j < |s| ==> s[i] != s[j]
  {
    forall i, j | 0 <= i < j < |s| ensures s[i] != s[j] { LessIrreflexive(s[i]); }
  }

  /** Two listings of the same directory hold the same names. */
  lemma ListingsReorder(a: seq<Name>, b: seq<Name>, keys: set<Name>)
    requires Enumerates(a, keys) && Enumerates(b, keys)
    ensures Reordering(a, b) && |a| == |b|
  {
    forall x ensures multiset(a)[x] == multiset(b)[x] {
      OnceEach(a, x);
      OnceEach(b, x);
    }
    assert multiset(a) == multiset(b);
    assert |a| == |multiset(a)| && |b| == |multiset(b)|;
  }

  lemma ListingBytes(s: seq<Name>, keys: set<Name>)
    requires Enumerates(s, keys)
    ensures Sum(Length, s) == Sum(Length, Sorted(keys)) && |s| == |keys|
  {
    AscendingIsDistinct(Sorted(keys));
    ListingsReorder(s, Sorted(keys), keys);
    SumIgnoresOrder(Length, s, Sorted(keys));
  }

  // ---------------------------------------------------------------------------------------
  // One visit in the order of the code

  /** The entry of a visit, encoded and within the entry limit. */
  function Encoded(c: Codec, l: Limits, links: Links, v: Visit): Option<Piece> {
    match EntryOf(l, v.node, Relative(v.path), LinkFor(links, v.node))
    case None => None
    case Some(e) => Sized(l, EncodeEntry(c, e))
  }

  predicate Face(links: Links, v: Visit) { true }

  /** `encode` encodes visits; it is looked up only where `Face` is mentioned. */
  ghost predicate Encodes(c: Codec, l: Limits, encode: (Links, Visit) -> Option<Piece>) {
    forall links, v {:trigger Face(links, v)} :: Face(links, v) ==> encode(links, v) == Encoded(c, l, links, v)
  }

  ghost function EncodeOf(c: Codec, l: Limits): (Links, Visit) -> Option<Piece> {
    (links: Links, v: Visit) => Encoded(c, l, links, v)
  }

  /** The entry is made and pushed; a directory has not been listed yet. */
  ghost function AfterEntry(encode: (Links, Visit) -> Option<Piece>, l: Limits, id: string, s: Walk,
                            v: Visit): Option<Walk> {
    if |v.path| > l.maxDepth || |Relative(v.path)| > l.maxPathBytes || encode(s.links, v).None? then None
    else if !LinksFit(l, Remember(s.links, v), s.linkBytes + Remembered(s.links, v)) then None
    else match Push(l, id, s.pk, encode(s.links, v).value)
      case None => None
      case Some(pk) => Some(Walk(Remember(s.links, v), s.linkBytes + Remembered(s.links, v), pk))
  }

  lemma StepInOrder(c: Codec, l: Limits, id: string, admit: (Links, Visit) -> Option<Piece>,
                    encode: (Links, Visit) -> Option<Piece>, s: Walk, v: Visit)
    requires Admits(c, l, admit) && Encodes(c, l, encode)
    ensures Step(admit, l, id, s, v) ==
            match AfterEntry(encode, l, id, s, v)
            case None => None
            case Some(s') => if IsDirectory(v.node) ==>
                DirectoryOk(l, v.node) && RoomFor(l, s'.pk.entries, v.node) then Some(s') else None
  {
    assert Meet(s.links, v);
    assert Face(s.links, v);
  }

  /** The chunks that have been sent when a visit ends, whether or not it succeeds. */
  ghost function SentByVisit(encode: (Links, Visit) -> Option<Piece>, l: Limits, id: string, s: Walk,
                             v: Visit): seq<Chunk> {
    if |v.path| > l.maxDepth || |Relative(v.path)| > l.maxPathBytes || encode(s.links, v).None? then s.pk.emitted
    else if !LinksFit(l, Remember(s.links, v), s.linkBytes + Remembered(s.links, v)) then s.pk.emitted
    else SentByPush(l, id, s.pk, encode(s.links, v).value)
  }

  /** The same for a walk, which ends at the first visit that fails. */
  ghost function SentByWalk(admit: (Links, Visit) -> Option<Piece>, encode: (Links, Visit) -> Option<Piece>,
                            l: Limits, id: string, s: Walk, vs: seq<Visit>): seq<Chunk>
    decreases |vs|
  {
    if vs == [] then s.pk.emitted
    else if Step(admit, l, id, s, vs[0]).None? then SentByVisit(encode, l, id, s, vs[0])
    else SentByWalk(admit, encode, l, id, Step(admit, l, id, s, vs[0]).value, vs[1..])
  }

  lemma {:induction false} SentAppend(admit: (Links, Visit) -> Option<Piece>, encode: (Links, Visit) -> Option<Piece>,
                                      l: Limits, id: string, s: Walk, a: seq<Visit>, b: seq<Visit>)
    ensures SentByWalk(admit, encode, l, id, s, a + b) ==
            if WalkAll(admit, l, id, s, a).None? then SentByWalk(admit, encode, l, id, s, a)
            else SentByWalk(admit, encode, l, id, WalkAll(admit, l, id, s, a).value, b)
    decreases |a|
  {
    if a == [] {
      assert a + b == b;
    } else {
      assert (a + b)[1..] == a[1..] + b;
      if Step(admit, l, id, s, a[0]).Some? {
        SentAppend(admit, encode, l, id, Step(admit, l, id, s, a[0]).value, a[1..], b);
      }
    }
  }

  class Walker {
    const p: Protocol
    const l: Limits
    const id: string
    const readDir: Node -> seq<Name>
    ghost const admit: (Links, Visit) -> Option<Piece>
    ghost const encode: (Links, Visit) -> Option<Piece>
    var hardlinks: Links
    var hardlinkPathBytes: nat
    var chunk: Blob
    var chunkEntries: U32
    var chunkFirstEntry: U64
    var chunkSequence: U64
    var entryCount: U64
    var byteCount: U64
    var hashed: Blob
    var emitted: seq<Chunk>

    ghost function Packing(): Packer
      reads this
    {
      Packer(chunk, chunkEntries, chunkFirstEntry, chunkSequence, entryCount, byteCount, hashed, emitted)
    }

    ghost function View(): Walk
      reads this
    {
      Walk(hardlinks, hardlinkPathBytes, Packing())
    }

    ghost predicate Valid()
      reads this
    {
      && Admits(p.codec, l, admit) && Encodes(p.codec, l, encode)
      && (forall n :: Enumerates(readDir(n), n.children.Keys))
      && LinksFit(l, hardlinks, hardlinkPathBytes)
    }

    constructor (p: Protocol, l: Limits, id: string, readDir: Node -> seq<Name>)
      requires forall n :: Enumerates(readDir(n), n.children.Keys)
      ensures this.p == p && this.l == l && this.id == id && this.readDir == readDir
      ensures admit == AdmitOf(p.codec, l) && encode == EncodeOf(p.codec, l)
      ensures Valid() && View() == NewWalk()
    {
      this.p, this.l, this.id, this.readDir := p, l, id, readDir;
      admit := AdmitOf(p.codec, l);
      encode := EncodeOf(p.codec, l);
      hardlinks, hardlinkPathBytes := map[], 0;
      chunk, chunkEntries, chunkFirstEntry, chunkSequence := [], 0, 0, 0;
      entryCount, byteCount, hashed, emitted := 0, 0, [], [];
    }

    method FlushChunk() returns (ok: bool)
      modifies this`chunk, this`chunkEntries, this`chunkSequence, this`byteCount, this`hashed, this`emitted
      ensures (if ok then Some(Packing()) else None) == Flush(l, id, old(Packing()))
      ensures emitted == SentByFlush(l, id, old(Packing()))
    {
      if chunk == [] {
        return true;
      }
      var bytes := chunk;
      chunk := [];
      if byteCount + |bytes| >= U64_LIMIT || byteCount + |bytes| > l.maxTotalBytes {
        return false;
      }
      hashed := hashed + bytes;
      emitted := emitted + [Chunk(id, chunkSequence, chunkFirstEntry, chunkEntries, bytes)];
      byteCount := byteCount + |bytes|;
      if chunkSequence + 1 >= U64_LIMIT {
        return false;
      }
      chunkSequence := chunkSequence + 1;
      chunkEntries := 0;
      ok := true;
    }

    method AppendFrame(piece: Piece) returns (ok: bool)
      modifies this`chunk, this`chunkEntries, this`chunkFirstEntry, this`entryCount
      ensures (if ok then Some(Packing()) else None) == Append(l, old(Packing()), piece)
    {
      if 4 + |piece| > l.maxChunkBytes {
        return false;
      }
      if chunk == [] {
        chunkFirstEntry := entryCount;
      }
      chunk := chunk + PutU32(|piece|) + piece;
      assert chunk == old(chunk) + Frame(piece);
      if chunkEntries + 1 >= 0x1_0000_0000 {
        return false;
      }
      chunkEntries := chunkEntries + 1;
      if entryCount + 1 >= U64_LIMIT {
        return false;
      }
      entryCount := entryCount + 1;
      ok := true;
    }

    /** One encoded entry: flush if it does not fit, then append. */
    method PushEntry(piece: Piece) returns (ok: bool)
      modifies this`chunk, this`chunkEntries, this`chunkFirstEntry, this`chunkSequence, this`entryCount,
          this`byteCount, this`hashed, this`emitted
      ensures (if ok then Some(Packing()) else None) == Push(l, id, old(Packing()), piece)
      ensures emitted == SentByPush(l, id, old(Packing()), piece)
      ensures ok ==> entryCount <= l.maxEntries
    {
      if entryCount >= l.maxEntries {
        return false;
      }
      if chunk != [] && |chunk| + 4 + |piece| > l.maxChunkBytes {
        ok := FlushChunk();
        if !ok {
          return;
        }
      }
      ok := AppendFrame(piece);
    }

    /** The attributes in the kernel's order, counted and added up, then sorted by name. */
    method ListXattrs(m: Meta) returns (r: Option<seq<Xattr>>)
      ensures r.Some? <==> m.xattrs.Some? && XattrListOk(l, m.xattrs.value)
      ensures r.Some? ==> r.value == SortXattrs(m.xattrs.value)
    {
      if m.xattrs.None? || NameListBytes(m.xattrs.value) > NameListCap(l) {
        return None;
      }
      var xs := m.xattrs.value;
      var total := 0;
      assert xs[..0] == [];
      for i := 0 to |xs|
        invariant total == XattrBytes(xs[..i]) <= l.maxXattrBytesPerEntry && i <= l.maxXattrsPerEntry
        invariant forall k :: 0 <= k < i ==> xs[k].name != []
      {
        XattrPrefix(xs, i + 1);
        if xs[i].name == [] || i >= l.maxXattrsPerEntry {
          return None;
        }
        assert xs[..i + 1][..i] == xs[..i];
        total := total + |xs[i].name| + |xs[i].value|;
        if total > l.maxXattrBytesPerEntry {
          return None;
        }
      }
      assert xs[..|xs|] == xs;
      r := Some(SortXattrs(xs));
    }

    /** The hardlink table: a known inode yields its first path, a new one is entered. */
    method NoteLink(n: Node, relative: Blob, ghost path: Path) returns (ok: bool, link: Option<Blob>)
      requires Valid() && relative == Relative(path)
      modifies this`hardlinks, this`hardlinkPathBytes
      ensures link == LinkFor(old(hardlinks), n)
      ensures var v := Visit(path, n);
              && (ok <==> LinksFit(l, Remember(old(hardlinks), v),
                old(hardlinkPathBytes) + Remembered(old(hardlinks), v)))
              && (ok ==> Valid() && hardlinks == Remember(old(hardlinks), v)
                         && hardlinkPathBytes == old(hardlinkPathBytes) + Remembered(old(hardlinks), v))
    {
      link := None;
      if !MultiLink(n) {
        return true, None;
      }
      if n.meta.inode in hardlinks {
        return true, Some(hardlinks[n.meta.inode]);
      }
      ghost var grown := hardlinks[n.meta.inode := relative];
      assert grown.Keys == hardlinks.Keys + {n.meta.inode};
      if |hardlinks| >= l.maxHardlinkGroups {
        return false, None;
      }
      hardlinkPathBytes := hardlinkPathBytes + |relative|;
      if hardlinkPathBytes > l.maxHardlinkPathBytes {
        return false, None;
      }
      hardlinks := hardlinks[n.meta.inode := relative];
      ok := true;
    }

    /** The entry of a node, validated. */
    method BuildEntry(n: Node, relative: Blob, link: Option<Blob>) returns (r: Option<Entry>)
      ensures r == EntryOf(l, n, relative, link)
    {
      var m := n.meta;
      if !m.statOk || KindOf(m.fileType).None? || (m.fileType == Symlink && m.target.None?) || Evidence(n, link).None? {
        return None;
      }
      if !(0 <= m.mtimeNanoseconds < 0x1_0000_0000) {
        return None;
      }
      var xattrs := ListXattrs(m);
      if xattrs.None? {
        return None;
      }
      var (content, hardlink) := Evidence(n, link).value;
      var target := if m.fileType == Symlink then m.target else None;
      var e := Entry(relative, KindOf(m.fileType).value, m.mode % 4096, m.uid, m.gid, m.size, DeviceNumber(m),
                     m.mtimeSeconds, m.mtimeNanoseconds, target, content, hardlink, xattrs.value);
      r := if EntryOk(e) then Some(e) else None;
    }

    method EncodeSized(e: Option<Entry>) returns (r: Option<Piece>)
      ensures r == if e.None? then None else Sized(l, EncodeEntry(p.codec, e.value))
    {
      if e.None? {
        return None;
      }
      var encoded := EncodeEntry(p.codec, e.value);
      if encoded.None? || encoded.value == [] || |encoded.value| > l.maxEntryBytes
          || |encoded.value| > MAX_ENTRY_BYTES {
        return None;
      }
      r := Some(encoded.value);
    }

    /** The encoded entry of a node, with the hardlink table brought up to date. */
    method MakeEntry(n: Node, relative: Blob, ghost path: Path) returns (r: Option<Piece>)
      requires Valid() && relative == Relative(path)
      modifies this`hardlinks, this`hardlinkPathBytes
      ensures var v := Visit(path, n);
              var made := encode(old(hardlinks), v);
              && (r.Some? <==> made.Some? && LinksFit(l, Remember(old(hardlinks), v),
                old(hardlinkPathBytes) + Remembered(old(hardlinks), v)))
              && (r.Some? ==> r == made && Valid() && hardlinks == Remember(old(hardlinks), v)
                              && hardlinkPathBytes == old(hardlinkPathBytes) + Remembered(old(hardlinks), v))
    {
      assert Face(hardlinks, Visit(path, n));
      var ok, link := NoteLink(n, relative, path);
      if !ok {
        return None;
      }
      var entry := BuildEntry(n, relative, link);
      r := EncodeSized(entry);
    }

    method VisitEntry(n: Node, relative: Blob, depth: nat, ghost path: Path) returns (ok: bool)
      requires Valid() && relative == Relative(path) && depth == |path|
      modifies this
      ensures (if ok then Some(View()) else None) == AfterEntry(encode, l, id, old(View()), Visit(path, n))
      ensures emitted == SentByVisit(encode, l, id, old(View()), Visit(path, n))
      ensures ok ==> Valid() && entryCount <= l.maxEntries
    {
      if depth > l.maxDepth || |relative| > l.maxPathBytes {
        return false;
      }
      var piece := MakeEntry(n, relative, path);
      if piece.None? {
        return false;
      }
      ok := PushEntry(piece.value);
    }

    /** Goes through a listing in the order the kernel gives, checking names and sizes. */
    method ScanListing(listing: seq<Name>) returns (ok: bool)
      ensures ok <==>
                && (forall k :: 0 <= k < |listing| ==> NameOk(listing[k]))
                && Sum(Length, listing) <= l.maxDirectoryNameBytes && |listing| <= l.maxDirectoryEntries
                && (listing == [] || entryCount + |listing| <= l.maxEntries)
    {
      var bytes := 0;
      assert listing[..0] == [];
      for i := 0 to |listing|
        invariant bytes == Sum(Length, listing[..i]) <= l.maxDirectoryNameBytes
        invariant i <= l.maxDirectoryEntries && (i == 0 || entryCount + i <= l.maxEntries)
        invariant forall k :: 0 <= k < i ==> NameOk(listing[k])
      {
        SumPrefix(Length, listing, i + 1);
        if !NameOk(listing[i]) {
          return false;
        }
        assert listing[..i + 1] == listing[..i] + [listing[i]];
        SumAppend(Length, listing[..i], [listing[i]]);
        SumOne(Length, listing[i]);
        bytes := bytes + |listing[i]|;
        if bytes > l.maxDirectoryNameBytes || i + 1 > l.maxDirectoryEntries || entryCount + i + 1 > l.maxEntries {
          return false;
        }
      }
      assert listing[..|listing|] == listing;
      ok := true;
    }

    method ReadNames(n: Node) returns (r: Option<seq<Name>>)
      requires Valid() && IsDirectory(n) && entryCount <= l.maxEntries
      ensures r.Some? <==> DirectoryOk(l, n) && RoomFor(l, entryCount, n)
      ensures r.Some? ==> Enumerates(r.value, n.children.Keys)
    {
      if !n.meta.listable {
        return None;
      }
      var listing := readDir(n);
      ListingMeans(l, listing, n);
      var ok := ScanListing(listing);
      r := if ok then Some(listing) else None;
    }

    method VisitNode(n: Node, relative: Blob, depth: nat, ghost path: Path) returns (ok: bool)
      requires Valid() && relative == Relative(path) && depth == |path|
      modifies this
      ensures (if ok then Some(View()) else None) == WalkAll(admit, l, id, old(View()), Preorder(n, path))
      ensures emitted == SentByWalk(admit, encode, l, id, old(View()), Preorder(n, path))
      ensures ok ==> Valid()
      decreases n, 1, 0
    {
      ghost var s, v := View(), Visit(path, n);
      StepInOrder(p.codec, l, id, admit, encode, s, v);
      ok := VisitEntry(n, relative, depth, path);
      ghost var below := if IsDirectory(n) then Below(n, path, Sorted(n.children.Keys)) else [];
      HeadFirst(admit, encode, l, id, s, v, below);
      if !ok || !IsDirectory(n) {
        return;
      }
      var listing := ReadNames(n);
      if listing.None? {
        return false;
      }
      var names := SortNames(listing.value, n.children.Keys);
      SortedUnique(names, n.children.Keys);
      ok := VisitChildren(n, relative, depth, names, path);
    }

    method VisitChildren(n: Node, relative: Blob, depth: nat, names: seq<Name>, ghost path: Path) returns (ok: bool)
      requires Valid() && relative == Relative(path) && depth == |path|
      requires forall i :: 0 <= i < |names| ==> names[i] in n.children
      modifies this
      ensures (if ok then Some(View()) else None) == WalkAll(admit, l, id, old(View()), Below(n, path, names))
      ensures emitted == SentByWalk(admit, encode, l, id, old(View()), Below(n, path, names))
      ensures ok ==> Valid()
      decreases n, 0, |names|
    {
      assert names[0..] == names;
      for i := 0 to |names|
        invariant Valid()
        invariant WalkAll(admit, l, id, View(), Below(n, path, names[i..])) ==
                  WalkAll(admit, l, id, old(View()), Below(n, path, names))
        invariant SentByWalk(admit, encode, l, id, View(), Below(n, path, names[i..])) ==
                  SentByWalk(admit, encode, l, id, old(View()), Below(n, path, names))
      {
        BelowStep(admit, encode, l, id, View(), n, path, names, i);
        ok := VisitNode(n.children[names[i]], Child(relative, names[i]), depth + 1, path + [names[i]]);
        if !ok {
          return;
        }
      }
      ok := true;
    }
  }

  /** One child of a directory, then the others. */
  lemma BelowStep(admit: (Links, Visit) -> Option<Piece>, encode: (Links, Visit) -> Option<Piece>, l: Limits,
                  id: string, s: Walk, n: Node, path: Path, names: seq<Name>, i: nat)
    requires i < |names| && forall k :: 0 <= k < |names| ==> names[k] in n.children
    ensures Relative(path + [names[i]]) == Child(Relative(path), names[i])
    ensures var first, all := Preorder(n.children[names[i]], path + [names[i]]), Below(n, path, names[i..]);
            match WalkAll(admit, l, id, s, first)
            case None =>
              && WalkAll(admit, l, id, s, all) == None
              && SentByWalk(admit, encode, l, id, s, all) == SentByWalk(admit, encode, l, id, s, first)
            case Some(s') =>
              var rest := Below(n, path, names[i + 1..]);
              && WalkAll(admit, l, id, s, all) == WalkAll(admit, l, id, s', rest)
              && SentByWalk(admit, encode, l, id, s, all) == SentByWalk(admit, encode, l, id, s', rest)
  {
    assert names[i..][0] == names[i] && names[i..][1..] == names[i + 1..];
    assert (path + [names[i]])[..|path|] == path;
    var first, rest := Preorder(n.children[names[i]], path + [names[i]]), Below(n, path, names[i + 1..]);
    WalkAppend(admit, l, id, s, first, rest);
    SentAppend(admit, encode, l, id, s, first, rest);
  }

  lemma {:induction false} XattrPrefix(xs: seq<Xattr>, k: nat)
    requires k <= |xs|
    ensures XattrBytes(xs[..k]) <= XattrBytes(xs)
    decreases |xs| - k
  {
    if k < |xs| {
      assert xs[..k + 1][..k] == xs[..k];
      XattrPrefix(xs, k + 1);
    } else {
      assert xs[..k] == xs;
    }
  }

  /** Checking a listing is checking the directory. */
  lemma ListingMeans(l: Limits, listing: seq<Name>, n: Node)
    requires Enumerates(listing, n.children.Keys) && n.meta.listable
    ensures |listing| == |n.children|
    ensures DirectoryOk(l, n) <==>
              && (forall k :: 0 <= k < |listing| ==> NameOk(listing[k]))
              && Sum(Length, listing) <= l.maxDirectoryNameBytes && |listing| <= l.maxDirectoryEntries
  {
    ListingBytes(listing, n.children.Keys);
    SameNames(listing, n);
  }

  lemma SameNames(listing: seq<Name>, n: Node)
    requires Enumerates(listing, n.children.Keys)
    ensures (forall name <- n.children :: NameOk(name)) <==> (forall k :: 0 <= k < |listing| ==> NameOk(listing[k]))
  {
    assert forall k :: 0 <= k < |listing| ==> listing[k] in n.children.Keys;
    forall name | name in n.children && !NameOk(name) ensures exists k :: 0 <= k < |listing| && !NameOk(listing[k]) {
      assert name in n.children.Keys;
      assert name in listing;
      var k :| 0 <= k < |listing| && listing[k] == name;
    }
  }

  lemma HeadFirst(admit: (Links, Visit) -> Option<Piece>, encode: (Links, Visit) -> Option<Piece>, l: Limits,
                  id: string, s: Walk, v: Visit, below: seq<Visit>)
    ensures WalkAll(admit, l, id, s, [v] + below) ==
            if Step(admit, l, id, s, v).None?
                then None else WalkAll(admit, l, id, Step(admit, l, id, s, v).value, below)
    ensures SentByWalk(admit, encode, l, id, s, [v] + below) ==
            if Step(admit, l, id, s, v).None?
                then SentByVisit(encode, l, id, s, v)
                else SentByWalk(admit, encode, l, id, Step(admit, l, id, s, v).value, below)
  {
    assert ([v] + below)[1..] == below;
  }
}
