/** The manifest of a tree as a stream of messages: when it can be emitted, what it says, and
    that the host's session accepts it. */
module ManifestStream {
  import opened Bytes
  import opened ManifestEntries
  import opened BuilderSession
  import opened BuilderRuns
  import opened BuilderStory
  import opened ManifestTree
  import opened ManifestPacking
  import opened ManifestWalk
  import opened ManifestWalker

  datatype Summary = Summary(streamId: string, sha256: string, entryCount: U64, byteCount: U64)

  /** The packer after a whole walk and the last flush. */
  ghost function Emission(c: Codec, l: Limits, id: string, root: Node): Option<Packer> {
    match WalkAll(AdmitOf(c, l), l, id, NewWalk(), Preorder(root, []))
    case None => None
    case Some(s) => Flush(l, id, s.pk)
  }

  function SummaryOf(p: Protocol, id: string, pk: Packer): Summary {
    Summary(id, DigestText(p, pk.hashed), pk.entries, pk.byteCount)
  }

  /** The messages of a manifest: BEGIN, the chunks, and END unless the walk failed. */
  datatype Manifest = Manifest(begin: Begin, chunks: seq<Chunk>, end: Option<End>)

  function EndOf(p: Protocol, id: string, pk: Packer): End {
    End(id, pk.entries, pk.byteCount, DigestText(p, pk.hashed))
  }

  function ManifestOf(p: Protocol, schema: string, id: string, pk: Packer): Manifest {
    Manifest(Begin(schema, id), pk.emitted, Some(EndOf(p, id, pk)))
  }

  /** The chunks that are sent for a tree, whether or not its walk succeeds. */
  ghost function SentChunks(c: Codec, l: Limits, id: string, root: Node): seq<Chunk> {
    match WalkAll(AdmitOf(c, l), l, id, NewWalk(), Preorder(root, []))
    case None => SentByWalk(AdmitOf(c, l), EncodeOf(c, l), l, id, NewWalk(), Preorder(root, []))
    case Some(s) => SentByFlush(l, id, s.pk)
  }

  /** The messages that are sent for a tree once the walk begins. */
  ghost function SentManifest(p: Protocol, l: Limits, schema: string, id: string, root: Node): (m: Manifest)
    ensures var emission := Emission(p.codec, l, id, root);
            emission.Some? ==> m == ManifestOf(p, schema, id, emission.value)
  {
    var emission := Emission(p.codec, l, id, root);
    Manifest(Begin(schema, id), SentChunks(p.codec, l, id, root),
        if emission.Some? then Some(EndOf(p, id, emission.value)) else None)
  }

  /** The checks made before anything is sent. */
  predicate Walks(l: Limits, root: Node) {
    LimitsOk(l) && root.meta.statOk && IsDirectory(root)
  }

  /** Emits the manifest of a tree: `m` is what has been sent, also when the walk fails. Nothing
      in the contract depends on `readDir`: the order in which directories are listed does not
      matter. */
  method EmitManifest(p: Protocol, l: Limits, schema: string, seed: Blob, root: Node, readDir: Node -> seq<Name>)
    returns (r: Option<Summary>, m: Option<Manifest>)
    requires forall n :: Enumerates(readDir(n), n.children.Keys)
    ensures r.Some? <==> Walks(l, root) && Emission(p.codec, l, DigestText(p, seed), root).Some?
    ensures var id := DigestText(p, seed);
            && (r.Some? ==> r.value == SummaryOf(p, id, Emission(p.codec, l, id, root).value))
            && m == if Walks(l, root) then Some(SentManifest(p, l, schema, id, root)) else None
  {
    r := None;
    if !LimitsOk(l) || !root.meta.statOk || !IsDirectory(root) {
      return None, None;
    }
    var id := DigestText(p, seed);
    var begin := Begin(schema, id);
    var walker := new Walker(p, l, id, readDir);
    var ok := walker.VisitNode(root, [], 0, []);
    if ok {
      ok := walker.FlushChunk();
    }
    if !ok {
      return None, Some(Manifest(begin, walker.emitted, None));
    }
    var digest := DigestText(p, walker.hashed);
    var end := End(id, walker.entryCount, walker.byteCount, digest);
    r := Some(Summary(id, digest, walker.entryCount, walker.byteCount));
    m := Some(Manifest(begin, walker.emitted, Some(end)));
  }

  // ---------------------------------------------------------------------------------------
  // When a manifest can be emitted

  /** Every entry may be part of a manifest, and counts, hardlink tables and bytes are within
      their limits. */
  ghost predicate Admissible(c: Codec, l: Limits, root: Node) {
    var vs := Preorder(root, []);
    && PiecesOf(AdmitOf(c, l), vs).Some?
    && LinksFit(l, LinksOf(vs), LinkBytes(vs))
    && |vs| <= l.maxEntries
    && |Framed(PiecesOf(AdmitOf(c, l), vs).value)| <= l.maxTotalBytes
  }

  /** The early check on a directory's children refuses only trees that are too large anyway. */
  lemma EarlyCheckIsHarmless(l: Limits, root: Node)
    requires |Preorder(root, [])| <= l.maxEntries
    ensures AllRoom(l, Preorder(root, []))
  {
    var vs := Preorder(root, []);
    forall i | 0 <= i < |vs| ensures RoomFor(l, i + 1, vs[i].node) {
      if IsDirectory(vs[i].node) {
        ChildrenFollow(root, [], i);
      }
    }
  }

  lemma AdmittedIsWithin(c: Codec, l: Limits, links: Links, v: Visit)
    requires CborInverts(c) && Admit(c, l, links, v).Some?
    ensures EntryWithin(c, l, Admit(c, l, links, v).value) && |Admit(c, l, links, v).value| <= l.maxEntryBytes
    ensures DecodeEntry(c, Admit(c, l, links, v).value) == EntryOf(l, v.node, Relative(v.path), LinkFor(links, v.node))
  {
    var e := EntryOf(l, v.node, Relative(v.path), LinkFor(links, v.node)).value;
    EntryCodec(c, e, Admit(c, l, links, v).value);
    SortedXattrs(v.node.meta.xattrs.value);
    SortedXattrBytes(v.node.meta.xattrs.value);
  }

  lemma {:induction false} PiecesArePackable(c: Codec, l: Limits, within: Piece -> bool, vs: seq<Visit>)
    requires CborInverts(c) && Verdicts(c, l, within) && PiecesOf(AdmitOf(c, l), vs).Some?
    ensures Packable(within, l, PiecesOf(AdmitOf(c, l), vs).value)
  {
    if vs != [] {
      var front, v := vs[..|vs| - 1], vs[|vs| - 1];
      PiecesArePackable(c, l, within, front);
      AdmittedIsWithin(c, l, LinksOf(front), v);
      var piece := AdmitOf(c, l)(LinksOf(front), v).value;
      assert Seen(piece);
      PackableAppend(within, l, PiecesOf(AdmitOf(c, l), front).value, [piece]);
    }
  }

  /** What is known of an emitted manifest. */
  ghost predicate Faithful(fine: Chunk -> bool, l: Limits, pk: Packer, ps: seq<Piece>) {
    && GoodChunks(fine, l, pk.emitted)
    && BytesIn(pk.emitted) == Framed(ps) == pk.hashed
    && EntriesIn(pk.emitted) == |ps| == pk.entries
    && pk.byteCount == |Framed(ps)|
  }

  /** A manifest is emitted exactly for admissible trees; its chunks are good, and their bytes
      are the framed entries of the tree in walk order. */
  lemma EmissionIsExact(p: Protocol, l: Limits, id: string, fine: Chunk -> bool, within: Piece -> bool, root: Node)
    requires CborInverts(p.codec) && Rules(p, l, id, fine, within)
    ensures Emission(p.codec, l, id, root).Some? <==> Admissible(p.codec, l, root)
    ensures Admissible(p.codec, l, root) ==>
              Faithful(fine, l, Emission(p.codec, l, id, root).value,
                  PiecesOf(AdmitOf(p.codec, l), Preorder(root, [])).value)
  {
    var vs, admit := Preorder(root, []), AdmitOf(p.codec, l);
    WalkIsExact(admit, l, id, vs);
    if PiecesOf(admit, vs).Some? {
      PiecesArePackable(p.codec, l, within, vs);
      PackingIsExact(p, l, id, fine, within, PiecesOf(admit, vs).value);
    }
    if |vs| <= l.maxEntries {
      EarlyCheckIsHarmless(l, root);
    }
  }

  /** Each chunk of an emitted manifest ends only where the next entry no longer fits. */
  lemma EmittedChunksAreGreedy(c: Codec, l: Limits, id: string, root: Node)
    requires Emission(c, l, id, root).Some?
    ensures Greedy(l, Emission(c, l, id, root).value.emitted)
  {
    var vs, admit := Preorder(root, []), AdmitOf(c, l);
    WalkIsExact(admit, l, id, vs);
    PackingIsGreedy(l, id, PiecesOf(admit, vs).value);
  }

  // ---------------------------------------------------------------------------------------
  // What has been sent when a walk fails

  /** The chunks hold the entries of the first `k` visits, whole and in walk order. */
  ghost predicate HoldsFirst(admit: (Links, Visit) -> Option<Piece>, vs: seq<Visit>, chunks: seq<Chunk>, k: nat) {
    && k <= |vs| && PiecesOf(admit, vs[..k]).Some?
    && BytesIn(chunks) == Framed(PiecesOf(admit, vs[..k]).value) && EntriesIn(chunks) == k
  }

  /** A walk that ends early has sent what the walk over some first visits holds, or what a
      flush after those sends. */
  lemma {:induction false} SentByFirst(admit: (Links, Visit) -> Option<Piece>, encode: (Links, Visit) -> Option<Piece>,
                                       l: Limits, id: string, s: Walk, vs: seq<Visit>)
    returns (k: nat)
    ensures k <= |vs| && WalkAll(admit, l, id, s, vs[..k]).Some?
    ensures var pk := WalkAll(admit, l, id, s, vs[..k]).value.pk;
            var sent := SentByWalk(admit, encode, l, id, s, vs);
            sent == pk.emitted || sent == SentByFlush(l, id, pk)
    decreases |vs|
  {
    if vs == [] || Step(admit, l, id, s, vs[0]).None? {
      k := 0;
    } else {
      var rest := SentByFirst(admit, encode, l, id, Step(admit, l, id, s, vs[0]).value, vs[1..]);
      k := rest + 1;
      assert vs[..k][1..] == vs[1..][..rest];
    }
  }

  lemma {:induction false} PiecesPrefix(admit: (Links, Visit) -> Option<Piece>, vs: seq<Visit>, k: nat)
    requires PiecesOf(admit, vs).Some? && k <= |vs|
    ensures PiecesOf(admit, vs[..k]) == Some(PiecesOf(admit, vs).value[..k])
  {
    var n := |vs| - 1;
    if k <= n {
      PiecesPrefix(admit, vs[..n], k);
      assert vs[..n][..k] == vs[..k];
      assert PiecesOf(admit, vs).value[..k] == PiecesOf(admit, vs[..n]).value[..k];
    } else {
      assert vs[..k] == vs && PiecesOf(admit, vs).value[..k] == PiecesOf(admit, vs).value;
    }
  }

  /** What a packer has emitted and what a flush would send are good chunks of first pieces. */
  lemma SentIsPacked(p: Protocol, l: Limits, id: string, fine: Chunk -> bool, within: Piece -> bool, ps: seq<Piece>,
                     sent: seq<Chunk>)
    returns (k: nat)
    requires Rules(p, l, id, fine, within) && Packable(within, l, ps) && PushAll(l, id, ps).Some?
    requires var pk := PushAll(l, id, ps).value; sent == pk.emitted || sent == SentByFlush(l, id, pk)
    ensures k <= |ps| && GoodChunks(fine, l, sent) && BytesIn(sent) == Framed(ps[..k]) && EntriesIn(sent) == k
  {
    var pk := PushAll(l, id, ps).value;
    var flushed, open := PushAllPacked(p, l, id, fine, within, ps);
    if sent == pk.emitted {
      k := |flushed|;
      assert ps[..k] == flushed;
    } else {
      k := |ps|;
      assert ps[..k] == ps;
      FramedAppend(flushed, open);
      FlushPacked(p, l, id, fine, within, pk, flushed, open);
    }
  }

  lemma SentHoldsFirst(p: Protocol, l: Limits, id: string, fine: Chunk -> bool, within: Piece -> bool,
                       admit: (Links, Visit) -> Option<Piece>, vs: seq<Visit>, j: nat, sent: seq<Chunk>)
    returns (k: nat)
    requires Rules(p, l, id, fine, within) && j <= |vs| && PiecesOf(admit, vs[..j]).Some?
    requires var ps := PiecesOf(admit, vs[..j]).value;
             && Packable(within, l, ps) && PushAll(l, id, ps).Some?
             && var pk := PushAll(l, id, ps).value; sent == pk.emitted || sent == SentByFlush(l, id, pk)
    ensures GoodChunks(fine, l, sent) && HoldsFirst(admit, vs, sent, k)
  {
    k := SentIsPacked(p, l, id, fine, within, PiecesOf(admit, vs[..j]).value, sent);
    PiecesPrefix(admit, vs[..j], k);
    assert vs[..j][..k] == vs[..k];
  }

  /** The chunks sent for a tree, by the first visits of its walk. */
  lemma SentAfterVisits(c: Codec, l: Limits, id: string, root: Node) returns (j: nat)
    ensures j <= |Preorder(root, [])|
    ensures var vs, admit := Preorder(root, [])[..j], AdmitOf(c, l);
            && Walkable(admit, l, id, vs)
            && var pk, sent := PushAll(l, id, PiecesOf(admit, vs).value).value, SentChunks(c, l, id, root);
               sent == pk.emitted || sent == SentByFlush(l, id, pk)
  {
    var vs, admit := Preorder(root, []), AdmitOf(c, l);
    if WalkAll(admit, l, id, NewWalk(), vs).None? {
      j := SentByFirst(admit, EncodeOf(c, l), l, id, NewWalk(), vs);
    } else {
      j := |vs|;
      assert vs[..j] == vs;
    }
    WalkIsExact(admit, l, id, vs[..j]);
  }

  /** Whatever happens to a walk, the chunks sent for it are good and hold the entries of some
      first visits, whole and in order. */
  lemma SentChunksAreGood(p: Protocol, l: Limits, id: string, fine: Chunk -> bool, within: Piece -> bool, root: Node)
    returns (k: nat)
    requires CborInverts(p.codec) && Rules(p, l, id, fine, within)
    ensures GoodChunks(fine, l, SentChunks(p.codec, l, id, root))
    ensures HoldsFirst(AdmitOf(p.codec, l), Preorder(root, []), SentChunks(p.codec, l, id, root), k)
  {
    var vs, admit := Preorder(root, []), AdmitOf(p.codec, l);
    var j := SentAfterVisits(p.codec, l, id, root);
    PiecesArePackable(p.codec, l, within, vs[..j]);
    k := SentHoldsFirst(p, l, id, fine, within, admit, vs, j, SentChunks(p.codec, l, id, root));
  }

  // ---------------------------------------------------------------------------------------
  // The session accepts it

  /** The messages as items, numbered on from a guest sequence. */
  function ManifestItems(m: Manifest, first: nat): seq<Item> {
    [Item(GuestToHost, BeginMessage(m.begin), first)]
      + (ChunkItems(m.chunks, first + 1) + EndItems(m.end, first + 1 + |m.chunks|))
  }

  function EndItems(end: Option<End>, at: nat): seq<Item> {
    if end.Some? then [Item(GuestToHost, EndMessage(end.value), at)] else []
  }

  lemma DigestTextIsSha(p: Protocol, b: Blob)
    ensures IsSha256(DigestText(p, b))
  {
    HexLowerIsHex(p.sha256(b));
  }

  /** Good chunks and a matching END take a streaming session to AwaitAccountDb. */
  lemma ChunksAndEndAreAccepted(p: Protocol, step: (Session, Item) -> Option<Session>, fine: Chunk -> bool, l: Limits,
                                s: Session, chunks: seq<Chunk>, end: Item)
    requires Steps(p, step) && LimitsOk(l) && Streams(p, fine, l, s) && s.stream == Stream(0, 0, 0, [])
    requires IsSha256(s.streamId.value) && s.guestSequence + MAX_ENTRIES + 1 < U64_LIMIT
    requires GoodChunks(fine, l, chunks) && EntriesIn(chunks) < U64_LIMIT && |BytesIn(chunks)| < U64_LIMIT
    requires end == Item(GuestToHost,
             EndMessage(End(s.streamId.value, EntriesIn(chunks), |BytesIn(chunks)|, DigestText(p, BytesIn(chunks)))),
                         s.guestSequence + |chunks|)
    ensures var r := RunAll(step, s, ChunkItems(chunks, s.guestSequence) + [end]);
            && r.Some? && r.value.phase == AwaitAccountDb && r.value.stream == StreamOf(chunks)
            && r.value.manifestSha256 == Some(DigestText(p, BytesIn(chunks)))
  {
    ShortEnough(p, fine, l, s.streamId.value, chunks);
    TakeAllExact(fine, l, chunks);
    GoodChunksAreAccepted(p, step, fine, l, s, chunks);
    RunAllAppend(step, s, ChunkItems(chunks, s.guestSequence), [end]);
    var s' := Later(s, |chunks|, StreamOf(chunks));
    DigestTextIsSha(p, BytesIn(chunks));
    AtEnd(p, step, s', end);
    RunOne(step, s', end, []);
    assert [end] + [] == [end];
  }

  /** Good chunks between a BEGIN and a matching END take a session from AwaitManifestBegin to
      AwaitAccountDb. */
  lemma GoodManifestIsAccepted(p: Protocol, step: (Session, Item) -> Option<Session>, fine: Chunk -> bool, l: Limits,
                               s: Session, schema: string, id: string, pk: Packer)
    requires Steps(p, step) && LimitsOk(l) && IsSha256(id) && Fines(p, l, id, fine)
    requires s.phase == AwaitManifestBegin && s.schema == Some(schema) && s.limits == Some(l)
             && IsToken(schema, MAX_ID_LENGTH)
    requires s.guestSequence + MAX_ENTRIES + 2 < U64_LIMIT
    requires GoodChunks(fine, l, pk.emitted) && pk.hashed == BytesIn(pk.emitted)
             && pk.entries == EntriesIn(pk.emitted) && pk.byteCount == |pk.hashed|
    ensures var r := RunAll(step, s, ManifestItems(ManifestOf(p, schema, id, pk), s.guestSequence));
            && r.Some? && r.value.phase == AwaitAccountDb
            && r.value.stream.entries == pk.entries && r.value.stream.byteCount == pk.byteCount
            && r.value.manifestSha256 == Some(DigestText(p, pk.hashed))
  {
    var m := ManifestOf(p, schema, id, pk);
    var first := s.guestSequence;
    var begin := Item(GuestToHost, BeginMessage(m.begin), first);
    var end := Item(GuestToHost, EndMessage(m.end.value), first + 1 + |m.chunks|);
    AtBegin(p, step, s, begin);
    RunOne(step, s, begin, ChunkItems(m.chunks, first + 1) + [end]);
    ChunksAndEndAreAccepted(p, step, fine, l, step(s, begin).value, m.chunks, end);
  }

  /** Good chunks after a BEGIN leave a session streaming, with the counts and bytes of the
      chunks. */
  lemma StartedManifestIsAccepted(p: Protocol, step: (Session, Item) -> Option<Session>, fine: Chunk -> bool, l: Limits,
                                  s: Session, m: Manifest)
    requires Steps(p, step) && LimitsOk(l) && IsSha256(m.begin.streamId) && Fines(p, l, m.begin.streamId, fine)
    requires s.phase == AwaitManifestBegin && s.schema == Some(m.begin.schema) && s.limits == Some(l)
             && IsToken(m.begin.schema, MAX_ID_LENGTH)
    requires s.guestSequence + MAX_ENTRIES + 2 < U64_LIMIT
    requires GoodChunks(fine, l, m.chunks) && m.end.None?
    ensures var r := RunAll(step, s, ManifestItems(m, s.guestSequence));
            r.Some? && Interrupted(r.value, m.chunks)
  {
    var first := s.guestSequence;
    var begin := Item(GuestToHost, BeginMessage(m.begin), first);
    var items := ChunkItems(m.chunks, first + 1);
    AtBegin(p, step, s, begin);
    assert items + EndItems(None, first + 1 + |m.chunks|) == items;
    RunOne(step, s, begin, items);
    ShortEnough(p, fine, l, m.begin.streamId, m.chunks);
    TakeAllExact(fine, l, m.chunks);
    GoodChunksAreAccepted(p, step, fine, l, step(s, begin).value, m.chunks);
  }

  /** The walk failed after these chunks: the session has taken them all and still waits for
      the rest of the stream. */
  ghost predicate Interrupted(s: Session, chunks: seq<Chunk>) {
    s.phase == StreamingManifest && s.stream == StreamOf(chunks)
  }

  /** End to end: if a manifest can be emitted under the limits of a START message, a session in
      AwaitManifestBegin with those limits and that schema accepts every message of it in order
      and ends in AwaitAccountDb with the summary's counts and digest. */
  lemma EmittedManifestIsAccepted(p: Protocol, l: Limits, schema: string, seed: Blob, root: Node, s: Session)
    requires CborInverts(p.codec) && LimitsOk(l) && Emission(p.codec, l, DigestText(p, seed), root).Some?
    requires s.phase == AwaitManifestBegin && s.schema == Some(schema) && s.limits == Some(l)
             && IsToken(schema, MAX_ID_LENGTH)
    requires s.guestSequence + MAX_ENTRIES + 2 < U64_LIMIT
    ensures var id := DigestText(p, seed);
            var pk := Emission(p.codec, l, id, root).value;
            var summary := SummaryOf(p, id, pk);
            var r := RunAll(StepOf(p), s, ManifestItems(ManifestOf(p, schema, id, pk), s.guestSequence));
            && r.Some? && r.value.phase == AwaitAccountDb
            && r.value.stream.entries == summary.entryCount && r.value.stream.byteCount == summary.byteCount
            && r.value.manifestSha256 == Some(summary.sha256)
  {
    var id := DigestText(p, seed);
    var fine, within := FineOf(p, l, id), (piece: Piece) => EntryWithin(p.codec, l, piece);
    StepOfSteps(p);
    FineOfFines(p, l, id);
    DigestTextIsSha(p, seed);
    assert Rules(p, l, id, fine, within);
    EmissionIsExact(p, l, id, fine, within, root);
    GoodManifestIsAccepted(p, StepOf(p), fine, l, s, schema, id, Emission(p.codec, l, id, root).value);
  }

  /** The same for every session that can come to wait for a manifest: after any messages
      whatever, with the limits and schema it holds, and no further condition. */
  lemma WaitingSessionsAcceptTheManifest(p: Protocol, items: seq<Item>, seed: Blob, root: Node)
    requires CborInverts(p.codec) && Run(StepOf(p), NewSession(), items).phase == AwaitManifestBegin
    ensures var s := Run(StepOf(p), NewSession(), items);
            && s.limits.Some? && s.schema.Some?
            && var id := DigestText(p, seed);
               Emission(p.codec, s.limits.value, id, root).Some? ==>
                 var pk := Emission(p.codec, s.limits.value, id, root).value;
                 var summary := SummaryOf(p, id, pk);
                 var r := RunAll(StepOf(p), s, ManifestItems(ManifestOf(p, s.schema.value, id, pk), s.guestSequence));
                 && r.Some? && r.value.phase == AwaitAccountDb
                 && r.value.stream.entries == summary.entryCount && r.value.stream.byteCount == summary.byteCount
                 && r.value.manifestSha256 == Some(summary.sha256)
  {
    var s := Run(StepOf(p), NewSession(), items);
    StepOfSteps(p);
    EarlyRun(p, StepOf(p), NewSession(), items);
    if Emission(p.codec, s.limits.value, DigestText(p, seed), root).Some? {
      EmittedManifestIsAccepted(p, s.limits.value, s.schema.value, seed, root, s);
    }
  }

  lemma {:induction false} ChunkItemsFramable(cs: seq<Chunk>, first: nat)
    requires first + |cs| < U64_LIMIT
    ensures Framable(ChunkItems(cs, first))
  {
    if cs != [] {
      ChunkItemsFramable(cs[..|cs| - 1], first);
    }
  }

  ghost predicate Received(s: Session, summary: Summary) {
    && s.phase == AwaitAccountDb && s.stream.entries == summary.entryCount && s.stream.byteCount == summary.byteCount
    && s.manifestSha256 == Some(summary.sha256)
  }

  /** Where a session is after all messages sent for a tree: it holds the summary's evidence,
      or the chunks of a walk that failed. */
  ghost predicate Outcome(p: Protocol, s: Session, l: Limits, id: string, root: Node) {
    match Emission(p.codec, l, id, root)
    case Some(pk) => Received(s, SummaryOf(p, id, pk))
    case None => Interrupted(s, SentChunks(p.codec, l, id, root))
  }

  /** Where a waiting session stands, and that it accepts whatever is sent for a tree. */
  ghost predicate Awaits(p: Protocol, s: Session, seed: Blob, root: Node) {
    && s.phase == AwaitManifestBegin && s.limits.Some? && LimitsOk(s.limits.value) && s.schema.Some?
    && var l, id := s.limits.value, DigestText(p, seed);
       var items := ManifestItems(SentManifest(p, l, s.schema.value, id, root), s.guestSequence);
       var r := RunAll(StepOf(p), s, items);
       Framable(items) && r.Some? && Outcome(p, r.value, l, id, root)
  }

  lemma SentIsFramable(p: Protocol, l: Limits, m: Manifest, first: nat)
    requires LimitsOk(l) && GoodChunks(FineOf(p, l, m.begin.streamId), l, m.chunks)
    requires first + MAX_ENTRIES + 2 < U64_LIMIT
    ensures Framable(ManifestItems(m, first))
  {
    FineOfFines(p, l, m.begin.streamId);
    ShortEnough(p, FineOf(p, l, m.begin.streamId), l, m.begin.streamId, m.chunks);
    ChunkItemsFramable(m.chunks, first + 1);
  }

  /** Every session that waits for a manifest accepts, in order, all messages sent for a tree,
      and a walk that fails has sent it whole entries only. */
  lemma WaitingSessionsAwait(p: Protocol, items: seq<Item>, seed: Blob, root: Node) returns (k: nat)
    requires CborInverts(p.codec) && Run(StepOf(p), NewSession(), items).phase == AwaitManifestBegin
    ensures var s := Run(StepOf(p), NewSession(), items);
            && Awaits(p, s, seed, root)
            && var l := s.limits.value;
               HoldsFirst(AdmitOf(p.codec, l), Preorder(root, []),
                          SentChunks(p.codec, l, DigestText(p, seed), root), k)
  {
    var s, id := Run(StepOf(p), NewSession(), items), DigestText(p, seed);
    StepOfSteps(p);
    EarlyRun(p, StepOf(p), NewSession(), items);
    var l, schema := s.limits.value, s.schema.value;
    FineOfFines(p, l, id);
    DigestTextIsSha(p, seed);
    var within := (piece: Piece) => EntryWithin(p.codec, l, piece);
    assert Rules(p, l, id, FineOf(p, l, id), within);
    k := SentChunksAreGood(p, l, id, FineOf(p, l, id), within, root);
    var m := SentManifest(p, l, schema, id, root);
    SentIsFramable(p, l, m, s.guestSequence);
    if Emission(p.codec, l, id, root).Some? {
      WaitingSessionsAcceptTheManifest(p, items, seed, root);
    } else {
      StartedManifestIsAccepted(p, StepOf(p), FineOf(p, l, id), l, s, m);
    }
  }

  method SendManifest(session: BuilderSession, m: Manifest)
    requires var items := ManifestItems(m, session.nextGuestSequence);
             Framable(items) && RunAll(StepOf(session.p), session.View(), items).Some?
    modifies session
    ensures RunAll(StepOf(session.p), old(session.View()), ManifestItems(m, old(session.nextGuestSequence)))
            == Some(session.View())
  {
    var items := ManifestItems(m, session.nextGuestSequence);
    AcceptedRunsAreRuns(StepOf(session.p), session.View(), items);
    AcceptEach(session, items);
  }

  /** Walker and session together, listing order and all. A waiting session object accepts every
      message that is sent. For admissible trees, and only for those, that is a whole manifest,
      and the session holds the walker's counts and digest. Otherwise nothing was sent, or the
      session holds the chunks of the first `k` entries and waits for the rest. */
  method StreamManifest(session: BuilderSession, ghost items: seq<Item>, seed: Blob, root: Node,
                        readDir: Node -> seq<Name>)
    returns (r: Option<Summary>, sent: Option<Manifest>, ghost k: nat)
    requires CborInverts(session.p.codec) && forall n :: Enumerates(readDir(n), n.children.Keys)
    requires session.View() == Run(StepOf(session.p), NewSession(), items) && session.phase == AwaitManifestBegin
    modifies session
    ensures old(session.manifestLimits).Some?
    ensures r.Some? <==>
              && root.meta.statOk && IsDirectory(root)
              && Admissible(session.p.codec, old(session.manifestLimits).value, root)
    ensures sent.Some? <==> root.meta.statOk && IsDirectory(root)
    ensures sent.None? ==> session.View() == old(session.View())
    ensures sent.Some? ==>
              && (sent.value.end.Some? <==> r.Some?)
              && RunAll(StepOf(session.p), old(session.View()),
                   ManifestItems(sent.value, old(session.nextGuestSequence))) == Some(session.View())
              && HoldsFirst(AdmitOf(session.p.codec, old(session.manifestLimits).value), Preorder(root, []),
                   sent.value.chunks, k)
    ensures r.Some? ==> Received(session.View(), r.value)
    ensures r.Some? ==> Spells(r.value.sha256, session.p.sha256(BytesIn(sent.value.chunks)))
    ensures sent.Some? && r.None? ==> Interrupted(session.View(), sent.value.chunks)
  {
    k := WaitingSessionsAwait(session.p, items, seed, root);
    var l, schema := session.manifestLimits.value, session.manifestSchema.value;
    AdmissibleIsEmitted(session.p, l, seed, root);
    r, sent := EmitManifest(session.p, l, schema, seed, root, readDir);
    if sent.Some? {
      SendManifest(session, sent.value);
    }
  }

  lemma AdmissibleIsEmitted(p: Protocol, l: Limits, seed: Blob, root: Node)
    requires CborInverts(p.codec) && LimitsOk(l)
    ensures Emission(p.codec, l, DigestText(p, seed), root).Some? <==> Admissible(p.codec, l, root)
    ensures Admissible(p.codec, l, root) ==>
              var pk := Emission(p.codec, l, DigestText(p, seed), root).value;
              Spells(DigestText(p, pk.hashed), p.sha256(BytesIn(pk.emitted)))
  {
    var id := DigestText(p, seed);
    FineOfFines(p, l, id);
    DigestTextIsSha(p, seed);
    EmissionIsExact(p, l, id, FineOf(p, l, id), (piece: Piece) => EntryWithin(p.codec, l, piece), root);
    if Admissible(p.codec, l, root) {
      HexLowerSpells(p.sha256(Emission(p.codec, l, id, root).value.hashed));
    }
  }

  // ---------------------------------------------------------------------------------------
  // Chunk limits and hardlinks

  lemma AdmitIgnoresChunkLimit(c: Codec, l: Limits, l': Limits, links: Links, v: Visit)
    requires l' == l.(maxChunkBytes := l'.maxChunkBytes)
    ensures Admit(c, l, links, v) == Admit(c, l', links, v)
  {
  }

  lemma {:induction false} PiecesIgnoreChunkLimit(c: Codec, l: Limits, l': Limits, vs: seq<Visit>)
    requires l' == l.(maxChunkBytes := l'.maxChunkBytes)
    ensures PiecesOf(AdmitOf(c, l), vs) == PiecesOf(AdmitOf(c, l'), vs)
  {
    if vs != [] {
      var front, v := vs[..|vs| - 1], vs[|vs| - 1];
      PiecesIgnoreChunkLimit(c, l, l', front);
      AdmitIgnoresChunkLimit(c, l, l', LinksOf(front), v);
    }
  }

  /** The chunk limit changes where a manifest is cut, and nothing else: not whether it can be
      emitted, not its bytes, entries or digest. */
  lemma ChunkLimitDoesNotMatter(p: Protocol, l: Limits, l': Limits, id: string, root: Node)
    requires CborInverts(p.codec) && IsSha256(id) && LimitsOk(l) && LimitsOk(l')
             && l' == l.(maxChunkBytes := l'.maxChunkBytes)
    ensures Emission(p.codec, l, id, root).Some? <==> Emission(p.codec, l', id, root).Some?
    ensures Emission(p.codec, l, id, root).Some? ==>
              SummaryOf(p, id, Emission(p.codec, l, id, root).value) ==
                  SummaryOf(p, id, Emission(p.codec, l', id, root).value)
  {
    FineOfFines(p, l, id);
    FineOfFines(p, l', id);
    EmissionIsExact(p, l, id, FineOf(p, l, id), (piece: Piece) => EntryWithin(p.codec, l, piece), root);
    EmissionIsExact(p, l', id, FineOf(p, l', id), (piece: Piece) => EntryWithin(p.codec, l', piece), root);
    PiecesIgnoreChunkLimit(p.codec, l, l', Preorder(root, []));
  }

  lemma {:induction false} PieceAt(admit: (Links, Visit) -> Option<Piece>, vs: seq<Visit>, i: nat)
    requires PiecesOf(admit, vs).Some? && i < |vs|
    ensures Some(PiecesOf(admit, vs).value[i]) == admit(LinksOf(vs[..i]), vs[i])
  {
    var n := |vs| - 1;
    if i < n {
      PieceAt(admit, vs[..n], i);
      assert vs[..n][..i] == vs[..i];
    }
  }

  /** The entry at each place of the manifest. */
  lemma EntryAt(c: Codec, l: Limits, vs: seq<Visit>, i: nat)
    requires CborInverts(c) && PiecesOf(AdmitOf(c, l), vs).Some? && i < |vs|
    ensures var e := DecodeEntry(c, PiecesOf(AdmitOf(c, l), vs).value[i]);
            e.Some? && e == EntryOf(l, vs[i].node, Relative(vs[i].path), LinkFor(LinksOf(vs[..i]), vs[i].node))
  {
    PieceAt(AdmitOf(c, l), vs, i);
    AdmittedIsWithin(c, l, LinksOf(vs[..i]), vs[i]);
  }

  /** Hardlinks: the first path of an inode with several links carries the content hash; every
      later one carries no hash and names exactly that first path. */
  lemma HardlinksNameTheFirstEntry(c: Codec, l: Limits, vs: seq<Visit>, i: nat, j: nat)
    requires CborInverts(c) && PiecesOf(AdmitOf(c, l), vs).Some? && j <= i < |vs|
    requires MultiLink(vs[i].node) && FirstLink(vs, vs[i].node.meta.inode, j)
    ensures DecodeEntry(c, PiecesOf(AdmitOf(c, l), vs).value[i]).Some?
    ensures var e := DecodeEntry(c, PiecesOf(AdmitOf(c, l), vs).value[i]).value;
            && e.path == Relative(vs[i].path)
            && (i == j ==>
                  e.contentSha256.Some? && e.contentSha256 == vs[i].node.meta.content && e.hardlinkTarget == None)
            && (j < i ==> e.contentSha256 == None && e.hardlinkTarget == Some(Relative(vs[j].path)))
  {
    EntryAt(c, l, vs, i);
    var before := vs[..i];
    if j < i {
      assert FirstLink(before, vs[i].node.meta.inode, j);
      LinksNameTheFirstPath(before, vs[i].node.meta.inode, j);
    } else {
      NoLinkYet(before, vs[i].node.meta.inode);
    }
  }

  /** A regular file with a single link always carries its own content hash. */
  lemma SingleLinksCarryContent(c: Codec, l: Limits, vs: seq<Visit>, i: nat)
    requires CborInverts(c) && PiecesOf(AdmitOf(c, l), vs).Some? && i < |vs|
    requires vs[i].node.meta.fileType == Regular && vs[i].node.meta.links <= 1
    ensures DecodeEntry(c, PiecesOf(AdmitOf(c, l), vs).value[i]).Some?
    ensures var e := DecodeEntry(c, PiecesOf(AdmitOf(c, l), vs).value[i]).value;
            e.contentSha256.Some? && e.contentSha256 == vs[i].node.meta.content && e.hardlinkTarget == None
  {
    EntryAt(c, l, vs, i);
  }

  /** Every entry of a manifest describes the node of its visit, under the path of that visit. */
  lemma EntriesDescribeTheTree(c: Codec, l: Limits, vs: seq<Visit>, i: nat)
    requires CborInverts(c) && PiecesOf(AdmitOf(c, l), vs).Some? && i < |vs|
    ensures var e := DecodeEntry(c, PiecesOf(AdmitOf(c, l), vs).value[i]);
            && e.Some? && SameNumbers(e.value, vs[i].node.meta) && SameTexts(e.value, vs[i].node.meta)
            && ((forall k :: 0 <= k < |vs[i].path| ==> vs[i].path[k] != []) ==> e.value.path == Joined(vs[i].path))
  {
    EntryAt(c, l, vs, i);
    EntryNumbers(l, vs[i].node, Relative(vs[i].path), LinkFor(LinksOf(vs[..i]), vs[i].node));
    EntryTexts(l, vs[i].node, Relative(vs[i].path), LinkFor(LinksOf(vs[..i]), vs[i].node));
    if forall k :: 0 <= k < |vs[i].path| ==> vs[i].path[k] != [] {
      RelativeIsJoined(vs[i].path);
    }
  }

  // ---------------------------------------------------------------------------------------
  // Path texts name entries uniquely

  ghost predicate Plain(path: Path) {
    forall i :: 0 <= i < |path| ==> path[i] != [] && SLASH !in path[i]
  }

  lemma LastPart(head: Blob, x: Name, head': Blob, y: Name)
    requires SLASH !in x && SLASH !in y && head + [SLASH] + x == head' + [SLASH] + y
    ensures head == head' && x == y
  {
    var text := head + [SLASH] + x;
    assert text[|head|] == SLASH && text[|head'|] == SLASH;
    assert forall k :: |head| < k < |text| ==> text[k] == x[k - |head| - 1];
    assert forall k :: |head'| < k < |text| ==> text[k] == y[k - |head'| - 1];
    assert head == text[..|head|] && head' == text[..|head'|];
    assert x == text[|head| + 1..] && y == text[|head'| + 1..];
  }

  lemma TextHasSlash(path: Path)
    requires Plain(path) && path != []
    ensures SLASH in Relative(path) <==> |path| > 1
  {
    var front := path[..|path| - 1];
    NonEmptyText(front);
    if |path| > 1 {
      assert Relative(path)[|Relative(front)|] == SLASH;
    }
  }

  /** Different paths of plain names have different texts. */
  lemma {:induction false} RelativeIsInjective(a: Path, b: Path)
    requires Plain(a) && Plain(b) && Relative(a) == Relative(b)
    ensures a == b
    decreases |a|
  {
    NonEmptyText(a);
    NonEmptyText(b);
    if a != [] {
      TextHasSlash(a);
      TextHasSlash(b);
      var fa, x, fb, y := a[..|a| - 1], a[|a| - 1], b[..|b| - 1], b[|b| - 1];
      assert a == fa + [x] && b == fb + [y];
      if |a| > 1 {
        NonEmptyText(fa);
        NonEmptyText(fb);
        LastPart(Relative(fa), x, Relative(fb), y);
        RelativeIsInjective(fa, fb);
      }
    }
  }

  lemma {:induction false} NonEmptyText(path: Path)
    requires Plain(path)
    ensures Relative(path) == [] <==> path == []
  {
    if path != [] {
      NonEmptyText(path[..|path| - 1]);
    }
  }

  lemma {:induction false} LookupPrefix(n: Node, path: Path, k: nat)
    requires WellNamed(n) && Lookup(n, path).Some? && k < |path|
    ensures Lookup(n, path[..k]).Some?
    ensures var m := Lookup(n, path[..k]).value; IsDirectory(m) && path[k] in m.children && SLASH !in path[k]
    decreases |path|
  {
    if k > 0 {
      LookupPrefix(n.children[path[0]], path[1..], k - 1);
      assert path[..k][1..] == path[1..][..k - 1];
    }
  }

  /** In an admissible tree no two entries have the same path text. */
  lemma PathTextsAreDistinct(c: Codec, l: Limits, root: Node, i: nat, j: nat)
    requires WellNamed(root) && PiecesOf(AdmitOf(c, l), Preorder(root, [])).Some? && i < j < |Preorder(root, [])|
    ensures var vs := Preorder(root, []); Relative(vs[i].path) != Relative(vs[j].path)
  {
    var vs := Preorder(root, []);
    PlainVisit(c, l, root, i);
    PlainVisit(c, l, root, j);
    PreorderIncreases(root, []);
    assert PathLess(vs[i].path, vs[j].path);
    if Relative(vs[i].path) == Relative(vs[j].path) {
      RelativeIsInjective(vs[i].path, vs[j].path);
      PathLessIrreflexive(vs[i].path);
    }
  }

  lemma AdmittedNames(c: Codec, l: Limits, vs: seq<Visit>, h: nat)
    requires PiecesOf(AdmitOf(c, l), vs).Some? && h < |vs| && IsDirectory(vs[h].node)
    ensures forall name <- vs[h].node.children :: NameOk(name)
  {
    PieceAt(AdmitOf(c, l), vs, h);
  }

  lemma PlainName(c: Codec, l: Limits, root: Node, path: Path, k: nat)
    requires WellNamed(root) && PiecesOf(AdmitOf(c, l), Preorder(root, [])).Some?
    requires Lookup(root, path).Some? && k < |path|
    ensures path[k] != [] && SLASH !in path[k]
  {
    var vs := Preorder(root, []);
    LookupPrefix(root, path, k);
    var v := Visit(path[..k], Lookup(root, path[..k]).value);
    EntryIsVisited(root, v);
    var h :| 0 <= h < |vs| && vs[h] == v;
    AdmittedNames(c, l, vs, h);
    assert NameOk(path[k]);
  }

  lemma PlainVisit(c: Codec, l: Limits, root: Node, i: nat)
    requires WellNamed(root) && PiecesOf(AdmitOf(c, l), Preorder(root, [])).Some? && i < |Preorder(root, [])|
    ensures Plain(Preorder(root, [])[i].path)
  {
    var v := Preorder(root, [])[i];
    EntryIsVisited(root, v);
    forall k | 0 <= k < |v.path| ensures v.path[k] != [] && SLASH !in v.path[k] {
      PlainName(c, l, root, v.path, k);
    }
  }
}
