/** Whole runs of the builder session: refused messages leave no trace, and a session ends in
    Completed exactly when the accepted messages tell one complete, consistent build. */
module BuilderRuns {
  import opened Bytes
  import opened ManifestEntries
  import opened BuilderSession

  datatype Item = Item(direction: Direction, message: Message, sequence: nat)

  predicate Look(s: Session, i: Item) { true }

  /** `step` is the session's reaction to one item; it is looked up only where `Look` is
      mentioned. */
  ghost predicate Steps(p: Protocol, step: (Session, Item) -> Option<Session>) {
    forall s, i {:trigger Look(s, i)} :: Look(s, i) ==> step(s, i) == Accept(p, s, i.direction, i.message, i.sequence)
  }

  ghost function StepOf(p: Protocol): (Session, Item) -> Option<Session> {
    (s: Session, i: Item) => Accept(p, s, i.direction, i.message, i.sequence)
  }

  lemma StepOfSteps(p: Protocol)
    ensures Steps(p, StepOf(p))
  {
  }

  // ---------------------------------------------------------------------------------------
  // Refused messages leave no trace

  /** A run over arbitrary messages: a refused one changes nothing. */
  ghost function Run(step: (Session, Item) -> Option<Session>, s: Session, items: seq<Item>): Session
    decreases |items|
  {
    if items == [] then s
    else if step(s, items[0]).Some? then Run(step, step(s, items[0]).value, items[1..])
    else Run(step, s, items[1..])
  }

  /** The messages that were accepted. */
  ghost function Kept(step: (Session, Item) -> Option<Session>, s: Session, items: seq<Item>): seq<Item>
    decreases |items|
  {
    if items == [] then []
    else if step(s, items[0]).Some? then [items[0]] + Kept(step, step(s, items[0]).value, items[1..])
    else Kept(step, s, items[1..])
  }

  /** A run in which every message is accepted. */
  ghost function RunAll(step: (Session, Item) -> Option<Session>, s: Session, items: seq<Item>): Option<Session>
    decreases |items|
  {
    if items == [] then Some(s)
    else if step(s, items[0]).Some? then RunAll(step, step(s, items[0]).value, items[1..])
    else None
  }

  /** Deleting all refused messages from a run leaves the final state unchanged. */
  lemma {:induction false} RefusedMessagesVanish(step: (Session, Item) -> Option<Session>, s: Session, items: seq<Item>)
    ensures RunAll(step, s, Kept(step, s, items)) == Some(Run(step, s, items))
    decreases |items|
  {
    if items != [] {
      if step(s, items[0]).Some? {
        var s' := step(s, items[0]).value;
        RefusedMessagesVanish(step, s', items[1..]);
        assert ([items[0]] + Kept(step, s', items[1..]))[1..] == Kept(step, s', items[1..]);
      } else {
        RefusedMessagesVanish(step, s, items[1..]);
      }
    }
  }

  /** Frame sequences are 64-bit numbers. */
  predicate Framable(items: seq<Item>) {
    forall i :: 0 <= i < |items| ==> items[i].sequence < U64_LIMIT
  }

  /** The session object over a whole run, refused messages included: it ends in the state of
      the run, and in the same state as if the refused messages had never been sent. */
  method AcceptEach(session: BuilderSession, items: seq<Item>)
    requires Framable(items)
    modifies session
    ensures session.View() == Run(StepOf(session.p), old(session.View()), items)
    ensures var step, start := StepOf(session.p), old(session.View());
            RunAll(step, start, Kept(step, start, items)) == Some(session.View())
  {
    ghost var step, start := StepOf(session.p), session.View();
    assert items[0..] == items;
    for i := 0 to |items|
      invariant Run(step, session.View(), items[i..]) == Run(step, start, items)
    {
      assert items[i..][0] == items[i] && items[i..][1..] == items[i + 1..];
      var ok := session.AcceptMessage(items[i].direction, items[i].message, items[i].sequence);
    }
    RefusedMessagesVanish(step, start, items);
  }

  lemma {:induction false} AcceptedRunsAreRuns(step: (Session, Item) -> Option<Session>, s: Session, items: seq<Item>)
    requires RunAll(step, s, items).Some?
    ensures Run(step, s, items) == RunAll(step, s, items).value
    decreases |items|
  {
    if items != [] {
      AcceptedRunsAreRuns(step, step(s, items[0]).value, items[1..]);
    }
  }

  lemma {:induction false} RunAllAppend(step: (Session, Item) -> Option<Session>, s: Session, a: seq<Item>,
                                        b: seq<Item>)
    requires RunAll(step, s, a).Some?
    ensures RunAll(step, s, a + b) == RunAll(step, RunAll(step, s, a).value, b)
    decreases |a|
  {
    if a == [] {
      assert a + b == b;
    } else {
      assert (a + b)[1..] == a[1..] + b;
      RunAllAppend(step, step(s, a[0]).value, a[1..], b);
    }
  }

  lemma RunOne(step: (Session, Item) -> Option<Session>, s: Session, i: Item, rest: seq<Item>)
    ensures RunAll(step, s, [i] + rest) == if step(s, i).Some? then RunAll(step, step(s, i).value, rest) else None
  {
    assert ([i] + rest)[1..] == rest;
  }

  // ---------------------------------------------------------------------------------------
  // Chunks

  ghost function EntriesIn(cs: seq<Chunk>): nat {
    if cs == [] then 0 else EntriesIn(cs[..|cs| - 1]) + cs[|cs| - 1].entryCount
  }

  ghost function BytesIn(cs: seq<Chunk>): Blob {
    if cs == [] then [] else BytesIn(cs[..|cs| - 1]) + cs[|cs| - 1].bytes
  }

  /** Each chunk is fine on its own and continues the ones before it. */
  ghost predicate Placed(fine: Chunk -> bool, cs: seq<Chunk>) {
    cs == [] ||
      var front, c := cs[..|cs| - 1], cs[|cs| - 1];
      Placed(fine, front) && fine(c) && c.sequence == |front| && c.firstEntry == EntriesIn(front)
  }

  /** Every chunk is fine on its own, sequences and entry ranges are contiguous, and the totals
      stay within the negotiated limits. */
  ghost predicate GoodChunks(fine: Chunk -> bool, l: Limits, cs: seq<Chunk>) {
    Placed(fine, cs) && EntriesIn(cs) <= l.maxEntries && |BytesIn(cs)| <= l.maxTotalBytes
  }

  /** The same, chunk by chunk. */
  lemma {:induction false} PlacedAt(fine: Chunk -> bool, cs: seq<Chunk>, i: nat)
    requires Placed(fine, cs) && i < |cs|
    ensures fine(cs[i]) && cs[i].sequence == i && cs[i].firstEntry == EntriesIn(cs[..i])
  {
    var n := |cs| - 1;
    if i < n {
      PlacedAt(fine, cs[..n], i);
      assert cs[..n][..i] == cs[..i];
    }
  }

  ghost predicate CountsEntries(fine: Chunk -> bool) {
    forall c :: fine(c) ==> c.entryCount > 0
  }

  ghost function TakeFine(fine: Chunk -> bool, l: Limits, s: Stream, c: Chunk): Option<Stream> {
    if && fine(c) && c.sequence == s.chunks && c.firstEntry == s.entries
       && s.entries + c.entryCount < U64_LIMIT && s.entries + c.entryCount <= l.maxEntries
       && s.byteCount + |c.bytes| < U64_LIMIT && s.byteCount + |c.bytes| <= l.maxTotalBytes
       && s.chunks + 1 < U64_LIMIT
    then Some(Stream(s.chunks + 1, s.entries + c.entryCount, s.byteCount + |c.bytes|, s.hashed + c.bytes))
    else None
  }

  ghost function TakeAll(fine: Chunk -> bool, l: Limits, cs: seq<Chunk>): Option<Stream> {
    if cs == [] then Some(Stream(0, 0, 0, []))
    else match TakeAll(fine, l, cs[..|cs| - 1])
      case None => None
      case Some(s) => TakeFine(fine, l, s, cs[|cs| - 1])
  }

  ghost function StreamOf(cs: seq<Chunk>): Stream {
    Stream(|cs|, EntriesIn(cs), |BytesIn(cs)|, BytesIn(cs))
  }

  lemma {:induction false} ChunksCount(fine: Chunk -> bool, cs: seq<Chunk>)
    requires CountsEntries(fine) && Placed(fine, cs)
    ensures |cs| <= EntriesIn(cs)
  {
    if cs != [] {
      ChunksCount(fine, cs[..|cs| - 1]);
    }
  }

  /** Taking chunk after chunk succeeds exactly on good chunks; sequences never run out. */
  lemma {:induction false} TakeAllExact(fine: Chunk -> bool, l: Limits, cs: seq<Chunk>)
    requires CountsEntries(fine) && LimitsOk(l)
    ensures TakeAll(fine, l, cs).Some? <==> GoodChunks(fine, l, cs)
    ensures TakeAll(fine, l, cs).Some? ==> TakeAll(fine, l, cs).value == StreamOf(cs)
  {
    if cs != [] {
      var front, c := cs[..|cs| - 1], cs[|cs| - 1];
      TakeAllExact(fine, l, front);
      if Placed(fine, front) {
        ChunksCount(fine, front);
      }
    }
  }

  // ---------------------------------------------------------------------------------------
  // What the session does in each phase

  /** A chunk that is valid as a message and within the negotiated limits. */
  ghost predicate FineChunk(p: Protocol, l: Limits, streamId: string, c: Chunk) {
    ChunkShapeOk(c) && ChunkWithin(p, l, streamId, c)
  }

  ghost function FineOf(p: Protocol, l: Limits, streamId: string): Chunk -> bool {
    c => FineChunk(p, l, streamId, c)
  }

  predicate Mark(c: Chunk) { true }

  /** `fine` is the verdict on single chunks; it is looked up only where `Mark` is mentioned. */
  ghost predicate Fines(p: Protocol, l: Limits, streamId: string, fine: Chunk -> bool) {
    (forall c {:trigger Mark(c)} :: Mark(c) ==> fine(c) == FineChunk(p, l, streamId, c)) && CountsEntries(fine)
  }

  lemma FineOfFines(p: Protocol, l: Limits, streamId: string)
    ensures Fines(p, l, streamId, FineOf(p, l, streamId))
  {
  }

  /** The piece is the canonical encoding of a valid entry within the negotiated limits. */
  ghost predicate EncodesEntry(p: Protocol, l: Limits, piece: Piece, e: Entry) {
    && EncodeEntry(p.codec, e) == Some(piece) && |piece| <= l.maxEntryBytes && |e.path| <= l.maxPathBytes
    && |e.xattrs| <= l.maxXattrsPerEntry && XattrBytes(e.xattrs) <= l.maxXattrBytesPerEntry
  }

  /** The bytes are the framing of these pieces, each of which encodes an entry. */
  ghost predicate CarriesEntries(p: Protocol, l: Limits, bytes: Blob, ps: seq<Piece>) {
    Framed(ps) == bytes && forall i :: 0 <= i < |ps| ==> IsEntry(p, l, ps[i])
  }

  ghost predicate IsEntry(p: Protocol, l: Limits, piece: Piece) {
    exists e :: EncodesEntry(p, l, piece, e)
  }

  lemma WithinIsEncoded(p: Protocol, l: Limits, piece: Piece)
    requires CborInverts(p.codec)
    ensures EntryWithin(p.codec, l, piece) && |piece| <= l.maxEntryBytes <==> IsEntry(p, l, piece)
  {
    if EntryWithin(p.codec, l, piece) && |piece| <= l.maxEntryBytes {
      EntryCodec(p.codec, DecodeEntry(p.codec, piece).value, piece);
      assert EncodesEntry(p, l, piece, DecodeEntry(p.codec, piece).value);
    }
    if e :| EncodesEntry(p, l, piece, e) {
      EntryCodec(p.codec, e, piece);
    }
  }

  lemma CarriedIsWithin(p: Protocol, l: Limits, c: Chunk, ps: seq<Piece>)
    requires CborInverts(p.codec) && LimitsOk(l) && CarriesEntries(p, l, c.bytes, ps) && |ps| == c.entryCount > 0
    ensures ChunkPieces(l, c) == Some(ps) == Split(c.bytes, MAX_ENTRY_BYTES) && EntriesWithin(p.codec, l, ps)
    ensures c.bytes != []
  {
    forall i | 0 <= i < |ps| ensures EntryWithin(p.codec, l, ps[i]) && |ps[i]| <= l.maxEntryBytes {
      WithinIsEncoded(p, l, ps[i]);
    }
    SplitExact(c.bytes, l.maxEntryBytes, ps);
    SplitExact(c.bytes, MAX_ENTRY_BYTES, ps);
  }

  lemma WithinIsCarried(p: Protocol, l: Limits, c: Chunk)
    requires CborInverts(p.codec) && LimitsOk(l)
    requires ChunkPieces(l, c).Some? && EntriesWithin(p.codec, l, ChunkPieces(l, c).value)
    ensures CarriesEntries(p, l, c.bytes, ChunkPieces(l, c).value)
  {
    var ps := ChunkPieces(l, c).value;
    SplitExact(c.bytes, l.maxEntryBytes, ps);
    assert AtMost(ps, l.maxEntryBytes);
    forall i | 0 <= i < |ps| ensures IsEntry(p, l, ps[i]) {
      WithinIsEncoded(p, l, ps[i]);
    }
  }

  /** A chunk is fine exactly when it belongs to the stream, is not too long, and is the framing of
      as many encoded entries as it says, at least one, all within the negotiated limits. */
  lemma FineChunkMeans(p: Protocol, l: Limits, streamId: string, c: Chunk)
    requires CborInverts(p.codec) && LimitsOk(l)
    ensures FineChunk(p, l, streamId, c) <==>
              && c.streamId == streamId && IsSha256(streamId) && |c.bytes| <= l.maxChunkBytes && c.entryCount > 0
              && exists ps :: |ps| == c.entryCount && CarriesEntries(p, l, c.bytes, ps)
  {
    if FineChunk(p, l, streamId, c) {
      WithinIsCarried(p, l, c);
    }
    if c.entryCount > 0 {
      forall ps | |ps| == c.entryCount && CarriesEntries(p, l, c.bytes, ps)
        ensures ChunkPieces(l, c) == Some(ps) == Split(c.bytes, MAX_ENTRY_BYTES) && EntriesWithin(p.codec, l, ps)
             && c.bytes != []
      {
        CarriedIsWithin(p, l, c, ps);
      }
    }
  }

  /** The item is the guest's next one and not the last possible. */
  ghost predicate FromGuest(s: Session, i: Item) {
    i.direction == GuestToHost && i.sequence == s.guestSequence && i.sequence + 1 < U64_LIMIT
  }

  ghost function Guest(s: Session): Session
    requires s.guestSequence + 1 < U64_LIMIT
  {
    s.(guestSequence := s.guestSequence + 1)
  }

  lemma AtHello(p: Protocol, step: (Session, Item) -> Option<Session>, s: Session, i: Item)
    requires Steps(p, step) && s.phase == AwaitHello
    ensures step(s, i).Some? <==> FromGuest(s, i) && i.message.HelloMessage? && p.helloOk(i.message.hello)
    ensures step(s, i).Some? ==>
              step(s, i).value == AfterHello(Guest(s), i.message.hello)
  {
    assert Look(s, i);
  }

  lemma AtStart(p: Protocol, step: (Session, Item) -> Option<Session>, s: Session, i: Item)
    requires Steps(p, step) && s.phase == AwaitStart
    ensures i.direction == HostToGuest ==>
              (step(s, i).Some? <==>
                 && i.sequence == s.hostSequence && i.sequence + 1 < U64_LIMIT
                 && i.message.StartMessage? && MessageOk(p, i.message) && AcceptStart(s, i.message.start).Some?)
    ensures i.direction == HostToGuest && step(s, i).Some? ==>
              step(s, i).value == AcceptStart(s, i.message.start).value.(hostSequence := s.hostSequence + 1)
    ensures i.direction == GuestToHost && step(s, i).Some? ==> step(s, i).value.phase == Failed
  {
    assert Look(s, i);
  }

  lemma AtBegin(p: Protocol, step: (Session, Item) -> Option<Session>, s: Session, i: Item)
    requires Steps(p, step) && s.phase == AwaitManifestBegin
    ensures i.message.BeginMessage? ==>
              (step(s, i).Some? <==>
                 FromGuest(s, i) && MessageOk(p, i.message) && s.schema == Some(i.message.begin.schema))
    ensures i.message.BeginMessage? && step(s, i).Some? ==>
              step(s, i).value == Guest(s).(streamId := Some(i.message.begin.streamId), stream := Stream(0, 0, 0, []),
                  phase := StreamingManifest)
    ensures !i.message.BeginMessage? && step(s, i).Some? ==> step(s, i).value.phase == Failed
  {
    assert Look(s, i);
  }

  lemma AtChunk(p: Protocol, step: (Session, Item) -> Option<Session>, fine: Chunk -> bool, s: Session, i: Item)
    requires Steps(p, step) && s.phase == StreamingManifest && s.streamId.Some? && s.limits.Some?
    requires i.message.ChunkMessage? && Fines(p, s.limits.value, s.streamId.value, fine)
    ensures step(s, i).Some? <==> FromGuest(s, i) && TakeFine(fine, s.limits.value, s.stream, i.message.chunk).Some?
    ensures step(s, i).Some? ==>
            step(s, i).value == Guest(s).(stream := TakeFine(fine, s.limits.value, s.stream, i.message.chunk).value)
  {
    assert Mark(i.message.chunk);
    assert Look(s, i);
  }

  lemma AtEnd(p: Protocol, step: (Session, Item) -> Option<Session>, s: Session, i: Item)
    requires Steps(p, step) && s.phase == StreamingManifest && !i.message.ChunkMessage?
    ensures i.message.EndMessage? ==>
              (step(s, i).Some? <==> FromGuest(s, i) && MessageOk(p, i.message) && AcceptEnd(p, s, i.message.end).Some?)
    ensures i.message.EndMessage? && step(s, i).Some? ==>
            step(s, i).value == AcceptEnd(p, Guest(s), i.message.end).value
    ensures !i.message.EndMessage? && step(s, i).Some? ==> step(s, i).value.phase == Failed
  {
    assert Look(s, i);
  }

  /** An ERROR of the guest ends the session in every phase between the first and the last, and
      nothing else does. */
  lemma AtError(p: Protocol, step: (Session, Item) -> Option<Session>, s: Session, i: Item)
    requires Steps(p, step)
    ensures i.message.ErrorMessage? ==>
              (step(s, i).Some? <==>
                 && FromGuest(s, i) && MessageOk(p, i.message)
                 && s.phase != AwaitHello && s.phase != Completed && s.phase != Failed)
    ensures step(s, i).Some? ==> (i.message.ErrorMessage? <==> step(s, i).value.phase == Failed)
    ensures step(s, i).Some? && i.message.ErrorMessage? ==> step(s, i).value == Guest(s).(phase := Failed)
  {
    assert Look(s, i);
  }

  /** An END is accepted only if its text spells the digest of the bytes received. */
  lemma EndSpellsTheDigest(p: Protocol, step: (Session, Item) -> Option<Session>, s: Session, i: Item)
    requires Steps(p, step) && s.phase == StreamingManifest && i.message.EndMessage? && step(s, i).Some?
    ensures Spells(i.message.end.sha256, p.sha256(s.stream.hashed))
  {
    AtEnd(p, step, s, i);
    HexLowerSpells(p.sha256(s.stream.hashed));
  }

  /** If one END is accepted after two streams, their bytes have the same digest. */
  lemma OneEndOneDigest(p: Protocol, step: (Session, Item) -> Option<Session>, s: Session, t: Session, i: Item, j: Item)
    requires Steps(p, step) && s.phase == t.phase == StreamingManifest && i.message == j.message
    requires i.message.EndMessage? && step(s, i).Some? && step(t, j).Some?
    ensures p.sha256(s.stream.hashed) == p.sha256(t.stream.hashed)
  {
    EndSpellsTheDigest(p, step, s, i);
    EndSpellsTheDigest(p, step, t, j);
    SpellingIsUnique(i.message.end.sha256, p.sha256(s.stream.hashed), p.sha256(t.stream.hashed));
  }

  lemma AtAccount(p: Protocol, step: (Session, Item) -> Option<Session>, s: Session, i: Item)
    requires Steps(p, step) && s.phase == AwaitAccountDb
    ensures i.message.AccountMessage? ==> (step(s, i).Some? <==> FromGuest(s, i) && p.accountOk(i.message.account))
    ensures i.message.AccountMessage? && step(s, i).Some? ==>
              step(s, i).value == AfterAccountDb(Guest(s), i.message.account)
    ensures !i.message.AccountMessage? && step(s, i).Some? ==> step(s, i).value.phase == Failed
  {
    assert Look(s, i);
  }

  lemma AtDone(p: Protocol, step: (Session, Item) -> Option<Session>, s: Session, i: Item)
    requires Steps(p, step) && s.phase == AwaitDone
    ensures i.message.DoneMessage? ==>
              (step(s, i).Some? <==> FromGuest(s, i) && p.doneOk(i.message.done) && AcceptDone(s, i.message.done).Some?)
    ensures i.message.DoneMessage? && step(s, i).Some? ==> step(s, i).value == Guest(s).(phase := Completed)
    ensures !i.message.DoneMessage? && step(s, i).Some? ==> step(s, i).value.phase == Failed
  {
    assert Look(s, i);
  }

  /** Completed and Failed accept nothing more. */
  lemma AtRest(p: Protocol, step: (Session, Item) -> Option<Session>, s: Session, i: Item)
    requires Steps(p, step) && (s.phase == Completed || s.phase == Failed)
    ensures step(s, i) == None
  {
    assert Look(s, i);
  }

  ghost predicate Completes(step: (Session, Item) -> Option<Session>, s: Session, items: seq<Item>) {
    RunAll(step, s, items).Some? && RunAll(step, s, items).value.phase == Completed
  }

  lemma RestIsOver(p: Protocol, step: (Session, Item) -> Option<Session>, s: Session, items: seq<Item>)
    requires Steps(p, step) && (s.phase == Completed || s.phase == Failed)
    ensures Completes(step, s, items) <==> items == [] && s.phase == Completed
  {
    if items != [] {
      AtRest(p, step, s, items[0]);
    }
  }
}
