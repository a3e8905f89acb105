/** What a completed build is: one hello, one start, one begun manifest, its chunks, its end, the
    account database and the final report, with everything in them agreeing. */
module BuilderStory {
  import opened Bytes
  import opened ManifestEntries
  import opened BuilderSession
  import opened BuilderRuns

  datatype Story = Story(hello: Hello, start: Start, begin: Begin, chunks: seq<Chunk>, end: End, account: AccountDb,
      done: Done)

  function ChunkItems(cs: seq<Chunk>, first: nat): (items: seq<Item>)
    ensures |items| == |cs|
  {
    if cs == [] then []
    else ChunkItems(cs[..|cs| - 1], first) + [Item(GuestToHost, ChunkMessage(cs[|cs| - 1]), first + |cs| - 1)]
  }

  /** The last three messages, from a given guest sequence. */
  function Tail(end: End, account: AccountDb, done: Done, first: nat): seq<Item> {
    [Item(GuestToHost, EndMessage(end), first), Item(GuestToHost, AccountMessage(account), first + 1),
     Item(GuestToHost, DoneMessage(done), first + 2)]
  }

  function Opening(hello: Hello, start: Start, begin: Begin): seq<Item> {
    [Item(GuestToHost, HelloMessage(hello), 0), Item(HostToGuest, StartMessage(start), 0),
        Item(GuestToHost, BeginMessage(begin), 1)]
  }

  /** The messages of a story in order, each direction numbered from zero without gaps. */
  function Items(t: Story): seq<Item> {
    Opening(t.hello, t.start, t.begin) + (ChunkItems(t.chunks, 2) + Tail(t.end, t.account, t.done, 2 + |t.chunks|))
  }

  ghost predicate OpeningOk(p: Protocol, hello: Hello, start: Start, begin: Begin) {
    && p.helloOk(hello) && MessageOk(p, StartMessage(start)) && MessageOk(p, BeginMessage(begin))
    && hello.tools == start.tools && hello.physmem >= start.physmem
    && begin.schema == start.schema
  }

  /** Totals and digests are those of the chunks; tools, user and account database agree. */
  ghost predicate TailOk(p: Protocol, start: Start, streamId: string, entries: nat, bytes: Blob, end: End,
                         account: AccountDb, done: Done) {
    && MessageOk(p, EndMessage(end)) && p.accountOk(account) && p.doneOk(done)
    && end.streamId == streamId && end.entryCount == entries && end.byteCount == |bytes|
      && end.sha256 == DigestText(p, bytes)
    && done.manifestSha256 == DigestText(p, bytes) && done.entryCount == entries && done.byteCount == |bytes|
    && done.originalUser == start.originalUser && done.accountDbSha256 == account.sha256 && done.tools == start.tools
  }

  ghost predicate GoodStory(p: Protocol, t: Story) {
    && OpeningOk(p, t.hello, t.start, t.begin)
    && GoodChunks(FineOf(p, t.start.limits, t.begin.streamId), t.start.limits, t.chunks)
    && TailOk(p, t.start, t.begin.streamId, EntriesIn(t.chunks), BytesIn(t.chunks), t.end, t.account, t.done)
  }

  // ---------------------------------------------------------------------------------------
  // The tail

  ghost predicate DoneFits(p: Protocol, s: Session, i: Item) {
    FromGuest(s, i) && i.message.DoneMessage? && p.doneOk(i.message.done) && AcceptDone(s, i.message.done).Some?
  }

  lemma FromDone(p: Protocol, step: (Session, Item) -> Option<Session>, s: Session, items: seq<Item>)
    requires Steps(p, step) && s.phase == AwaitDone
    ensures Completes(step, s, items) <==> |items| == 1 && DoneFits(p, s, items[0])
  {
    if items != [] {
      AtDone(p, step, s, items[0]);
      if step(s, items[0]).Some? {
        RestIsOver(p, step, step(s, items[0]).value, items[1..]);
      }
    }
  }

  ghost predicate AccountFits(p: Protocol, s: Session, i: Item) {
    FromGuest(s, i) && i.message.AccountMessage? && p.accountOk(i.message.account)
  }

  ghost function AfterAccount(s: Session, i: Item): Session
    requires FromGuest(s, i) && i.message.AccountMessage?
  {
    Guest(s).(accountDbSha256 := Some(i.message.account.sha256), phase := AwaitDone)
  }

  lemma FromAccount(p: Protocol, step: (Session, Item) -> Option<Session>, s: Session, items: seq<Item>)
    requires Steps(p, step) && s.phase == AwaitAccountDb
    ensures Completes(step, s, items) <==>
              |items| == 2 && AccountFits(p, s, items[0]) && DoneFits(p, AfterAccount(s, items[0]), items[1])
  {
    if items != [] {
      AtAccount(p, step, s, items[0]);
      if step(s, items[0]).Some? {
        if items[0].message.AccountMessage? {
          FromDone(p, step, step(s, items[0]).value, items[1..]);
        } else {
          RestIsOver(p, step, step(s, items[0]).value, items[1..]);
        }
      }
    }
  }

  ghost predicate EndFits(p: Protocol, s: Session, i: Item) {
    FromGuest(s, i) && i.message.EndMessage? && MessageOk(p, i.message) && AcceptEnd(p, s, i.message.end).Some?
  }

  ghost function AfterEnd(p: Protocol, s: Session, i: Item): Session
    requires EndFits(p, s, i)
  {
    AcceptEnd(p, Guest(s), i.message.end).value
  }

  ghost predicate TailFits(p: Protocol, s: Session, items: seq<Item>) {
    && |items| == 3 && EndFits(p, s, items[0])
    && AccountFits(p, AfterEnd(p, s, items[0]), items[1])
    && DoneFits(p, AfterAccount(AfterEnd(p, s, items[0]), items[1]), items[2])
  }

  lemma FromEnd(p: Protocol, step: (Session, Item) -> Option<Session>, s: Session, items: seq<Item>)
    requires Steps(p, step) && s.phase == StreamingManifest && (items == [] || !items[0].message.ChunkMessage?)
    ensures Completes(step, s, items) <==> TailFits(p, s, items)
  {
    if items != [] {
      AtEnd(p, step, s, items[0]);
      if step(s, items[0]).Some? {
        if items[0].message.EndMessage? {
          FromAccount(p, step, step(s, items[0]).value, items[1..]);
        } else {
          RestIsOver(p, step, step(s, items[0]).value, items[1..]);
        }
      }
    }
  }

  /** The last three messages fit exactly when they are the tail of this story. */
  lemma TailMeaning(p: Protocol, s: Session, start: Start, items: seq<Item>)
    requires s.streamId.Some? && s.originalUser == Some(start.originalUser) && s.expectedTools == Some(start.tools)
    requires s.stream.byteCount == |s.stream.hashed| && s.guestSequence + 3 < U64_LIMIT
    requires |items| == 3 && items[0].message.EndMessage? && items[1].message.AccountMessage?
             && items[2].message.DoneMessage?
    ensures TailFits(p, s, items) <==>
              var (end, account, done) := (items[0].message.end, items[1].message.account, items[2].message.done);
              && items == Tail(end, account, done, s.guestSequence)
              && TailOk(p, start, s.streamId.value, s.stream.entries, s.stream.hashed, end, account, done)
  {
  }

  // ---------------------------------------------------------------------------------------
  // The chunks

  lemma {:induction false} ChunkItemsCons(c: Chunk, cs: seq<Chunk>, first: nat)
    ensures ChunkItems([c] + cs, first) == [Item(GuestToHost, ChunkMessage(c), first)] + ChunkItems(cs, first + 1)
  {
    var n := |cs| - 1;
    if cs == [] {
      assert [c] + cs == [c] && [c][..0] == [];
    } else {
      assert ([c] + cs)[..|cs|] == [c] + cs[..n];
      ChunkItemsCons(c, cs[..n], first);
    }
  }

  /** Where a streaming session stands after some chunks. */
  ghost function Later(s: Session, chunks: nat, stream: Stream): Session
    requires s.guestSequence + chunks < U64_LIMIT
  {
    s.(guestSequence := s.guestSequence + chunks, stream := stream)
  }

  ghost predicate Streams(p: Protocol, fine: Chunk -> bool, l: Limits, s: Session) {
    s.phase == StreamingManifest && s.streamId.Some? && s.limits == Some(l) && Fines(p, l, s.streamId.value, fine)
  }

  lemma TakeAllSnoc(fine: Chunk -> bool, l: Limits, cs: seq<Chunk>, c: Chunk)
    requires TakeAll(fine, l, cs).Some?
    ensures TakeAll(fine, l, cs + [c]) == TakeFine(fine, l, TakeAll(fine, l, cs).value, c)
  {
    assert (cs + [c])[..|cs|] == cs;
  }

  /** Good chunks, numbered on from the session's guest sequence, are all accepted. */
  lemma {:induction false} GoodChunksAreAccepted(p: Protocol, step: (Session, Item) -> Option<Session>,
                                                 fine: Chunk -> bool, l: Limits, s: Session, cs: seq<Chunk>)
    requires Steps(p, step) && Streams(p, fine, l, s) && s.stream == Stream(0, 0, 0, [])
    requires TakeAll(fine, l, cs).Some? && s.guestSequence + |cs| < U64_LIMIT
    ensures RunAll(step, s, ChunkItems(cs, s.guestSequence)) == Some(Later(s, |cs|, TakeAll(fine, l, cs).value))
  {
    if cs != [] {
      var front, c := cs[..|cs| - 1], cs[|cs| - 1];
      var i := Item(GuestToHost, ChunkMessage(c), s.guestSequence + |front|);
      GoodChunksAreAccepted(p, step, fine, l, s, front);
      RunAllAppend(step, s, ChunkItems(front, s.guestSequence), [i]);
      var middle := Later(s, |front|, TakeAll(fine, l, front).value);
      AtChunk(p, step, fine, middle, i);
      RunOne(step, middle, i, []);
      assert [i] + [] == [i];
    }
  }

  /** One accepted chunk of a session that completes. */
  lemma OneChunk(p: Protocol, step: (Session, Item) -> Option<Session>, fine: Chunk -> bool, l: Limits, s: Session,
                 cs: seq<Chunk>, items: seq<Item>)
    returns (s': Session)
    requires Steps(p, step) && Streams(p, fine, l, s) && TakeAll(fine, l, cs) == Some(s.stream)
    requires Completes(step, s, items) && items != [] && items[0].message.ChunkMessage?
    ensures s.guestSequence + 1 < U64_LIMIT
    ensures items[0] == Item(GuestToHost, items[0].message, s.guestSequence) && Completes(step, s', items[1..])
    ensures s' == Later(s, 1, s'.stream) && TakeAll(fine, l, cs + [items[0].message.chunk]) == Some(s'.stream)
  {
    AtChunk(p, step, fine, s, items[0]);
    TakeAllSnoc(fine, l, cs, items[0].message.chunk);
    s' := step(s, items[0]).value;
  }

  /** A streaming session that completes: the next messages are chunks that continue the stream,
      then comes the tail. */
  lemma {:induction false} FromStreaming(p: Protocol, step: (Session, Item) -> Option<Session>, fine: Chunk -> bool,
                                         l: Limits, s: Session, cs: seq<Chunk>, items: seq<Item>)
    returns (more: seq<Chunk>)
    requires Steps(p, step) && Streams(p, fine, l, s) && TakeAll(fine, l, cs) == Some(s.stream)
    requires Completes(step, s, items)
    ensures |more| <= |items| && s.guestSequence + |more| < U64_LIMIT
    ensures items[..|more|] == ChunkItems(more, s.guestSequence)
    ensures |more| < |items| ==> !items[|more|].message.ChunkMessage?
    ensures TakeAll(fine, l, cs + more).Some?
    ensures Completes(step, Later(s, |more|, TakeAll(fine, l, cs + more).value), items[|more|..])
    decreases |items|
  {
    if items == [] || !items[0].message.ChunkMessage? {
      more := [];
      assert cs + [] == cs && items[0..] == items;
    } else {
      var c := items[0].message.chunk;
      var s' := OneChunk(p, step, fine, l, s, cs, items);
      var rest := FromStreaming(p, step, fine, l, s', cs + [c], items[1..]);
      more := [c] + rest;
      assert cs + [c] + rest == cs + more;
      ghost var stream := TakeAll(fine, l, cs + more).value;
      assert Later(s', |rest|, stream) == Later(s, |more|, stream);
      SplitItems(items, c, rest, s.guestSequence);
    }
  }

  lemma Slices<T>(s: seq<T>, n: nat)
    requires |s| > n
    ensures s[..1 + n] == [s[0]] + s[1..][..n] && s[1 + n..] == s[1..][n..]
  {
  }

  lemma SplitItems(items: seq<Item>, c: Chunk, rest: seq<Chunk>, first: nat)
    requires |items| > |rest| && items[0] == Item(GuestToHost, ChunkMessage(c), first)
    requires items[1..][..|rest|] == ChunkItems(rest, first + 1)
    ensures items[..1 + |rest|] == ChunkItems([c] + rest, first) && items[1 + |rest|..] == items[1..][|rest|..]
  {
    ChunkItemsCons(c, rest, first);
    Slices(items, |rest|);
  }

  // ---------------------------------------------------------------------------------------
  // The whole build

  /** The session once the manifest has begun. */
  function Begun(hello: Hello, start: Start, begin: Begin): Session {
    Session(StreamingManifest, 1, 2, Some(hello.tools), Some(hello.physmem), Some(start.tools),
            Some(start.originalUser), Some(start.schema), Some(start.limits), Some(begin.streamId),
            Stream(0, 0, 0, []), None, None)
  }

  lemma OpeningRuns(p: Protocol, step: (Session, Item) -> Option<Session>, hello: Hello, start: Start, begin: Begin,
                    rest: seq<Item>)
    requires Steps(p, step) && OpeningOk(p, hello, start, begin)
    ensures RunAll(step, NewSession(), Opening(hello, start, begin) + rest) ==
            RunAll(step, Begun(hello, start, begin), rest)
  {
    var items := Opening(hello, start, begin);
    var s0 := NewSession();
    AtHello(p, step, s0, items[0]);
    var s1 := step(s0, items[0]).value;
    AtStart(p, step, s1, items[1]);
    var s2 := step(s1, items[1]).value;
    AtBegin(p, step, s2, items[2]);
    RunOne(step, s0, items[0], [items[1]] + ([items[2]] + rest));
    RunOne(step, s1, items[1], [items[2]] + rest);
    RunOne(step, s2, items[2], rest);
    assert items + rest == [items[0]] + ([items[1]] + ([items[2]] + rest));
  }

  lemma HeadIsAccepted(p: Protocol, step: (Session, Item) -> Option<Session>, s: Session, items: seq<Item>)
    requires Steps(p, step) && Completes(step, s, items) && s.phase != Completed
    ensures items != [] && step(s, items[0]).Some?
    ensures Completes(step, step(s, items[0]).value, items[1..]) && step(s, items[0]).value.phase != Failed
  {
    var s' := step(s, items[0]).value;
    if s'.phase == Failed {
      RestIsOver(p, step, s', items[1..]);
    }
  }

  /** A run that completes begins with an opening. */
  lemma OpeningIsDue(p: Protocol, step: (Session, Item) -> Option<Session>, items: seq<Item>)
    requires Steps(p, step) && Completes(step, NewSession(), items)
    ensures |items| >= 3
    ensures items[0].message.HelloMessage? && items[1].message.StartMessage? && items[2].message.BeginMessage?
    ensures var (h, st, b) := (items[0].message.hello, items[1].message.start, items[2].message.begin);
            && OpeningOk(p, h, st, b) && items[..3] == Opening(h, st, b)
            && Completes(step, Begun(h, st, b), items[3..])
  {
    var s0 := NewSession();
    HeadIsAccepted(p, step, s0, items);
    AtHello(p, step, s0, items[0]);
    var s1, rest1 := step(s0, items[0]).value, items[1..];
    HeadIsAccepted(p, step, s1, rest1);
    AtStart(p, step, s1, rest1[0]);
    var s2, rest2 := step(s1, rest1[0]).value, rest1[1..];
    HeadIsAccepted(p, step, s2, rest2);
    AtBegin(p, step, s2, rest2[0]);
    assert rest2[1..] == items[3..] && rest2[0] == items[2] && rest1[0] == items[1];
    assert items[..3] == [items[0], items[1], items[2]];
  }

  lemma ShortEnough(p: Protocol, fine: Chunk -> bool, l: Limits, streamId: string, cs: seq<Chunk>)
    requires Fines(p, l, streamId, fine) && LimitsOk(l) && GoodChunks(fine, l, cs)
    ensures |cs| <= MAX_ENTRIES
  {
    ChunksCount(fine, cs);
  }

  /** A good story is accepted message by message and ends in Completed. */
  lemma GoodStoriesComplete(p: Protocol, t: Story)
    requires GoodStory(p, t)
    ensures Completes(StepOf(p), NewSession(), Items(t))
  {
    var step, l := StepOf(p), t.start.limits;
    var fine := FineOf(p, l, t.begin.streamId);
    StepOfSteps(p);
    FineOfFines(p, l, t.begin.streamId);
    var s := Begun(t.hello, t.start, t.begin);
    ShortEnough(p, fine, l, t.begin.streamId, t.chunks);
    TakeAllExact(fine, l, t.chunks);
    GoodChunksAreAccepted(p, step, fine, l, s, t.chunks);
    var tail := Tail(t.end, t.account, t.done, 2 + |t.chunks|);
    var s' := Later(s, |t.chunks|, StreamOf(t.chunks));
    OpeningRuns(p, step, t.hello, t.start, t.begin, ChunkItems(t.chunks, 2) + tail);
    RunAllAppend(step, s, ChunkItems(t.chunks, 2), tail);
    TailMeaning(p, s', t.start, tail);
    FromEnd(p, step, s', tail);
  }

  /** What follows the opening of a completed build. */
  lemma BegunCompletes(p: Protocol, step: (Session, Item) -> Option<Session>, hello: Hello, start: Start, begin: Begin,
                       rest: seq<Item>)
    returns (cs: seq<Chunk>, end: End, account: AccountDb, done: Done)
    requires Steps(p, step) && LimitsOk(start.limits) && Completes(step, Begun(hello, start, begin), rest)
    ensures GoodChunks(FineOf(p, start.limits, begin.streamId), start.limits, cs)
    ensures TailOk(p, start, begin.streamId, EntriesIn(cs), BytesIn(cs), end, account, done)
    ensures rest == ChunkItems(cs, 2) + Tail(end, account, done, 2 + |cs|)
  {
    var s, l := Begun(hello, start, begin), start.limits;
    var fine := FineOf(p, l, begin.streamId);
    FineOfFines(p, l, begin.streamId);
    cs := FromStreaming(p, step, fine, l, s, [], rest);
    assert [] + cs == cs;
    TakeAllExact(fine, l, cs);
    ShortEnough(p, fine, l, begin.streamId, cs);
    var tail := rest[|cs|..];
    FromEnd(p, step, Later(s, |cs|, StreamOf(cs)), tail);
    TailMeaning(p, Later(s, |cs|, StreamOf(cs)), start, tail);
    end, account, done := tail[0].message.end, tail[1].message.account, tail[2].message.done;
    assert rest == rest[..|cs|] + tail;
  }

  /** A run of accepted messages that ends in Completed tells a good story. */
  lemma CompletedRunsAreStories(p: Protocol, items: seq<Item>) returns (t: Story)
    requires Completes(StepOf(p), NewSession(), items)
    ensures items == Items(t) && GoodStory(p, t)
  {
    StepOfSteps(p);
    OpeningIsDue(p, StepOf(p), items);
    var (h, st, b) := (items[0].message.hello, items[1].message.start, items[2].message.begin);
    var cs, end, account, done := BegunCompletes(p, StepOf(p), h, st, b, items[3..]);
    t := Story(h, st, b, cs, end, account, done);
    assert items == items[..3] + items[3..];
  }

  /** The runs that complete are exactly the good stories. */
  lemma CompletedExactly(p: Protocol, items: seq<Item>)
    ensures Completes(StepOf(p), NewSession(), items) <==> exists t :: items == Items(t) && GoodStory(p, t)
  {
    if Completes(StepOf(p), NewSession(), items) {
      var t := CompletedRunsAreStories(p, items);
    }
    forall t | items == Items(t) && GoodStory(p, t) ensures Completes(StepOf(p), NewSession(), items) {
      GoodStoriesComplete(p, t);
    }
  }

  /** Whole-run safety: whatever messages arrive, a session that has reached Completed accepted
      exactly one good story. */
  lemma CompletedSessionsToldAStory(p: Protocol, items: seq<Item>) returns (t: Story)
    requires Run(StepOf(p), NewSession(), items).phase == Completed
    ensures Kept(StepOf(p), NewSession(), items) == Items(t) && GoodStory(p, t)
  {
    RefusedMessagesVanish(StepOf(p), NewSession(), items);
    t := CompletedRunsAreStories(p, Kept(StepOf(p), NewSession(), items));
  }

  /** The same for the session object: a new one, sent any messages whatever. */
  method CompletedObjectsToldAStory(p: Protocol, items: seq<Item>) returns (phase: Phase, ghost t: Story)
    requires Framable(items)
    ensures phase == Run(StepOf(p), NewSession(), items).phase
    ensures phase == Completed ==> Kept(StepOf(p), NewSession(), items) == Items(t) && GoodStory(p, t)
  {
    var session := new BuilderSession(p);
    AcceptEach(session, items);
    phase := session.phase;
    t := *;
    if phase == Completed {
      t := CompletedSessionsToldAStory(p, items);
    }
  }

  /** The digests of a good story spell the digest of its chunks, in END and in DONE. */
  lemma GoodStoriesSpellTheDigest(p: Protocol, t: Story)
    requires GoodStory(p, t)
    ensures Spells(t.end.sha256, p.sha256(BytesIn(t.chunks)))
    ensures Spells(t.done.manifestSha256, p.sha256(BytesIn(t.chunks)))
  {
    HexLowerSpells(p.sha256(BytesIn(t.chunks)));
  }

  /** Two completed builds that report one digest have streamed bytes with one digest. */
  lemma OneDigestReported(p: Protocol, t: Story, u: Story)
    requires GoodStory(p, t) && GoodStory(p, u) && t.done.manifestSha256 == u.done.manifestSha256
    ensures p.sha256(BytesIn(t.chunks)) == p.sha256(BytesIn(u.chunks))
  {
    GoodStoriesSpellTheDigest(p, t);
    GoodStoriesSpellTheDigest(p, u);
    SpellingIsUnique(t.done.manifestSha256, p.sha256(BytesIn(t.chunks)), p.sha256(BytesIn(u.chunks)));
  }

  // ---------------------------------------------------------------------------------------
  // Sessions that wait for a manifest

  /** What is known of a session that has not yet seen a manifest begin. */
  ghost predicate Early(s: Session) {
    match s.phase
    case AwaitHello => s.guestSequence == 0
    case AwaitStart => s.guestSequence == 1
    case AwaitManifestBegin =>
      && s.guestSequence == 1 && s.limits.Some? && LimitsOk(s.limits.value)
      && s.schema.Some? && IsToken(s.schema.value, MAX_ID_LENGTH)
    case _ => true
  }

  /** No step leads back to an earlier phase. */
  lemma EarlyStep(p: Protocol, step: (Session, Item) -> Option<Session>, s: Session, i: Item)
    requires Steps(p, step) && Early(s) && step(s, i).Some?
    ensures Early(step(s, i).value)
  {
    match s.phase
    case AwaitHello => AtHello(p, step, s, i);
    case AwaitStart => AtStart(p, step, s, i);
    case _ => LaterStep(p, step, s, i);
  }

  lemma LaterStep(p: Protocol, step: (Session, Item) -> Option<Session>, s: Session, i: Item)
    requires Steps(p, step) && step(s, i).Some? && s.phase != AwaitHello && s.phase != AwaitStart
    ensures var phase := step(s, i).value.phase;
            phase != AwaitHello && phase != AwaitStart && phase != AwaitManifestBegin
  {
    assert Look(s, i);
  }

  /** In every run, a session that waits for a manifest has seen one guest message and holds the
      valid limits and schema of a START. */
  lemma {:induction false} EarlyRun(p: Protocol, step: (Session, Item) -> Option<Session>, s: Session, items: seq<Item>)
    requires Steps(p, step) && Early(s)
    ensures Early(Run(step, s, items))
    decreases |items|
  {
    if items != [] {
      if step(s, items[0]).Some? {
        EarlyStep(p, step, s, items[0]);
        EarlyRun(p, step, step(s, items[0]).value, items[1..]);
      } else {
        EarlyRun(p, step, s, items[1..]);
      }
    }
  }
}
