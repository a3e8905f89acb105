/** The host's validator of the builder protocol: an eight-state machine that accepts one message
    at a time and changes nothing when it refuses. */
module BuilderSession {
  import opened Bytes
  import opened ManifestEntries

  datatype Direction = HostToGuest | GuestToHost

  datatype Phase =
    | AwaitHello | AwaitStart | AwaitManifestBegin | StreamingManifest | AwaitAccountDb | AwaitDone
    | Completed | Failed

  datatype Tool = Tool(role: string, sha256: string, version: string)

  /** Fields that only validation looks at are summed up in `rest`. */
  datatype Hello = Hello(tools: seq<Tool>, physmem: U64, rest: string)

  datatype Start = Start(
    tools: seq<Tool>, physmem: U64, originalUser: string, schema: string, limits: Limits, rest: string)

  datatype Begin = Begin(schema: string, streamId: string)

  datatype Chunk = Chunk(streamId: string, sequence: U64, firstEntry: U64, entryCount: U32, bytes: Blob)

  datatype End = End(streamId: string, entryCount: U64, byteCount: U64, sha256: string)

  datatype AccountDb = AccountDb(sha256: string, rest: string)

  datatype Done = Done(
    manifestSha256: string, entryCount: U64, byteCount: U64, originalUser: string, accountDbSha256: string,
    tools: seq<Tool>, rest: string)

  datatype Message =
    | HelloMessage(hello: Hello)
    | StartMessage(start: Start)
    | BeginMessage(begin: Begin)
    | ChunkMessage(chunk: Chunk)
    | EndMessage(end: End)
    | AccountMessage(account: AccountDb)
    | DoneMessage(done: Done)
    | ErrorMessage(text: string)

  /** Foreign code and the flat field checks of the messages that are not part of the manifest
      stream. */
  datatype Protocol = Protocol(
    codec: Codec,
    sha256: Blob -> Sha,
    helloOk: Hello -> bool,
    startOk: Start -> bool,
    accountOk: AccountDb -> bool,
    doneOk: Done -> bool,
    errorOk: string -> bool)

  predicate ChunkShapeOk(c: Chunk) {
    && IsSha256(c.streamId)
    && c.entryCount != 0 && 0 < |c.bytes| <= MAX_CHUNK_BYTES
    && Split(c.bytes, MAX_ENTRY_BYTES).Some? && |Split(c.bytes, MAX_ENTRY_BYTES).value| == c.entryCount
  }

  predicate MessageOk(p: Protocol, m: Message) {
    match m
    case HelloMessage(hello) => p.helloOk(hello)
    case StartMessage(start) => p.startOk(start) && LimitsOk(start.limits) && IsToken(start.schema, MAX_ID_LENGTH)
    case BeginMessage(begin) => IsToken(begin.schema, MAX_ID_LENGTH) && IsSha256(begin.streamId)
    case ChunkMessage(chunk) => ChunkShapeOk(chunk)
    case EndMessage(end) => IsSha256(end.streamId) && IsSha256(end.sha256)
    case AccountMessage(account) => p.accountOk(account)
    case DoneMessage(done) => p.doneOk(done)
    case ErrorMessage(text) => p.errorOk(text)
  }

  /** Progress through the chunks: how many, how many entries, how many bytes, and the bytes fed
      to the hash. */
  datatype Stream = Stream(chunks: nat, entries: nat, byteCount: nat, hashed: Blob)

  datatype Session = Session(
    phase: Phase, hostSequence: U64, guestSequence: U64,
    observedTools: Option<seq<Tool>>, physmem: Option<U64>, expectedTools: Option<seq<Tool>>,
    originalUser: Option<string>, schema: Option<string>, limits: Option<Limits>, streamId: Option<string>,
    stream: Stream, manifestSha256: Option<string>, accountDbSha256: Option<string>)

  function NewSession(): Session {
    Session(AwaitHello, 0, 0, None, None, None, None, None, None, None, Stream(0, 0, 0, []), None, None)
  }

  function NextSequence(s: Session, d: Direction): U64 {
    if d == HostToGuest then s.hostSequence else s.guestSequence
  }

  function Smaller(a: nat, b: nat): nat {
    if a <= b then a else b
  }

  /** The entries of a chunk under the negotiated entry limit. */
  function ChunkPieces(l: Limits, c: Chunk): Option<seq<Piece>> {
    Split(c.bytes, Smaller(l.maxEntryBytes, MAX_ENTRY_BYTES))
  }

  /** What a chunk must be, whatever came before it. */
  predicate ChunkWithin(p: Protocol, l: Limits, streamId: string, c: Chunk) {
    && c.streamId == streamId
    && |c.bytes| <= l.maxChunkBytes
    && ChunkPieces(l, c).Some? && |ChunkPieces(l, c).value| == c.entryCount
    && EntriesWithin(p.codec, l, ChunkPieces(l, c).value)
  }

  /** One chunk against the stream so far. */
  function TakeChunk(p: Protocol, l: Limits, streamId: string, s: Stream, c: Chunk): Option<Stream> {
    if && ChunkWithin(p, l, streamId, c)
       && c.sequence == s.chunks && c.firstEntry == s.entries
       && s.entries + c.entryCount < U64_LIMIT && s.entries + c.entryCount <= l.maxEntries
       && s.byteCount + |c.bytes| < U64_LIMIT && s.byteCount + |c.bytes| <= l.maxTotalBytes
       && s.chunks + 1 < U64_LIMIT
    then Some(Stream(s.chunks + 1, s.entries + c.entryCount, s.byteCount + |c.bytes|, s.hashed + c.bytes))
    else None
  }

  function DigestText(p: Protocol, b: Blob): string {
    HexLower(p.sha256(b))
  }

  function AcceptStart(s: Session, start: Start): Option<Session> {
    if s.observedTools == Some(start.tools) && s.physmem.Some? && s.physmem.value >= start.physmem then
      Some(s.(expectedTools := Some(start.tools), originalUser := Some(start.originalUser),
              schema := Some(start.schema), limits := Some(start.limits), phase := AwaitManifestBegin))
    else None
  }

  function AcceptBegin(s: Session, begin: Begin): Option<Session> {
    if s.schema == Some(begin.schema) then
      Some(s.(streamId := Some(begin.streamId), stream := Stream(0, 0, 0, []), phase := StreamingManifest))
    else None
  }

  function AcceptChunk(p: Protocol, s: Session, c: Chunk): Option<Session> {
    if s.streamId.None? || s.limits.None? then None
    else match TakeChunk(p, s.limits.value, s.streamId.value, s.stream, c)
      case None => None
      case Some(stream) => Some(s.(stream := stream))
  }

  function AcceptEnd(p: Protocol, s: Session, end: End): Option<Session> {
    var digest := DigestText(p, s.stream.hashed);
    if s.streamId == Some(end.streamId) && end.entryCount == s.stream.entries && end.byteCount == s.stream.byteCount
        && end.sha256 == digest
    then Some(s.(manifestSha256 := Some(digest), phase := AwaitAccountDb))
    else None
  }

  function AcceptDone(s: Session, done: Done): Option<Session> {
    if && s.manifestSha256 == Some(done.manifestSha256) && done.entryCount == s.stream.entries
        && done.byteCount == s.stream.byteCount
       && s.originalUser == Some(done.originalUser) && s.accountDbSha256 == Some(done.accountDbSha256)
       && s.expectedTools == Some(done.tools)
    then Some(s.(phase := Completed))
    else None
  }

  predicate ErrorAllowed(phase: Phase) {
    phase == AwaitStart || phase == AwaitManifestBegin || phase == StreamingManifest || phase == AwaitAccountDb
        || phase == AwaitDone
  }

  function AfterHello(s: Session, hello: Hello): Session {
    s.(observedTools := Some(hello.tools), physmem := Some(hello.physmem), phase := AwaitStart)
  }

  function AfterAccountDb(s: Session, account: AccountDb): Session {
    s.(accountDbSha256 := Some(account.sha256), phase := AwaitDone)
  }

  /** The lifecycle: which message is due in which phase, and what it does. */
  function AcceptInner(p: Protocol, s: Session, d: Direction, m: Message): Option<Session> {
    if d == HostToGuest then
      if s.phase == AwaitStart && m.StartMessage? then AcceptStart(s, m.start) else None
    else match m
      case HelloMessage(hello) => if s.phase == AwaitHello then Some(AfterHello(s, hello)) else None
      case BeginMessage(begin) => if s.phase == AwaitManifestBegin then AcceptBegin(s, begin) else None
      case ChunkMessage(chunk) => if s.phase == StreamingManifest then AcceptChunk(p, s, chunk) else None
      case EndMessage(end) => if s.phase == StreamingManifest then AcceptEnd(p, s, end) else None
      case AccountMessage(account) => if s.phase == AwaitAccountDb then Some(AfterAccountDb(s, account)) else None
      case DoneMessage(done) => if s.phase == AwaitDone then AcceptDone(s, done) else None
      case ErrorMessage(_) => if ErrorAllowed(s.phase) then Some(s.(phase := Failed)) else None
      case StartMessage(_) => None
  }

  function Counted(s: Session, d: Direction, next: U64): Session {
    if d == HostToGuest then s.(hostSequence := next) else s.(guestSequence := next)
  }

  /** One message: the session after it, or nothing if it is refused. */
  function Accept(p: Protocol, s: Session, d: Direction, m: Message, sequence: nat): Option<Session> {
    if sequence != NextSequence(s, d) || !MessageOk(p, m) then None
    else match AcceptInner(p, s, d, m)
      case None => None
      case Some(next) => if sequence + 1 < U64_LIMIT then Some(Counted(next, d, sequence + 1)) else None
  }

  class BuilderSession {
    const p: Protocol
    var phase: Phase
    var nextHostSequence: U64
    var nextGuestSequence: U64
    var observedTools: Option<seq<Tool>>
    var acceptedPhysmem: Option<U64>
    var expectedTools: Option<seq<Tool>>
    var originalUser: Option<string>
    var manifestSchema: Option<string>
    var manifestLimits: Option<Limits>
    var streamId: Option<string>
    var nextChunkSequence: nat
    var nextEntry: nat
    var byteCount: nat
    var hashed: Blob
    var manifestSha256: Option<string>
    var accountDbSha256: Option<string>

    ghost function View(): Session
      reads this
    {
      Session(phase, nextHostSequence, nextGuestSequence, observedTools, acceptedPhysmem, expectedTools, originalUser,
              manifestSchema, manifestLimits, streamId, Stream(nextChunkSequence, nextEntry, byteCount, hashed),
              manifestSha256, accountDbSha256)
    }

    constructor (p: Protocol)
      ensures View() == NewSession() && this.p == p
    {
      this.p := p;
      phase := AwaitHello;
      nextHostSequence, nextGuestSequence := 0, 0;
      observedTools, acceptedPhysmem, expectedTools, originalUser := None, None, None, None;
      manifestSchema, manifestLimits, streamId := None, None, None;
      nextChunkSequence, nextEntry, byteCount, hashed := 0, 0, 0, [];
      manifestSha256, accountDbSha256 := None, None;
    }

    constructor Clone(other: BuilderSession)
      ensures View() == other.View() && p == other.p
    {
      p := other.p;
      phase := other.phase;
      nextHostSequence, nextGuestSequence := other.nextHostSequence, other.nextGuestSequence;
      observedTools, acceptedPhysmem := other.observedTools, other.acceptedPhysmem;
      expectedTools, originalUser := other.expectedTools, other.originalUser;
      manifestSchema, manifestLimits, streamId := other.manifestSchema, other.manifestLimits, other.streamId;
      nextChunkSequence, nextEntry, byteCount, hashed := other.nextChunkSequence, other.nextEntry, other.byteCount,
          other.hashed;
      manifestSha256, accountDbSha256 := other.manifestSha256, other.accountDbSha256;
    }

    /** Replaces the whole session by another one. */
    method Assign(other: BuilderSession)
      requires other != this
      modifies this
      ensures View() == other.View()
    {
      AssignLifecycle(other);
      AssignRequest(other);
      AssignStream(other);
    }

    method AssignLifecycle(other: BuilderSession)
      requires other != this
      modifies this`phase, this`nextHostSequence, this`nextGuestSequence, this`observedTools, this`acceptedPhysmem
      ensures phase == other.phase && nextHostSequence == other.nextHostSequence
              && nextGuestSequence == other.nextGuestSequence
      ensures observedTools == other.observedTools && acceptedPhysmem == other.acceptedPhysmem
    {
      phase := other.phase;
      nextHostSequence := other.nextHostSequence;
      nextGuestSequence := other.nextGuestSequence;
      observedTools := other.observedTools;
      acceptedPhysmem := other.acceptedPhysmem;
    }

    method AssignRequest(other: BuilderSession)
      requires other != this
      modifies this`expectedTools, this`originalUser, this`manifestSchema, this`manifestLimits
      ensures expectedTools == other.expectedTools && originalUser == other.originalUser
      ensures manifestSchema == other.manifestSchema && manifestLimits == other.manifestLimits
    {
      expectedTools := other.expectedTools;
      originalUser := other.originalUser;
      manifestSchema := other.manifestSchema;
      manifestLimits := other.manifestLimits;
    }

    method AssignStream(other: BuilderSession)
      requires other != this
      modifies this`streamId, this`nextChunkSequence, this`nextEntry, this`byteCount, this`hashed,
          this`manifestSha256, this`accountDbSha256
      ensures streamId == other.streamId && nextChunkSequence == other.nextChunkSequence && nextEntry == other.nextEntry
      ensures byteCount == other.byteCount && hashed == other.hashed
      ensures manifestSha256 == other.manifestSha256 && accountDbSha256 == other.accountDbSha256
    {
      streamId := other.streamId;
      nextChunkSequence := other.nextChunkSequence;
      nextEntry := other.nextEntry;
      byteCount := other.byteCount;
      hashed := other.hashed;
      manifestSha256 := other.manifestSha256;
      accountDbSha256 := other.accountDbSha256;
    }

    /** The session after a step that may have failed. */
    ghost function Outcome(ok: bool): Option<Session>
      reads this
    {
      if ok then Some(View()) else None
    }

    method TakeStart(start: Start) returns (ok: bool)
      modifies this
      ensures Outcome(ok) == AcceptStart(old(View()), start)
    {
      if observedTools != Some(start.tools) || acceptedPhysmem.None? || acceptedPhysmem.value < start.physmem {
        return false;
      }
      expectedTools := Some(start.tools);
      originalUser := Some(start.originalUser);
      manifestSchema := Some(start.schema);
      manifestLimits := Some(start.limits);
      phase := AwaitManifestBegin;
      ok := true;
    }

    method TakeBegin(begin: Begin) returns (ok: bool)
      modifies this
      ensures Outcome(ok) == AcceptBegin(old(View()), begin)
    {
      if manifestSchema != Some(begin.schema) {
        return false;
      }
      streamId := Some(begin.streamId);
      nextChunkSequence, nextEntry, byteCount, hashed := 0, 0, 0, [];
      phase := StreamingManifest;
      ok := true;
    }

    /** The chunk on its own: framing, counts, canonical entries. */
    method CheckChunk(l: Limits, id: string, chunk: Chunk) returns (ok: bool)
      ensures ok <==> ChunkWithin(p, l, id, chunk)
    {
      if chunk.streamId != id || |chunk.bytes| > l.maxChunkBytes {
        return false;
      }
      var maximum := Smaller(l.maxEntryBytes, MAX_ENTRY_BYTES);
      var count := CountEntries(chunk.bytes, maximum);
      if count.None? || count.value != chunk.entryCount {
        return false;
      }
      ok := ValidateCanonicalEntries(p.codec, l, chunk.bytes, maximum);
    }

    method TakeChunkMessage(chunk: Chunk) returns (ok: bool)
      modifies this`nextChunkSequence, this`nextEntry, this`byteCount, this`hashed
      ensures Outcome(ok) == AcceptChunk(p, old(View()), chunk)
    {
      if streamId.None? || chunk.sequence != nextChunkSequence || chunk.firstEntry != nextEntry
          || manifestLimits.None? {
        return false;
      }
      var l := manifestLimits.value;
      var within := CheckChunk(l, streamId.value, chunk);
      if !within {
        return false;
      }
      var entries := nextEntry + chunk.entryCount;
      if entries >= U64_LIMIT || entries > l.maxEntries {
        return false;
      }
      var bytes := byteCount + |chunk.bytes|;
      if bytes >= U64_LIMIT || bytes > l.maxTotalBytes {
        return false;
      }
      hashed := hashed + chunk.bytes;
      if nextChunkSequence + 1 >= U64_LIMIT {
        return false;
      }
      nextChunkSequence := nextChunkSequence + 1;
      nextEntry := entries;
      byteCount := bytes;
      ok := true;
    }

    method TakeEnd(end: End) returns (ok: bool)
      modifies this
      ensures Outcome(ok) == AcceptEnd(p, old(View()), end)
    {
      if streamId != Some(end.streamId) || end.entryCount != nextEntry || end.byteCount != byteCount {
        return false;
      }
      var digest := HexLower(p.sha256(hashed));
      if end.sha256 != digest {
        return false;
      }
      manifestSha256 := Some(digest);
      phase := AwaitAccountDb;
      ok := true;
    }

    method TakeDone(done: Done) returns (ok: bool)
      modifies this`phase
      ensures Outcome(ok) == AcceptDone(old(View()), done)
    {
      if manifestSha256 != Some(done.manifestSha256) || done.entryCount != nextEntry || done.byteCount != byteCount {
        return false;
      }
      if originalUser != Some(done.originalUser) || accountDbSha256 != Some(done.accountDbSha256)
          || expectedTools != Some(done.tools) {
        return false;
      }
      phase := Completed;
      ok := true;
    }

    method TakeSimple(m: Message) returns (ok: bool)
      requires m.HelloMessage? || m.AccountMessage? || m.ErrorMessage?
      modifies this
      ensures Outcome(ok) == AcceptInner(p, old(View()), GuestToHost, m)
    {
      match m
      case HelloMessage(hello) =>
        if phase != AwaitHello {
          return false;
        }
        observedTools := Some(hello.tools);
        acceptedPhysmem := Some(hello.physmem);
        phase := AwaitStart;
        ok := true;
      case AccountMessage(account) =>
        if phase != AwaitAccountDb {
          return false;
        }
        accountDbSha256 := Some(account.sha256);
        phase := AwaitDone;
        ok := true;
      case ErrorMessage(_) =>
        if !ErrorAllowed(phase) {
          return false;
        }
        phase := Failed;
        ok := true;
    }

    /** May leave a half-changed object behind when it fails; only clones are handed to it. */
    method TakeMessage(d: Direction, m: Message) returns (ok: bool)
      modifies this
      ensures Outcome(ok) == AcceptInner(p, old(View()), d, m)
    {
      if d == HostToGuest {
        if phase != AwaitStart || !m.StartMessage? {
          return false;
        }
        ok := TakeStart(m.start);
        return;
      }
      match m
      case BeginMessage(begin) =>
        if phase != AwaitManifestBegin {
          return false;
        }
        ok := TakeBegin(begin);
      case ChunkMessage(chunk) =>
        if phase != StreamingManifest {
          return false;
        }
        ok := TakeChunkMessage(chunk);
      case EndMessage(end) =>
        if phase != StreamingManifest {
          return false;
        }
        ok := TakeEnd(end);
      case DoneMessage(done) =>
        if phase != AwaitDone {
          return false;
        }
        ok := TakeDone(done);
      case StartMessage(_) =>
        ok := false;
      case _ =>
        ok := TakeSimple(m);
    }

    /** A chunk as a message: not empty, not too long, and framed as announced. */
    method CheckChunkShape(c: Chunk) returns (ok: bool)
      ensures ok <==> ChunkShapeOk(c)
    {
      if !IsSha256(c.streamId) || c.entryCount == 0 || |c.bytes| > MAX_CHUNK_BYTES || c.bytes == [] {
        return false;
      }
      var count := CountEntries(c.bytes, MAX_ENTRY_BYTES);
      ok := count.Some? && count.value == c.entryCount;
    }

    method CheckMessage(m: Message) returns (ok: bool)
      ensures ok <==> MessageOk(p, m)
    {
      if m.ChunkMessage? {
        ok := CheckChunkShape(m.chunk);
      } else {
        ok := MessageOk(p, m);
      }
    }

    /** Transactional: the message is taken by a clone, and the clone replaces the session only
        if everything went well. */
    method AcceptMessage(d: Direction, m: Message, sequence: U64) returns (ok: bool)
      modifies this
      ensures ok <==> Accept(p, old(View()), d, m, sequence).Some?
      ensures View() == if ok then Accept(p, old(View()), d, m, sequence).value else old(View())
    {
      var expected := if d == HostToGuest then nextHostSequence else nextGuestSequence;
      if sequence != expected {
        return false;
      }
      ok := CheckMessage(m);
      if !ok {
        return;
      }
      var next := new BuilderSession.Clone(this);
      ok := next.TakeMessage(d, m);
      if !ok {
        return;
      }
      if sequence + 1 >= U64_LIMIT {
        return false;
      }
      if d == HostToGuest {
        next.nextHostSequence := sequence + 1;
      } else {
        next.nextGuestSequence := sequence + 1;
      }
      Assign(next);
    }
  }
}
