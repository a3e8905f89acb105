/** The PKVM frame header, exact single-frame decoding, and the incremental decoder
    that PID 1 runs over its nonblocking control channel. */
module ControlFrames {
  import opened Bytes
  import opened Incremental

  const MAGIC: seq<Byte> := [0x50, 0x4B, 0x56, 0x4D]
  const HEADER_LEN := 24
  const PROTOCOL_MAJOR := 1
  const PROTOCOL_MINOR := 8
  const MAX_CONTROL_PAYLOAD := 256 * 1024
  const MAX_READ_CHUNK := 8192
  const MAX_PENDING := HEADER_LEN + MAX_CONTROL_PAYLOAD + MAX_READ_CHUNK
  predicate KnownKind(code: int) {
    1 <= code <= 8 || 32 <= code <= 39 || 48 <= code <= 51
  }

  /** A message kind, identified with its wire code. */
  type MessageKind = code: int | KnownKind(code) witness 1

  datatype Error =
    | UnexpectedEof
    | TrailingData
    | BadMagic
    | UnsupportedVersion
    | UnknownKind
    | UnsupportedFlags
    | PayloadTooLarge
    | SequenceMismatch
    | SequenceExhausted

  type PayloadLength = n: int | 0 <= n <= MAX_CONTROL_PAYLOAD

  /** The flags field is zero in every header that exists, so it is not stored. */
  datatype Header = Header(kind: MessageKind, payloadLen: PayloadLength, sequence: U64)

  datatype Frame = Frame(header: Header, payload: seq<Byte>)

  ghost predicate WellFormed(frame: Frame) {
    |frame.payload| == frame.header.payloadLen
  }

  function HeaderBytes(h: Header): (b: seq<Byte>)
    ensures |b| == HEADER_LEN
  {
    MAGIC + PutU16(PROTOCOL_MAJOR) + PutU16(PROTOCOL_MINOR) + PutU16(h.kind)
    + PutU16(0) + PutU32(h.payloadLen) + PutU64(h.sequence)
  }

  function ParseHeader(b: seq<Byte>): Result<Header, Error> {
    if |b| < HEADER_LEN then Err(UnexpectedEof)
    else if |b| > HEADER_LEN then Err(TrailingData)
    else if [b[0], b[1], b[2], b[3]] != MAGIC then Err(BadMagic)
    else if U16At(b, 4) != PROTOCOL_MAJOR || U16At(b, 6) != PROTOCOL_MINOR then Err(UnsupportedVersion)
    else if !KnownKind(U16At(b, 8)) then Err(UnknownKind)
    else if U16At(b, 10) != 0 then Err(UnsupportedFlags)
    else if U32At(b, 12) > MAX_CONTROL_PAYLOAD then Err(PayloadTooLarge)
    else Ok(Header(U16At(b, 8), U32At(b, 12), U64At(b, 16)))
  }

  function EncodeFrame(kind: MessageKind, sequence: U64, payload: seq<Byte>): Result<seq<Byte>, Error> {
    if |payload| > MAX_CONTROL_PAYLOAD then Err(PayloadTooLarge)
    else Ok(HeaderBytes(Header(kind, |payload|, sequence)) + payload)
  }

  function DecodeFrameExact(input: seq<Byte>, expected: U64): Result<Frame, Error> {
    if |input| < HEADER_LEN then Err(UnexpectedEof)
    else match ParseHeader(input[..HEADER_LEN])
      case Err(e) => Err(e)
      case Ok(h) =>
        if h.sequence != expected then Err(SequenceMismatch)
        else if |input| < HEADER_LEN + h.payloadLen then Err(UnexpectedEof)
        else if |input| > HEADER_LEN + h.payloadLen then Err(TrailingData)
        else Ok(Frame(h, input[HEADER_LEN..]))
  }

  lemma HeaderPieces(b: seq<Byte>)
    requires |b| == HEADER_LEN
    ensures b == [b[0], b[1], b[2], b[3]] + b[4..6] + b[6..8] + b[8..10] + b[10..12] + b[12..16] + b[16..24]
  {
  }

  lemma HeaderFields(h: Header)
    ensures var b := HeaderBytes(h);
            && [b[0], b[1], b[2], b[3]] == MAGIC
            && b[4..6] == PutU16(PROTOCOL_MAJOR) && b[6..8] == PutU16(PROTOCOL_MINOR)
            && b[8..10] == PutU16(h.kind) && b[10..12] == PutU16(0)
            && b[12..16] == PutU32(h.payloadLen) && b[16..24] == PutU64(h.sequence)
  {
  }

  /** Where the fields of a header stand, in big-endian bytes. */
  lemma HeaderLayout(h: Header)
    ensures var b := HeaderBytes(h);
            && b[..4] == [0x50, 0x4B, 0x56, 0x4D] && BigEndian(b[4..6]) == PROTOCOL_MAJOR
            && BigEndian(b[6..8]) == PROTOCOL_MINOR && BigEndian(b[8..10]) == h.kind && BigEndian(b[10..12]) == 0
            && BigEndian(b[12..16]) == h.payloadLen && BigEndian(b[16..24]) == h.sequence
  {
    HeaderFields(h);
    FieldsAreBigEndian([], 0, PROTOCOL_MAJOR, h.payloadLen);
    FieldsAreBigEndian([], 0, PROTOCOL_MINOR, 0);
    FieldsAreBigEndian([], 0, h.kind, 0);
    FieldsAreBigEndian([], 0, 0, 0);
    LongFieldsAreBigEndian([], 0, h.sequence);
  }

  /** Header parsing and header writing are inverse: `b` parses as `h` if and only if it is
      the header written for `h`. */
  lemma HeaderRoundTrip(b: seq<Byte>, h: Header)
    ensures ParseHeader(b) == Ok(h) <==> b == HeaderBytes(h)
  {
    if |b| == HEADER_LEN {
      U16Field(b, 4, PROTOCOL_MAJOR);
      U16Field(b, 6, PROTOCOL_MINOR);
      U16Field(b, 8, h.kind);
      U16Field(b, 10, 0);
      U32Field(b, 12, h.payloadLen);
      U64Field(b, 16, h.sequence);
      HeaderFields(h);
      HeaderPieces(b);
    }
  }

  /** Decoding accepts exactly the encodings: `input` decodes under `expected` if and
      only if it is the encoding of a frame that carries that sequence number. */
  lemma DecodeInvertsEncode(input: seq<Byte>, expected: U64, frame: Frame)
    ensures DecodeFrameExact(input, expected) == Ok(frame)
       <==> frame.header.sequence == expected && WellFormed(frame)
            && EncodeFrame(frame.header.kind, expected, frame.payload) == Ok(input)
  {
    if DecodeFrameExact(input, expected) == Ok(frame) {
      HeaderRoundTrip(input[..HEADER_LEN], frame.header);
      assert input == input[..HEADER_LEN] + input[HEADER_LEN..];
    }
    if frame.header.sequence == expected && WellFormed(frame)
       && EncodeFrame(frame.header.kind, expected, frame.payload) == Ok(input)
    {
      assert input[..HEADER_LEN] == HeaderBytes(frame.header);
      HeaderRoundTrip(input[..HEADER_LEN], frame.header);
      assert input[HEADER_LEN..] == frame.payload;
    }
  }

  // ---------------------------------------------------------------------
  // The record format of the control channel

  /** One round of the decoding loop over the unconsumed bytes. */
  function NextFrame(bytes: seq<Byte>, expected: U64): Step<U64, Frame, Error> {
    if |bytes| < HEADER_LEN then More
    else match ParseHeader(bytes[..HEADER_LEN])
      case Err(e) => Bad(e)
      case Ok(h) =>
        if |bytes| < HEADER_LEN + h.payloadLen then More
        else match DecodeFrameExact(bytes[..HEADER_LEN + h.payloadLen], expected)
          case Err(e) => Bad(e)
          case Ok(frame) =>
            if expected + 1 == U64_LIMIT then Bad(SequenceExhausted)
            else Got(frame, HEADER_LEN + h.payloadLen, expected + 1)
  }

  lemma NextFrameIsLawful()
    ensures Lawful(NextFrame)
  {
    forall a, b, s: U64
      ensures Settled(NextFrame, a, b, s)
    {
      if |a| >= HEADER_LEN {
        assert (a + b)[..HEADER_LEN] == a[..HEADER_LEN];
        match ParseHeader(a[..HEADER_LEN]) {
          case Err(_) =>
          case Ok(h) =>
            if |a| >= HEADER_LEN + h.payloadLen {
              assert (a + b)[..HEADER_LEN + h.payloadLen] == a[..HEADER_LEN + h.payloadLen];
            }
        }
      }
    }
  }

  function FrameBytes(frame: Frame): seq<Byte> {
    HeaderBytes(frame.header) + frame.payload
  }

  /** The loop takes a frame off the front exactly when the bytes start with an encoded
      frame that carries the expected sequence number. */
  lemma GotExactly(bytes: seq<Byte>, expected: U64, frame: Frame)
    ensures NextFrame(bytes, expected) == Got(frame, |FrameBytes(frame)|, expected + 1)
       <==> && WellFormed(frame) && frame.header.sequence == expected
            && expected + 1 < U64_LIMIT && FrameBytes(frame) <= bytes
  {
    HeaderRoundTrip(HeaderBytes(frame.header), frame.header);
    if NextFrame(bytes, expected) == Got(frame, |FrameBytes(frame)|, expected + 1) {
      var total := HEADER_LEN + ParseHeader(bytes[..HEADER_LEN]).value.payloadLen;
      DecodeInvertsEncode(bytes[..total], expected, frame);
    }
    if && WellFormed(frame) && frame.header.sequence == expected
       && expected + 1 < U64_LIMIT && FrameBytes(frame) <= bytes
    {
      assert bytes[..HEADER_LEN] == HeaderBytes(frame.header);
      assert bytes[..|FrameBytes(frame)|] == FrameBytes(frame);
      DecodeInvertsEncode(FrameBytes(frame), expected, frame);
    }
  }

  lemma GotUsesItsFrame(bytes: seq<Byte>, expected: U64)
    requires NextFrame(bytes, expected).Got?
    ensures var step := NextFrame(bytes, expected);
            step.used == |FrameBytes(step.record)| && step.state == expected + 1
  {
    var total := HEADER_LEN + ParseHeader(bytes[..HEADER_LEN]).value.payloadLen;
    DecodeInvertsEncode(bytes[..total], expected, NextFrame(bytes, expected).record);
  }

  /** Frames that are well formed and numbered consecutively from `first`. */
  ghost predicate Numbered(frames: seq<Frame>, first: U64) {
    && first + |frames| < U64_LIMIT
    && forall i :: 0 <= i < |frames| ==>
         WellFormed(frames[i]) && frames[i].header.sequence == first + i
  }

  lemma NumberedCons(frame: Frame, frames: seq<Frame>, first: U64)
    requires first + 1 < U64_LIMIT
    requires WellFormed(frame) && frame.header.sequence == first && Numbered(frames, first + 1)
    ensures Numbered([frame] + frames, first)
  {
    var all := [frame] + frames;
    forall i | 0 <= i < |all| ensures WellFormed(all[i]) && all[i].header.sequence == first + i {
      if i > 0 { assert all[i] == frames[i - 1]; }
    }
  }

  lemma FramesAreCanonical()
    ensures Canonical(NextFrame, FrameBytes)
  {
    forall b, s: U64 | NextFrame(b, s).Got?
      ensures NextFrame(b, s).used <= |b| && b[..NextFrame(b, s).used] == FrameBytes(NextFrame(b, s).record)
    {
      GotUsesItsFrame(b, s);
      GotExactly(b, s, NextFrame(b, s).record);
    }
  }

  /** A decoded stream is the encodings of its frames followed by the leftover: no byte is
      dropped, and no other spelling of a frame is accepted. */
  lemma DecodedStreamIsItsFrames(next: (seq<Byte>, U64) -> Step<U64, Frame, Error>, bytes: seq<Byte>, expected: U64)
    requires next == NextFrame && ParseAll(next, bytes, expected).Parsed?
    ensures var p := ParseAll(next, bytes, expected); bytes == EncodeAll(FrameBytes, p.records) + p.rest
  {
    NextFrameIsLawful();
    FramesAreCanonical();
    ParsedIsCanonical(next, FrameBytes, bytes, expected);
  }

  /** A successful parse hands out well-formed frames with consecutive sequence numbers. */
  lemma {:induction false} ParsedFramesAreNumbered(bytes: seq<Byte>, expected: U64)
    requires ParseAll(NextFrame, bytes, expected).Parsed?
    ensures var p := ParseAll(NextFrame, bytes, expected);
            Numbered(p.records, expected) && p.state == expected + |p.records|
    decreases |bytes|
  {
    match NextFrame(bytes, expected) {
      case More =>
      case Got(frame, used, state) =>
        GotUsesItsFrame(bytes, expected);
        GotExactly(bytes, expected, frame);
        ParsedFramesAreNumbered(bytes[used..], state);
        NumberedCons(frame, ParseAll(NextFrame, bytes[used..], state).records, expected);
    }
  }

  lemma NumberedFramesDecode(frames: seq<Frame>, first: U64)
    requires Numbered(frames, first)
    ensures Decodes(NextFrame, FrameBytes, frames, Numbers(frames, first))
  {
    forall i, tail | 0 <= i < |frames|
      ensures DecodesAt(NextFrame, FrameBytes, frames, Numbers(frames, first), i, tail)
    {
      GotExactly(FrameBytes(frames[i]) + tail, first + i, frames[i]);
    }
  }

  ghost function Numbers(frames: seq<Frame>, first: U64): (ns: seq<U64>)
    requires first + |frames| < U64_LIMIT
    ensures |ns| == |frames| + 1 && forall i :: 0 <= i <= |frames| ==> ns[i] == first + i
  {
    seq(|frames| + 1, i requires 0 <= i <= |frames| => first + i)
  }

  /** End to end: consecutively numbered frames, encoded, cut anywhere and fed to a new
      decoder, come out as the same frames with nothing left over. (The format and the end
      points are named by variables to keep their definitions out of the proof.) */
  lemma FramesSurviveFragmentation(next: (seq<Byte>, U64) -> Step<U64, Frame, Error>, pending: seq<Byte>,
                                   frames: seq<Frame>, first: U64, last: U64, reads_: seq<seq<Byte>>)
    requires next == NextFrame && pending == [] && last == first + |frames|
    requires Numbered(frames, first)
    requires Concat(reads_) == EncodeAll(FrameBytes, frames)
    ensures FeedAll(next, pending, first, reads_) == Parsed(frames, [], last)
  {
    NextFrameIsLawful();
    NumberedFramesDecode(frames, first);
    EncodedSurvivesFragmentation(next, FrameBytes, frames, Numbers(frames, first), first, last, reads_);
  }

  lemma ControlFragmentation(next: (seq<Byte>, U64) -> Step<U64, Frame, Error>,
                             pending: seq<Byte>, expected: U64, reads_: seq<seq<Byte>>)
    requires next == NextFrame && next(pending, expected).More?
    ensures FeedAll(next, pending, expected, reads_) == ParseAll(next, pending + Concat(reads_), expected)
  {
    NextFrameIsLawful();
    Fragmentation(next, pending, expected, reads_);
  }

  lemma WaitingIsShort(bytes: seq<Byte>, expected: U64)
    requires NextFrame(bytes, expected).More?
    ensures |bytes| < HEADER_LEN + MAX_CONTROL_PAYLOAD
  {
  }

  // ---------------------------------------------------------------------
  // The incremental decoder

  class ControlFrameDecoder {
    var pending: seq<Byte>
    var expectedSequence: U64

    /** Between reads, the unfinished bytes hold no complete frame. */
    ghost predicate Valid()
      reads this
    {
      NextFrame(pending, expectedSequence).More?
    }

    constructor (expected: U64)
      ensures Valid() && pending == [] && expectedSequence == expected
    {
      pending := [];
      expectedSequence := expected;
    }

    /** One round of the loop: take a complete frame off the front, if there is one. */
    method TakeFrame() returns (step: Step<U64, Frame, Error>)
      modifies this
      ensures step == NextFrame(old(pending), old(expectedSequence))
      ensures step.More? ==> pending == old(pending) && expectedSequence == old(expectedSequence)
      ensures step.Bad? ==> expectedSequence == old(expectedSequence)
      ensures step.Got? ==> 0 < step.used <= old(|pending|)
      ensures step.Got? ==> pending == old(pending)[step.used..] && expectedSequence == step.state
      ensures step.Got? ==> step.state == old(expectedSequence) + 1
    {
      if |pending| < HEADER_LEN {
        return More;
      }
      var header := ParseHeader(pending[..HEADER_LEN]);
      if header.Err? {
        return Bad(header.error);
      }
      var total := HEADER_LEN + header.value.payloadLen;
      if |pending| < total {
        return More;
      }
      var encoded := pending[..total];
      pending := pending[total..];
      var frame := DecodeFrameExact(encoded, expectedSequence);
      if frame.Err? {
        return Bad(frame.error);
      }
      if expectedSequence + 1 == U64_LIMIT {
        return Bad(SequenceExhausted);
      }
      expectedSequence := expectedSequence + 1;
      step := Got(frame.value, total, expectedSequence);
    }

    /** One read from the channel. An oversized chunk is the only refusal by size: the
        bound on pending bytes cannot be exceeded by a chunk of at most 8192 bytes. */
    method Feed(bytes: seq<Byte>) returns (r: Result<seq<Frame>, Error>)
      requires Valid()
      modifies this
      ensures |bytes| > MAX_READ_CHUNK ==>
                r == Err(PayloadTooLarge) && pending == old(pending) && expectedSequence == old(expectedSequence)
      ensures |bytes| <= MAX_READ_CHUNK ==>
                match ParseAll(NextFrame, old(pending) + bytes, old(expectedSequence))
                case Parsed(frames, rest, next) =>
                  r == Ok(frames) && pending == rest && expectedSequence == next && Valid()
                case Failed(e, good) =>
                  r == Err(e) && expectedSequence == old(expectedSequence) + |good|
    {
      WaitingIsShort(pending, expectedSequence);
      if |bytes| > MAX_READ_CHUNK || |pending| + |bytes| > MAX_PENDING {
        return Err(PayloadTooLarge);
      }
      pending := pending + bytes;
      var frames: seq<Frame> := [];
      ghost var whole := ParseAll(NextFrame, pending, expectedSequence);
      PrependNothing(whole);
      while true
        invariant whole == Prepend(frames, ParseAll(NextFrame, pending, expectedSequence))
        invariant expectedSequence == old(expectedSequence) + |frames|
        decreases |pending|
      {
        ghost var before, expected := pending, expectedSequence;
        var step := TakeFrame();
        match step {
          case More =>
            assert frames + [] == frames;
            return Ok(frames);
          case Bad(e) =>
            assert frames + [] == frames;
            return Err(e);
          case Got(frame, used, state) =>
            ParseGot(NextFrame, before, expected, frame, used, state);
            PrependTwice(frames, [frame], ParseAll(NextFrame, pending, expectedSequence));
            frames := frames + [frame];
        }
      }
    }

    /** Draining the channel: every read that the kernel hands out, one after another. The
        frames and the state are those of the whole byte stream, wherever it was cut. */
    method FeedEach(reads_: seq<seq<Byte>>) returns (r: Result<seq<Frame>, Error>)
      requires Valid()
      requires forall i :: 0 <= i < |reads_| ==> |reads_[i]| <= MAX_READ_CHUNK
      modifies this
      ensures match ParseAll(NextFrame, old(pending) + Concat(reads_), old(expectedSequence))
              case Parsed(frames, rest, next) =>
                r == Ok(frames) && pending == rest && expectedSequence == next && Valid()
              case Failed(e, good) =>
                r == Err(e)
    {
      var frames: seq<Frame> := [];
      ghost var whole := FeedAll(NextFrame, pending, expectedSequence, reads_);
      PrependNothing(whole);
      assert reads_[0..] == reads_;
      for i := 0 to |reads_|
        invariant Valid()
        invariant whole == Prepend(frames, FeedAll(NextFrame, pending, expectedSequence, reads_[i..]))
      {
        ghost var before, expected := pending, expectedSequence;
        FeedAllStep(NextFrame, before, expected, reads_[i..]);
        assert reads_[i..][0] == reads_[i] && reads_[i..][1..] == reads_[i + 1..];
        var more := Feed(reads_[i]);
        if more.Err? {
          ControlFragmentation(NextFrame, old(pending), old(expectedSequence), reads_);
          return Err(more.error);
        }
        PrependTwice(frames, more.value, FeedAll(NextFrame, pending, expectedSequence, reads_[i + 1..]));
        frames := frames + more.value;
      }
      assert reads_[|reads_|..] == [];
      assert frames + [] == frames;
      ControlFragmentation(NextFrame, old(pending), old(expectedSequence), reads_);
      r := Ok(frames);
    }
  }
}
