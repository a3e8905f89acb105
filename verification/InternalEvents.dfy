/** The event records that the namespace supervisor writes to PID 1 through a pipe, and the
    incremental decoder on PID 1's side. */
module InternalEvents {
  import opened Bytes
  import opened Incremental

  const INTERNAL_HEADER_LEN := 5
  const MAX_INTERNAL_PAYLOAD := 4096
  const MAX_INTERNAL_PENDING := INTERNAL_HEADER_LEN + MAX_INTERNAL_PAYLOAD
  const MAX_DIAGNOSTIC := 4000
  const IO_CHUNK := 8192

  type I32 = x: int | -0x8000_0000 <= x < 0x8000_0000

  /** Well-formed UTF-8 (section 4 of RFC 3629): the invariant of every text. */
  predicate ValidUtf8(s: seq<Byte>) {
    if s == [] then true
    else if s[0] < 0x80 then ValidUtf8(s[1..])
    else if |s| >= 2 && 0xC2 <= s[0] <= 0xDF && Continuation(s[1]) then ValidUtf8(s[2..])
    else if |s| >= 3 && ThreeByteLead(s[0], s[1]) && Continuation(s[2]) then ValidUtf8(s[3..])
    else if |s| >= 4 && FourByteLead(s[0], s[1]) && Continuation(s[2]) && Continuation(s[3]) then ValidUtf8(s[4..])
    else false
  }

  predicate Continuation(b: Byte) {
    0x80 <= b <= 0xBF
  }

  predicate ThreeByteLead(a: Byte, b: Byte) {
    || (a == 0xE0 && 0xA0 <= b <= 0xBF)
    || ((0xE1 <= a <= 0xEC || 0xEE <= a <= 0xEF) && Continuation(b))
    || (a == 0xED && 0x80 <= b <= 0x9F)
  }

  predicate FourByteLead(a: Byte, b: Byte) {
    || (a == 0xF0 && 0x90 <= b <= 0xBF)
    || (0xF1 <= a <= 0xF3 && Continuation(b))
    || (a == 0xF4 && 0x80 <= b <= 0x8F)
  }

  type Text = s: seq<Byte> | ValidUtf8(s) witness []

  datatype Event =
    | Ready(outerPid: I32)
    | Exit(code: Option<Byte>, signal: Option<U16>, namespaceClean: bool)
    | Failure(errno: Option<I32>, diagnostic: Text)

  datatype Error = ExitNeedsOneStatus | DiagnosticTooLong | PayloadTooLong | PendingTooLong | Malformed

  // ---------------------------------------------------------------------
  // What valid UTF-8 is

  /** A Unicode scalar value: any code point but a surrogate. */
  predicate Scalar(cp: int) {
    0 <= cp < 0xD800 || 0xE000 <= cp < 0x11_0000
  }

  /** Its bytes (the table in section 3 of RFC 3629). */
  function Utf8(cp: int): (b: seq<Byte>)
    requires Scalar(cp)
    ensures 1 <= |b| <= 4
  {
    if cp < 0x80 then [cp]
    else if cp < 0x800 then [0xC0 + cp / 64, 0x80 + cp % 64]
    else if cp < 0x1_0000 then [0xE0 + cp / 4096, 0x80 + cp / 64 % 64, 0x80 + cp % 64]
    else [0xF0 + cp / 262144, 0x80 + cp / 4096 % 64, 0x80 + cp / 64 % 64, 0x80 + cp % 64]
  }

  function EncodeText(cps: seq<int>): seq<Byte>
    requires forall i :: 0 <= i < |cps| ==> Scalar(cps[i])
  {
    if cps == [] then [] else Utf8(cps[0]) + EncodeText(cps[1..])
  }

  lemma ThreeBytes(cp: int)
    requires Scalar(cp) && 0x800 <= cp < 0x1_0000
    ensures var b := Utf8(cp); ThreeByteLead(b[0], b[1]) && Continuation(b[2]) && b[0] >= 0xE0
  {
    var high, mid := cp / 4096, cp / 64 % 64;
    assert cp / 64 == 64 * high + mid;
  }

  lemma FourBytes(cp: int)
    requires Scalar(cp) && 0x1_0000 <= cp
    ensures var b := Utf8(cp); FourByteLead(b[0], b[1]) && Continuation(b[2]) && Continuation(b[3]) && b[0] >= 0xF0
  {
    var high, mid := cp / 262144, cp / 4096 % 64;
    assert cp / 4096 == 64 * high + mid;
  }

  lemma OneScalar(cp: int, rest: seq<Byte>)
    requires Scalar(cp)
    ensures ValidUtf8(Utf8(cp) + rest) <==> ValidUtf8(rest)
  {
    var b := Utf8(cp);
    var s := b + rest;
    assert s[|b|..] == rest && forall i :: 0 <= i < |b| ==> s[i] == b[i];
    if 0x800 <= cp < 0x1_0000 {
      ThreeBytes(cp);
    } else if 0x1_0000 <= cp {
      FourBytes(cp);
    }
  }

  lemma {:induction false} TextsAreValid(cps: seq<int>)
    requires forall i :: 0 <= i < |cps| ==> Scalar(cps[i])
    ensures ValidUtf8(EncodeText(cps))
  {
    if cps != [] {
      TextsAreValid(cps[1..]);
      OneScalar(cps[0], EncodeText(cps[1..]));
    }
  }

  /** The scalar value at the front of valid bytes. */
  lemma FrontScalar(s: seq<Byte>) returns (cp: int)
    requires s != [] && ValidUtf8(s)
    ensures Scalar(cp) && |Utf8(cp)| <= |s| && s[..|Utf8(cp)|] == Utf8(cp) && ValidUtf8(s[|Utf8(cp)|..])
  {
    var a: int := s[0];
    if a < 0x80 {
      cp := a;
    } else if a < 0xE0 {
      cp := FromTwo(a - 0xC0, s[1] - 0x80);
    } else if a < 0xF0 {
      cp := FromThree(a - 0xE0, s[1] - 0x80, s[2] - 0x80);
    } else {
      cp := FromFour(a - 0xF0, s[1] - 0x80, s[2] - 0x80, s[3] - 0x80);
    }
  }

  lemma FromTwo(a: int, b: int) returns (cp: int)
    requires 2 <= a < 32 && 0 <= b < 64
    ensures Scalar(cp) && Utf8(cp) == [0xC0 + a, 0x80 + b]
  {
    cp := 64 * a + b;
  }

  lemma FromThree(a: int, b: int, c: int) returns (cp: int)
    requires 0 <= a < 16 && 0 <= b < 64 && 0 <= c < 64 && (a == 0 ==> b >= 32) && (a == 13 ==> b < 32)
    ensures Scalar(cp) && Utf8(cp) == [0xE0 + a, 0x80 + b, 0x80 + c]
  {
    cp := 4096 * a + 64 * b + c;
    assert cp / 64 == 64 * a + b && cp / 4096 == a;
  }

  lemma FromFour(a: int, b: int, c: int, d: int) returns (cp: int)
    requires 0 <= a <= 4 && 0 <= b < 64 && 0 <= c < 64 && 0 <= d < 64 && (a == 0 ==> b >= 16) && (a == 4 ==> b < 16)
    ensures Scalar(cp) && Utf8(cp) == [0xF0 + a, 0x80 + b, 0x80 + c, 0x80 + d]
  {
    cp := 262144 * a + 4096 * b + 64 * c + d;
    assert cp / 64 == 4096 * a + 64 * b + c && cp / 4096 == 64 * a + b && cp / 262144 == a;
  }

  lemma FrontAndRest(s: seq<Byte>) returns (cp: int, more: seq<Byte>)
    requires s != [] && ValidUtf8(s)
    ensures Scalar(cp) && s == Utf8(cp) + more && ValidUtf8(more) && |more| < |s|
  {
    cp := FrontScalar(s);
    more := s[|Utf8(cp)|..];
    assert s == s[..|Utf8(cp)|] + more;
  }

  lemma TextCons(cp: int, rest: seq<int>)
    requires Scalar(cp) && forall i :: 0 <= i < |rest| ==> Scalar(rest[i])
    ensures forall i :: 0 <= i < |[cp] + rest| ==> Scalar(([cp] + rest)[i])
    ensures EncodeText([cp] + rest) == Utf8(cp) + EncodeText(rest)
  {
    assert ([cp] + rest)[1..] == rest;
  }

  lemma {:induction false} ValidBytesAreATextOf(s: seq<Byte>) returns (cps: seq<int>)
    requires ValidUtf8(s)
    ensures forall i :: 0 <= i < |cps| ==> Scalar(cps[i])
    ensures EncodeText(cps) == s
    decreases |s|
  {
    if s == [] {
      cps := [];
    } else {
      var cp, more := FrontAndRest(s);
      var rest := ValidBytesAreATextOf(more);
      cps := [cp] + rest;
      TextCons(cp, rest);
    }
  }

  ghost predicate Spelled(s: seq<Byte>, cps: seq<int>) {
    (forall i :: 0 <= i < |cps| ==> Scalar(cps[i])) && EncodeText(cps) == s
  }

  /** Valid UTF-8 is exactly what Unicode scalar values encode to. */
  lemma ValidUtf8Means(s: seq<Byte>)
    ensures ValidUtf8(s) <==> exists cps :: Spelled(s, cps)
  {
    if ValidUtf8(s) {
      var cps := ValidBytesAreATextOf(s);
      assert Spelled(s, cps);
    }
    if cps :| Spelled(s, cps) {
      TextsAreValid(cps);
    }
  }

  // ---------------------------------------------------------------------
  // Signed fields

  function PutI32(v: I32): (b: seq<Byte>)
    ensures |b| == 4
  {
    PutU32(if v >= 0 then v else v + 0x1_0000_0000)
  }

  function I32At(b: seq<Byte>, i: nat): I32
    requires i + 4 <= |b|
  {
    var u := U32At(b, i);
    if u < 0x8000_0000 then u else u - 0x1_0000_0000
  }

  lemma I32Field(b: seq<Byte>, i: nat, v: I32)
    requires i + 4 <= |b|
    ensures I32At(b, i) == v <==> b[i..i + 4] == PutI32(v)
  {
    U32Field(b, i, if v >= 0 then v else v + 0x1_0000_0000);
  }

  // ---------------------------------------------------------------------
  // One record

  function Flag(b: bool): Byte { if b then 1 else 0 }

  function EncodePayload(e: Event): Result<(Byte, seq<Byte>), Error> {
    match e
    case Ready(pid) => Ok((1, PutI32(pid)))
    case Exit(Some(code), None, clean) => Ok((2, [0] + PutU16(code) + [Flag(clean)]))
    case Exit(None, Some(signal), clean) => Ok((2, [1] + PutU16(signal) + [Flag(clean)]))
    case Exit(_, _, _) => Err(ExitNeedsOneStatus)
    case Failure(errno, diagnostic) =>
      if |diagnostic| > MAX_INTERNAL_PAYLOAD - 5 then Err(DiagnosticTooLong)
      else Ok((3, PutI32(if errno.Some? then errno.value else 0) + [Flag(errno.Some?)] + diagnostic))
  }

  function Encode(e: Event): Result<seq<Byte>, Error> {
    match EncodePayload(e)
    case Err(error) => Err(error)
    case Ok((tag, payload)) =>
      if |payload| > MAX_INTERNAL_PAYLOAD then Err(PayloadTooLong)
      else Ok([tag] + PutU32(|payload|) + payload)
  }

  function DecodeOne(tag: Byte, payload: seq<Byte>): Result<Event, Error> {
    if tag == 1 && |payload| == 4 then Ok(Ready(I32At(payload, 0)))
    else if tag == 2 && |payload| == 4 then
      var value := U16At(payload, 1);
      if payload[3] > 1 then Err(Malformed)
      else if payload[0] == 0 && value <= 255 then Ok(Exit(Some(value), None, payload[3] == 1))
      else if payload[0] == 1 && 1 <= value <= 64 then Ok(Exit(None, Some(value), payload[3] == 1))
      else Err(Malformed)
    else if tag == 3 && |payload| >= 5 then
      var raw := I32At(payload, 0);
      if !(payload[4] == 0 && raw == 0) && !(payload[4] == 1 && raw > 0) then Err(Malformed)
      else if !ValidUtf8(payload[5..]) then Err(Malformed)
      else Ok(Failure(if payload[4] == 1 then Some(raw) else None, payload[5..]))
    else Err(Malformed)
  }

  /** Signed fields are big-endian two's complement. */
  lemma SignedFieldsMean(v: I32)
    ensures BigEndian(PutI32(v)) == if v >= 0 then v else v + 0x1_0000_0000
  {
    FieldsAreBigEndian([], 0, 0, if v >= 0 then v else v + 0x1_0000_0000);
  }

  /** Where the parts of a payload stand. */
  lemma PayloadLayout(e: Event)
    requires EncodePayload(e).Ok?
    ensures var (tag, b) := EncodePayload(e).value;
            match e
            case Ready(pid) => tag == 1 && |b| == 4 && BigEndian(b) == if pid >= 0 then pid else pid + 0x1_0000_0000
            case Exit(code, signal, clean) =>
              && tag == 2 && |b| == 4 && (b[0] == 0 <==> code.Some?) && (b[0] == 1 <==> signal.Some?)
              && BigEndian(b[1..3]) == (if code.Some? then code.value else signal.value) && (b[3] == 1 <==> clean)
            case Failure(errno, diagnostic) =>
              && tag == 3 && |b| >= 5 && b[5..] == diagnostic && (b[4] == 1 <==> errno.Some?)
              && (errno.Some? && errno.value >= 0 ==> BigEndian(b[..4]) == errno.value)
              && (errno.None? ==> BigEndian(b[..4]) == 0)
  {
    var (tag, b) := EncodePayload(e).value;
    match e {
      case Ready(pid) => SignedFieldsMean(pid);
      case Exit(code, signal, _) =>
        FieldsAreBigEndian([], 0, if code.Some? then code.value else signal.value, 0);
        assert b[1..3] == PutU16(if code.Some? then code.value else signal.value);
      case Failure(errno, diagnostic) =>
        SignedFieldsMean(if errno.Some? then errno.value else 0);
        assert b[..4] == PutI32(if errno.Some? then errno.value else 0) && b[5..] == diagnostic;
    }
  }

  /** A record is the tag, the length of the payload in four big-endian bytes, and the payload. */
  lemma RecordLayout(e: Event)
    requires Encode(e).Ok?
    ensures var b := Encode(e).value;
            var (tag, payload) := EncodePayload(e).value;
            b[0] == tag && BigEndian(b[1..5]) == |payload| && b[5..] == payload
  {
    var b := Encode(e).value;
    var (tag, payload) := EncodePayload(e).value;
    FieldsAreBigEndian([], 0, 0, |payload|);
    assert b[1..5] == PutU32(|payload|) && b[5..] == payload;
  }

  /** The events the protocol means: one exit status, a signal that exists, an errno that is
      an error, a diagnostic that fits. */
  predicate ValidEvent(e: Event) {
    match e
    case Ready(_) => true
    case Exit(code, signal, _) => (code.Some? != signal.Some?) && (signal.Some? ==> 1 <= signal.value <= 64)
    case Failure(errno, diagnostic) => (errno.Some? ==> errno.value > 0) && |diagnostic| <= MAX_INTERNAL_PAYLOAD - 5
  }

  lemma DecodeReady(payload: seq<Byte>, e: Event)
    requires e.Ready?
    ensures DecodeOne(1, payload) == Ok(e) <==> EncodePayload(e) == Ok((1, payload))
  {
    if |payload| == 4 {
      I32Field(payload, 0, e.outerPid);
      assert payload[0..4] == payload;
    }
  }

  lemma DecodeExit(payload: seq<Byte>, e: Event)
    requires e.Exit?
    ensures DecodeOne(2, payload) == Ok(e) <==> ValidEvent(e) && EncodePayload(e) == Ok((2, payload))
  {
    if |payload| == 4 {
      assert payload == [payload[0]] + payload[1..3] + [payload[3]];
      var v := U16At(payload, 1);
      U16Field(payload, 1, v);
      if ValidEvent(e) {
        var w: U16 := if e.code.Some? then e.code.value else e.signal.value;
        U16Field(payload, 1, w);
        if EncodePayload(e) == Ok((2, payload)) {
          assert payload[1..3] == PutU16(w);
        }
      }
    }
  }

  lemma DecodeFailure(payload: seq<Byte>, e: Event)
    requires e.Failure? && |payload| <= MAX_INTERNAL_PAYLOAD
    ensures DecodeOne(3, payload) == Ok(e) <==> ValidEvent(e) && EncodePayload(e) == Ok((3, payload))
  {
    var raw: I32 := if e.errno.Some? then e.errno.value else 0;
    if |payload| >= 5 {
      assert payload == payload[0..4] + [payload[4]] + payload[5..];
      I32Field(payload, 0, raw);
      I32Field(payload, 0, I32At(payload, 0));
      if ValidEvent(e) && EncodePayload(e) == Ok((3, payload)) {
        assert payload[0..4] == PutI32(raw) && payload[5..] == e.diagnostic;
      }
    }
  }

  /** Payload decoding inverts payload encoding on exactly the valid events. */
  lemma DecodePayload(tag: Byte, payload: seq<Byte>, e: Event)
    requires |payload| <= MAX_INTERNAL_PAYLOAD
    ensures DecodeOne(tag, payload) == Ok(e) <==> ValidEvent(e) && EncodePayload(e) == Ok((tag, payload))
  {
    match e {
      case Ready(_) => DecodeReady(payload, e);
      case Exit(_, _, _) => DecodeExit(payload, e);
      case Failure(_, _) => DecodeFailure(payload, e);
    }
  }

  // ---------------------------------------------------------------------
  // The record format of the pipe

  /** One round of the decoding loop. The format has no state of its own. */
  function NextEvent(bytes: seq<Byte>, state: ()): Step<(), Event, Error> {
    if |bytes| < INTERNAL_HEADER_LEN then More
    else
      var length := U32At(bytes, 1);
      if length > MAX_INTERNAL_PAYLOAD then Bad(PayloadTooLong)
      else if |bytes| < INTERNAL_HEADER_LEN + length then More
      else match DecodeOne(bytes[0], bytes[INTERNAL_HEADER_LEN..INTERNAL_HEADER_LEN + length])
        case Err(e) => Bad(e)
        case Ok(event) => Got(event, INTERNAL_HEADER_LEN + length, state)
  }

  lemma NextEventIsLawful()
    ensures Lawful(NextEvent)
  {
    forall a, b, s
      ensures Settled(NextEvent, a, b, s)
    {
      if |a| >= INTERNAL_HEADER_LEN {
        var end := INTERNAL_HEADER_LEN + U32At(a, 1);
        if |a| >= end {
          assert (a + b)[INTERNAL_HEADER_LEN..end] == a[INTERNAL_HEADER_LEN..end];
        }
      }
    }
  }

  /** An accepted record is spelled the one way the encoder spells it. */
  lemma RecordIsItsEncoding(bytes: seq<Byte>, e: Event, used: nat)
    requires NextEvent(bytes, ()) == Got(e, used, ())
    ensures ValidEvent(e) && Encode(e) == Ok(bytes[..used]) && used <= |bytes|
  {
    var payload := bytes[INTERNAL_HEADER_LEN..used];
    DecodePayload(bytes[0], payload, e);
    U32Field(bytes, 1, |payload|);
    assert bytes[..used] == [bytes[0]] + bytes[1..5] + payload;
  }

  /** The fields of a record at the front of the bytes. */
  lemma RecordFields(bytes: seq<Byte>, tag: Byte, payload: seq<Byte>)
    requires |payload| <= MAX_INTERNAL_PAYLOAD && [tag] + PutU32(|payload|) + payload <= bytes
    ensures bytes[0] == tag && U32At(bytes, 1) == |payload| && bytes[5..5 + |payload|] == payload
  {
    var record := [tag] + PutU32(|payload|) + payload;
    assert bytes[0] == record[0] && bytes[1..5] == record[1..5] == PutU32(|payload|);
    assert bytes[5..5 + |payload|] == record[5..] == payload;
    U32Field(bytes, 1, |payload|);
  }

  /** Every valid event survives the trip. */
  lemma EncodingIsTaken(bytes: seq<Byte>, e: Event)
    requires ValidEvent(e) && Encode(e).Ok? && Encode(e).value <= bytes
    ensures NextEvent(bytes, ()) == Got(e, |Encode(e).value|, ())
  {
    var (tag, payload) := EncodePayload(e).value;
    RecordFields(bytes, tag, payload);
    DecodePayload(tag, payload, e);
  }

  /** The codec is a bijection between valid events and accepted records: the bytes start
      with a record for `e` if and only if `e` is valid and they start with its encoding. */
  lemma EventCodec(bytes: seq<Byte>, e: Event, used: nat)
    ensures NextEvent(bytes, ()) == Got(e, used, ())
       <==> && ValidEvent(e) && Encode(e).Ok?
            && used == |Encode(e).value| && Encode(e).value <= bytes
  {
    if NextEvent(bytes, ()) == Got(e, used, ()) {
      RecordIsItsEncoding(bytes, e, used);
    }
    if ValidEvent(e) && Encode(e).Ok? && used == |Encode(e).value| && Encode(e).value <= bytes {
      EncodingIsTaken(bytes, e);
    }
  }

  /** Encoding fails on exactly the events with no single exit status or an oversized text;
      the other invalid events encode, and are refused by the decoder. */
  lemma EncodeSucceeds(e: Event)
    ensures Encode(e).Ok? <==>
            match e
            case Ready(_) => true
            case Exit(code, signal, _) => code.Some? != signal.Some?
            case Failure(_, diagnostic) => |diagnostic| <= MAX_INTERNAL_PAYLOAD - 5
  {
  }

  // ---------------------------------------------------------------------
  // The incremental decoder, with its refusal of long pending input

  class InternalEventDecoder {
    var pending: seq<Byte>

    ghost predicate Valid()
      reads this
    {
      NextEvent(pending, ()).More?
    }

    constructor ()
      ensures Valid() && pending == []
    {
      pending := [];
    }

    /** Takes one whole record off the pending bytes, if there is one. */
    method TakeRecord() returns (s: Step<(), Event, Error>)
      modifies this
      ensures s == NextEvent(old(pending), ())
      ensures s.More? ==> pending == old(pending)
      ensures s.Got? ==> 0 < s.used <= |old(pending)| && pending == old(pending)[s.used..]
    {
      if |pending| < INTERNAL_HEADER_LEN {
        return More;
      }
      var length := U32At(pending, 1);
      if length > MAX_INTERNAL_PAYLOAD {
        return Bad(PayloadTooLong);
      }
      var total := INTERNAL_HEADER_LEN + length;
      if |pending| < total {
        return More;
      }
      var frame := pending[..total];
      assert frame[INTERNAL_HEADER_LEN..] == pending[INTERNAL_HEADER_LEN..total];
      pending := pending[total..];
      var event := DecodeOne(frame[0], frame[INTERNAL_HEADER_LEN..]);
      s := if event.Err? then Bad(event.error) else Got(event.value, total, ());
    }

    method Feed(bytes: seq<Byte>) returns (r: Result<seq<Event>, Error>)
      modifies this
      ensures |old(pending)| + |bytes| > MAX_INTERNAL_PENDING ==>
                r == Err(PendingTooLong) && pending == old(pending)
      ensures |old(pending)| + |bytes| <= MAX_INTERNAL_PENDING ==>
                match ParseAll(NextEvent, old(pending) + bytes, ())
                case Parsed(events, rest, _) => r == Ok(events) && pending == rest && Valid()
                case Failed(e, _) => r == Err(e)
    {
      if |pending| + |bytes| > MAX_INTERNAL_PENDING {
        return Err(PendingTooLong);
      }
      pending := pending + bytes;
      var events: seq<Event> := [];
      ghost var whole := ParseAll(NextEvent, pending, ());
      PrependNothing(whole);
      while true
        invariant whole == Prepend(events, ParseAll(NextEvent, pending, ()))
        decreases |pending|
      {
        ghost var before := pending;
        var record := TakeRecord();
        if record.More? {
          break;
        }
        if record.Bad? {
          return Err(record.error);
        }
        ParseGot(NextEvent, before, (), record.record, record.used, ());
        PrependTwice(events, [record.record], ParseAll(NextEvent, pending, ()));
        events := events + [record.record];
      }
      assert events + [] == events;
      r := Ok(events);
    }

    /** Reading the pipe again and again is feeding with a bound on the pending bytes, so
        `EventFragmentation` says what comes out. */
    method FeedEach(reads_: seq<seq<Byte>>) returns (r: Result<seq<Event>, Error>)
      requires Valid()
      modifies this
      ensures match FeedBounded(NextEvent, MAX_INTERNAL_PENDING, PendingTooLong, old(pending), (), reads_)
              case Parsed(events, rest, _) => r == Ok(events) && pending == rest && Valid()
              case Failed(e, _) => r == Err(e)
    {
      var events: seq<Event> := [];
      ghost var whole := FeedBounded(NextEvent, MAX_INTERNAL_PENDING, PendingTooLong, pending, (), reads_);
      PrependNothing(whole);
      assert reads_[0..] == reads_;
      for i := 0 to |reads_|
        invariant Valid()
        invariant whole == Prepend(events,
                  FeedBounded(NextEvent, MAX_INTERNAL_PENDING, PendingTooLong, pending, (), reads_[i..]))
      {
        assert reads_[i..][0] == reads_[i] && reads_[i..][1..] == reads_[i + 1..];
        BoundedEventStep(NextEvent, pending, reads_[i..]);
        var more := Feed(reads_[i]);
        if more.Err? {
          return Err(more.error);
        }
        PrependTwice(events, more.value,
                     FeedBounded(NextEvent, MAX_INTERNAL_PENDING, PendingTooLong, pending, (), reads_[i + 1..]));
        events := events + more.value;
      }
      assert reads_[|reads_|..] == [];
      assert events + [] == events;
      r := Ok(events);
    }
  }

  /** One read of a bounded feed. */
  lemma BoundedEventStep(next: (seq<Byte>, ()) -> Step<(), Event, Error>, pending: seq<Byte>, reads_: seq<seq<Byte>>)
    requires reads_ != []
    ensures FeedBounded(next, MAX_INTERNAL_PENDING, PendingTooLong, pending, (), reads_) ==
            if |pending| + |reads_[0]| > MAX_INTERNAL_PENDING then Failed(PendingTooLong, [])
            else match ParseAll(next, pending + reads_[0], ())
              case Failed(e, good) => Failed(e, good)
              case Parsed(events, rest, _) =>
                Prepend(events, FeedBounded(next, MAX_INTERNAL_PENDING, PendingTooLong, rest, (), reads_[1..]))
  {
    var parsed := ParseAll(next, pending + reads_[0], ());
    assert parsed.Parsed? ==> parsed.state == ();
  }

  /** However the pipe is read, the events and the leftover bytes are those of the whole
      stream if and only if no read is refused. */
  lemma EventFragmentation(next: (seq<Byte>, ()) -> Step<(), Event, Error>,
                           pending: seq<Byte>, reads_: seq<seq<Byte>>)
    requires next == NextEvent && next(pending, ()).More?
    ensures var fed := FeedBounded(next, MAX_INTERNAL_PENDING, PendingTooLong, pending, (), reads_);
            if Unrefused(next, MAX_INTERNAL_PENDING, pending, (), reads_)
            then fed == ParseAll(next, pending + Concat(reads_), ())
            else fed.Failed? && fed.error == PendingTooLong
  {
    NextEventIsLawful();
    BoundedFragmentation(next, MAX_INTERNAL_PENDING, PendingTooLong, pending, (), reads_);
  }

  /** One whole event leaves nothing pending. */
  lemma OneEventIsTaken(next: (seq<Byte>, ()) -> Step<(), Event, Error>, bytes: seq<Byte>, e: Event)
    requires next == NextEvent && ValidEvent(e) && Encode(e) == Ok(bytes)
    ensures ParseAll(next, bytes, ()) == Parsed([e], [], ())
  {
    EventCodec(bytes, e, |bytes|);
    ParseGot(next, bytes, (), e, |bytes|, ());
    assert bytes[|bytes|..] == [];
    assert next([], ()).More?;
    assert ParseAll(next, [], ()) == Parsed([], [], ());
  }

  /** Two whole events, each short enough, pass when they come in reads of their own. */
  lemma TwoReadsPass(next: (seq<Byte>, ()) -> Step<(), Event, Error>, limit: nat, first: seq<Byte>, second: seq<Byte>,
                     e: Event)
    requires ParseAll(next, first, ()) == Parsed([e], [], ()) && |first| <= limit && |second| <= limit
    ensures Unrefused(next, limit, [], (), [first, second])
  {
    var reads_ := [first, second];
    assert [] + first == first && reads_[0] == first && reads_[1..] == [second];
    assert [second][0] == second && [second][1..] == [];
    assert Unrefused(next, limit, [], (), [second]);
  }

  lemma OneRead(next: (seq<Byte>, ()) -> Step<(), Event, Error>, limit: nat, whole: seq<Byte>)
    ensures Unrefused(next, limit, [], (), [whole]) <==> |whole| <= limit
  {
    assert [whole][0] == whole && [whole][1..] == [];
  }

  lemma EncodingsAreShort(e: Event)
    ensures Encode(e).Ok? ==> |Encode(e).value| <= MAX_INTERNAL_PENDING
  {
  }

  /** The refusal makes the cut observable: any two events are accepted in reads of their own,
      and in one read exactly when together they are no longer than the longest record. */
  lemma RefusalDependsOnTheCut(next: (seq<Byte>, ()) -> Step<(), Event, Error>, e1: Event, e2: Event)
    requires next == NextEvent && ValidEvent(e1) && ValidEvent(e2) && Encode(e1).Ok? && Encode(e2).Ok?
    ensures var first, second := Encode(e1).value, Encode(e2).value;
            && Unrefused(next, MAX_INTERNAL_PENDING, [], (), [first, second])
            && (Unrefused(next, MAX_INTERNAL_PENDING, [], (), [first + second]) <==>
                |first| + |second| <= MAX_INTERNAL_PENDING)
  {
    var first, second := Encode(e1).value, Encode(e2).value;
    EncodingsAreShort(e1);
    EncodingsAreShort(e2);
    OneEventIsTaken(next, first, e1);
    TwoReadsPass(next, MAX_INTERNAL_PENDING, first, second, e1);
    OneRead(next, MAX_INTERNAL_PENDING, first + second);
  }

  /** Two errors with the longest diagnostics that are written fit into one read of the pipe,
      and are refused in it. */
  lemma TwoErrorsCanBeRefused(next: (seq<Byte>, ()) -> Step<(), Event, Error>, d1: Text, d2: Text)
    requires next == NextEvent && |d1| == |d2| == MAX_DIAGNOSTIC
    ensures var e1, e2 := Encode(Failure(None, d1)), Encode(Failure(None, d2));
            && e1.Ok? && e2.Ok? && |e1.value + e2.value| <= IO_CHUNK
            && !Unrefused(next, MAX_INTERNAL_PENDING, [], (), [e1.value + e2.value])
  {
    RefusalDependsOnTheCut(next, Failure(None, d1), Failure(None, d2));
  }
}
