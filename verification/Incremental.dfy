/** Incremental decoding of a byte stream, for any record format. A format is a function
    that looks at the unconsumed bytes and says: wait for more, refuse, or take one
    record off the front. The theorem is that cutting a stream into reads does not
    change what comes out. */
module Incremental {
  import opened Bytes

  datatype Step<S, F, E> =
    | More
    | Bad(error: E)
    | Got(record: F, used: nat, state: S)

  /** The records of a stream, the unfinished bytes behind them and the decoder state; or
      the first error and the records before it. */
  datatype Parse<S, F, E> =
    | Parsed(records: seq<F>, rest: seq<Byte>, state: S)
    | Failed(error: E, good: seq<F>)

  /** A format consumes at least one byte per record, and once it has decided, later
      bytes do not change its mind. */
  ghost predicate Lawful<S(!new), F, E>(next: (seq<Byte>, S) -> Step<S, F, E>) {
    && (forall s :: next([], s).More?)
    && (forall b, s :: next(b, s).Got? ==> 0 < next(b, s).used <= |b|)
    && (forall a, b, s :: Settled(next, a, b, s))
  }

  ghost predicate Settled<S(!new), F, E>(next: (seq<Byte>, S) -> Step<S, F, E>, a: seq<Byte>, b: seq<Byte>, s: S) {
    !next(a, s).More? ==> next(a + b, s) == next(a, s)
  }

  function Prepend<S, F, E>(records: seq<F>, p: Parse<S, F, E>): Parse<S, F, E> {
    match p
    case Parsed(more, rest, state) => Parsed(records + more, rest, state)
    case Failed(e, good) => Failed(e, records + good)
  }

  /** Parsing a whole stream at once. (A lawful format always consumes, so the last guard
      only makes the definition total.) */
  function ParseAll<S, F, E>(next: (seq<Byte>, S) -> Step<S, F, E>, bytes: seq<Byte>, state: S): Parse<S, F, E>
    decreases |bytes|
  {
    match next(bytes, state)
    case More => Parsed([], bytes, state)
    case Bad(e) => Failed(e, [])
    case Got(record, used, state') =>
      if 0 < used <= |bytes| then Prepend([record], ParseAll(next, bytes[used..], state'))
      else Parsed([], bytes, state)
  }

  /** Feeding reads one after another up to the first error; each read continues with the
      bytes and the state that the reads before it left. */
  function FeedAll<S, F, E>(next: (seq<Byte>, S) -> Step<S, F, E>,
                            pending: seq<Byte>, state: S, reads_: seq<seq<Byte>>)
    : Parse<S, F, E>
    decreases |reads_|
  {
    if reads_ == [] then Parsed([], pending, state)
    else match ParseAll(next, pending + reads_[0], state)
      case Failed(e, good) => Failed(e, good)
      case Parsed(records, rest, state') => Prepend(records, FeedAll(next, rest, state', reads_[1..]))
  }

  lemma PrependNothing<S, F, E>(p: Parse<S, F, E>)
    ensures Prepend([], p) == p
  {
    match p {
      case Parsed(more, _, _) => assert [] + more == more;
      case Failed(_, good) => assert [] + good == good;
    }
  }

  lemma PrependTwice<S, F, E>(first: seq<F>, second: seq<F>, p: Parse<S, F, E>)
    ensures Prepend(first, Prepend(second, p)) == Prepend(first + second, p)
  {
    match p {
      case Parsed(more, _, _) => assert first + (second + more) == first + second + more;
      case Failed(_, good) => assert first + (second + good) == first + second + good;
    }
  }

  /** One round of `ParseAll`, for a format whose own definition should stay out of sight. */
  lemma ParseGot<S(!new), F, E>(next: (seq<Byte>, S) -> Step<S, F, E>, bytes: seq<Byte>, state: S,
                                record: F, used: nat, state': S)
    requires next(bytes, state) == Got(record, used, state')
    requires 0 < used <= |bytes|
    ensures ParseAll(next, bytes, state) == Prepend([record], ParseAll(next, bytes[used..], state'))
  {
  }

  /** One round of `FeedAll`, likewise. */
  lemma FeedAllStep<S(!new), F, E>(next: (seq<Byte>, S) -> Step<S, F, E>,
                                   pending: seq<Byte>, state: S, reads_: seq<seq<Byte>>)
    requires reads_ != []
    ensures FeedAll(next, pending, state, reads_) ==
            match ParseAll(next, pending + reads_[0], state)
            case Failed(e, good) => Failed(e, good)
            case Parsed(records, rest, state') => Prepend(records, FeedAll(next, rest, state', reads_[1..]))
  {
  }

  /** A stream cut in two: the second part continues from what the first left over, and an
      error in the first part is the error of the whole. */
  lemma {:induction false} ParseSplit<S(!new), F, E>(next: (seq<Byte>, S) -> Step<S, F, E>,
                                                     left: seq<Byte>, right: seq<Byte>, state: S)
    requires Lawful(next)
    ensures ParseAll(next, left + right, state) ==
            match ParseAll(next, left, state)
            case Failed(e, good) => Failed(e, good)
            case Parsed(records, rest, state') => Prepend(records, ParseAll(next, rest + right, state'))
    decreases |left|
  {
    match next(left, state) {
      case More => PrependNothing(ParseAll(next, left + right, state));
      case Bad(_) => assert Settled(next, left, right, state);
      case Got(record, used, state') =>
        assert Settled(next, left, right, state);
        assert (left + right)[used..] == left[used..] + right;
        ParseSplit(next, left[used..], right, state');
        match ParseAll(next, left[used..], state') {
          case Failed(_, _) =>
          case Parsed(records, rest, state'') =>
            PrependTwice([record], records, ParseAll(next, rest + right, state''));
        }
    }
  }

  /** What a successful parse leaves over is a point where the format asks for more. */
  lemma {:induction false} RestWantsMore<S(!new), F, E>(next: (seq<Byte>, S) -> Step<S, F, E>,
                                                        bytes: seq<Byte>, state: S)
    requires Lawful(next)
    requires ParseAll(next, bytes, state).Parsed?
    ensures var p := ParseAll(next, bytes, state); next(p.rest, p.state).More?
    decreases |bytes|
  {
    if next(bytes, state).Got? {
      RestWantsMore(next, bytes[next(bytes, state).used..], next(bytes, state).state);
    }
  }

  /** Fragmentation independence, errors included. */
  lemma {:induction false} Fragmentation<S(!new), F, E>(next: (seq<Byte>, S) -> Step<S, F, E>,
                                                        pending: seq<Byte>, state: S, reads_: seq<seq<Byte>>)
    requires Lawful(next)
    requires next(pending, state).More?
    ensures FeedAll(next, pending, state, reads_) == ParseAll(next, pending + Concat(reads_), state)
    decreases |reads_|
  {
    if reads_ == [] {
      assert pending + Concat(reads_) == pending;
    } else {
      var first := pending + reads_[0];
      assert pending + Concat(reads_) == first + Concat(reads_[1..]);
      ParseSplit(next, first, Concat(reads_[1..]), state);
      match ParseAll(next, first, state) {
        case Failed(_, _) =>
        case Parsed(_, rest, state') =>
          RestWantsMore(next, first, state);
          Fragmentation(next, rest, state', reads_[1..]);
      }
    }
  }

  // ---------------------------------------------------------------------
  // Formats with an encoder

  function EncodeAll<F>(encode: F -> seq<Byte>, records: seq<F>): seq<Byte> {
    if records == [] then [] else encode(records[0]) + EncodeAll(encode, records[1..])
  }

  /** `states` is the run of decoder states that goes with `records`: each record, encoded
      and followed by anything, is taken off the front in its state. */
  ghost predicate Decodes<S(!new), F, E>(next: (seq<Byte>, S) -> Step<S, F, E>, encode: F -> seq<Byte>,
                                         records: seq<F>, states: seq<S>) {
    && |states| == |records| + 1
    && forall i, tail :: 0 <= i < |records| ==> DecodesAt(next, encode, records, states, i, tail)
  }

  ghost predicate DecodesAt<S(!new), F, E>(next: (seq<Byte>, S) -> Step<S, F, E>, encode: F -> seq<Byte>,
                                           records: seq<F>, states: seq<S>, i: nat, tail: seq<Byte>)
    requires i < |records| && |states| == |records| + 1
  {
    next(encode(records[i]) + tail, states[i]) == Got(records[i], |encode(records[i])|, states[i + 1])
  }

  /** Encoded records parse back to themselves. */
  lemma {:induction false} EncodedParses<S(!new), F, E>(next: (seq<Byte>, S) -> Step<S, F, E>,
                                                        encode: F -> seq<Byte>, records: seq<F>, states: seq<S>)
    requires Lawful(next)
    requires Decodes(next, encode, records, states)
    ensures ParseAll(next, EncodeAll(encode, records), states[0]) == Parsed(records, [], states[|records|])
    decreases |records|
  {
    if records != [] {
      var head, tail := encode(records[0]), EncodeAll(encode, records[1..]);
      assert DecodesAt(next, encode, records, states, 0, tail);
      assert (head + tail)[|head|..] == tail;
      forall i, t | 0 <= i < |records[1..]|
        ensures DecodesAt(next, encode, records[1..], states[1..], i, t)
      {
        assert DecodesAt(next, encode, records, states, i + 1, t);
      }
      EncodedParses(next, encode, records[1..], states[1..]);
      assert [records[0]] + records[1..] == records;
    }
  }

  /** A format whose every accepted record is spelled as the encoder spells it. */
  ghost predicate Canonical<S(!new), F, E>(next: (seq<Byte>, S) -> Step<S, F, E>, encode: F -> seq<Byte>) {
    forall b, s :: next(b, s).Got? ==>
      next(b, s).used <= |b| && b[..next(b, s).used] == encode(next(b, s).record)
  }

  /** Then a successful parse accounts for every byte of the stream. */
  lemma {:induction false} ParsedIsCanonical<S(!new), F, E>(next: (seq<Byte>, S) -> Step<S, F, E>,
                                                            encode: F -> seq<Byte>, bytes: seq<Byte>, state: S)
    requires Lawful(next) && Canonical(next, encode)
    requires ParseAll(next, bytes, state).Parsed?
    ensures var p := ParseAll(next, bytes, state); bytes == EncodeAll(encode, p.records) + p.rest
    decreases |bytes|
  {
    match next(bytes, state) {
      case More =>
      case Got(record, used, state') =>
        assert bytes == bytes[..used] + bytes[used..];
        var tail := ParseAll(next, bytes[used..], state');
        ParseGot(next, bytes, state, record, used, state');
        ParsedIsCanonical(next, encode, bytes[used..], state');
        EncodeCons(encode, record, tail.records, tail.rest);
    }
  }

  lemma EncodeCons<F>(encode: F -> seq<Byte>, record: F, more: seq<F>, rest: seq<Byte>)
    ensures EncodeAll(encode, [record] + more) + rest == encode(record) + (EncodeAll(encode, more) + rest)
  {
    assert ([record] + more)[1..] == more;
  }

  /** End to end: encoded records, cut anywhere and fed to a new decoder, come out as the
      same records with nothing left over. */
  lemma EncodedSurvivesFragmentation<S(!new), F, E>(next: (seq<Byte>, S) -> Step<S, F, E>,
                                                    encode: F -> seq<Byte>, records: seq<F>, states: seq<S>,
                                                    first: S, last: S, reads_: seq<seq<Byte>>)
    requires Lawful(next)
    requires Decodes(next, encode, records, states) && states[0] == first && states[|records|] == last
    requires Concat(reads_) == EncodeAll(encode, records)
    ensures FeedAll(next, [], first, reads_) == Parsed(records, [], last)
  {
    Fragmentation(next, [], states[0], reads_);
    assert [] + Concat(reads_) == EncodeAll(encode, records);
    EncodedParses(next, encode, records, states);
  }

  // ---------------------------------------------------------------------
  // Decoders that bound their pending bytes

  /** Feeding as `FeedAll` does, except that a read which would take the pending bytes over
      `limit` is refused before any of it is looked at. */
  function FeedBounded<S, F, E>(next: (seq<Byte>, S) -> Step<S, F, E>, limit: nat, refusal: E,
                                pending: seq<Byte>, state: S, reads_: seq<seq<Byte>>): Parse<S, F, E>
    decreases |reads_|
  {
    if reads_ == [] then Parsed([], pending, state)
    else if |pending| + |reads_[0]| > limit then Failed(refusal, [])
    else match ParseAll(next, pending + reads_[0], state)
      case Failed(e, good) => Failed(e, good)
      case Parsed(records, rest, state') =>
        Prepend(records, FeedBounded(next, limit, refusal, rest, state', reads_[1..]))
  }

  /** No read meets the refusal: at every read the two lengths fit, which the reader can tell
      beforehand. */
  predicate Unrefused<S, F, E>(next: (seq<Byte>, S) -> Step<S, F, E>, limit: nat,
                               pending: seq<Byte>, state: S, reads_: seq<seq<Byte>>)
    decreases |reads_|
  {
    reads_ != [] ==>
      && |pending| + |reads_[0]| <= limit
      && (match ParseAll(next, pending + reads_[0], state)
          case Failed(_, _) => true
          case Parsed(_, rest, state') => Unrefused(next, limit, rest, state', reads_[1..]))
  }

  /** Fragmentation independence holds for exactly the unrefused reads. */
  lemma {:induction false} BoundedFragmentation<S(!new), F, E>(
      next: (seq<Byte>, S) -> Step<S, F, E>, limit: nat, refusal: E,
      pending: seq<Byte>, state: S, reads_: seq<seq<Byte>>)
    requires Lawful(next) && next(pending, state).More?
    ensures var fed := FeedBounded(next, limit, refusal, pending, state, reads_);
            if Unrefused(next, limit, pending, state, reads_)
            then fed == ParseAll(next, pending + Concat(reads_), state)
            else fed.Failed? && fed.error == refusal
    decreases |reads_|
  {
    if reads_ == [] {
      assert pending + Concat(reads_) == pending;
    } else if |pending| + |reads_[0]| <= limit {
      var first := pending + reads_[0];
      assert pending + Concat(reads_) == first + Concat(reads_[1..]);
      ParseSplit(next, first, Concat(reads_[1..]), state);
      match ParseAll(next, first, state) {
        case Failed(_, _) =>
        case Parsed(_, rest, state') =>
          RestWantsMore(next, first, state);
          BoundedFragmentation(next, limit, refusal, rest, state', reads_[1..]);
      }
    }
  }
}
