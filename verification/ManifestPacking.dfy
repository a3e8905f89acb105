/** Packing entries into bounded chunks: what is emitted is the framing of the entries in order,
    cut between entries, whatever the chunk limit. */
module ManifestPacking {
  import opened Bytes
  import opened ManifestEntries
  import opened BuilderSession
  import opened BuilderRuns

  /** The walker's chunk state: the chunk being filled, the counters, the bytes hashed and the
      chunks emitted so far. */
  datatype Packer = Packer(chunk: Blob, chunkEntries: U32, chunkFirst: U64, sequence: U64, entries: U64, byteCount: U64,
                           hashed: Blob, emitted: seq<Chunk>)

  function NewPacker(): Packer {
    Packer([], 0, 0, 0, 0, 0, [], [])
  }

  function Flush(l: Limits, id: string, pk: Packer): Option<Packer> {
    if pk.chunk == [] then Some(pk)
    else if pk.byteCount + |pk.chunk| >= U64_LIMIT || pk.byteCount + |pk.chunk| > l.maxTotalBytes then None
    else if pk.sequence + 1 >= U64_LIMIT then None
    else Some(pk.(chunk := [], chunkEntries := 0, sequence := pk.sequence + 1, byteCount := pk.byteCount + |pk.chunk|,
                  hashed := pk.hashed + pk.chunk,
                  emitted := pk.emitted + [Chunk(id, pk.sequence, pk.chunkFirst, pk.chunkEntries, pk.chunk)]))
  }

  /** Makes room for a frame of the given size. */
  function MakeRoom(l: Limits, id: string, pk: Packer, framed: nat): Option<Packer> {
    if pk.chunk != [] && |pk.chunk| + framed > l.maxChunkBytes then Flush(l, id, pk) else Some(pk)
  }

  function Append(l: Limits, pk: Packer, p: Piece): Option<Packer> {
    if 4 + |p| > l.maxChunkBytes || pk.chunkEntries + 1 >= 0x1_0000_0000 || pk.entries + 1 >= U64_LIMIT then None
    else Some(pk.(chunkFirst := if pk.chunk == [] then pk.entries else pk.chunkFirst, chunk := pk.chunk + Frame(p),
                  chunkEntries := pk.chunkEntries + 1, entries := pk.entries + 1))
  }

  function Push(l: Limits, id: string, pk: Packer, p: Piece): Option<Packer> {
    if pk.entries >= l.maxEntries then None
    else match MakeRoom(l, id, pk, 4 + |p|)
      case None => None
      case Some(room) => Append(l, room, p)
  }

  /** The chunks that have been sent when a flush ends, whether or not it succeeds. */
  function SentByFlush(l: Limits, id: string, pk: Packer): seq<Chunk> {
    if pk.chunk == [] || pk.byteCount + |pk.chunk| >= U64_LIMIT || pk.byteCount + |pk.chunk| > l.maxTotalBytes
    then pk.emitted
    else pk.emitted + [Chunk(id, pk.sequence, pk.chunkFirst, pk.chunkEntries, pk.chunk)]
  }

  /** The same for a push: only the flush before it sends anything. */
  function SentByPush(l: Limits, id: string, pk: Packer, p: Piece): seq<Chunk> {
    if pk.entries < l.maxEntries && pk.chunk != [] && |pk.chunk| + 4 + |p| > l.maxChunkBytes
    then SentByFlush(l, id, pk) else pk.emitted
  }

  function PushAll(l: Limits, id: string, ps: seq<Piece>): Option<Packer> {
    if ps == [] then Some(NewPacker())
    else match PushAll(l, id, ps[..|ps| - 1])
      case None => None
      case Some(pk) => Push(l, id, pk, ps[|ps| - 1])
  }

  // ---------------------------------------------------------------------------------------
  // What a packer holds

  /** Pieces that may go into a chunk. */
  ghost predicate Packable(within: Piece -> bool, l: Limits, ps: seq<Piece>) {
    forall i :: 0 <= i < |ps| ==> within(ps[i]) && |ps[i]| <= l.maxEntryBytes
  }

  lemma PackableAppend(within: Piece -> bool, l: Limits, a: seq<Piece>, b: seq<Piece>)
    ensures Packable(within, l, a + b) <==> Packable(within, l, a) && Packable(within, l, b)
  {
    assert forall i :: 0 <= i < |a| ==> (a + b)[i] == a[i];
    assert forall i :: 0 <= i < |b| ==> (a + b)[|a| + i] == b[i];
  }

  /** `flushed` have been emitted in fine chunks, `open` are waiting in the current one. */
  ghost predicate Packed(fine: Chunk -> bool, l: Limits, pk: Packer, flushed: seq<Piece>, open: seq<Piece>) {
    && Placed(fine, pk.emitted)
    && pk.sequence == |pk.emitted| && EntriesIn(pk.emitted) == |flushed|
    && pk.hashed == BytesIn(pk.emitted) == Framed(flushed) && pk.byteCount == |pk.hashed| <= l.maxTotalBytes
    && pk.chunk == Framed(open) && pk.chunkEntries == |open| && |pk.chunk| <= l.maxChunkBytes
    && pk.entries == |flushed| + |open| <= l.maxEntries
    && (open != [] ==> pk.chunkFirst == |flushed|)
  }

  /** The rules of one manifest stream: which chunks and pieces its limits admit. */
  ghost predicate Rules(p: Protocol, l: Limits, id: string, fine: Chunk -> bool, within: Piece -> bool) {
    LimitsOk(l) && IsSha256(id) && Fines(p, l, id, fine) && Verdicts(p.codec, l, within)
  }

  lemma {:induction false} FramedIsLong(ps: seq<Piece>)
    ensures |Framed(ps)| >= |ps|
  {
    if ps != [] { FramedIsLong(ps[1..]); }
  }

  /** A whole block of pieces makes a fine chunk. */
  lemma BlockIsFine(p: Protocol, l: Limits, id: string, within: Piece -> bool, block: seq<Piece>, c: Chunk)
    requires LimitsOk(l) && IsSha256(id) && Verdicts(p.codec, l, within)
    requires block != [] && Packable(within, l, block) && |Framed(block)| <= l.maxChunkBytes
    requires c.streamId == id && c.entryCount == |block| && c.bytes == Framed(block)
    ensures FineChunk(p, l, id, c)
  {
    FramedIsLong(block);
    FramedSplits(block, l.maxEntryBytes);
    FramedSplits(block, MAX_ENTRY_BYTES);
    forall i | 0 <= i < |block| ensures EntryWithin(p.codec, l, block[i]) { assert Seen(block[i]); }
  }

  lemma PlacedSnoc(fine: Chunk -> bool, cs: seq<Chunk>, c: Chunk)
    requires Placed(fine, cs) && fine(c) && c.sequence == |cs| && c.firstEntry == EntriesIn(cs)
    ensures Placed(fine, cs + [c]) && EntriesIn(cs + [c]) == EntriesIn(cs) + c.entryCount
            && BytesIn(cs + [c]) == BytesIn(cs) + c.bytes
  {
    assert (cs + [c])[..|cs|] == cs;
  }

  /** Flushing succeeds exactly when the bytes so far stay within the total. */
  lemma FlushPacked(p: Protocol, l: Limits, id: string, fine: Chunk -> bool, within: Piece -> bool, pk: Packer,
                    flushed: seq<Piece>, open: seq<Piece>)
    requires Rules(p, l, id, fine, within) && Packed(fine, l, pk, flushed, open) && Packable(within, l, open)
    ensures Flush(l, id, pk).Some? <==> |Framed(flushed + open)| <= l.maxTotalBytes
    ensures Flush(l, id, pk).Some? ==> Packed(fine, l, Flush(l, id, pk).value, flushed + open, [])
  {
    FramedAppend(flushed, open);
    if open == [] {
      assert flushed + open == flushed;
    } else {
      FramedIsLong(open);
      ChunksCount(fine, pk.emitted);
      var c := Chunk(id, pk.sequence, pk.chunkFirst, pk.chunkEntries, pk.chunk);
      BlockIsFine(p, l, id, within, open, c);
      assert Mark(c);
      PlacedSnoc(fine, pk.emitted, c);
    }
  }

  lemma AppendPacked(fine: Chunk -> bool, l: Limits, pk: Packer, flushed: seq<Piece>, open: seq<Piece>, piece: Piece)
    requires LimitsOk(l) && Packed(fine, l, pk, flushed, open)
    requires |piece| <= l.maxEntryBytes && pk.entries < l.maxEntries
             && (pk.chunk == [] || |pk.chunk| + 4 + |piece| <= l.maxChunkBytes)
    ensures Append(l, pk, piece).Some? && Packed(fine, l, Append(l, pk, piece).value, flushed, open + [piece])
  {
    FramedAppend(open, [piece]);
    FramedOne(piece);
    FramedIsLong(open);
  }

  /** Pushing one more piece: it goes into the open chunk, or starts a new one after a flush. */
  lemma PushPacked(p: Protocol, l: Limits, id: string, fine: Chunk -> bool, within: Piece -> bool, pk: Packer,
                   flushed: seq<Piece>, open: seq<Piece>, piece: Piece)
    returns (flushed': seq<Piece>, open': seq<Piece>)
    requires Rules(p, l, id, fine, within) && Packed(fine, l, pk, flushed, open) && Packable(within, l, open)
    requires within(piece) && |piece| <= l.maxEntryBytes
    ensures Push(l, id, pk, piece).Some? ==> pk.entries < l.maxEntries
    ensures pk.entries < l.maxEntries && |Framed(flushed + open)| <= l.maxTotalBytes ==> Push(l, id, pk, piece).Some?
    ensures flushed' + open' == flushed + open + [piece] && Packable(within, l, open')
    ensures Push(l, id, pk, piece).Some? ==> Packed(fine, l, Push(l, id, pk, piece).value, flushed', open')
  {
    if pk.chunk != [] && |pk.chunk| + 4 + |piece| > l.maxChunkBytes {
      flushed', open' := flushed + open, [piece];
      FlushPacked(p, l, id, fine, within, pk, flushed, open);
      if pk.entries < l.maxEntries && Flush(l, id, pk).Some? {
        AppendPacked(fine, l, Flush(l, id, pk).value, flushed + open, [], piece);
        assert [] + [piece] == [piece];
      }
    } else {
      flushed', open' := flushed, open + [piece];
      PackableAppend(within, l, open, [piece]);
      assert flushed + (open + [piece]) == flushed + open + [piece];
      if pk.entries < l.maxEntries {
        AppendPacked(fine, l, pk, flushed, open, piece);
      }
    }
  }

  /** Packing a whole list. */
  lemma {:induction false} PushAllPacked(p: Protocol, l: Limits, id: string, fine: Chunk -> bool, within: Piece -> bool,
                                         ps: seq<Piece>)
    returns (flushed: seq<Piece>, open: seq<Piece>)
    requires Rules(p, l, id, fine, within) && Packable(within, l, ps)
    ensures flushed + open == ps && Packable(within, l, open)
    ensures PushAll(l, id, ps).Some? ==>
            |ps| <= l.maxEntries && Packed(fine, l, PushAll(l, id, ps).value, flushed, open)
    ensures |ps| <= l.maxEntries && |Framed(ps)| <= l.maxTotalBytes ==> PushAll(l, id, ps).Some?
  {
    if ps == [] {
      flushed, open := [], [];
    } else {
      var front, piece := ps[..|ps| - 1], ps[|ps| - 1];
      assert ps == front + [piece];
      PackableAppend(within, l, front, [piece]);
      FramedAppend(front, [piece]);
      var f, o := PushAllPacked(p, l, id, fine, within, front);
      if PushAll(l, id, front).Some? {
        assert [piece][0] == piece;
        flushed, open := PushPacked(p, l, id, fine, within, PushAll(l, id, front).value, f, o, piece);
      } else {
        flushed, open := ps, [];
        assert flushed + open == ps;
      }
    }
  }

  /** The first entry of `b` would have been too much for `a`. */
  ghost predicate Overflows(l: Limits, a: Blob, b: Blob) {
    exists p: Piece :: Frame(p) <= b && |a| + |Frame(p)| > l.maxChunkBytes
  }

  /** No chunk is closed while the next entry still fits. */
  ghost predicate Greedy(l: Limits, cs: seq<Chunk>) {
    forall i :: 0 <= i < |cs| - 1 ==> Overflows(l, cs[i].bytes, cs[i + 1].bytes)
  }

  /** The same with the open chunk behind the emitted ones. */
  ghost predicate GreedySoFar(l: Limits, pk: Packer) {
    && Greedy(l, pk.emitted)
    && (pk.emitted != [] ==> pk.chunk != [] && Overflows(l, pk.emitted[|pk.emitted| - 1].bytes, pk.chunk))
  }

  lemma GreedySnoc(l: Limits, cs: seq<Chunk>, c: Chunk)
    requires Greedy(l, cs) && (cs != [] ==> Overflows(l, cs[|cs| - 1].bytes, c.bytes))
    ensures Greedy(l, cs + [c])
  {
    var all := cs + [c];
    forall i | 0 <= i < |all| - 1 ensures Overflows(l, all[i].bytes, all[i + 1].bytes) {
      assert i < |cs| - 1 ==> all[i + 1] == cs[i + 1];
    }
  }

  lemma OverflowsLonger(l: Limits, a: Blob, b: Blob, more: Blob)
    requires Overflows(l, a, b)
    ensures Overflows(l, a, b + more)
  {
    var p: Piece :| Frame(p) <= b && |a| + |Frame(p)| > l.maxChunkBytes;
    assert Frame(p) <= b + more;
  }

  lemma FlushIsGreedy(l: Limits, id: string, pk: Packer)
    requires GreedySoFar(l, pk) && Flush(l, id, pk).Some?
    ensures Greedy(l, Flush(l, id, pk).value.emitted)
  {
    if pk.chunk != [] {
      GreedySnoc(l, pk.emitted, Chunk(id, pk.sequence, pk.chunkFirst, pk.chunkEntries, pk.chunk));
    }
  }

  lemma PushIsGreedy(l: Limits, id: string, pk: Packer, p: Piece)
    requires GreedySoFar(l, pk) && Push(l, id, pk, p).Some?
    ensures GreedySoFar(l, Push(l, id, pk, p).value)
  {
    if pk.chunk != [] && |pk.chunk| + 4 + |p| > l.maxChunkBytes {
      FlushIsGreedy(l, id, pk);
      assert [] + Frame(p) == Frame(p) && |Frame(p)| == 4 + |p|;
      assert Overflows(l, pk.chunk, Frame(p));
    } else if pk.emitted != [] {
      OverflowsLonger(l, pk.emitted[|pk.emitted| - 1].bytes, pk.chunk, Frame(p));
    }
  }

  lemma {:induction false} PushAllIsGreedy(l: Limits, id: string, ps: seq<Piece>)
    requires PushAll(l, id, ps).Some?
    ensures GreedySoFar(l, PushAll(l, id, ps).value)
  {
    if ps != [] {
      PushAllIsGreedy(l, id, ps[..|ps| - 1]);
      PushIsGreedy(l, id, PushAll(l, id, ps[..|ps| - 1]).value, ps[|ps| - 1]);
    }
  }

  /** Packing is greedy: each chunk ends only where the next entry no longer fits. */
  lemma PackingIsGreedy(l: Limits, id: string, ps: seq<Piece>)
    requires PackAll(l, id, ps).Some?
    ensures Greedy(l, PackAll(l, id, ps).value.emitted)
  {
    PushAllIsGreedy(l, id, ps);
    FlushIsGreedy(l, id, PushAll(l, id, ps).value);
  }

  /** All pieces packed and the last chunk flushed. */
  function PackAll(l: Limits, id: string, ps: seq<Piece>): Option<Packer> {
    match PushAll(l, id, ps) case None => None case Some(pk) => Flush(l, id, pk)
  }

  /** Packing succeeds exactly when entries and bytes are within their totals, for every chunk
      limit. The chunks are then fine, contiguous, and their bytes are the framed entries. */
  lemma PackingIsExact(p: Protocol, l: Limits, id: string, fine: Chunk -> bool, within: Piece -> bool, ps: seq<Piece>)
    requires Rules(p, l, id, fine, within) && Packable(within, l, ps)
    ensures PackAll(l, id, ps).Some? <==> |ps| <= l.maxEntries && |Framed(ps)| <= l.maxTotalBytes
    ensures PackAll(l, id, ps).Some? ==>
              var pk := PackAll(l, id, ps).value;
              && GoodChunks(fine, l, pk.emitted)
              && BytesIn(pk.emitted) == Framed(ps) == pk.hashed && EntriesIn(pk.emitted) == |ps| == pk.entries
              && pk.byteCount == |Framed(ps)|
  {
    var flushed, open := PushAllPacked(p, l, id, fine, within, ps);
    if PushAll(l, id, ps).Some? {
      FlushPacked(p, l, id, fine, within, PushAll(l, id, ps).value, flushed, open);
    }
  }
}
