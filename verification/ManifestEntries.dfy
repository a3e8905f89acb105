/** Manifest entries on the wire: negotiated limits, the canonical entry encoding, and the
    length-prefixed framing that puts entries into chunks. CBOR and SHA-256 are foreign code. */
module ManifestEntries {
  import opened Bytes

  const MAX_CHUNK_BYTES := 192 * 1024
  const MAX_ENTRY_BYTES := 128 * 1024
  const MAX_PATH_BYTES := 4096
  const MAX_XATTRS := 128
  const MAX_XATTR_BYTES := 64 * 1024
  const MAX_ENTRIES := 1_000_000
  const MAX_MANIFEST_BYTES := 16 * 1024 * 1024 * 1024
  const MAX_DIRECTORY_ENTRIES := 131_072
  const MAX_DIRECTORY_NAME_BYTES := 64 * 1024 * 1024
  const MAX_HARDLINK_GROUPS := 131_072
  const MAX_HARDLINK_PATH_BYTES := 64 * 1024 * 1024
  const MAX_DEPTH := 256
  const MAX_CONTROL_PAYLOAD := 262_144
  const MAX_ID_LENGTH := 128
  const SLASH: Byte := 47
  const ASCII_DOT: Blob := ['.' as Byte]
  const ASCII_DOTS: Blob := ['.' as Byte, '.' as Byte]

  type Blob = seq<Byte>

  datatype Limits = Limits(
    maxPathBytes: nat, maxXattrsPerEntry: nat, maxXattrBytesPerEntry: nat, maxEntryBytes: nat, maxChunkBytes: nat,
    maxEntries: nat, maxTotalBytes: nat, maxDirectoryEntries: nat, maxDirectoryNameBytes: nat,
    maxHardlinkGroups: nat, maxHardlinkPathBytes: nat, maxDepth: nat)

  predicate LimitsOk(l: Limits) {
    && 0 < l.maxPathBytes <= MAX_PATH_BYTES
    && l.maxXattrsPerEntry <= MAX_XATTRS
    && l.maxXattrBytesPerEntry <= MAX_XATTR_BYTES
    && 0 < l.maxEntryBytes <= MAX_ENTRY_BYTES
    && 4 <= l.maxChunkBytes <= MAX_CHUNK_BYTES
    && l.maxEntryBytes + 4 <= l.maxChunkBytes
    && 0 < l.maxEntries <= MAX_ENTRIES
    && 0 < l.maxTotalBytes <= MAX_MANIFEST_BYTES
    && 0 < l.maxDirectoryEntries <= MAX_DIRECTORY_ENTRIES
    && 0 < l.maxDirectoryNameBytes <= MAX_DIRECTORY_NAME_BYTES
    && 0 < l.maxHardlinkGroups <= MAX_HARDLINK_GROUPS
    && 0 < l.maxHardlinkPathBytes <= MAX_HARDLINK_PATH_BYTES
    && 0 < l.maxDepth <= MAX_DEPTH
  }

  // ---------------------------------------------------------------------------------------
  // Byte order

  /** Byte-wise lexicographic order. */
  predicate Less(a: Blob, b: Blob) {
    b != [] && (a == [] || a[0] < b[0] || (a[0] == b[0] && Less(a[1..], b[1..])))
  }

  lemma {:induction false} LessTransitive(a: Blob, b: Blob, c: Blob)
    requires Less(a, b) && Less(b, c)
    ensures Less(a, c)
    decreases |a|
  {
    if a != [] && a[0] == b[0] == c[0] {
      LessTransitive(a[1..], b[1..], c[1..]);
    }
  }

  lemma {:induction false} LessIrreflexive(a: Blob)
    ensures !Less(a, a)
  {
    if a != [] { LessIrreflexive(a[1..]); }
  }

  lemma {:induction false} LessTotal(a: Blob, b: Blob)
    ensures a == b || Less(a, b) || Less(b, a)
    decreases |a|
  {
    if a != [] && b != [] && a[0] == b[0] {
      LessTotal(a[1..], b[1..]);
      assert a == [a[0]] + a[1..] && b == [b[0]] + b[1..];
    }
  }

  /** At the first difference the smaller byte comes first, and a prefix before what it begins. */
  ghost predicate ComesBefore(a: Blob, b: Blob) {
    exists k :: 0 <= k <= |a| && k < |b| && a[..k] == b[..k] && (k == |a| || a[k] < b[k])
  }

  lemma {:induction false} LessMeans(a: Blob, b: Blob)
    ensures Less(a, b) <==> ComesBefore(a, b)
    decreases |a|
  {
    if a != [] && b != [] && a[0] == b[0] {
      LessMeans(a[1..], b[1..]);
      var x, y := a[1..], b[1..];
      if k :| 0 <= k <= |x| && k < |y| && x[..k] == y[..k] && (k == |x| || x[k] < y[k]) {
        assert a[..k + 1] == [a[0]] + a[1..][..k] && b[..k + 1] == [b[0]] + b[1..][..k];
      }
      if k :| 0 <= k <= |a| && k < |b| && a[..k] == b[..k] && (k == |a| || a[k] < b[k]) {
        assert k > 0 && a[1..][..k - 1] == a[..k][1..] && b[1..][..k - 1] == b[..k][1..];
      }
    } else if Less(a, b) {
      assert a[..0] == b[..0];
    }
  }

  // ---------------------------------------------------------------------------------------
  // Entries

  datatype Xattr = Xattr(name: Blob, value: Blob)

  datatype Entry = Entry(
    path: Blob, kind: Byte, mode: U32, uid: U32, gid: U32, size: U64, rdev: U64,
    mtimeSeconds: int, mtimeNanoseconds: U32,
    symlinkTarget: Option<Blob>, contentSha256: Option<Blob>, hardlinkTarget: Option<Blob>, xattrs: seq<Xattr>)

  const REGULAR: Byte := 1
  const SYMLINK: Byte := 3
  const CHARACTER: Byte := 4
  const BLOCK: Byte := 5

  /** No part between slashes is empty, "." or "..". */
  predicate PartsOk(path: Blob, part: Blob)
    decreases |path|
  {
    if path == [] then PlainPart(part)
    else if path[0] == SLASH then PlainPart(part) && PartsOk(path[1..], [])
    else PartsOk(path[1..], part + [path[0]])
  }

  predicate PlainPart(part: Blob) {
    part != [] && part != [46] && part != [46, 46]
  }

  /** Parts joined by slashes. */
  function Joined(parts: seq<Blob>): Blob {
    if parts == [] then [] else if |parts| == 1 then parts[0] else parts[0] + [SLASH] + Joined(parts[1..])
  }

  lemma {:induction false} PartIsCollected(head: Blob, rest: Blob, part: Blob)
    requires SLASH !in head
    ensures PartsOk(head + rest, part) == PartsOk(rest, part + head)
    decreases |head|
  {
    if head == [] {
      assert head + rest == rest && part + head == part;
    } else {
      assert head[0] in head;
      assert (head + rest)[1..] == head[1..] + rest && part + [head[0]] + head[1..] == part + head;
      PartIsCollected(head[1..], rest, part + [head[0]]);
    }
  }

  /** A path text is well-formed exactly when none of its parts is empty, "." or "..". */
  lemma {:induction false} PartsMean(parts: seq<Blob>)
    requires parts != [] && forall i :: 0 <= i < |parts| ==> SLASH !in parts[i]
    ensures PartsOk(Joined(parts), []) <==>
            forall i :: 0 <= i < |parts| ==> parts[i] != [] && parts[i] != ASCII_DOT && parts[i] != ASCII_DOTS
    decreases |parts|
  {
    var head, rest := parts[0], parts[1..];
    assert [] + head == head;
    if rest == [] {
      PartIsCollected(head, [], []);
      assert head + [] == head;
    } else {
      PartsMean(rest);
      PartIsCollected(head, [SLASH] + Joined(rest), []);
      assert head + [SLASH] + Joined(rest) == head + ([SLASH] + Joined(rest));
      assert ([SLASH] + Joined(rest))[1..] == Joined(rest);
      assert forall i :: 1 <= i < |parts| ==> parts[i] == rest[i - 1];
    }
  }

  predicate PathText(path: Blob) {
    |path| <= MAX_PATH_BYTES && 0 !in path
  }

  function XattrBytes(xattrs: seq<Xattr>): nat {
    if xattrs == [] then 0
        else XattrBytes(xattrs[..|xattrs| - 1]) + |xattrs[|xattrs| - 1].name| + |xattrs[|xattrs| - 1].value|
  }

  predicate NamesIncrease(xattrs: seq<Xattr>) {
    forall i :: 0 < i < |xattrs| ==> Less(xattrs[i - 1].name, xattrs[i].name)
  }

  predicate XattrsOk(xattrs: seq<Xattr>) {
    && |xattrs| <= MAX_XATTRS
    && (forall i :: 0 <= i < |xattrs| ==> xattrs[i].name != [] && 0 !in xattrs[i].name)
    && NamesIncrease(xattrs)
    && XattrBytes(xattrs) <= MAX_XATTR_BYTES
  }

  predicate EntryOk(e: Entry) {
    && PathText(e.path) && (e.path == [] || PartsOk(e.path, []))
    && 1 <= e.kind <= 7 && e.mode <= 0xFFF && e.mtimeNanoseconds < 1_000_000_000
    && (e.symlinkTarget.Some? ==> PathText(e.symlinkTarget.value))
    && (e.contentSha256.Some? ==> |e.contentSha256.value| == 32)
    && (e.hardlinkTarget.Some? ==> PathText(e.hardlinkTarget.value) && PartsOk(e.hardlinkTarget.value, []))
    && (if e.kind == REGULAR then e.contentSha256.Some? != e.hardlinkTarget.Some?
        else e.contentSha256.None? && e.hardlinkTarget.None?)
    && (e.kind == SYMLINK <==> e.symlinkTarget.Some?)
    && (e.kind != CHARACTER && e.kind != BLOCK ==> e.rdev == 0)
    && XattrsOk(e.xattrs)
  }

  // ---------------------------------------------------------------------------------------
  // Canonical encoding

  /** Foreign code: plain CBOR of an entry, both ways. */
  datatype Codec = Codec(cbor: Entry -> Blob, parse: Blob -> Option<Entry>)

  ghost predicate CborInverts(c: Codec) {
    forall e :: c.parse(c.cbor(e)) == Some(e)
  }

  function EncodeEntry(c: Codec, e: Entry): Option<Blob> {
    if EntryOk(e) && |c.cbor(e)| <= MAX_CONTROL_PAYLOAD then Some(c.cbor(e)) else None
  }

  /** Decodes, validates, and insists on the deterministic encoding. */
  function DecodeEntry(c: Codec, b: Blob): Option<Entry> {
    if |b| > MAX_CONTROL_PAYLOAD then None
    else match c.parse(b)
      case None => None
      case Some(e) => if EntryOk(e) && c.cbor(e) == b then Some(e) else None
  }

  lemma EntryCodec(c: Codec, e: Entry, b: Blob)
    requires CborInverts(c)
    ensures DecodeEntry(c, b) == Some(e) <==> EncodeEntry(c, e) == Some(b)
  {
    assert c.parse(c.cbor(e)) == Some(e);
  }

  // ---------------------------------------------------------------------------------------
  // Framing

  /** One encoded entry: never empty, never above the hard cap. */
  type Piece = b: seq<Byte> | 1 <= |b| <= MAX_ENTRY_BYTES witness [0]

  function Frame(p: Piece): Blob {
    PutU32(|p|) + p
  }

  /** A frame is the length of the piece in four big-endian bytes, then the piece. */
  lemma FrameMeans(p: Piece)
    ensures |Frame(p)| == 4 + |p| && BigEndian(Frame(p)[..4]) == |p| && Frame(p)[4..] == p
  {
    FieldsAreBigEndian([], 0, 0, |p|);
    assert Frame(p)[..4] == PutU32(|p|);
  }

  function Framed(ps: seq<Piece>): Blob {
    if ps == [] then [] else Frame(ps[0]) + Framed(ps[1..])
  }

  lemma {:induction false} FramedAppend(a: seq<Piece>, b: seq<Piece>)
    ensures Framed(a + b) == Framed(a) + Framed(b)
  {
    if a == [] {
      assert a + b == b;
    } else {
      assert (a + b)[1..] == a[1..] + b;
      FramedAppend(a[1..], b);
    }
  }

  lemma FramedOne(p: Piece)
    ensures Framed([p]) == Frame(p) && |Frame(p)| == 4 + |p|
  {
    assert [p][1..] == [];
  }

  predicate AtMost(ps: seq<Piece>, maximum: nat) {
    forall i :: 0 <= i < |ps| ==> |ps[i]| <= maximum
  }

  /** Reads back the pieces of a chunk. */
  function Split(bytes: Blob, maximum: nat): Option<seq<Piece>>
    requires maximum <= MAX_ENTRY_BYTES
    decreases |bytes|
  {
    if bytes == [] then Some([])
    else if |bytes| < 4 then None
    else
      var n := U32At(bytes, 0);
      if n == 0 || n > maximum || 4 + n > |bytes| then None
      else match Split(bytes[4 + n..], maximum)
        case None => None
        case Some(rest) => Some([bytes[4..4 + n]] + rest)
  }

  lemma FrameReads(p: Piece, rest: Blob)
    ensures var b := Frame(p) + rest; |b| >= 4 + |p| && U32At(b, 0) == |p| && b[4..4 + |p|] == p && b[4 + |p|..] == rest
  {
    var b := Frame(p) + rest;
    assert b[0..4] == PutU32(|p|);
    U32Field(b, 0, |p|);
  }

  lemma {:induction false} FramedSplits(ps: seq<Piece>, maximum: nat)
    requires maximum <= MAX_ENTRY_BYTES && AtMost(ps, maximum)
    ensures Split(Framed(ps), maximum) == Some(ps)
  {
    if ps != [] {
      FrameReads(ps[0], Framed(ps[1..]));
      FramedSplits(ps[1..], maximum);
      assert [ps[0]] + ps[1..] == ps;
    }
  }

  lemma FirstFrame(bytes: Blob, n: nat)
    requires 4 + n <= |bytes| && 1 <= n <= MAX_ENTRY_BYTES && U32At(bytes, 0) == n
    ensures bytes == Frame(bytes[4..4 + n]) + bytes[4 + n..]
  {
    U32Field(bytes, 0, n);
    assert bytes == bytes[0..4] + bytes[4..4 + n] + bytes[4 + n..];
  }

  lemma {:induction false} SplitIsFramed(bytes: Blob, maximum: nat)
    requires maximum <= MAX_ENTRY_BYTES && Split(bytes, maximum).Some?
    ensures Framed(Split(bytes, maximum).value) == bytes && AtMost(Split(bytes, maximum).value, maximum)
    decreases |bytes|
  {
    if bytes != [] {
      var n := U32At(bytes, 0);
      SplitIsFramed(bytes[4 + n..], maximum);
      FirstFrame(bytes, n);
      assert Split(bytes, maximum).value[1..] == Split(bytes[4 + n..], maximum).value;
    }
  }

  /** Framing is exact: a chunk splits into these pieces exactly when it is their framing. */
  lemma SplitExact(bytes: Blob, maximum: nat, ps: seq<Piece>)
    requires maximum <= MAX_ENTRY_BYTES
    ensures Split(bytes, maximum) == Some(ps) <==> Framed(ps) == bytes && AtMost(ps, maximum)
  {
    if Split(bytes, maximum).Some? {
      SplitIsFramed(bytes, maximum);
    }
    if Framed(ps) == bytes && AtMost(ps, maximum) {
      FramedSplits(ps, maximum);
    }
  }

  /** The frame at a position, seen from the rest of the chunk. */
  lemma SplitAt(bytes: Blob, position: nat, maximum: nat)
    requires maximum <= MAX_ENTRY_BYTES && position + 4 <= |bytes|
    ensures var length := U32At(bytes, position);
            var here := Split(bytes[position..], maximum);
            if length == 0 || length > maximum || position + 4 + length > |bytes| then here.None?
            else
              var rest := Split(bytes[position + 4 + length..], maximum);
              (here.Some? <==> rest.Some?) && (here.Some? ==> |here.value| == 1 + |rest.value|)
  {
    var tail, length := bytes[position..], U32At(bytes, position);
    assert U32At(tail, 0) == length;
    if position + 4 + length <= |bytes| {
      assert tail[4 + length..] == bytes[position + 4 + length..];
    }
  }

  /** The entries from a position on, by positions alone. */
  function CountFrom(bytes: Blob, position: nat, maximum: nat): Option<nat>
    requires position <= |bytes|
    decreases |bytes| - position
  {
    if position == |bytes| then Some(0)
    else if |bytes| - position < 4 then None
    else
      var length := U32At(bytes, position);
      if length == 0 || length > maximum || position + 4 + length > |bytes| then None
      else More(CountFrom(bytes, position + 4 + length, maximum), 1)
  }

  function More(count: Option<nat>, extra: nat): Option<nat> {
    if count.None? then None else Some(count.value + extra)
  }

  function Size(ps: Option<seq<Piece>>): Option<nat> {
    if ps.None? then None else Some(|ps.value|)
  }

  predicate Cut(b: Blob) { true }

  /** `size` counts the pieces of a byte string; it is looked up only where `Cut` is mentioned. */
  ghost predicate Sizes(maximum: nat, size: Blob -> Option<nat>)
    requires maximum <= MAX_ENTRY_BYTES
  {
    forall b {:trigger Cut(b)} :: Cut(b) ==> size(b) == Size(Split(b, maximum))
  }

  lemma SizeAt(bytes: Blob, position: nat, maximum: nat, size: Blob -> Option<nat>)
    requires maximum <= MAX_ENTRY_BYTES && position + 4 <= |bytes| && Sizes(maximum, size)
    ensures var length := U32At(bytes, position);
            size(bytes[position..]) ==
            if length == 0 || length > maximum || position + 4 + length > |bytes| then None
            else More(size(bytes[position + 4 + length..]), 1)
  {
    SplitAt(bytes, position, maximum);
    assert Cut(bytes[position..]);
    var end := position + 4 + U32At(bytes, position);
    if end <= |bytes| {
      assert Cut(bytes[end..]);
    }
  }

  lemma SizeAtEnd(bytes: Blob, position: nat, maximum: nat, size: Blob -> Option<nat>)
    requires maximum <= MAX_ENTRY_BYTES && position <= |bytes| < position + 4 && Sizes(maximum, size)
    ensures size(bytes[position..]) == if position == |bytes| then Some(0) else None
  {
    assert Cut(bytes[position..]);
  }

  lemma {:induction false} CountFromCounts(bytes: Blob, position: nat, maximum: nat, size: Blob -> Option<nat>)
    requires maximum <= MAX_ENTRY_BYTES && position <= |bytes| && Sizes(maximum, size)
    ensures CountFrom(bytes, position, maximum) == size(bytes[position..])
    decreases |bytes| - position
  {
    if |bytes| - position < 4 {
      SizeAtEnd(bytes, position, maximum, size);
    } else {
      SizeAt(bytes, position, maximum, size);
      var length := U32At(bytes, position);
      if length != 0 && length <= maximum && position + 4 + length <= |bytes| {
        CountFromCounts(bytes, position + 4 + length, maximum, size);
      }
    }
  }

  lemma CountFromSplit(bytes: Blob, maximum: nat)
    requires maximum <= MAX_ENTRY_BYTES
    ensures CountFrom(bytes, 0, maximum) == Size(Split(bytes, maximum))
  {
    assert bytes[0..] == bytes;
    CountFromCounts(bytes, 0, maximum, b => Size(Split(b, maximum)));
  }

  /** The loop over positions. */
  method CountFrames(bytes: Blob, maximum: nat) returns (r: Option<nat>)
    ensures r == CountFrom(bytes, 0, maximum)
  {
    var position, count := 0, 0;
    while position < |bytes|
      invariant 0 <= position <= |bytes|
      invariant CountFrom(bytes, 0, maximum) == More(CountFrom(bytes, position, maximum), count)
      decreases |bytes| - position
    {
      if |bytes| - position < 4 {
        return None;
      }
      var length := U32At(bytes, position);
      if length == 0 || length > maximum {
        return None;
      }
      if position + 4 + length > |bytes| {
        return None;
      }
      position := position + 4 + length;
      count := count + 1;
    }
    r := Some(count);
  }

  /** Counts the entries of a chunk; fails on any byte sequence that is not a framing. */
  method CountEntries(bytes: Blob, maximum: nat) returns (r: Option<nat>)
    requires maximum <= MAX_ENTRY_BYTES
    ensures r.Some? <==> Split(bytes, maximum).Some?
    ensures r.Some? ==> r.value == |Split(bytes, maximum).value|
  {
    CountFromSplit(bytes, maximum);
    r := CountFrames(bytes, maximum);
  }

  /** A piece decodes to a canonical entry within the negotiated limits. */
  predicate EntryWithin(c: Codec, l: Limits, p: Piece) {
    && DecodeEntry(c, p).Some?
    && var e := DecodeEntry(c, p).value;
       |e.path| <= l.maxPathBytes && |e.xattrs| <= l.maxXattrsPerEntry
           && XattrBytes(e.xattrs) <= l.maxXattrBytesPerEntry
  }

  predicate EntriesWithin(c: Codec, l: Limits, ps: seq<Piece>) {
    forall i :: 0 <= i < |ps| ==> EntryWithin(c, l, ps[i])
  }

  method SumXattrs(xattrs: seq<Xattr>) returns (total: nat)
    ensures total == XattrBytes(xattrs)
  {
    total := 0;
    assert xattrs[..0] == [];
    for i := 0 to |xattrs|
      invariant total == XattrBytes(xattrs[..i])
    {
      assert xattrs[..i + 1][..i] == xattrs[..i];
      total := total + |xattrs[i].name| + |xattrs[i].value|;
    }
    assert xattrs[..|xattrs|] == xattrs;
  }

  method ValidateEntry(c: Codec, l: Limits, p: Piece) returns (ok: bool)
    ensures ok <==> EntryWithin(c, l, p)
  {
    var decoded := DecodeEntry(c, p);
    if decoded.None? {
      return false;
    }
    var e := decoded.value;
    if |e.path| > l.maxPathBytes || |e.xattrs| > l.maxXattrsPerEntry {
      return false;
    }
    var total := SumXattrs(e.xattrs);
    ok := total <= l.maxXattrBytesPerEntry;
  }

  lemma SplitStep(bytes: Blob, position: nat, maximum: nat, ps: seq<Piece>, done: nat)
    requires maximum <= MAX_ENTRY_BYTES && position < |bytes| && done <= |ps|
    requires Split(bytes[position..], maximum) == Some(ps[done..])
    ensures position + 4 <= |bytes|
    ensures var length := U32At(bytes, position);
            && position + 4 + length <= |bytes| && done < |ps|
            && bytes[position + 4..position + 4 + length] == ps[done]
            && Split(bytes[position + 4 + length..], maximum) == Some(ps[done + 1..])
  {
    var tail := bytes[position..];
    var length := U32At(bytes, position);
    assert U32At(tail, 0) == length && ps[done..] != [];
    assert tail[4..4 + length] == bytes[position + 4..position + 4 + length];
    assert tail[4 + length..] == bytes[position + 4 + length..];
    assert ps[done..][0] == ps[done] && ps[done..][1..] == ps[done + 1..];
  }

  /** `split` splits byte strings; it is looked up only where `Cut` is mentioned. */
  ghost predicate Splits(maximum: nat, split: Blob -> Option<seq<Piece>>)
    requires maximum <= MAX_ENTRY_BYTES
  {
    forall b {:trigger Cut(b)} :: Cut(b) ==> split(b) == Split(b, maximum)
  }

  lemma SplitStepAt(bytes: Blob, position: nat, maximum: nat, split: Blob -> Option<seq<Piece>>, ps: seq<Piece>,
                    done: nat)
    requires maximum <= MAX_ENTRY_BYTES && position < |bytes| && done <= |ps| && Splits(maximum, split)
    requires split(bytes[position..]) == Some(ps[done..])
    ensures position + 4 <= |bytes|
    ensures var end := position + 4 + U32At(bytes, position);
            && end <= |bytes| && done < |ps| && bytes[position + 4..end] == ps[done]
            && split(bytes[end..]) == Some(ps[done + 1..])
  {
    assert Cut(bytes[position..]);
    SplitStep(bytes, position, maximum, ps, done);
    assert Cut(bytes[position + 4 + U32At(bytes, position)..]);
  }

  /** Reads the piece at a position of a counted chunk. */
  method TakePiece(bytes: Blob, position: nat, ghost maximum: nat, ghost split: Blob -> Option<seq<Piece>>,
                   ghost ps: seq<Piece>, ghost done: nat)
    returns (p: Piece, next: nat)
    requires maximum <= MAX_ENTRY_BYTES && position < |bytes| && done <= |ps| && Splits(maximum, split)
    requires split(bytes[position..]) == Some(ps[done..])
    ensures done < |ps| && p == ps[done] && position < next <= |bytes|
    ensures split(bytes[next..]) == Some(ps[done + 1..])
  {
    SplitStepAt(bytes, position, maximum, split, ps, done);
    var length := U32At(bytes, position);
    p := bytes[position + 4..position + 4 + length];
    next := position + 4 + length;
  }

  predicate Seen(p: Piece) { true }

  /** `within` is the verdict on pieces; it is looked up only where `Seen` is mentioned. */
  ghost predicate Verdicts(c: Codec, l: Limits, within: Piece -> bool) {
    forall p {:trigger Seen(p)} :: Seen(p) ==> within(p) == EntryWithin(c, l, p)
  }

  method ValidateOne(c: Codec, l: Limits, p: Piece, ghost within: Piece -> bool) returns (ok: bool)
    requires Verdicts(c, l, within)
    ensures ok == within(p)
  {
    assert Seen(p);
    ok := ValidateEntry(c, l, p);
  }

  method ValidatePieces(c: Codec, l: Limits, bytes: Blob, ghost maximum: nat, ghost split: Blob -> Option<seq<Piece>>,
                        ghost within: Piece -> bool, ghost ps: seq<Piece>)
    returns (ok: bool)
    requires maximum <= MAX_ENTRY_BYTES && Splits(maximum, split) && Verdicts(c, l, within)
    requires split(bytes) == Some(ps)
    ensures ok <==> forall i :: 0 <= i < |ps| ==> within(ps[i])
  {
    var position := 0;
    ghost var done := 0;
    assert bytes[0..] == bytes && ps[0..] == ps;
    while position < |bytes|
      invariant 0 <= position <= |bytes| && 0 <= done <= |ps|
      invariant split(bytes[position..]) == Some(ps[done..])
      invariant forall i :: 0 <= i < done ==> within(ps[i])
      decreases |bytes| - position
    {
      var p, next := TakePiece(bytes, position, maximum, split, ps, done);
      var fine := ValidateOne(c, l, p, within);
      if !fine {
        return false;
      }
      position := next;
      done := done + 1;
    }
    assert bytes[position..] == [] && Cut(bytes[position..]);
    assert ps[done..] == [];
    ok := true;
  }

  /** Walks a counted chunk once more and decodes every entry. */
  method ValidateCanonicalEntries(c: Codec, l: Limits, bytes: Blob, ghost maximum: nat) returns (ok: bool)
    requires maximum <= MAX_ENTRY_BYTES && Split(bytes, maximum).Some?
    ensures ok <==> EntriesWithin(c, l, Split(bytes, maximum).value)
  {
    ok := ValidatePieces(c, l, bytes, maximum, b => Split(b, maximum), (p: Piece) => EntryWithin(c, l, p),
                         Split(bytes, maximum).value);
  }

  // ---------------------------------------------------------------------------------------
  // Digests and tokens as text

  type Sha = b: seq<Byte> | |b| == 32 witness seq(32, i => 0)

  function HexDigit(n: int): char
    requires 0 <= n < 16
  {
    if n < 10 then ('0' as int + n) as char else ('a' as int + (n - 10)) as char
  }

  function HexLower(b: Blob): string {
    if b == [] then "" else [HexDigit(b[0] / 16), HexDigit(b[0] % 16)] + HexLower(b[1..])
  }

  predicate HexText(s: string) {
    forall i :: 0 <= i < |s| ==> '0' <= s[i] <= '9' || 'a' <= s[i] <= 'f'
  }

  predicate IsSha256(s: string) {
    |s| == 64 && HexText(s)
  }

  lemma {:induction false} HexLowerIsHex(b: Blob)
    ensures |HexLower(b)| == 2 * |b| && HexText(HexLower(b))
  {
    if b != [] {
      HexLowerIsHex(b[1..]);
      var head := [HexDigit(b[0] / 16), HexDigit(b[0] % 16)];
      assert HexText(head);
      assert HexLower(b) == head + HexLower(b[1..]);
    }
  }

  /** The value of a lower-case hexadecimal digit. */
  function HexValue(c: char): int {
    if '0' <= c <= '9' then c as int - '0' as int
    else if 'a' <= c <= 'f' then c as int - 'a' as int + 10
    else -1
  }

  /** Each byte is spelled by two digits, the high one first. */
  ghost predicate Spells(s: string, b: Blob) {
    && |s| == 2 * |b|
    && forall i :: 0 <= i < |b| ==> HexValue(s[2 * i]) == b[i] / 16 && HexValue(s[2 * i + 1]) == b[i] % 16
  }

  lemma {:induction false} HexLowerSpells(b: Blob)
    ensures Spells(HexLower(b), b)
  {
    HexLowerIsHex(b);
    if b != [] {
      HexLowerSpells(b[1..]);
      var s, rest := HexLower(b), HexLower(b[1..]);
      forall i | 0 <= i < |b|
        ensures HexValue(s[2 * i]) == b[i] / 16 && HexValue(s[2 * i + 1]) == b[i] % 16
      {
        if i > 0 {
          assert s[2 * i] == rest[2 * (i - 1)] && s[2 * i + 1] == rest[2 * (i - 1) + 1] && b[i] == b[1..][i - 1];
        }
      }
    }
  }

  /** A text spells one byte string only, and is the only text that spells it. */
  lemma SpellingIsUnique(s: string, a: Blob, b: Blob)
    requires Spells(s, a) && Spells(s, b)
    ensures a == b
  {
    forall i | 0 <= i < |a| ensures a[i] == b[i] {
      assert a[i] == 16 * (a[i] / 16) + a[i] % 16 && b[i] == 16 * (b[i] / 16) + b[i] % 16;
    }
  }

  /** The lower-case text of a digest is the one hexadecimal text that spells it. */
  lemma HexLowerExact(s: string, b: Blob)
    ensures s == HexLower(b) <==> HexText(s) && Spells(s, b)
  {
    HexLowerIsHex(b);
    HexLowerSpells(b);
    if HexText(s) && Spells(s, b) {
      var t := HexLower(b);
      forall k | 0 <= k < |s| ensures s[k] == t[k] {
        var i := k / 2;
        assert k == 2 * i || k == 2 * i + 1;
        assert HexValue(s[2 * i]) == HexValue(t[2 * i]) && HexValue(s[2 * i + 1]) == HexValue(t[2 * i + 1]);
      }
    }
  }

  /** Different byte strings have different texts. */
  lemma HexLowerInjective(a: Blob, b: Blob)
    requires HexLower(a) == HexLower(b)
    ensures a == b
  {
    HexLowerSpells(a);
    HexLowerSpells(b);
    SpellingIsUnique(HexLower(a), a, b);
  }

  predicate TokenChar(c: char) {
    'a' <= c <= 'z' || 'A' <= c <= 'Z' || '0' <= c <= '9' || c == '.' || c == '_' || c == '-'
  }

  predicate IsToken(s: string, maximum: nat) {
    0 < |s| <= maximum && forall i :: 0 <= i < |s| ==> TokenChar(s[i])
  }
}
