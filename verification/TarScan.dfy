/** The archive preflight: read the one member with a wanted name out of a tar archive, and
    refuse the archive if anything in front of its end mark is malformed. */
module TarScan {
  import opened Bytes
  import opened TarHeader

  const MAX_ENTRIES := 1_000_000

  // ---------------------------------------------------------------------
  // What an archive is

  /** One member: its header block, its data, and the filler up to the next block. */
  datatype Member = Member(header: seq<Byte>, data: seq<Byte>, filler: seq<Byte>)

  function MemberBytes(m: Member): seq<Byte> {
    m.header + m.data + m.filler
  }

  function ArchiveBytes(members: seq<Member>): seq<Byte> {
    if members == [] then [] else MemberBytes(members[0]) + ArchiveBytes(members[1..])
  }

  function Padded(size: nat): nat {
    (size + 511) / 512 * 512
  }

  /** How a header is read. A variable of this type stands for `HeaderInfo`, see `Reads`. */
  type Reader = seq<Byte> -> Option<Info>

  predicate At(header: seq<Byte>) { true }

  /** `info` reads headers as `HeaderInfo` does; the trigger keeps its definition out of the
      proofs that do not ask for it. */
  ghost predicate Reads(info: Reader) {
    forall h {:trigger At(h)} :: At(h) ==> info(h) == HeaderInfo(h)
  }

  ghost predicate WellFormed(info: Reader, m: Member) {
    && |m.header| == BLOCK && !AllZero(m.header)
    && info(m.header).Some? && info(m.header).value.size == |m.data|
    && |m.data| + |m.filler| == Padded(|m.data|)
  }

  /** The bytes are exactly these members, an all-zero block, and anything after it. */
  ghost predicate SplitsInto(info: Reader, archive: seq<Byte>, members: seq<Member>) {
    && (forall i :: 0 <= i < |members| ==> WellFormed(info, members[i]))
    && ArchiveBytes(members) <= archive
    && var end := |ArchiveBytes(members)|;
       end + BLOCK <= |archive| && AllZero(archive[end..end + BLOCK])
  }

  ghost predicate Named(info: Reader, m: Member, wanted: seq<Byte>) {
    info(m.header).Some? && info(m.header).value.name == wanted
  }

  /** Member `k` is the only one with the wanted name; it is a regular file and not too big. */
  ghost predicate Selects(info: Reader, members: seq<Member>, wanted: seq<Byte>, maximum: nat, k: nat) {
    && k < |members| && Named(info, members[k], wanted)
    && info(members[k].header).value.regular && |members[k].data| <= maximum
    && forall j :: 0 <= j < |members| && j != k ==> !Named(info, members[j], wanted)
  }

  // ---------------------------------------------------------------------
  // Parsing an archive from the front

  /** The member at the front of `b`, as its header describes it. */
  function FrontMember(info: Reader, b: seq<Byte>): Option<Member> {
    if |b| < BLOCK || AllZero(b[..BLOCK]) || info(b[..BLOCK]).None? then None
    else
      var size: nat := info(b[..BLOCK]).value.size;
      if BLOCK + Padded(size) > |b| then None
      else Some(Member(b[..BLOCK], b[BLOCK..BLOCK + size], b[BLOCK + size..BLOCK + Padded(size)]))
  }

  /** There is a member at the front exactly when the bytes start with a well-formed one. */
  lemma FrontMemberExact(info: Reader, b: seq<Byte>, m: Member)
    ensures FrontMember(info, b) == Some(m) <==> WellFormed(info, m) && MemberBytes(m) <= b
  {
    var x, y, z := BLOCK, BLOCK + |m.data|, BLOCK + |m.data| + |m.filler|;
    if FrontMember(info, b) == Some(m) {
      assert b[..x] + b[x..y] + b[y..z] == b[..z];
    }
    if WellFormed(info, m) && MemberBytes(m) <= b {
      FrontParts(b, m);
    }
  }

  lemma FrontParts(b: seq<Byte>, m: Member)
    requires MemberBytes(m) <= b
    ensures var x := |m.header|; var y := x + |m.data|; var z := y + |m.filler|;
            b[..x] == m.header && b[x..y] == m.data && b[y..z] == m.filler
  {
    var bytes := MemberBytes(m);
    var x := |m.header|;
    var y, z := x + |m.data|, |bytes|;
    assert bytes[..x] == m.header && bytes[x..y] == m.data && bytes[y..z] == m.filler;
    assert b[..x] == bytes[..x] && b[x..y] == bytes[x..y] && b[y..z] == bytes[y..z];
  }

  function ParseArchive(info: Reader, b: seq<Byte>): Option<seq<Member>>
    decreases |b|
  {
    if |b| < BLOCK then None
    else if AllZero(b[..BLOCK]) then Some([])
    else match FrontMember(info, b)
      case None => None
      case Some(m) =>
        match ParseArchive(info, b[|MemberBytes(m)|..])
        case None => None
        case Some(more) => Some([m] + more)
  }

  /** Parsing finds the one way to split an archive, if there is one. */
  lemma {:induction false} ParseSound(info: Reader, b: seq<Byte>)
    requires ParseArchive(info, b).Some?
    ensures SplitsInto(info, b, ParseArchive(info, b).value)
    decreases |b|
  {
    if AllZero(b[..BLOCK]) {
      assert b[0..0 + BLOCK] == b[..BLOCK];
    } else {
      var m := FrontMember(info, b).value;
      FrontMemberExact(info, b, m);
      var n := |MemberBytes(m)|;
      ParseSound(info, b[n..]);
      SplitsCons(info, b, m, ParseArchive(info, b[n..]).value);
    }
  }

  lemma SplitsCons(info: Reader, b: seq<Byte>, m: Member, more: seq<Member>)
    requires WellFormed(info, m) && MemberBytes(m) <= b
    ensures SplitsInto(info, b, [m] + more) <==> SplitsInto(info, b[|MemberBytes(m)|..], more)
  {
    var n, end := |MemberBytes(m)|, |ArchiveBytes(more)|;
    assert ([m] + more)[0] == m && ([m] + more)[1..] == more;
    assert b == MemberBytes(m) + b[n..];
    if n + end + BLOCK <= |b| {
      assert b[n + end..n + end + BLOCK] == b[n..][end..end + BLOCK];
    }
    if SplitsInto(info, b, [m] + more) {
      forall i | 0 <= i < |more| ensures WellFormed(info, more[i]) { assert ([m] + more)[i + 1] == more[i]; }
    }
  }

  lemma {:induction false} ParseComplete(info: Reader, b: seq<Byte>, members: seq<Member>)
    requires SplitsInto(info, b, members)
    ensures ParseArchive(info, b) == Some(members)
    decreases |members|
  {
    if members == [] {
      assert b[0..0 + BLOCK] == b[..BLOCK];
    } else {
      var m := members[0];
      assert members == [m] + members[1..];
      assert MemberBytes(m) <= ArchiveBytes(members) <= b;
      FrontMemberExact(info, b, m);
      SplitsCons(info, b, m, members[1..]);
      ParseComplete(info, b[|MemberBytes(m)|..], members[1..]);
    }
  }

  // ---------------------------------------------------------------------
  // The scan

  /** The search over the members read so far. */
  ghost predicate Searched(info: Reader, done: seq<Member>, wanted: seq<Byte>, maximum: nat, found: Option<seq<Byte>>) {
    match found
    case None => forall j :: 0 <= j < |done| ==> !Named(info, done[j], wanted)
    case Some(data) => exists k: nat :: Selects(info, done, wanted, maximum, k) && done[k].data == data
  }

  /** A second member with the wanted name, one that is not a regular file, or one that is too
      big: whatever follows, no member is selected. */
  lemma NoneSelected(info: Reader, done: seq<Member>, m: Member, more: seq<Member>,
                     wanted: seq<Byte>, maximum: nat, found: Option<seq<Byte>>, k: nat)
    requires Named(info, m, wanted) && Searched(info, done, wanted, maximum, found)
    requires found.Some? || !info(m.header).value.regular || |m.data| > maximum
    ensures !Selects(info, done + [m] + more, wanted, maximum, k)
  {
    var all := done + [m] + more;
    assert all[|done|] == m;
    if found.Some? {
      var j: nat :| Selects(info, done, wanted, maximum, j);
      assert all[j] == done[j];
    }
  }

  lemma SearchedSnoc(info: Reader, done: seq<Member>, m: Member, wanted: seq<Byte>, maximum: nat,
                     found: Option<seq<Byte>>)
    requires Searched(info, done, wanted, maximum, found) && info(m.header).Some?
    requires Named(info, m, wanted) ==> found.None? && info(m.header).value.regular && |m.data| <= maximum
    ensures Searched(info, done + [m], wanted, maximum, if Named(info, m, wanted) then Some(m.data) else found)
  {
    var all := done + [m];
    if Named(info, m, wanted) {
      assert Selects(info, all, wanted, maximum, |done|);
    } else if found.Some? {
      var k: nat :| Selects(info, done, wanted, maximum, k) && done[k].data == found.value;
      assert Selects(info, all, wanted, maximum, k);
    }
  }

  /** The answer for a parsed archive: the data of the selected member, and none otherwise. */
  ghost predicate Answer(info: Reader, parsed: Option<seq<Member>>, wanted: seq<Byte>, maximum: nat,
                         r: Option<seq<Byte>>) {
    if parsed.None? || |parsed.value| > MAX_ENTRIES then r == None
    else
      var members := parsed.value;
      match r
      case Some(data) => exists k: nat :: Selects(info, members, wanted, maximum, k) && members[k].data == data
      case None => forall k: nat :: !Selects(info, members, wanted, maximum, k)
  }

  /** One header read and judged: checksum, name, size, type. */
  method ReadHeader(header: seq<Byte>, ghost info: Reader) returns (r: Option<Info>)
    requires |header| == BLOCK && Reads(info)
    ensures r == info(header)
  {
    assert At(header);
    if !ChecksumOk(header) {
      return None;
    }
    var name := MemberName(header);
    var size := ParseSize(header[124..136]);
    if size.None? {
      return None;
    }
    r := Some(Info(name, size.value, header[156] == 0 || header[156] == 0x30));
  }

  lemma PaddedBounds(size: nat)
    ensures size <= Padded(size) < size + 512
  {
  }

  /** A header that is refused, or data that runs over the end of the archive. */
  lemma NotWhole(info: Reader, b: seq<Byte>)
    requires |b| >= BLOCK && !AllZero(b[..BLOCK])
    requires info(b[..BLOCK]).None? || BLOCK + Padded(info(b[..BLOCK]).value.size) > |b|
    ensures ParseArchive(info, b) == None
  {
  }

  /** What stands at an offset: the end mark, something to refuse, or a member. */
  datatype Found = EndMark | Refusal | Entry(info: Info, end: nat)

  method ReadEntry(archive: seq<Byte>, offset: nat, ghost info: Reader) returns (r: Found, ghost m: Member)
    requires offset <= |archive| < U64_LIMIT && Reads(info)
    ensures r.EndMark? ==> ParseArchive(info, archive[offset..]) == Some([])
    ensures r.Refusal? ==> ParseArchive(info, archive[offset..]) == None
    ensures r.Entry? ==>
              && offset + BLOCK + r.info.size <= r.end <= |archive|
              && info(m.header) == Some(r.info) && m.data == archive[offset + BLOCK..offset + BLOCK + r.info.size]
              && ParseArchive(info, archive[offset..]) == Behind([m], ParseArchive(info, archive[r.end..]))
  {
    ghost var rest := archive[offset..];
    m := Member([], [], []);
    if offset + BLOCK > |archive| {
      return Refusal, m;
    }
    var header := archive[offset..offset + BLOCK];
    assert header == rest[..BLOCK];
    if AllZero(header) {
      return EndMark, m;
    }
    var i := ReadHeader(header, info);
    if i.None? {
      NotWhole(info, rest);
      return Refusal, m;
    }
    var size := i.value.size;
    var start := offset + BLOCK;
    PaddedBounds(size);
    if size + 511 >= U64_LIMIT || start + Padded(size) >= U64_LIMIT || start + Padded(size) > |archive| {
      NotWhole(info, rest);
      return Refusal, m;
    }
    var end := start + Padded(size);
    m := Member(header, archive[start..start + size], archive[start + size..end]);
    FrontMemberAt(info, archive, offset, m);
    r := Entry(i.value, end);
  }

  /** The loop over the members. It terminates because every member moves the offset on by a
      block at least. */
  method Scan(archive: seq<Byte>, wanted: seq<Byte>, maximum: nat, ghost info: Reader) returns (r: Option<seq<Byte>>)
    requires |archive| < U64_LIMIT && Reads(info)
    ensures Answer(info, ParseArchive(info, archive), wanted, maximum, r)
  {
    ghost var parsed := ParseArchive(info, archive);
    var found: Option<seq<Byte>> := None;
    var entries, offset := 0, 0;
    ghost var done: seq<Member> := [];
    assert archive[0..] == archive;
    if parsed.Some? { assert [] + parsed.value == parsed.value; }
    while true
      invariant 0 <= offset <= |archive| && entries == |done| <= MAX_ENTRIES
      invariant parsed == Behind(done, ParseArchive(info, archive[offset..]))
      invariant Searched(info, done, wanted, maximum, found)
      decreases |archive| - offset
    {
      var entry, m := ReadEntry(archive, offset, info);
      if entry.Refusal? {
        return None;
      }
      if entry.EndMark? {
        SearchedAnswer(info, done, wanted, maximum, found);
        return found;
      }
      BehindStep(done, m, ParseArchive(info, archive[entry.end..]));
      entries := entries + 1;
      if entries > MAX_ENTRIES {
        return None;
      }
      if entry.info.name == wanted {
        if found.Some? || !entry.info.regular || entry.info.size > maximum {
          Refused(info, done, m, ParseArchive(info, archive[entry.end..]), wanted, maximum, found);
          return None;
        }
        SearchedSnoc(info, done, m, wanted, maximum, found);
        found := Some(archive[offset + BLOCK..offset + BLOCK + entry.info.size]);
      } else {
        SearchedSnoc(info, done, m, wanted, maximum, found);
      }
      done := done + [m];
      offset := entry.end;
    }
  }

  lemma SearchedAnswer(info: Reader, done: seq<Member>, wanted: seq<Byte>, maximum: nat, found: Option<seq<Byte>>)
    requires |done| <= MAX_ENTRIES && Searched(info, done, wanted, maximum, found)
    ensures Answer(info, Behind(done, Some([])), wanted, maximum, found)
  {
    assert done + [] == done;
  }

  /** The members already read in front of what is still to be parsed. */
  function Behind(done: seq<Member>, more: Option<seq<Member>>): Option<seq<Member>> {
    if more.None? then None else Some(done + more.value)
  }

  lemma BehindStep(done: seq<Member>, m: Member, more: Option<seq<Member>>)
    ensures Behind(done, Behind([m], more)) == Behind(done + [m], more)
  {
    if more.Some? { assert done + ([m] + more.value) == done + [m] + more.value; }
  }

  lemma FrontMemberIs(info: Reader, archive: seq<Byte>, offset: nat, m: Member)
    requires offset + BLOCK <= |archive| && m.header == archive[offset..offset + BLOCK]
    requires !AllZero(m.header) && info(m.header).Some?
    requires var start, size := offset + BLOCK, info(m.header).value.size as nat;
             && start + Padded(size) <= |archive|
             && m.data == archive[start..start + size] && m.filler == archive[start + size..start + Padded(size)]
    ensures FrontMember(info, archive[offset..]) == Some(m)
    ensures |MemberBytes(m)| == BLOCK + Padded(info(m.header).value.size)
  {
    var b, size := archive[offset..], info(m.header).value.size as nat;
    assert b[..BLOCK] == m.header;
    assert b[BLOCK..BLOCK + size] == m.data;
    assert b[BLOCK + size..BLOCK + Padded(size)] == m.filler;
  }

  lemma FrontMemberAt(info: Reader, archive: seq<Byte>, offset: nat, m: Member)
    requires offset + BLOCK <= |archive| && m.header == archive[offset..offset + BLOCK]
    requires !AllZero(m.header) && info(m.header).Some?
    requires var start, size := offset + BLOCK, info(m.header).value.size as nat;
             && start + Padded(size) <= |archive|
             && m.data == archive[start..start + size] && m.filler == archive[start + size..start + Padded(size)]
    ensures ParseArchive(info, archive[offset..]) ==
            Behind([m], ParseArchive(info, archive[offset + BLOCK + Padded(info(m.header).value.size)..]))
  {
    FrontMemberIs(info, archive, offset, m);
    var b, size := archive[offset..], info(m.header).value.size as nat;
    assert b[..BLOCK] == m.header;
    assert b[BLOCK + Padded(size)..] == archive[offset + BLOCK + Padded(size)..];
  }

  lemma Refused(info: Reader, done: seq<Member>, m: Member, more: Option<seq<Member>>,
                wanted: seq<Byte>, maximum: nat, found: Option<seq<Byte>>)
    requires Named(info, m, wanted) && Searched(info, done, wanted, maximum, found)
    requires found.Some? || !info(m.header).value.regular || |m.data| > maximum
    ensures Answer(info, Behind(done + [m], more), wanted, maximum, None)
  {
    if more.Some? {
      forall k: nat ensures !Selects(info, done + [m] + more.value, wanted, maximum, k) {
        NoneSelected(info, done, m, more.value, wanted, maximum, found, k);
      }
    }
  }

  /** The scan returns `data` if and only if the bytes up to the end mark split exactly into
      acceptable members, at most a million, exactly one of which has the wanted name, and
      `data` is the data of that one. */
  method ReadUniqueMember(archive: seq<Byte>, wanted: seq<Byte>, maximum: nat) returns (r: Option<seq<Byte>>)
    requires |archive| < U64_LIMIT
    ensures r.Some? ==>
              exists members: seq<Member>, k: nat ::
                && SplitsInto(HeaderInfo, archive, members) && |members| <= MAX_ENTRIES
                && Selects(HeaderInfo, members, wanted, maximum, k) && members[k].data == r.value
    ensures r.None? ==>
              forall members: seq<Member>, k: nat ::
                SplitsInto(HeaderInfo, archive, members) && |members| <= MAX_ENTRIES ==>
                  !Selects(HeaderInfo, members, wanted, maximum, k)
  {
    r := ScanWith(archive, wanted, maximum, HeaderInfo);
  }

  method ScanWith(archive: seq<Byte>, wanted: seq<Byte>, maximum: nat,
                  ghost info: Reader) returns (r: Option<seq<Byte>>)
    requires |archive| < U64_LIMIT && Reads(info)
    ensures r.Some? ==>
              exists members: seq<Member>, k: nat ::
                && SplitsInto(info, archive, members) && |members| <= MAX_ENTRIES
                && Selects(info, members, wanted, maximum, k) && members[k].data == r.value
    ensures r.None? ==>
              forall members: seq<Member>, k: nat ::
                SplitsInto(info, archive, members) && |members| <= MAX_ENTRIES ==>
                  !Selects(info, members, wanted, maximum, k)
  {
    r := Scan(archive, wanted, maximum, info);
    if r.Some? {
      ParseSound(info, archive);
    } else {
      forall members: seq<Member>, k: nat | SplitsInto(info, archive, members) && |members| <= MAX_ENTRIES
        ensures !Selects(info, members, wanted, maximum, k)
      {
        ParseComplete(info, archive, members);
      }
    }
  }
}
