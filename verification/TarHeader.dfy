/** The fields of a tar header that the archive preflight reads: sizes in octal or base 256,
    the checksum, and the member name. */
module TarHeader {
  import opened Bytes
  import opened Sums

  const BLOCK := 512
  const SLASH: Byte := 0x2F
  const DOT: Byte := 0x2E
  const SPACE: Byte := 0x20

  // ---------------------------------------------------------------------
  // Numbers

  /** The number that digits in `base` stand for, continuing from `value`. */
  function Value(base: nat, digits: seq<nat>, value: nat): nat {
    if digits == [] then value else Value(base, digits[1..], value * base + digits[0])
  }

  /** The same with 64-bit arithmetic that stops at the first overflow. */
  function FoldChecked(base: nat, digits: seq<nat>, value: U64): Option<U64> {
    if digits == [] then Some(value)
    else if value * base >= U64_LIMIT then None
    else if value * base + digits[0] >= U64_LIMIT then None
    else FoldChecked(base, digits[1..], value * base + digits[0])
  }

  lemma {:induction false} ValueGrows(base: nat, digits: seq<nat>, value: nat)
    requires base >= 1
    ensures Value(base, digits, value) >= value
    decreases |digits|
  {
    if digits != [] {
      Scale(value, base);
      ValueGrows(base, digits[1..], value * base + digits[0]);
    }
  }

  lemma Scale(value: nat, base: nat)
    requires base >= 1
    ensures value * base >= value
  {
  }

  /** An intermediate overflow happens exactly when the true value does not fit. */
  lemma {:induction false} FoldExact(base: nat, digits: seq<nat>, value: U64)
    requires base >= 1
    ensures var v := Value(base, digits, value);
            FoldChecked(base, digits, value) == if v < U64_LIMIT then Some(v) else None
    decreases |digits|
  {
    if digits != [] {
      var next := value * base + digits[0];
      ValueGrows(base, digits[1..], next);
      if next < U64_LIMIT { FoldExact(base, digits[1..], next); }
    }
  }

  predicate Blank(b: Byte) { b == 0 || b == SPACE }

  function SkipBlanks(field: seq<Byte>): seq<Byte> {
    if field != [] && Blank(field[0]) then SkipBlanks(field[1..]) else field
  }

  function UntilBlank(field: seq<Byte>): seq<Byte> {
    if field == [] || Blank(field[0]) then [] else [field[0]] + UntilBlank(field[1..])
  }

  /** The characters of an octal field: leading blanks skipped, up to the next blank. */
  function OctalText(field: seq<Byte>): seq<Byte> {
    UntilBlank(SkipBlanks(field))
  }

  predicate OctalDigits(text: seq<Byte>) {
    forall i :: 0 <= i < |text| ==> 0x30 <= text[i] <= 0x37
  }

  function Digits(text: seq<Byte>): (d: seq<nat>)
    requires OctalDigits(text)
    ensures |d| == |text| && forall i :: 0 <= i < |d| ==> d[i] == text[i] - 0x30
  {
    seq(|text|, i requires 0 <= i < |text| => text[i] - 0x30)
  }

  function ParseOctal(field: seq<Byte>): Option<U64> {
    if field != [] && field[0] >= 0x80 then None
    else
      var text := OctalText(field);
      if text == [] || !OctalDigits(text) then None else FoldChecked(8, Digits(text), 0)
  }

  function ParseSize(field: seq<Byte>): Option<U64> {
    if field == [] then None
    else if field[0] < 0x80 then ParseOctal(field)
    else if field[0] != 0x80 then None
    else FoldChecked(256, field[1..], 0)
  }

  /** A base-256 size is accepted exactly when its true value fits in 64 bits. */
  lemma Base256Exact(field: seq<Byte>)
    requires field != [] && field[0] == 0x80
    ensures ParseSize(field) == var v := Value(256, field[1..], 0); if v < U64_LIMIT then Some(v) else None
  {
    FoldExact(256, field[1..], 0);
  }

  lemma {:induction false} OctalBound(digits: seq<nat>, value: nat, bound: nat)
    requires forall i :: 0 <= i < |digits| ==> digits[i] < 8
    requires value < bound
    ensures Value(8, digits, value) < bound * Pow8(|digits|)
    decreases |digits|
  {
    if digits != [] {
      OctalBound(digits[1..], value * 8 + digits[0], bound * 8);
      assert bound * 8 * Pow8(|digits| - 1) == bound * (8 * Pow8(|digits| - 1));
    }
  }

  function Pow8(n: nat): nat {
    if n == 0 then 1 else 8 * Pow8(n - 1)
  }

  lemma {:induction false} UntilBlankLength(field: seq<Byte>)
    ensures |UntilBlank(field)| <= |field|
  {
    if field != [] && !Blank(field[0]) { UntilBlankLength(field[1..]); }
  }

  lemma {:induction false} SkipBlanksLength(field: seq<Byte>)
    ensures |SkipBlanks(field)| <= |field|
  {
    if field != [] && Blank(field[0]) { SkipBlanksLength(field[1..]); }
  }

  lemma {:induction false} Pow8Monotone(m: nat, n: nat)
    requires m <= n
    ensures 1 <= Pow8(m) <= Pow8(n)
    decreases n
  {
    if m < n { Pow8Monotone(m, n - 1); } else if n > 0 { Pow8Monotone(m - 1, n - 1); }
  }

  /** An octal field of at most 21 characters never overflows, so the only refusals are of its
      spelling, and an accepted field is worth its octal digits. */
  lemma OctalExact(field: seq<Byte>)
    requires |field| <= 21
    ensures ParseOctal(field).Some? <==>
            && (field == [] || field[0] < 0x80)
            && OctalText(field) != [] && OctalDigits(OctalText(field))
    ensures ParseOctal(field).Some? ==> ParseOctal(field).value == Value(8, Digits(OctalText(field)), 0)
  {
    var text := OctalText(field);
    if OctalDigits(text) {
      UntilBlankLength(SkipBlanks(field));
      SkipBlanksLength(field);
      OctalBound(Digits(text), 0, 1);
      Pow8Monotone(|text|, 21);
      assert Pow8(7) == 0x20_0000 && Pow8(14) == 0x400_0000_0000 && Pow8(21) == 0x8000_0000_0000_0000;
      FoldExact(8, Digits(text), 0);
    }
  }

  // ---------------------------------------------------------------------
  // Checksum and name

  /** The header bytes summed, the checksum field itself counted as blanks. */
  function Checksum(header: seq<Byte>, i: nat): nat
    decreases |header| - i
  {
    if i >= |header| then 0
    else (if 148 <= i < 156 then SPACE else header[i]) + Checksum(header, i + 1)
  }

  predicate ChecksumOk(header: seq<Byte>)
    requires |header| == BLOCK
  {
    ParseOctal(header[148..156]) == Some(Checksum(header, 0))
  }

  /** The bytes before the first zero byte. */
  function UntilZero(b: seq<Byte>): seq<Byte> {
    if b == [] || b[0] == 0 then [] else [b[0]] + UntilZero(b[1..])
  }

  predicate DotSlash(name: seq<Byte>) {
    |name| >= 2 && name[0] == DOT && name[1] == SLASH
  }

  function StripDots(name: seq<Byte>): seq<Byte> {
    if DotSlash(name) then StripDots(name[2..]) else name
  }

  function FullName(header: seq<Byte>): seq<Byte>
    requires |header| == BLOCK
  {
    var name, prefix := UntilZero(header[..100]), UntilZero(header[345..500]);
    if prefix == [] then name else prefix + [SLASH] + name
  }

  /** The name under which a member is known: prefix joined, any leading "./" dropped. */
  function TarName(header: seq<Byte>): seq<Byte>
    requires |header| == BLOCK
  {
    StripDots(FullName(header))
  }

  /** The same as the source computes it: a loop that drops two bytes at a time. */
  method MemberName(header: seq<Byte>) returns (full: seq<Byte>)
    requires |header| == BLOCK
    ensures full == TarName(header)
  {
    full := FullName(header);
    while DotSlash(full)
      invariant StripDots(full) == TarName(header)
      decreases |full|
    {
      full := full[2..];
    }
  }

  function Dots(n: nat): seq<Byte> {
    if n == 0 then [] else [DOT, SLASH] + Dots(n - 1)
  }

  /** Stripping removes the leading repetitions of "./", all of them and nothing else. */
  lemma {:induction false} StripDotsExact(name: seq<Byte>) returns (k: nat)
    ensures name == Dots(k) + StripDots(name) && !DotSlash(StripDots(name))
    decreases |name|
  {
    if DotSlash(name) {
      k := StripDotsExact(name[2..]);
      assert name == [DOT, SLASH] + name[2..];
      assert Dots(k + 1) == [DOT, SLASH] + Dots(k);
      k := k + 1;
    } else {
      k := 0;
    }
  }

  lemma {:induction false} StripDotsIgnores(name: seq<Byte>, n: nat)
    ensures StripDots(Dots(n) + name) == StripDots(name)
  {
    if n > 0 {
      assert (Dots(n) + name)[2..] == Dots(n - 1) + name;
      StripDotsIgnores(name, n - 1);
    } else {
      assert Dots(0) + name == name;
    }
  }

  /** Two spellings name the same member exactly when they differ in leading "./" only. */
  lemma SameMember(a: seq<Byte>, b: seq<Byte>)
    ensures StripDots(a) == StripDots(b) <==>
            exists base: seq<Byte>, m: nat, n: nat :: a == Dots(m) + base && b == Dots(n) + base
  {
    if StripDots(a) == StripDots(b) {
      var m := StripDotsExact(a);
      var n := StripDotsExact(b);
      assert a == Dots(m) + StripDots(a) && b == Dots(n) + StripDots(a);
    }
    forall base: seq<Byte>, m: nat, n: nat | a == Dots(m) + base && b == Dots(n) + base
      ensures StripDots(a) == StripDots(b)
    {
      StripDotsIgnores(base, m);
      StripDotsIgnores(base, n);
    }
  }

  predicate AllZero(b: seq<Byte>) {
    forall i :: 0 <= i < |b| ==> b[i] == 0
  }

  /** What the preflight takes from a header, if it is acceptable. */
  datatype Info = Info(name: seq<Byte>, size: U64, regular: bool)

  function HeaderInfo(header: seq<Byte>): Option<Info> {
    if |header| != BLOCK || !ChecksumOk(header) then None
    else match ParseSize(header[124..136])
      case None => None
      case Some(size) => Some(Info(TarName(header), size, header[156] == 0 || header[156] == 0x30))
  }

  // ---------------------------------------------------------------------
  // What the fields of a header are read as

  lemma {:induction false} ValueSnoc(base: nat, digits: seq<nat>, d: nat, value: nat)
    ensures Value(base, digits + [d], value) == Value(base, digits, value) * base + d
    decreases |digits|
  {
    if digits == [] {
      assert (digits + [d])[1..] == [];
    } else {
      assert (digits + [d])[1..] == digits[1..] + [d];
      ValueSnoc(base, digits[1..], d, value * base + digits[0]);
    }
  }

  /** The last `n` octal digits of a number, the most significant first. */
  function OctalField(v: nat, n: nat): (text: seq<Byte>)
    ensures |text| == n && OctalDigits(text)
  {
    if n == 0 then [] else OctalField(v / 8, n - 1) + [0x30 + v % 8]
  }

  lemma {:induction false} OctalFieldValue(v: nat, n: nat)
    requires v < Pow8(n)
    ensures Value(8, Digits(OctalField(v, n)), 0) == v
    decreases n
  {
    if n > 0 {
      var front := OctalField(v / 8, n - 1);
      OctalFieldValue(v / 8, n - 1);
      assert Digits(OctalField(v, n)) == Digits(front) + [v % 8];
      ValueSnoc(8, Digits(front), v % 8, 0);
    }
  }

  lemma {:induction false} OctalTextIs(lead: seq<Byte>, digits: seq<Byte>, rest: seq<Byte>)
    requires (forall i :: 0 <= i < |lead| ==> Blank(lead[i])) && OctalDigits(digits) && digits != []
    requires rest == [] || Blank(rest[0])
    ensures OctalText(lead + digits + rest) == digits
    decreases |lead|
  {
    if lead == [] {
      assert lead + digits + rest == digits + rest && (digits + rest)[0] == digits[0];
      UntilBlankIs(digits, rest);
    } else {
      assert (lead + digits + rest)[1..] == lead[1..] + digits + rest;
      OctalTextIs(lead[1..], digits, rest);
    }
  }

  lemma {:induction false} UntilBlankIs(digits: seq<Byte>, rest: seq<Byte>)
    requires OctalDigits(digits) && (rest == [] || Blank(rest[0]))
    ensures UntilBlank(digits + rest) == digits
    decreases |digits|
  {
    if digits == [] {
      assert digits + rest == rest;
    } else {
      assert (digits + rest)[1..] == digits[1..] + rest;
      UntilBlankIs(digits[1..], rest);
    }
  }

  /** A number written in octal, between blanks, is read back. */
  lemma OctalRoundTrip(lead: seq<Byte>, v: nat, n: nat, rest: seq<Byte>)
    requires (forall i :: 0 <= i < |lead| ==> Blank(lead[i])) && (rest == [] || Blank(rest[0]))
    requires 0 < n && v < Pow8(n) && |lead| + n + |rest| <= 21
    ensures ParseOctal(lead + OctalField(v, n) + rest) == Some(v) == ParseSize(lead + OctalField(v, n) + rest)
  {
    var field := lead + OctalField(v, n) + rest;
    OctalTextIs(lead, OctalField(v, n), rest);
    OctalFieldValue(v, n);
    assert field[0] == if lead == [] then OctalField(v, n)[0] else lead[0];
    OctalExact(field);
  }

  function ByteValue(b: Byte): nat { b }

  lemma {:induction false} ChecksumFrom(header: seq<Byte>, i: nat)
    requires 156 <= i <= |header|
    ensures Checksum(header, i) == Sum(ByteValue, header[i..])
    decreases |header| - i
  {
    if i < |header| {
      ChecksumFrom(header, i + 1);
      assert header[i..][1..] == header[i + 1..];
    }
  }

  lemma {:induction false} ChecksumBefore(header: seq<Byte>, i: nat)
    requires i <= 148 && |header| == BLOCK
    ensures Checksum(header, i) == Sum(ByteValue, header[i..148]) + Checksum(header, 148)
    decreases 148 - i
  {
    if i < 148 {
      ChecksumBefore(header, i + 1);
      assert header[i..148][1..] == header[i + 1..148] && header[i..148][0] == header[i];
    } else {
      assert header[i..148] == [];
    }
  }

  lemma {:induction false} ChecksumBlanks(header: seq<Byte>, i: nat)
    requires 148 <= i <= 156 && |header| == BLOCK
    ensures Checksum(header, i) == SPACE * (156 - i) + Checksum(header, 156)
    decreases 156 - i
  {
    if i < 156 { ChecksumBlanks(header, i + 1); }
  }

  /** The checksum is the sum of all bytes but its own eight, which count as blanks. */
  lemma ChecksumIs(header: seq<Byte>)
    requires |header| == BLOCK
    ensures Checksum(header, 0) == Sum(ByteValue, header[..148]) + 8 * SPACE + Sum(ByteValue, header[156..])
  {
    ChecksumBefore(header, 0);
    ChecksumBlanks(header, 148);
    ChecksumFrom(header, 156);
    assert header[0..148] == header[..148];
  }

  /** A text in a field that is filled up with zero bytes. */
  ghost predicate Holds(field: seq<Byte>, text: seq<Byte>) {
    0 !in text && text <= field && forall i :: |text| <= i < |field| ==> field[i] == 0
  }

  lemma {:induction false} UntilZeroIs(field: seq<Byte>, text: seq<Byte>)
    requires Holds(field, text)
    ensures UntilZero(field) == text
    decreases |field|
  {
    if text != [] {
      assert field[0] == text[0] && text[0] in text;
      assert Holds(field[1..], text[1..]) by {
        assert forall i :: 0 <= i < |field[1..]| ==> field[1..][i] == field[i + 1];
      }
      UntilZeroIs(field[1..], text[1..]);
    }
  }

  /** A header with its fields: the name, the size, the checksum, the type flag and the prefix,
      and whatever stands between them. */
  ghost predicate Assembled(header: seq<Byte>, name: seq<Byte>, size: seq<Byte>, check: seq<Byte>, flag: Byte,
                            prefix: seq<Byte>) {
    && |header| == BLOCK && Holds(header[..100], name) && header[124..136] == size
    && header[148..156] == check && header[156] == flag && Holds(header[345..500], prefix)
  }

  lemma NameMeans(header: seq<Byte>, name: seq<Byte>, prefix: seq<Byte>)
    requires |header| == BLOCK && Holds(header[..100], name) && Holds(header[345..500], prefix)
    ensures TarName(header) == StripDots(if prefix == [] then name else prefix + [SLASH] + name)
  {
    UntilZeroIs(header[..100], name);
    UntilZeroIs(header[345..500], prefix);
  }

  lemma CheckMeans(header: seq<Byte>, check: seq<Byte>)
    requires |header| == BLOCK && header[148..156] == check
    ensures ChecksumOk(header) <==>
            ParseOctal(check) == Some(Sum(ByteValue, header[..148]) + 8 * SPACE + Sum(ByteValue, header[156..]))
  {
    ChecksumIs(header);
  }

  /** What the preflight makes of such a header: refused unless checksum and size are right;
      otherwise the name below its prefix, without any leading "./". */
  lemma HeaderMeans(header: seq<Byte>, name: seq<Byte>, size: seq<Byte>, check: seq<Byte>, flag: Byte,
                    prefix: seq<Byte>)
    requires Assembled(header, name, size, check, flag, prefix)
    ensures var total := Sum(ByteValue, header[..148]) + 8 * SPACE + Sum(ByteValue, header[156..]);
            HeaderInfo(header) ==
              if ParseOctal(check) != Some(total) || ParseSize(size).None? then None
              else Some(Info(StripDots(if prefix == [] then name else prefix + [SLASH] + name),
                             ParseSize(size).value, flag == 0 || flag == 0x30))
  {
    CheckMeans(header, check);
    NameMeans(header, name, prefix);
  }
}
