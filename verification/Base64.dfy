/** The strict base64 reader that checks blobs embedded in OCI descriptors. */
module Base64 {
  import opened Bytes

  const PAD: Byte := 0x3D

  type Sextet = x: int | 0 <= x < 64

  function Symbol(b: Byte): Option<Sextet> {
    if 0x41 <= b <= 0x5A then Some(b - 0x41)
    else if 0x61 <= b <= 0x7A then Some(b - 0x61 + 26)
    else if 0x30 <= b <= 0x39 then Some(b - 0x30 + 52)
    else if b == 0x2B then Some(62)
    else if b == 0x2F then Some(63)
    else None
  }

  // ---------------------------------------------------------------------
  // The reference: the padded standard encoding (sections 3.2 and 4 of RFC 4648)

  function Letter(v: Sextet): Byte {
    if v < 26 then 0x41 + v
    else if v < 52 then 0x61 + v - 26
    else if v < 62 then 0x30 + v - 52
    else if v == 62 then 0x2B
    else 0x2F
  }

  function Letters(v: seq<Sextet>): (g: seq<Byte>)
    ensures |g| == |v|
  {
    if v == [] then [] else [Letter(v[0])] + Letters(v[1..])
  }

  /** The letters run from A to Z, a to z and 0 to 9, then come + and /. */
  lemma LettersAreTheAlphabet(v: Sextet)
    ensures Letter(0) == 'A' as int && Letter(25) == 'Z' as int && Letter(26) == 'a' as int && Letter(51) == 'z' as int
    ensures Letter(52) == '0' as int && Letter(61) == '9' as int && Letter(62) == '+' as int && Letter(63) == '/' as int
    ensures v < 61 && v != 25 && v != 51 ==> Letter(v + 1) == Letter(v) + 1
  {
  }

  /** The number that sextets stand for, the first being the most significant. */
  function SextetValue(v: seq<Sextet>): nat {
    if v == [] then 0 else SextetValue(v[..|v| - 1]) * 64 + v[|v| - 1]
  }

  lemma SextetsTwo(v: seq<Sextet>)
    requires |v| == 2
    ensures SextetValue(v) == (v[0] as int) * 64 + v[1]
  {
    assert v[..1][..0] == [] && SextetValue(v[..1]) == v[0];
  }

  lemma SextetsMore(v: seq<Sextet>)
    requires 3 <= |v| <= 4
    ensures |v| == 3 ==> SextetValue(v) == (v[0] as int) * 4096 + (v[1] as int) * 64 + v[2]
    ensures |v| == 4 ==> SextetValue(v) == (v[0] as int) * 262144 + (v[1] as int) * 4096 + (v[2] as int) * 64 + v[3]
  {
    SextetsTwo(v[..2]);
    assert v[..3][..2] == v[..2];
    assert SextetValue(v[..3]) == SextetValue(v[..2]) * 64 + v[2];
    if |v| == 3 { assert v[..3] == v; }
  }

  lemma ThreeOctets(d: seq<Byte>)
    requires |d| == 3
    ensures SextetValue(Split(d)) == BigEndian(d)
  {
    SextetsMore(Split(d));
    BigEndianTwo(d[..2]);
    var a: int, b: int, c: int := d[0], d[1], d[2];
    assert a == 4 * (a / 4) + a % 4 && b == 16 * (b / 16) + b % 16 && c == 64 * (c / 64) + c % 64;
    assert BigEndian(d) == 65536 * a + 256 * b + c;
  }

  lemma TwoOctets(d: seq<Byte>)
    requires |d| == 2
    ensures SextetValue(Split(d)) == BigEndian(d) * 4
  {
    SextetsMore(Split(d));
    BigEndianTwo(d);
    var a: int, b: int := d[0], d[1];
    assert a == 4 * (a / 4) + a % 4 && b == 16 * (b / 16) + b % 16;
  }

  /** Splitting keeps the bits: the sextets stand for the same number as the octets, shifted by
      the zero bits that fill the last sextet. */
  lemma SplitKeepsTheBits(d: seq<Byte>)
    requires 1 <= |d| <= 3
    ensures SextetValue(Split(d)) == BigEndian(d) * (if |d| == 1 then 16 else if |d| == 2 then 4 else 1)
  {
    if |d| == 1 {
      SextetsTwo(Split(d));
      assert d[..0] == [];
    } else if |d| == 2 {
      TwoOctets(d);
    } else {
      ThreeOctets(d);
    }
  }

  /** The sextets of one to three octets, the last one filled up with zero bits. */
  function Split(d: seq<Byte>): (v: seq<Sextet>)
    requires 1 <= |d| <= 3
    ensures |v| == |d| + 1
  {
    if |d| == 1 then [d[0] / 4, d[0] % 4 * 16]
    else if |d| == 2 then [d[0] / 4, d[0] % 4 * 16 + d[1] / 16, d[1] % 16 * 4]
    else [d[0] / 4, d[0] % 4 * 16 + d[1] / 16, d[1] % 16 * 4 + d[2] / 64, d[2] % 64]
  }

  function EncodeGroup(d: seq<Byte>): (g: seq<Byte>)
    requires 1 <= |d| <= 3
    ensures |g| == 4
  {
    Letters(Split(d)) + (if |d| == 1 then [PAD, PAD] else if |d| == 2 then [PAD] else [])
  }

  /** The whole encoding, for a group encoder `group`. */
  function EncodeWith(group: seq<Byte> -> seq<Byte>, b: seq<Byte>): seq<Byte> {
    if b == [] then []
    else if |b| <= 3 then group(b)
    else group(b[..3]) + EncodeWith(group, b[3..])
  }

  function Encode(b: seq<Byte>): seq<Byte> {
    EncodeWith(Group, b)
  }

  function Group(d: seq<Byte>): seq<Byte> {
    if 1 <= |d| <= 3 then EncodeGroup(d) else []
  }

  // ---------------------------------------------------------------------
  // One group of four characters

  lemma SymbolInverts(b: Byte, v: Sextet)
    ensures Symbol(b) == Some(v) <==> b == Letter(v)
  {
  }

  function Symbols(g: seq<Byte>): Option<seq<Sextet>> {
    if g == [] then Some([])
    else
      var head, tail := Symbol(g[0]), Symbols(g[1..]);
      if head.None? || tail.None? then None else Some([head.value] + tail.value)
  }

  lemma {:induction false} SymbolsInvert(g: seq<Byte>, v: seq<Sextet>)
    ensures Symbols(g) == Some(v) <==> g == Letters(v)
    decreases |g|
  {
    if g != [] {
      assert g == [g[0]] + g[1..];
      if Symbols(g) == Some(v) {
        SymbolInverts(g[0], v[0]);
        SymbolsInvert(g[1..], v[1..]);
      }
      if g == Letters(v) {
        assert g[1..] == Letters(v[1..]);
        SymbolInverts(g[0], v[0]);
        SymbolsInvert(g[1..], v[1..]);
        assert v == [v[0]] + v[1..];
      }
    }
  }

  lemma {:induction false} LettersHaveNoPad(v: seq<Sextet>)
    ensures PAD !in Letters(v)
  {
    if v != [] { LettersHaveNoPad(v[1..]); }
  }

  /** The octets of two to four sextets, unless the unused bits are not zero. */
  function Join(v: seq<Sextet>): Option<seq<Byte>>
    requires 2 <= |v| <= 4
  {
    var a, b := v[0] as int, v[1] as int;
    if |v| == 2 then (if b % 16 != 0 then None else Some([a * 4 + b / 16]))
    else
      var c := v[2] as int;
      if |v| == 3 then (if c % 4 != 0 then None else Some([a * 4 + b / 16, b % 16 * 16 + c / 4]))
      else Some([a * 4 + b / 16, b % 16 * 16 + c / 4, c % 4 * 64 + v[3] as int])
  }

  /** An octet cut after its first two, four or six bits, on both sides of the cut. */
  lemma Cut4(x: Byte, a: int, r: int)
    requires 0 <= r < 4
    ensures x == a * 4 + r <==> x / 4 == a && x % 4 == r
  {
  }

  lemma Cut16(x: Byte, a: int, r: int)
    requires 0 <= r < 16
    ensures x == a * 16 + r <==> x / 16 == a && x % 16 == r
  {
  }

  lemma Cut64(x: Byte, a: int, r: int)
    requires 0 <= r < 64
    ensures x == a * 64 + r <==> x / 64 == a && x % 64 == r
  {
  }

  lemma Join2(v: seq<Sextet>, x: Byte)
    requires |v| == 2
    ensures Join(v) == Some([x]) <==> v == Split([x])
  {
    assert v == [v[0], v[1]];
    Cut4(x, v[0], v[1] / 16);
  }

  lemma Join3(v: seq<Sextet>, x: Byte, y: Byte)
    requires |v| == 3
    ensures Join(v) == Some([x, y]) <==> v == Split([x, y])
  {
    assert v == [v[0], v[1], v[2]];
    Cut4(x, v[0], v[1] / 16);
    Cut16(y, v[1] % 16, v[2] / 4);
  }

  lemma Join4(v: seq<Sextet>, x: Byte, y: Byte, z: Byte)
    requires |v| == 4
    ensures Join(v) == Some([x, y, z]) <==> v == Split([x, y, z])
  {
    assert v == [v[0], v[1], v[2], v[3]];
    Cut4(x, v[0], v[1] / 16);
    Cut16(y, v[1] % 16, v[2] / 4);
    Cut64(z, v[2] % 4, v[3]);
  }

  /** Joining inverts splitting, both ways. */
  lemma JoinExact(v: seq<Sextet>, d: seq<Byte>)
    requires 2 <= |v| <= 4
    ensures Join(v) == Some(d) <==> 1 <= |d| <= 3 && v == Split(d)
  {
    if |d| == |v| - 1 {
      if |d| == 1 {
        assert d == [d[0]];
        Join2(v, d[0]);
      } else if |d| == 2 {
        assert d == [d[0], d[1]];
        Join3(v, d[0], d[1]);
      } else {
        assert d == [d[0], d[1], d[2]];
        Join4(v, d[0], d[1], d[2]);
      }
    }
  }

  /** The number of padding characters of a group, if their places are right. */
  function Padding(g: seq<Byte>, last: bool): (p: Option<nat>)
    requires |g| == 4
    ensures p.Some? ==> p.value <= 2
  {
    if !last then Some(0)
    else if g[2] == PAD then (if g[3] == PAD then Some(2) else None)
    else Some(if g[3] == PAD then 1 else 0)
  }

  function DecodeGroup(g: seq<Byte>, last: bool): Option<seq<Byte>> {
    if |g| != 4 || Padding(g, last).None? then None
    else
      var padding := Padding(g, last);
      var v := Symbols(g[..4 - padding.value]);
      if v.None? then None else SymbolCount(g[..4 - padding.value]); Join(v.value)
  }

  lemma {:induction false} SymbolCount(g: seq<Byte>)
    ensures Symbols(g).Some? ==> |Symbols(g).value| == |g|
  {
    if g != [] { SymbolCount(g[1..]); }
  }

  /** Decoding a group inverts encoding it, both ways; padding is for the last group only. */
  lemma GroupExact(g: seq<Byte>, last: bool, d: seq<Byte>)
    requires |g| == 4
    ensures DecodeGroup(g, last) == Some(d)
       <==> 1 <= |d| <= 3 && (!last ==> |d| == 3) && g == EncodeGroup(d)
  {
    if DecodeGroup(g, last) == Some(d) {
      var padding := Padding(g, last).value;
      var v := Symbols(g[..4 - padding]).value;
      SymbolCount(g[..4 - padding]);
      SymbolsInvert(g[..4 - padding], v);
      JoinExact(v, d);
      assert g == g[..4 - padding] + g[4 - padding..];
    }
    if 1 <= |d| <= 3 && (!last ==> |d| == 3) && g == EncodeGroup(d) {
      var v := Split(d);
      LettersHaveNoPad(v);
      assert g[..|v|] == Letters(v);
      assert forall i :: 0 <= i < |v| ==> g[i] == Letters(v)[i];
      SymbolsInvert(g[..|v|], v);
      JoinExact(v, d);
      assert Padding(g, last) == Some(4 - |v|);
    }
  }

  /** The accumulator after some characters: their sextets in base 64. */
  function Horner(values: seq<int>): int {
    if values == [] then 0 else Horner(values[..|values| - 1]) * 64 + values[|values| - 1]
  }

  lemma HornerOfFour(v: seq<int>)
    requires |v| == 4
    ensures Horner(v) == v[0] * 262144 + v[1] * 4096 + v[2] * 64 + v[3]
  {
    assert v[..3][..2] == v[..2] && v[..2][..1] == v[..1];
    assert Horner(v[..1]) == v[0] by { assert v[..1][..0] == []; }
    assert Horner(v[..2]) == Horner(v[..1]) * 64 + v[1];
    assert Horner(v[..3]) == Horner(v[..2]) * 64 + v[2];
  }

  lemma Cut(x: int, hi: int, mid: int, lo: int)
    requires x == hi * 65536 + mid * 256 + lo
    requires 0 <= mid < 256 && 0 <= lo < 256
    ensures x / 65536 == hi && x / 256 % 256 == mid && x % 256 == lo && x % 65536 == mid * 256 + lo
  {
    assert x / 256 == hi * 256 + mid;
  }

  /** Cutting the accumulator into octets gives what joining the sextets gives. */
  lemma AccumulatorJoins(v: seq<Sextet>, values: seq<int>)
    requires 2 <= |v| <= 4 && |values| == 4
    requires forall i :: 0 <= i < 4 ==> values[i] == (if i < |v| then v[i] else 0)
    ensures 0 <= Horner(values) < 0x100_0000
    ensures var octets: seq<Byte> := [Horner(values) / 65536, Horner(values) / 256 % 256, Horner(values) % 256];
            Join(v) == if |v| == 2 && Horner(values) % 65536 != 0 then None
                       else if |v| == 3 && Horner(values) % 256 != 0 then None
                       else Some(octets[..|v| - 1])
  {
    HornerOfFour(values);
    var a, b, c, d := values[0], values[1], values[2], values[3];
    var hi, mid, lo := a * 4 + b / 16, b % 16 * 16 + c / 4, c % 4 * 64 + d;
    Cut(Horner(values), hi, mid, lo);
    var octets: seq<Byte> := [hi, mid, lo];
    if |v| == 2 { assert octets[..1] == [hi]; }
    else if |v| == 3 { assert octets[..2] == [hi, mid]; }
    else { assert octets[..3] == octets; }
  }

  /** Four sextets from at most four, the missing ones zero. */
  function Filled(v: seq<Sextet>): (values: seq<int>)
    requires |v| <= 4
    ensures |values| == 4
    ensures forall i :: 0 <= i < 4 ==> values[i] == (if i < |v| then v[i] else 0)
  {
    seq(4, i requires 0 <= i < 4 => if i < |v| then v[i] else 0)
  }

  lemma {:induction false} SymbolsAt(g: seq<Byte>, i: nat)
    requires i < |g|
    ensures Symbol(g[i]).None? ==> Symbols(g).None?
    ensures Symbols(g).Some? ==> |Symbols(g).value| == |g| && Symbol(g[i]) == Some(Symbols(g).value[i])
    decreases |g|
  {
    SymbolCount(g);
    if i > 0 { SymbolsAt(g[1..], i - 1); }
  }

  lemma {:induction false} AllSymbols(g: seq<Byte>)
    requires forall i :: 0 <= i < |g| ==> Symbol(g[i]).Some?
    ensures Symbols(g).Some?
  {
    if g != [] { AllSymbols(g[1..]); }
  }

  /** The accumulator over the characters of one group, or nothing at a foreign character. */
  method Accumulate(used: seq<Byte>) returns (accumulator: Option<int>)
    requires |used| <= 4
    ensures accumulator.None? <==> Symbols(used).None?
    ensures accumulator.Some? ==>
            |Symbols(used).value| == |used| && accumulator.value == Horner(Filled(Symbols(used).value))
  {
    var value: int := 0;
    ghost var values: seq<int> := [];
    for position := 0 to 4
      invariant |values| == position && value == Horner(values)
      invariant forall i :: 0 <= i < position && i < |used| ==>
                Symbol(used[i]).Some? && values[i] == Symbol(used[i]).value
      invariant forall i :: |used| <= i < position ==> values[i] == 0
    {
      var sextet: int := 0;
      if position < |used| {
        var s := Symbol(used[position]);
        if s.None? {
          SymbolsAt(used, position);
          return None;
        }
        sextet := s.value;
      }
      assert (values + [sextet])[..position] == values;
      values := values + [sextet];
      value := value * 64 + sextet;
    }
    AllSymbols(used);
    SymbolCount(used);
    forall i | 0 <= i < |used| ensures values[i] == Symbols(used).value[i] { SymbolsAt(used, i); }
    assert values == Filled(Symbols(used).value);
    accumulator := Some(value);
  }

  /** One group: places of the padding, characters, unused bits, octets. */
  method ReadGroup(group: seq<Byte>, last: bool) returns (r: Option<seq<Byte>>)
    requires |group| == 4
    ensures r == DecodeGroup(group, last)
  {
    if !last && PAD in group {
      if Symbols(group).Some? {
        SymbolsInvert(group, Symbols(group).value);
        LettersHaveNoPad(Symbols(group).value);
      }
      assert group[..4] == group;
      return None;
    }
    var padding := Padding(group, last);
    if padding.None? {
      return None;
    }
    var used := group[..4 - padding.value];
    var collected := Accumulate(used);
    if collected.None? {
      return None;
    }
    var accumulator := collected.value;
    AccumulatorJoins(Symbols(used).value, Filled(Symbols(used).value));
    if (padding.value == 1 && accumulator % 256 != 0) || (padding.value == 2 && accumulator % 65536 != 0) {
      return None;
    }
    var octets: seq<Byte> := [accumulator / 65536, accumulator / 256 % 256, accumulator % 256];
    r := Some(octets[..3 - padding.value]);
  }

  // ---------------------------------------------------------------------
  // The whole text

  predicate At(d: seq<Byte>) { true }

  /** `group` encodes a group of octets as `Group` does. The trigger leaves it to each proof
      to say where the definition of `Group` matters. */
  ghost predicate GroupEncoder(group: seq<Byte> -> seq<Byte>) {
    && (forall d :: 1 <= |d| <= 3 ==> |group(d)| == 4)
    && (forall d, e :: 1 <= |d| <= 3 && 1 <= |e| <= 3 && group(d) == group(e) ==> d == e)
    && (forall d {:trigger At(d)} :: At(d) ==> group(d) == Group(d))
  }

  lemma GroupIsGroupEncoder()
    ensures GroupEncoder(Group)
  {
    forall d, e | 1 <= |d| <= 3 && 1 <= |e| <= 3 && Group(d) == Group(e) ensures d == e {
      GroupExact(Group(d), true, d);
      GroupExact(Group(d), true, e);
    }
  }

  lemma {:induction false} EncodedLength(group: seq<Byte> -> seq<Byte>, b: seq<Byte>)
    requires GroupEncoder(group)
    ensures var n := |EncodeWith(group, b)|; n % 4 == 0 && (n == 0 <==> |b| == 0) && (n <= 4 <==> |b| <= 3)
    decreases |b|
  {
    if |b| > 3 { EncodedLength(group, b[3..]); }
  }

  lemma EncodeSplits(group: seq<Byte> -> seq<Byte>, b: seq<Byte>, head: seq<Byte>)
    requires b != [] && head == if |b| <= 3 then b else b[..3]
    ensures EncodeWith(group, b) == group(head) + EncodeWith(group, b[|head|..])
  {
  }

  /** `b` starts with `decoded` and `rest` is the text of what follows. */
  ghost predicate Encodes(group: seq<Byte> -> seq<Byte>, b: seq<Byte>, decoded: seq<Byte>, rest: seq<Byte>) {
    decoded <= b && rest == EncodeWith(group, b[|decoded|..])
  }

  /** If there is text left and it encodes something, its first group encodes something. */
  lemma FirstGroup(group: seq<Byte> -> seq<Byte>, b: seq<Byte>, decoded: seq<Byte>, rest: seq<Byte>)
    returns (head: seq<Byte>)
    requires GroupEncoder(group)
    requires |rest| >= 4 && Encodes(group, b, decoded, rest)
    ensures 1 <= |head| <= 3 && (|rest| > 4 ==> |head| == 3) && rest[..4] == group(head)
    ensures b == decoded + head + b[|decoded| + |head|..]
    ensures rest[4..] == EncodeWith(group, b[|decoded| + |head|..])
  {
    var more := b[|decoded|..];
    head := if |more| <= 3 then more else more[..3];
    EncodedLength(group, more);
    EncodeSplits(group, more, head);
    assert more[|head|..] == b[|decoded| + |head|..];
  }

  /** Taking one group off the text and its octets off the front of what is to be encoded. */
  lemma TakeGroup(group: seq<Byte> -> seq<Byte>, b: seq<Byte>, decoded: seq<Byte>, d: seq<Byte>, rest: seq<Byte>)
    requires GroupEncoder(group)
    requires 1 <= |d| <= 3 && (rest != [] ==> |d| == 3)
    ensures Encodes(group, b, decoded, group(d) + rest) <==> Encodes(group, b, decoded + d, rest)
  {
    var text := group(d) + rest;
    assert text[..4] == group(d) && text[4..] == rest;
    if Encodes(group, b, decoded, text) {
      var head := FirstGroup(group, b, decoded, text);
      assert head == d;
    }
    if Encodes(group, b, decoded + d, rest) {
      var more := b[|decoded|..];
      assert b[|decoded + d|..] == more[|d|..];
      assert more == d + more[|d|..];
      EncodedLength(group, more[|d|..]);
      EncodeSplits(group, more, d);
    }
  }

  /** A group is accepted as `d` exactly when it encodes `d`. */
  method CollectGroup(group: seq<Byte>, last: bool, ghost encoder: seq<Byte> -> seq<Byte>)
    returns (r: Option<seq<Byte>>)
    requires |group| == 4 && GroupEncoder(encoder)
    ensures r.Some? ==> 1 <= |r.value| <= 3 && (!last ==> |r.value| == 3) && group == encoder(r.value)
    ensures r.None? ==> forall d | 1 <= |d| <= 3 && (!last ==> |d| == 3) :: group != encoder(d)
  {
    r := ReadGroup(group, last);
    forall d | 1 <= |d| <= 3 && (!last ==> |d| == 3) && group == encoder(d) ensures r == Some(d) {
      assert At(d);
      GroupExact(group, last, d);
    }
    if r.Some? {
      assert At(r.value);
      GroupExact(group, last, r.value);
    }
  }

  /** The texts that `b` explains, in terms of the part of the text still to be read. */
  ghost predicate Explained(encoder: seq<Byte> -> seq<Byte>, text: seq<Byte>, decoded: seq<Byte>, rest: seq<Byte>) {
    forall b :: text == EncodeWith(encoder, b) <==> Encodes(encoder, b, decoded, rest)
  }

  lemma ExplainedStep(encoder: seq<Byte> -> seq<Byte>, text: seq<Byte>, decoded: seq<Byte>, d: seq<Byte>,
                      rest: seq<Byte>)
    requires GroupEncoder(encoder)
    requires 1 <= |d| <= 3 && (rest != [] ==> |d| == 3)
    requires Explained(encoder, text, decoded, encoder(d) + rest)
    ensures Explained(encoder, text, decoded + d, rest)
  {
    forall b ensures Encodes(encoder, b, decoded, encoder(d) + rest) <==> Encodes(encoder, b, decoded + d, rest) {
      TakeGroup(encoder, b, decoded, d, rest);
    }
  }

  lemma ExplainedStuck(encoder: seq<Byte> -> seq<Byte>, text: seq<Byte>, decoded: seq<Byte>, rest: seq<Byte>)
    requires GroupEncoder(encoder)
    requires |rest| >= 4 && Explained(encoder, text, decoded, rest)
    requires forall d | 1 <= |d| <= 3 && (|rest| > 4 ==> |d| == 3) :: rest[..4] != encoder(d)
    ensures forall b :: text != EncodeWith(encoder, b)
  {
    forall b | text == EncodeWith(encoder, b) ensures false {
      var head := FirstGroup(encoder, b, decoded, rest);
    }
  }

  lemma ExplainedStart(encoder: seq<Byte> -> seq<Byte>, text: seq<Byte>)
    ensures Explained(encoder, text, [], text)
  {
    forall b ensures text == EncodeWith(encoder, b) <==> Encodes(encoder, b, [], text) {
      assert b[0..] == b;
    }
  }

  lemma NotWholeGroups(encoder: seq<Byte> -> seq<Byte>, text: seq<Byte>)
    requires GroupEncoder(encoder) && |text| % 4 != 0
    ensures forall b :: text != EncodeWith(encoder, b)
  {
    forall b ensures text != EncodeWith(encoder, b) { EncodedLength(encoder, b); }
  }

  lemma ExplainedEnd(encoder: seq<Byte> -> seq<Byte>, text: seq<Byte>, decoded: seq<Byte>)
    requires GroupEncoder(encoder) && Explained(encoder, text, decoded, [])
    ensures forall b :: text == EncodeWith(encoder, b) <==> b == decoded
  {
    forall b ensures text == EncodeWith(encoder, b) <==> b == decoded {
      if decoded <= b { EncodedLength(encoder, b[|decoded|..]); }
    }
  }

  method CollectGroups(text: seq<Byte>, ghost encoder: seq<Byte> -> seq<Byte>) returns (r: Option<seq<Byte>>)
    requires GroupEncoder(encoder)
    ensures r.Some? ==> text == EncodeWith(encoder, r.value)
    ensures forall b :: text == EncodeWith(encoder, b) ==> r == Some(b)
  {
    if |text| % 4 != 0 {
      NotWholeGroups(encoder, text);
      return None;
    }
    var decoded: seq<Byte> := [];
    var position := 0;
    ghost var groups := |text| / 4;
    ExplainedStart(encoder, text);
    assert text[0..] == text;
    while position < |text|
      invariant 0 <= position && 0 <= groups && position + 4 * groups == |text|
      invariant Explained(encoder, text, decoded, text[position..])
    {
      var group := text[position..position + 4];
      ghost var rest := text[position + 4..];
      assert text[position..] == group + rest;
      assert text[position..][..4] == group;
      var octets := CollectGroup(group, position + 4 == |text|, encoder);
      if octets.None? {
        ExplainedStuck(encoder, text, decoded, text[position..]);
        return None;
      }
      ExplainedStep(encoder, text, decoded, octets.value, rest);
      decoded := decoded + octets.value;
      position := position + 4;
      groups := groups - 1;
    }
    assert text[position..] == [];
    ExplainedEnd(encoder, text, decoded);
    r := Some(decoded);
  }

  /** A text is accepted with value `b` if and only if it is the standard padded encoding of
      `b`; so a byte string has exactly one accepted text. */
  method DecodeCanonical(text: seq<Byte>) returns (r: Option<seq<Byte>>)
    ensures r.Some? ==> text == Encode(r.value)
    ensures forall b :: text == Encode(b) ==> r == Some(b)
  {
    GroupIsGroupEncoder();
    r := CollectGroups(text, Group);
  }
}
