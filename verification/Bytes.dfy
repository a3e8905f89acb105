/** Bytes, byte strings and the fixed-width big-endian fields that the wire formats of the
    system are built from. */
module Bytes {
  type Byte = x: int | 0 <= x < 256
  type U16 = x: int | 0 <= x < 0x1_0000
  type U32 = x: int | 0 <= x < 0x1_0000_0000
  type U64 = x: int | 0 <= x < 0x1_0000_0000_0000_0000

  const U64_LIMIT := 0x1_0000_0000_0000_0000

  datatype Option<+T> = None | Some(value: T)

  datatype Result<+T, +E> = Ok(value: T) | Err(error: E)

  function U16At(b: seq<Byte>, i: nat): U16
    requires i + 2 <= |b|
  {
    (b[i] as int) * 256 + b[i + 1] as int
  }

  function U32At(b: seq<Byte>, i: nat): U32
    requires i + 4 <= |b|
  {
    (U16At(b, i) as int) * 0x1_0000 + U16At(b, i + 2) as int
  }

  function U64At(b: seq<Byte>, i: nat): U64
    requires i + 8 <= |b|
  {
    (U32At(b, i) as int) * 0x1_0000_0000 + U32At(b, i + 4) as int
  }

  function PutU16(v: U16): (b: seq<Byte>)
    ensures |b| == 2
  {
    [v / 256, v % 256]
  }

  function PutU32(v: U32): (b: seq<Byte>)
    ensures |b| == 4
  {
    PutU16(v / 0x1_0000) + PutU16(v % 0x1_0000)
  }

  function PutU64(v: U64): (b: seq<Byte>)
    ensures |b| == 8
  {
    PutU32(v / 0x1_0000_0000) + PutU32(v % 0x1_0000_0000)
  }

  /** A field reads back as `v` exactly when its bytes are the ones written for `v`. */
  lemma U16Field(b: seq<Byte>, i: nat, v: U16)
    requires i + 2 <= |b|
    ensures U16At(b, i) == v <==> b[i..i + 2] == PutU16(v)
  {
  }

  lemma U32Field(b: seq<Byte>, i: nat, v: U32)
    requires i + 4 <= |b|
    ensures U32At(b, i) == v <==> b[i..i + 4] == PutU32(v)
  {
    var hi, lo := v / 0x1_0000, v % 0x1_0000;
    U16Field(b, i, hi);
    U16Field(b, i + 2, lo);
    assert b[i..i + 4] == b[i..i + 2] + b[i + 2..i + 4];
    assert U32At(b, i) / 0x1_0000 == U16At(b, i) && U32At(b, i) % 0x1_0000 == U16At(b, i + 2);
    if b[i..i + 4] == PutU32(v) {
      assert b[i..i + 2] == b[i..i + 4][..2] == PutU16(hi);
      assert b[i + 2..i + 4] == b[i..i + 4][2..] == PutU16(lo);
    }
  }

  lemma U64Field(b: seq<Byte>, i: nat, v: U64)
    requires i + 8 <= |b|
    ensures U64At(b, i) == v <==> b[i..i + 8] == PutU64(v)
  {
    var hi, lo := v / 0x1_0000_0000, v % 0x1_0000_0000;
    U32Field(b, i, hi);
    U32Field(b, i + 4, lo);
    assert b[i..i + 8] == b[i..i + 4] + b[i + 4..i + 8];
    assert U64At(b, i) / 0x1_0000_0000 == U32At(b, i) && U64At(b, i) % 0x1_0000_0000 == U32At(b, i + 4);
    if b[i..i + 8] == PutU64(v) {
      assert b[i..i + 4] == b[i..i + 8][..4] == PutU32(hi);
      assert b[i + 4..i + 8] == b[i..i + 8][4..] == PutU32(lo);
    }
  }

  /** The number that a byte string stands for, the most significant byte first. */
  function BigEndian(b: seq<Byte>): nat {
    if b == [] then 0 else BigEndian(b[..|b| - 1]) * 256 + b[|b| - 1]
  }

  lemma BigEndianTwo(b: seq<Byte>)
    requires |b| == 2
    ensures BigEndian(b) == (b[0] as int) * 256 + b[1]
  {
    assert b[..1][..0] == [] && b[..1][0] == b[0];
    assert BigEndian(b[..1]) == b[0];
  }

  lemma BigEndianFour(b: seq<Byte>)
    requires |b| == 4
    ensures BigEndian(b) == BigEndian(b[..2]) * 0x1_0000 + BigEndian(b[2..])
  {
    BigEndianTwo(b[2..]);
    assert b[..3][..2] == b[..2];
    assert BigEndian(b[..3]) == BigEndian(b[..2]) * 256 + b[2];
  }

  /** The fields of the wire formats are big-endian: each holds the number its bytes stand for,
      and each number is written as the bytes that stand for it. */
  lemma FieldsAreBigEndian(b: seq<Byte>, i: nat, v: U16, w: U32)
    ensures i + 2 <= |b| ==> U16At(b, i) == BigEndian(b[i..i + 2])
    ensures i + 4 <= |b| ==> U32At(b, i) == BigEndian(b[i..i + 4])
    ensures BigEndian(PutU16(v)) == v && BigEndian(PutU32(w)) == w
  {
    BigEndianTwo(PutU16(v));
    BigEndianTwo(PutU16(w / 0x1_0000));
    BigEndianTwo(PutU16(w % 0x1_0000));
    BigEndianFour(PutU32(w));
    assert PutU32(w)[..2] == PutU16(w / 0x1_0000) && PutU32(w)[2..] == PutU16(w % 0x1_0000);
    if i + 2 <= |b| {
      BigEndianTwo(b[i..i + 2]);
    }
    if i + 4 <= |b| {
      var field := b[i..i + 4];
      BigEndianFour(field);
      BigEndianTwo(field[..2]);
      BigEndianTwo(field[2..]);
    }
  }

  lemma BigEndianEight(b: seq<Byte>)
    requires |b| == 8
    ensures BigEndian(b) == BigEndian(b[..4]) * 0x1_0000_0000 + BigEndian(b[4..])
  {
    BigEndianFour(b[4..]);
    assert b[4..][..2] == b[4..6] && b[4..][2..] == b[6..8];
    BigEndianTwo(b[4..6]);
    BigEndianTwo(b[6..8]);
    assert b[..7][..6] == b[..6] && b[..6][..5] == b[..5] && b[..5][..4] == b[..4];
    assert BigEndian(b[..5]) == BigEndian(b[..4]) * 256 + b[4];
    assert BigEndian(b[..6]) == BigEndian(b[..5]) * 256 + b[5];
    assert BigEndian(b[..7]) == BigEndian(b[..6]) * 256 + b[6];
  }

  lemma LongFieldsAreBigEndian(b: seq<Byte>, i: nat, v: U64)
    ensures i + 8 <= |b| ==> U64At(b, i) == BigEndian(b[i..i + 8])
    ensures BigEndian(PutU64(v)) == v
  {
    FieldsAreBigEndian([], 0, 0, v / 0x1_0000_0000);
    FieldsAreBigEndian([], 0, 0, v % 0x1_0000_0000);
    BigEndianEight(PutU64(v));
    assert PutU64(v)[..4] == PutU32(v / 0x1_0000_0000) && PutU64(v)[4..] == PutU32(v % 0x1_0000_0000);
    if i + 8 <= |b| {
      var field := b[i..i + 8];
      BigEndianEight(field);
      FieldsAreBigEndian(b, i, 0, 0);
      FieldsAreBigEndian(b, i + 4, 0, 0);
      assert field[..4] == b[i..i + 4] && field[4..] == b[i + 4..i + 8];
    }
  }

  /** Concatenation of a list of byte strings. */
  function Concat(parts: seq<seq<Byte>>): seq<Byte> {
    if parts == [] then [] else parts[0] + Concat(parts[1..])
  }
}
