/**
 The integer readers of the repair kit: big-endian integers, varints and doubles, read
 at an offset of a buffer.
 */
module RepairInts {
  import opened Bytes

  datatype Rc = OK | MISUSE | DAMAGED
  type Fault = rc: Rc | rc != OK witness MISUSE

  /** A value, an error code, or a read outside the buffer, which C leaves undefined. */
  datatype Result<T> = Done(value: T) | Failed(rc: Fault) | Undefined

  const TWO_31 := 0x8000_0000
  const TWO_32 := 0x1_0000_0000
  const TWO_56 := 0x100_0000_0000_0000
  const TWO_64 := 0x1_0000_0000_0000_0000

  predicate Within(data: seq<byte>, offset: int, length: int) { 0 <= offset && 0 <= length && offset + length <= |data| }

  /** The bytes at an offset. */
  function Slice(data: seq<byte>, offset: int, length: int): (r: seq<byte>)
    requires Within(data, offset, length)
    ensures |r| == length
  {
    data[offset..offset + length]
  }

  // ---- big-endian integers ----

  function Pow256(n: nat): (r: nat)
    ensures r > 0
  {
    if n == 0 then 1 else 256 * Pow256(n - 1)
  }

  function BigEndian(bs: seq<byte>): nat {
    if bs == [] then 0 else BigEndian(bs[..|bs| - 1]) * 256 + bs[|bs| - 1]
  }

  /** Two's complement. */
  function Signed(bs: seq<byte>): int {
    if bs != [] && bs[0] >= 128 then BigEndian(bs) - Pow256(|bs|) else BigEndian(bs)
  }

  const INT_LENGTHS: set<int> := {1, 2, 3, 4, 6, 8}

  function IntAt(data: seq<byte>, offset: int, length: int): Result<int> {
    if length !in INT_LENGTHS then Failed(MISUSE)
    else if !Within(data, offset, length) then Undefined
    else Done(Signed(Slice(data, offset, length)))
  }

  /** The cast to int8_t. */
  function Int8(b: byte): int { if b < 128 then b else b - 256 }

  lemma {:induction false} BigEndianAppend(a: seq<byte>, b: seq<byte>)
    ensures BigEndian(a + b) == BigEndian(a) * Pow256(|b|) + BigEndian(b)
  {
    if b == [] {
      assert a + b == a;
    } else {
      var c := b[..|b| - 1];
      assert (a + b)[..|a + b| - 1] == a + c;
      BigEndianAppend(a, c);
      assert BigEndian(a) * Pow256(|c|) * 256 == BigEndian(a) * Pow256(|b|);
    }
  }

  lemma BigEndianShort(bs: seq<byte>)
    requires |bs| <= 4
    ensures |bs| == 1 ==> BigEndian(bs) == bs[0]
    ensures |bs| == 2 ==> BigEndian(bs) == (bs[0] as int) * 256 + bs[1]
    ensures |bs| == 3 ==> BigEndian(bs) == (bs[0] as int) * 65536 + (bs[1] as int) * 256 + bs[2]
    ensures |bs| == 4 ==> BigEndian(bs) == (bs[0] as int) * 16777216 + (bs[1] as int) * 65536 + (bs[2] as int) * 256 + bs[3]
  {
    if bs == [] {
    } else if |bs| == 1 {
      assert bs[..0] == [];
      assert BigEndian([]) == 0;
    } else {
      BigEndianShort(bs[..|bs| - 1]);
    }
  }

  lemma Pow256Values()
    ensures Pow256(1) == 256 && Pow256(2) == 65536 && Pow256(3) == 16777216 && Pow256(4) == TWO_32
    ensures Pow256(6) == TWO_32 * 65536 && Pow256(8) == TWO_64
  {
    assert Pow256(1) == 256 * Pow256(0);
    assert Pow256(2) == 256 * Pow256(1);
    assert Pow256(3) == 256 * Pow256(2);
    assert Pow256(4) == 256 * Pow256(3);
    assert Pow256(5) == 256 * Pow256(4);
    assert Pow256(6) == 256 * Pow256(5);
    assert Pow256(7) == 256 * Pow256(6);
    assert Pow256(8) == 256 * Pow256(7);
  }

  /** What the code puts together from the bytes, byte by byte. */
  lemma SignedParts(bs: seq<byte>)
    ensures |bs| == 1 ==> Signed(bs) == Int8(bs[0])
    ensures |bs| == 2 ==> Signed(bs) == Int8(bs[0]) * 256 + bs[1]
    ensures |bs| == 3 ==> Signed(bs) == Int8(bs[0]) * 65536 + (bs[1] as int) * 256 + bs[2]
    ensures |bs| == 4 ==> Signed(bs) == Int8(bs[0]) * 16777216 + (bs[1] as int) * 65536 + (bs[2] as int) * 256 + bs[3]
    ensures |bs| == 6 || |bs| == 8 ==> Signed(bs) == Signed(bs[..|bs| - 4]) * TWO_32 + BigEndian(bs[|bs| - 4..])
  {
    Pow256Values();
    if |bs| <= 4 {
      BigEndianShort(bs);
    } else if |bs| == 6 || |bs| == 8 {
      assert bs == bs[..|bs| - 4] + bs[|bs| - 4..];
      BigEndianAppend(bs[..|bs| - 4], bs[|bs| - 4..]);
    }
  }

  /**
   sqliterkParseInt64.  The operands of each `|` have no bits in common, so it is
   written as a sum.
   */
  method ParseInt64(data: seq<byte>, offset: int, length: int) returns (r: Result<int>)
    ensures r == IntAt(data, offset, length)
  {
    if length !in INT_LENGTHS { return Failed(MISUSE); }
    if !Within(data, offset, length) { return Undefined; }
    var p := Slice(data, offset, length);
    SignedParts(p);
    var out;
    match length {
      case 1 => out := Int8(p[0]);
      case 2 => out := Int8(p[0]) * 256 + p[1];
      case 3 => out := Int8(p[0]) * 65536 + (p[1] as int) * 256 + p[2];
      case 4 => out := Int8(p[0]) * 16777216 + (p[1] as int) * 65536 + (p[2] as int) * 256 + p[3];
      case 6 =>
        out := Int8(p[0]) * 256 + p[1];
        out := out * TWO_32;
        out := out + ((p[2] as int) * 16777216 + (p[3] as int) * 65536 + (p[4] as int) * 256 + p[5]);
        SignedParts(p[..2]);
        BigEndianShort(p[2..]);
      case _ =>
        out := Int8(p[0]) * 16777216 + (p[1] as int) * 65536 + (p[2] as int) * 256 + p[3];
        out := out * TWO_32;
        out := out + ((p[4] as int) * 16777216 + (p[5] as int) * 65536 + (p[6] as int) * 256 + p[7]);
        SignedParts(p[..4]);
        BigEndianShort(p[4..]);
    }
    r := Done(out);
  }

  function EncodeNat(v: nat, n: nat): (r: seq<byte>)
    ensures |r| == n
  {
    if n == 0 then [] else EncodeNat(v / 256, n - 1) + [v % 256]
  }

  /** Two's complement in n bytes. */
  function EncodeInt(v: int, n: nat): (r: seq<byte>)
    requires 0 <= v + Pow256(n)
    ensures |r| == n
  {
    EncodeNat(if v < 0 then v + Pow256(n) else v, n)
  }

  lemma {:induction false} NatRoundTrip(v: nat, n: nat)
    requires v < Pow256(n)
    ensures BigEndian(EncodeNat(v, n)) == v
    ensures n > 0 ==> (EncodeNat(v, n)[0] >= 128 <==> v >= 128 * Pow256(n - 1))
  {
    if n > 0 {
      NatRoundTrip(v / 256, n - 1);
      assert EncodeNat(v, n)[..n - 1] == EncodeNat(v / 256, n - 1);
      if n > 1 { assert EncodeNat(v, n)[0] == EncodeNat(v / 256, n - 1)[0]; }
    }
  }

  /** Every value that fits is read back from its two's complement bytes. */
  lemma IntRoundTrip(v: int, n: nat)
    requires n > 0 && -128 * Pow256(n - 1) <= v < 128 * Pow256(n - 1)
    ensures Signed(EncodeInt(v, n)) == v
  {
    NatRoundTrip(if v < 0 then v + Pow256(n) else v, n);
  }

  // ---- varints ----

  const MAX_VARINT := 9

  /** The loop of sqliterkParseVarint64 with i bytes read and their value in `out`. */
  function VarintFrom(data: seq<byte>, at: int, i: nat, out: nat): Result<(nat, nat)>
    requires i < MAX_VARINT
    decreases MAX_VARINT - i
  {
    if !Within(data, at, 1) then Undefined
    else if data[at] < 128 then Done((i + 1, out + data[at]))
    else if i + 1 >= MAX_VARINT then Failed(DAMAGED)
    else VarintFrom(data, at + 1, i + 1, (out + (data[at] - 128)) * 128)
  }

  /** Length and value of the varint at an offset. */
  function VarintAt(data: seq<byte>, offset: int): Result<(nat, nat)> { VarintFrom(data, offset, 0, 0) }

  /** sqliterkParseVarint64 */
  method ParseVarint64(data: seq<byte>, offset: int) returns (r: Result<(nat, nat)>)
    ensures r == VarintAt(data, offset)
  {
    var out := 0;
    var i := 0;
    if !Within(data, offset, 1) { return Undefined; }
    while data[offset + i] >= 128
      invariant 0 <= i < MAX_VARINT && out >= 0 && Within(data, offset + i, 1)
      invariant VarintFrom(data, offset + i, i, out) == VarintAt(data, offset)
      decreases MAX_VARINT - i
    {
      out := out + (data[offset + i] - 128) as int;
      out := out * 128;
      i := i + 1;
      if i >= MAX_VARINT { return Failed(DAMAGED); }
      if !Within(data, offset + i, 1) { return Undefined; }
    }
    out := out + data[offset + i];
    r := Done((i + 1, out));
  }

  /** The cast of an int64_t to int. */
  function Int32(v: int): (r: int)
    ensures -TWO_31 <= r < TWO_31 && (r - v) % TWO_32 == 0
    ensures -TWO_31 <= v < TWO_31 ==> r == v
  {
    (v + TWO_31) % TWO_32 - TWO_31
  }

  /** sqliterkParseVarint */
  function Varint32At(data: seq<byte>, offset: int): Result<(nat, int)> {
    match VarintAt(data, offset)
    case Done((length, value)) => Done((length, Int32(value)))
    case Failed(rc) => Failed(rc)
    case Undefined => Undefined
  }

  /** The n seven-bit groups of v, high group first, each marked as not the last. */
  function Groups(v: nat, n: nat): (r: seq<byte>)
    ensures |r| == n
  {
    if n == 0 then [] else Groups(v / 128, n - 1) + [v % 128 + 128]
  }

  /** The number of seven-bit groups that v needs. */
  function Size(v: nat): (n: nat)
    ensures n > 0 && v < Power128(n)
  {
    if v < 128 then assert Power128(1) == 128 * Power128(0); 1 else 1 + Size(v / 128)
  }

  /** The varints of the SQLite database file format, section 1.6; nine bytes end with eight bits. */
  function EncodeVarint(v: nat): (r: seq<byte>)
    requires v < TWO_64
    ensures r != []
  {
    if v < TWO_56 then Groups(v / 128, Size(v) - 1) + [v % 128] else Groups(v / 256, 8) + [v % 256]
  }

  lemma {:induction false} SizeBound(v: nat, n: nat)
    requires n > 0 && v < Power128(n)
    ensures Size(v) <= n
  {
    if v >= 128 {
      assert Power128(n) == 128 * Power128(n - 1);
      assert n > 1 by { assert Power128(0) == 1; }
      SizeBound(v / 128, n - 1);
    }
  }

  lemma Power128Of8()
    ensures Power128(8) == TWO_56
  {
    assert Power128(2) == 128 * Power128(1) && Power128(1) == 128 * Power128(0);
    assert Power128(4) == 128 * Power128(3) && Power128(3) == 128 * Power128(2);
    assert Power128(6) == 128 * Power128(5) && Power128(5) == 128 * Power128(4);
    assert Power128(8) == 128 * Power128(7) && Power128(7) == 128 * Power128(6);
  }

  /** The reader's number after the n groups of v, if it was `out` before them. */
  function Joined(out: nat, v: nat, n: nat): nat { out * Power128(n) + v * 128 }

  lemma JoinedMore(out: nat, v: nat, n: nat)
    requires n > 0
    ensures (Joined(out, v / 128, n - 1) + v % 128) * 128 == Joined(out, v, n)
  {
    assert out * Power128(n - 1) * 128 == out * Power128(n);
  }

  lemma JoinedNone(out: nat, v: nat)
    ensures v < Power128(0) ==> Joined(out, v, 0) == out
  {
  }

  lemma JoinedZero(v: nat, n: nat)
    ensures Joined(0, v, n) == v * 128
  {
  }

  lemma GroupsLast(data: seq<byte>, at: nat, v: nat, n: nat)
    requires n > 0 && v < Power128(n) && Within(data, at, n) && Slice(data, at, n) == Groups(v, n)
    ensures v / 128 < Power128(n - 1) && Slice(data, at, n - 1) == Groups(v / 128, n - 1)
    ensures data[at + n - 1] == v % 128 + 128
  {
    assert Power128(n) == 128 * Power128(n - 1);
    assert Slice(data, at, n - 1) == Slice(data, at, n)[..n - 1];
    assert data[at + n - 1] == Slice(data, at, n)[n - 1];
  }

  /** A byte that is not the last adds its low seven bits. */
  lemma OneGroup(data: seq<byte>, at: nat, i: nat, out: nat)
    requires i + 1 < MAX_VARINT && at < |data| && data[at] >= 128
    ensures VarintFrom(data, at, i, out) == VarintFrom(data, at + 1, i + 1, (out + (data[at] - 128)) * 128)
  {
  }

  lemma {:induction false} GroupsRead(data: seq<byte>, at: nat, i: nat, out: nat, v: nat, n: nat)
    requires i + n < MAX_VARINT && v < Power128(n)
    requires Within(data, at, n) && Slice(data, at, n) == Groups(v, n)
    ensures VarintFrom(data, at, i, out) == VarintFrom(data, at + n, i + n, Joined(out, v, n))
    decreases n
  {
    hide Power128, Joined, VarintFrom, Groups, Slice;
    if n == 0 {
      JoinedNone(out, v);
    } else {
      GroupsLast(data, at, v, n);
      GroupsRead(data, at, i, out, v / 128, n - 1);
      JoinedMore(out, v, n);
      OneGroup(data, at + n - 1, i + n - 1, Joined(out, v / 128, n - 1));
    }
  }

  /**
   The reader inverts the file format's varint, and reports its exact length, exactly
   for the values below 2^56: those whose encoding has fewer than nine bytes.
   */
  lemma VarintExactly(data: seq<byte>, at: nat, v: nat)
    requires v < TWO_64 && Within(data, at, |EncodeVarint(v)|) && Slice(data, at, |EncodeVarint(v)|) == EncodeVarint(v)
    ensures VarintAt(data, at) == Done((|EncodeVarint(v)|, v)) <==> v < TWO_56
  {
    if v < TWO_56 { ShortVarint(data, at, v); } else { LongVarint(data, at, v); }
  }

  lemma ShortVarint(data: seq<byte>, at: nat, v: nat)
    requires v < TWO_56 && Within(data, at, |EncodeVarint(v)|) && Slice(data, at, |EncodeVarint(v)|) == EncodeVarint(v)
    ensures VarintAt(data, at) == Done((|EncodeVarint(v)|, v))
  {
    hide Power128, Groups, VarintFrom, Slice;
    var n := Size(v) - 1;
    ShortSize(v);
    Prefix(data, at, Groups(v / 128, n), v % 128);
    GroupsRead(data, at, 0, 0, v / 128, n);
    JoinedZero(v / 128, n);
    LastGroup(data, at + n, n, v / 128 * 128);
  }

  lemma ShortSize(v: nat)
    requires v < TWO_56
    ensures 0 < Size(v) <= 8 && v / 128 < Power128(Size(v) - 1)
  {
    Power128Of8();
    SizeBound(v, 8);
    assert Power128(Size(v)) == 128 * Power128(Size(v) - 1);
  }

  lemma LastGroup(data: seq<byte>, at: nat, i: nat, out: nat)
    requires i < MAX_VARINT && at < |data| && data[at] < 128
    ensures VarintFrom(data, at, i, out) == Done((i + 1, out + data[at]))
  {
  }

  /** A nine-byte varint loses a bit of its value, or is taken for damage. */
  lemma LongVarint(data: seq<byte>, at: nat, v: nat)
    requires TWO_56 <= v < TWO_64
    requires Within(data, at, |EncodeVarint(v)|) && Slice(data, at, |EncodeVarint(v)|) == EncodeVarint(v)
    ensures VarintAt(data, at) == if v % 256 < 128 then Done((9, (v / 256 * 128 + v % 256) as nat)) else Failed(DAMAGED)
  {
    Power128Of8();
    Prefix(data, at, Groups(v / 256, 8), v % 256);
    GroupsRead(data, at, 0, 0, v / 256, 8);
    JoinedZero(v / 256, 8);
  }

  lemma Prefix(data: seq<byte>, at: nat, a: seq<byte>, b: byte)
    requires Within(data, at, |a| + 1) && Slice(data, at, |a| + 1) == a + [b]
    ensures Within(data, at, |a|) && Slice(data, at, |a|) == a && data[at + |a|] == b
  {
    var w := Slice(data, at, |a| + 1);
    assert Slice(data, at, |a|) == w[..|a|];
    assert w[|a|] == b;
  }

  /** As an int the value survives exactly below 2^31. */
  lemma Varint32Exactly(data: seq<byte>, at: nat, v: nat)
    requires v < TWO_64 && Within(data, at, |EncodeVarint(v)|) && Slice(data, at, |EncodeVarint(v)|) == EncodeVarint(v)
    ensures Varint32At(data, at) == Done((|EncodeVarint(v)|, v)) <==> v < TWO_31
  {
    VarintExactly(data, at, v);
  }

  /** What the reader makes of the file format's varint of a 64-bit number. */
  function ReadAs(v: nat): Result<int> {
    if v < TWO_56 then Done(Int32(v))
    else if v % 256 < 128 then Done(Int32(v / 256 * 128 + v % 256))
    else Failed(DAMAGED)
  }

  lemma Varint32Reads(data: seq<byte>, at: nat, v: nat)
    requires v < TWO_64 && Within(data, at, |EncodeVarint(v)|) && Slice(data, at, |EncodeVarint(v)|) == EncodeVarint(v)
    ensures Varint32At(data, at) ==
      match ReadAs(v) case Done(w) => Done((|EncodeVarint(v)|, w)) case Failed(rc) => Failed(rc) case Undefined => Undefined
  {
    if v < TWO_56 {
      ShortVarint(data, at, v);
    } else {
      LongVarint(data, at, v);
      assert |EncodeVarint(v)| == 9;
    }
  }

  predicate IsInt64(v: int) { -TWO_64 <= 2 * v < TWO_64 }

  /** A 64-bit integer as the number that a varint holds. */
  function Unsigned(v: int): (r: nat)
    requires IsInt64(v)
    ensures r < TWO_64
  {
    if v < 0 then v + TWO_64 else v
  }

  /** A 64-bit integer in a varint is read as it is exactly from 0 to 2^31 - 1. */
  lemma ReadAsExactly(v: int)
    requires IsInt64(v)
    ensures ReadAs(Unsigned(v)) == Done(v) <==> 0 <= v < TWO_31
  {
    var u := Unsigned(v);
    if u >= TWO_56 && u % 256 < 128 && -TWO_31 <= v < 0 {
      var q := u / 256 - TWO_56;
      assert v == 256 * q + u % 256;
      SameInt32(u / 256 * 128 + u % 256, 128 * q + u % 256);
    }
  }

  lemma SameInt32(a: int, b: int)
    requires a == b + 128 * TWO_56 && -TWO_31 <= b < TWO_31
    ensures Int32(a) == b
  {
    assert a + TWO_31 == b + TWO_31 + TWO_32 * 0x8000_0000;
  }

  /** A varint that is read lies in the buffer. */
  lemma {:induction false} VarintBounds(data: seq<byte>, at: int, i: nat, out: nat)
    requires i < MAX_VARINT
    ensures VarintFrom(data, at, i, out).Done? ==>
      var (length, value) := VarintFrom(data, at, i, out).value; length > i && Within(data, at, length - i)
    decreases MAX_VARINT - i
  {
    if Within(data, at, 1) && data[at] >= 128 && i + 1 < MAX_VARINT {
      VarintBounds(data, at + 1, i + 1, (out + (data[at] - 128)) * 128);
    }
  }

  /** A two-byte field of the file format, which is unsigned, is read as it is exactly below 32768. */
  lemma PointerExactly(page: seq<byte>, at: nat, v: nat)
    requires v < 65536 && Within(page, at, 2) && Slice(page, at, 2) == EncodeNat(v, 2)
    ensures IntAt(page, at, 2) == Done(v) <==> v < 32768
  {
    var bs := Slice(page, at, 2);
    TwoBytes(v);
    SignedParts(bs);
    assert bs[0] == v / 256 && bs[1] == v % 256;
  }

  lemma TwoBytes(v: nat)
    requires v < 65536
    ensures EncodeNat(v, 2) == [v / 256, v % 256]
  {
  }

  // ---- doubles ----

  function Reversed(bs: seq<byte>): (r: seq<byte>)
    ensures |r| == |bs|
    ensures forall i :: 0 <= i < |bs| ==> r[i] == bs[|bs| - 1 - i]
  {
    seq(|bs|, i requires 0 <= i < |bs| => bs[|bs| - 1 - i])
  }

  /** A double as it lies in memory, least significant byte first. */
  function NumberAt(data: seq<byte>, offset: int): Result<seq<byte>> {
    if Within(data, offset, 8) then Done(Reversed(Slice(data, offset, 8))) else Undefined
  }

  /** sqliterkParseNumber */
  method ParseNumber(data: seq<byte>, offset: int) returns (r: Result<seq<byte>>)
    ensures r == NumberAt(data, offset)
  {
    if !Within(data, offset, 8) { return Undefined; }
    var out: seq<byte> := [];
    for i := 0 to 8
      invariant |out| == i
      invariant forall k :: 0 <= k < i ==> out[k] == data[offset + 7 - k]
    {
      out := out + [data[offset + 8 - 1 - i]];
    }
    assert out == Reversed(Slice(data, offset, 8));
    r := Done(out);
  }
}
