/**
 The tag format of a dump: what `mm_backup.c` prints for the statements and rows
 of a database.
 */
module DumpFormat {
  import opened Bytes

  const TAG_BIND_NULL: byte := 0x00
  const TAG_BIND_VARINT: byte := 0x01
  const TAG_BIND_VARINT_MINUS: byte := 0x02
  const TAG_BIND_FLOAT: byte := 0x03
  const TAG_BIND_TEXT: byte := 0x04
  const TAG_BIND_TEXT_SHORT: byte := 0x05
  const TAG_BIND_BLOB: byte := 0x06
  const TAG_BIND_BLOB_SHORT: byte := 0x07
  const TAG_LARGE_DATA: byte := 0x80
  const TAG_SQL_ONESHOT: byte := 0x81
  const TAG_SQL_REPEATED: byte := 0x82
  const TAG_END_ROW: byte := 0x83
  const TAG_END_SQL: byte := 0x84

  const BLOCK := 65536
  const TWO_63 := 0x8000_0000_0000_0000
  const TWO_64 := 0x1_0000_0000_0000_0000

  type int64 = v: int | -TWO_63 <= v < TWO_63

  /** Sizes are C ints. */
  type Data = d: seq<byte> | |d| < 0x8000_0000

  /** The eight bytes of a double as they lie in memory. */
  type Double = d: seq<byte> | |d| == 8 witness [0, 0, 0, 0, 0, 0, 0, 0]

  datatype Value = Null | Integer(i: int64) | Float(bits: Double) | Text(text: Data) | Blob(blob: Data)

  /** A statement to run once, or one to prepare and run once for every row of values. */
  datatype Item = OneShot(sql: Data) | Repeated(sql: Data, rows: seq<seq<Value>>)

  /** The little-endian bytes of a uint16_t. */
  function Short(n: nat): (r: seq<byte>)
    ensures |r| == 2
  {
    [n % 256, n / 256 % 256]
  }

  /** Seven bits a byte, low group first, the high bit set on all but the last. */
  function Groups(v: nat): (r: seq<byte>)
    ensures |r| > 0
  {
    if v < 128 then [v] else [v % 128 + 128] + Groups(v / 128)
  }

  lemma GroupsStep(v: nat)
    ensures Groups(v) == [if v / 128 != 0 then v % 128 + 128 else v % 128] + (if v / 128 != 0 then Groups(v / 128) else [])
  {
  }

  /** `~v` of a negative v. */
  function Magnitude(v: int64): (r: nat)
    ensures r < TWO_63
  {
    if v < 0 then -1 - v else v
  }

  function EncodeVarint(v: int64): seq<byte> {
    [if v < 0 then TAG_BIND_VARINT_MINUS else TAG_BIND_VARINT] + Groups(Magnitude(v))
  }

  /** The size of the part of `data` that goes into whole blocks. */
  function BlockSize(data: Data): (n: nat)
    ensures n <= |data| < n + BLOCK && n % BLOCK == 0
    ensures n == 0 <==> |data| < BLOCK
  {
    |data| / BLOCK * BLOCK
  }

  function EncodeLarge(data: Data): seq<byte> {
    if |data| < BLOCK then []
    else [TAG_LARGE_DATA] + Short(BlockSize(data) / BLOCK) + data[..BlockSize(data)]
  }

  /** The part after the blocks, with a one-byte length where the tag has a short form. */
  function EncodeTail(tag: byte, tail: seq<byte>): seq<byte>
    requires tag < 255
  {
    if |tail| < 256 && (tag == TAG_BIND_TEXT || tag == TAG_BIND_BLOB) then
      [tag + 1, |tail|] + tail
    else
      [tag] + Short(|tail|) + tail
  }

  function EncodeData(tag: byte, data: Data): seq<byte>
    requires tag < 255
  {
    EncodeLarge(data) + EncodeTail(tag, data[BlockSize(data)..])
  }

  function EncodeValue(v: Value): seq<byte> {
    match v
    case Null => [TAG_BIND_NULL]
    case Integer(i) => EncodeVarint(i)
    case Float(bits) => [TAG_BIND_FLOAT] + bits
    case Text(text) => EncodeData(TAG_BIND_TEXT, text)
    case Blob(blob) => EncodeData(TAG_BIND_BLOB, blob)
  }

  function EncodeValues(values: seq<Value>): seq<byte> {
    if values == [] then [] else EncodeValue(values[0]) + EncodeValues(values[1..])
  }

  function EncodeRows(rows: seq<seq<Value>>): seq<byte> {
    if rows == [] then [] else EncodeValues(rows[0]) + [TAG_END_ROW] + EncodeRows(rows[1..])
  }

  function EncodeItem(item: Item): seq<byte> {
    match item
    case OneShot(sql) => EncodeData(TAG_SQL_ONESHOT, sql)
    case Repeated(sql, rows) => EncodeData(TAG_SQL_REPEATED, sql) + EncodeRows(rows) + [TAG_END_SQL]
  }

  function Encode(items: seq<Item>): seq<byte> {
    if items == [] then [] else EncodeItem(items[0]) + Encode(items[1..])
  }

  lemma {:induction false} GroupsLength(v: nat, bound: nat)
    requires v < Power128(bound) && bound > 0
    ensures |Groups(v)| <= bound
  {
    if v >= 128 {
      assert bound > 1;
      GroupsLength(v / 128, bound - 1);
    }
  }

  /** A tag and at most nine groups: the twelve-byte buffer of the printer is never overrun. */
  lemma VarintFits(v: int64)
    ensures 2 <= |EncodeVarint(v)| <= 10
  {
    assert Power128(9) == TWO_63 by {
      assert Power128(3) == 128 * 128 * 128;
      assert Power128(6) == Power128(3) * 128 * 128 * 128;
    }
    GroupsLength(Magnitude(v), 9);
  }

  // ---- lists ----

  lemma {:induction false} EncodeValuesAppend(a: seq<Value>, v: Value)
    ensures EncodeValues(a + [v]) == EncodeValues(a) + EncodeValue(v)
  {
    if a == [] {
      assert EncodeValues([]) == [] && [v][1..] == [];
    } else {
      assert (a + [v])[1..] == a[1..] + [v];
      EncodeValuesAppend(a[1..], v);
    }
  }

  lemma {:induction false} EncodeRowsAppend(a: seq<seq<Value>>, row: seq<Value>)
    ensures EncodeRows(a + [row]) == EncodeRows(a) + EncodeValues(row) + [TAG_END_ROW]
  {
    if a == [] {
      assert EncodeRows([]) == [] && [row][1..] == [];
      assert EncodeValues(row) + [TAG_END_ROW] + [] == EncodeValues(row) + [TAG_END_ROW];
    } else {
      assert (a + [row])[1..] == a[1..] + [row];
      EncodeRowsAppend(a[1..], row);
    }
  }

  lemma {:induction false} EncodeAppend(a: seq<Item>, b: seq<Item>)
    ensures Encode(a + b) == Encode(a) + Encode(b)
  {
    if a == [] {
      assert a + b == b;
    } else {
      assert (a + b)[1..] == a[1..] + b;
      EncodeAppend(a[1..], b);
    }
  }
}
