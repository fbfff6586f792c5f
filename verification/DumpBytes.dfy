/** The format of a dump byte by byte, and what the reader does with a byte that does not belong. */
module DumpBytes {
  import opened Bytes
  import opened DumpFormat
  import opened DumpReader

  /** A value of each type, with its tag and, below 256 bytes, a length of one byte. */
  lemma ValueBytes(bits: Double)
    ensures EncodeValue(Null) == [0x00] && EncodeValue(Integer(5)) == [0x01, 5] && EncodeValue(Integer(-1)) == [0x02, 0]
    ensures EncodeValue(Integer(300)) == [0x01, 0xac, 0x02] && EncodeValue(Float(bits)) == [0x03] + bits
    ensures EncodeValue(Text([0x63])) == [0x05, 1, 0x63] && EncodeValue(Blob([0x64])) == [0x07, 1, 0x64]
  {
    assert Groups(300) == [300 % 128 + 128] + Groups(2);
    assert EncodeLarge([0x63]) == [] && EncodeLarge([0x64]) == [] && BlockSize([0x63]) == 0 && BlockSize([0x64]) == 0;
  }

  /** From 256 bytes on the length takes two bytes. */
  lemma LongBytes(data: Data)
    requires 256 <= |data| < 65536
    ensures EncodeValue(Text(data)) == [0x04, |data| % 256, |data| / 256] + data
    ensures EncodeValue(Blob(data)) == [0x06, |data| % 256, |data| / 256] + data
  {
    assert EncodeLarge(data) == [];
    hide EncodeLarge, EncodeTail;
    assert BlockSize(data) == 0 && data[0..] == data;
    LongTail(TAG_BIND_TEXT, data);
    LongTail(TAG_BIND_BLOB, data);
  }

  lemma LongTail(tag: byte, data: Data)
    requires tag < 255 && 256 <= |data| < 65536
    ensures EncodeTail(tag, data) == [tag, |data| % 256, |data| / 256] + data
  {
    assert Short(|data|) == [|data| % 256, |data| / 256];
  }

  /** From 65536 bytes on whole blocks come first, and then what is left. */
  lemma LargeBytes(blocks: Data, rest: Data)
    requires |blocks| == 65536 * 3 && 0 < |rest| < 256
    ensures EncodeValue(Text(blocks + rest)) == [0x80, 3, 0] + blocks + ([0x05, |rest|] + rest)
  {
    hide EncodeLarge, EncodeTail;
    var data: Data := blocks + rest;
    assert BlockSize(data) == |blocks|;
    assert data[|blocks|..] == rest && data[..|blocks|] == blocks;
    LargeHead(data, blocks);
    ShortTail(rest);
  }

  lemma LargeHead(data: Data, blocks: Data)
    requires BlockSize(data) == |blocks| == 65536 * 3 && data[..|blocks|] == blocks
    ensures EncodeLarge(data) == [0x80, 3, 0] + blocks
  {
  }

  lemma ShortTail(rest: Data)
    requires |rest| < 256
    ensures EncodeTail(TAG_BIND_TEXT, rest) == [0x05, |rest|] + rest
  {
  }

  /** A statement to run once. */
  lemma OneShotBytes()
    ensures EncodeItem(OneShot([0x61])) == [0x81, 1, 0, 0x61]
  {
    assert EncodeLarge([0x61]) == [] && BlockSize([0x61]) == 0;
  }

  /** A statement with two rows. */
  lemma RepeatedBytes()
    ensures EncodeItem(Repeated([0x62], [[Null], [Null]])) == [0x82, 1, 0, 0x62, 0x00, 0x83, 0x00, 0x83, 0x84]
  {
    hide EncodeRows;
    assert EncodeLarge([0x62]) == [] && BlockSize([0x62]) == 0;
    RowBytes();
  }

  lemma RowBytes()
    ensures EncodeRows([[Null], [Null]]) == [0x00, 0x83, 0x00, 0x83]
  {
    var row: seq<Value> := [Null];
    assert row[1..] == [] && EncodeValues(row) == [0x00] + EncodeValues([]);
    assert [row, row][1..] == [row] && [row][1..] == [];
    assert EncodeRows([row]) == [0x00] + [0x83] + EncodeRows([]);
  }

  /** Blocks that are announced while others still wait for their text end the recovery. */
  lemma BlocksTwice(ok: Oracle, fatal: bool, s: State)
    requires s.input != [] && s.input[0] == 0x80 && s.buffer.Large?
    ensures Run(ok, fatal, s) == (FAILED, s.db)
  {
  }

  /** A byte that is no tag, or one of the other loop, ends the recovery where it stands. */
  lemma WrongTag(ok: Oracle, fatal: bool, s: State)
    requires s.input != []
    requires var tag := s.input[0]; tag != 0x80 && if s.rows then 7 < tag && tag != 0x83 && tag != 0x84 else tag != 0x81 && tag != 0x82
    ensures Run(ok, fatal, s) == (FAILED, s.db)
  {
  }
}
