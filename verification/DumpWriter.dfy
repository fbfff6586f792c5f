/** The printer of a dump: each method writes what DumpFormat says. */
module DumpWriter {
  import opened Bytes
  import opened DumpFormat

  class Writer {
    /** What `dump_write_stream` has accepted so far. */
    var out: seq<byte>
    var stmtCount: nat

    constructor ()
      ensures out == [] && stmtCount == 0
    {
      out, stmtCount := [], 0;
    }

    method WriteStream(data: seq<byte>)
      modifies this`out
      ensures out == old(out) + data
    {
      out := out + data;
    }

    method WriteVarint(val: int64)
      modifies this`out
      ensures out == old(out) + EncodeVarint(val)
    {
      var buf: seq<byte> := [if val < 0 then TAG_BIND_VARINT_MINUS else TAG_BIND_VARINT];
      var v: nat := if val < 0 then -1 - val else val;
      ghost var target := buf + Groups(v);
      assert target == EncodeVarint(val);
      var more := true;
      while more
        invariant out == old(out)
        invariant target == buf + if more then Groups(v) else []
        decreases more, v
      {
        GroupsStep(v);
        var b: byte := v % 128;
        var rest := v / 128;
        if rest != 0 { b := b + 128; }
        Bracket(buf, [b], if rest != 0 then Groups(rest) else []);
        buf := buf + [b];
        more := rest != 0;
        v := rest;
      }
      assert target == buf;
      WriteStream(buf);
    }

    /** `dump_write_blob`. */
    method WriteData(tag: byte, data: Data)
      requires tag < 255
      modifies this`out
      ensures out == old(out) + EncodeData(tag, data)
    {
      ghost var before := out;
      ghost var tail := data[BlockSize(data)..];
      var size := |data|;
      var p := 0;
      if size >= 65536 {
        var extSize := size - size % 65536;
        var blocks := extSize / 65536;
        WriteStream([TAG_LARGE_DATA]);
        WriteStream(Short(blocks));
        WriteStream(data[p..p + extSize]);
        Join3(before, [TAG_LARGE_DATA], Short(blocks), data[..extSize]);
        size := size - extSize;
        p := p + extSize;
      }
      assert p == BlockSize(data) && data[p..p + size] == tail;
      assert out == before + EncodeLarge(data);
      ghost var head: seq<byte>;
      if size < 256 && (tag == TAG_BIND_TEXT || tag == TAG_BIND_BLOB) {
        WriteStream([tag + 1, size]);
        head := [tag + 1, size];
      } else {
        WriteStream([tag] + Short(size));
        head := [tag] + Short(size);
      }
      WriteStream(data[p..p + size]);
      assert EncodeTail(tag, tail) == head + tail;
      Join3(before, EncodeLarge(data), head, tail);
      assert EncodeLarge(data) + head + tail == EncodeLarge(data) + (head + tail);
    }

    static lemma Join3(a: seq<byte>, b: seq<byte>, c: seq<byte>, d: seq<byte>)
      ensures a + b + c + d == a + (b + c + d)
    {
    }

    /** One column of a row in `dump_rows`. */
    method WriteValue(v: Value)
      modifies this`out
      ensures out == old(out) + EncodeValue(v)
    {
      match v {
        case Null => WriteStream([TAG_BIND_NULL]);
        case Integer(i) => WriteVarint(i);
        case Float(bits) =>
          WriteStream([TAG_BIND_FLOAT]);
          WriteStream(bits);
        case Text(text) => WriteData(TAG_BIND_TEXT, text);
        case Blob(blob) => WriteData(TAG_BIND_BLOB, blob);
      }
    }

    /** The columns of one row; `cells` is what `row_count` grows by. */
    method WriteRow(row: seq<Value>) returns (cells: nat)
      modifies this`out
      ensures out == old(out) + EncodeValues(row) + [TAG_END_ROW] && cells == |row|
    {
      cells := 0;
      while cells < |row|
        invariant cells <= |row|
        invariant out == old(out) + EncodeValues(row[..cells])
      {
        WriteValue(row[cells]);
        ValueAdded(old(out), row, cells);
        cells := cells + 1;
      }
      assert row[..cells] == row;
      WriteStream([TAG_END_ROW]);
    }

    /** `dump_rows` on the result of its SELECT: nothing at all for an empty table. */
    method WriteRows(insert: Data, rows: seq<seq<Value>>)
      requires forall r :: r in rows ==> |r| > 0
      modifies this
      ensures out == old(out) + if rows == [] then [] else EncodeItem(Repeated(insert, rows))
      ensures stmtCount == old(stmtCount) + |rows|
    {
      hide EncodeData, EncodeRows, EncodeValues;
      var rowCount := 0;
      assert EncodeRows([]) == [] by { NoRows(); }
      if |rows| > 0 {
        WriteData(TAG_SQL_REPEATED, insert);
      }
      ghost var head := out;
      var r := 0;
      while r < |rows|
        invariant r <= |rows|
        invariant out == head + EncodeRows(rows[..r])
        invariant stmtCount == old(stmtCount) + r
        invariant rowCount >= r
        invariant r == 0 ==> rowCount == 0
      {
        ghost var before := out;
        var row := rows[r];
        assert row in rows;
        var cells := WriteRow(row);
        rowCount := rowCount + cells;
        RowAdded(head, rows, r);
        stmtCount := stmtCount + 1;
        r := r + 1;
      }
      assert rows[..r] == rows;
      if rowCount > 0 {
        WriteStream([TAG_END_SQL]);
        Join3(old(out), EncodeData(TAG_SQL_REPEATED, insert), EncodeRows(rows), [TAG_END_SQL]);
      }
    }

    static lemma NoRows()
      ensures EncodeRows([]) == []
    {
    }

    method WriteItem(item: Item)
      requires item.Repeated? ==> item.rows != [] && forall r :: r in item.rows ==> |r| > 0
      modifies this
      ensures out == old(out) + EncodeItem(item)
    {
      match item {
        case OneShot(sql) => WriteData(TAG_SQL_ONESHOT, sql);
        case Repeated(sql, rows) => WriteRows(sql, rows);
      }
    }

    /** The statements of a dump in order, as `dump_callback` and `dump_rows` emit them. */
    method WriteItems(items: seq<Item>)
      requires forall it :: it in items && it.Repeated? ==> it.rows != [] && forall r :: r in it.rows ==> |r| > 0
      modifies this
      ensures out == old(out) + Encode(items)
    {
      var k := 0;
      while k < |items|
        invariant k <= |items|
        invariant out == old(out) + Encode(items[..k])
      {
        var item := items[k];
        assert item in items;
        WriteItem(item);
        ItemAdded(old(out), items, k);
        k := k + 1;
      }
      assert items[..k] == items;
    }

    static lemma ValueAdded(head: seq<byte>, row: seq<Value>, i: nat)
      requires i < |row|
      ensures head + EncodeValues(row[..i]) + EncodeValue(row[i]) == head + EncodeValues(row[..i + 1])
    {
      assert row[..i + 1] == row[..i] + [row[i]];
      EncodeValuesAppend(row[..i], row[i]);
      Bracket(head, EncodeValues(row[..i]), EncodeValue(row[i]));
    }

    static lemma RowAdded(head: seq<byte>, rows: seq<seq<Value>>, r: nat)
      requires r < |rows|
      ensures head + EncodeRows(rows[..r]) + EncodeValues(rows[r]) + [TAG_END_ROW] == head + EncodeRows(rows[..r + 1])
    {
      assert rows[..r + 1] == rows[..r] + [rows[r]];
      EncodeRowsAppend(rows[..r], rows[r]);
      Join3(head, EncodeRows(rows[..r]), EncodeValues(rows[r]), [TAG_END_ROW]);
    }

    static lemma ItemAdded(head: seq<byte>, items: seq<Item>, k: nat)
      requires k < |items|
      ensures head + Encode(items[..k]) + EncodeItem(items[k]) == head + Encode(items[..k + 1])
    {
      assert items[..k + 1] == items[..k] + [items[k]];
      EncodeAppend(items[..k], [items[k]]);
      assert Encode([items[k]]) == EncodeItem(items[k]) + Encode([]);
      Bracket(head, Encode(items[..k]), EncodeItem(items[k]));
    }
  }
}
