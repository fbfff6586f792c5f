/** Reading back what the printer wrote. */
module DumpRoundTrip {
  import opened Bytes
  import opened DumpFormat
  import opened DumpReader

  // ---- numbers ----

  lemma {:induction false} GroupsRoundTrip(v: nat, rest: seq<byte>)
    ensures VarintAt(Groups(v) + rest) == Varint(v, |Groups(v)|)
  {
    var s := Groups(v) + rest;
    if v >= 128 {
      assert s[1..] == Groups(v / 128) + rest;
      GroupsRoundTrip(v / 128, rest);
    }
  }

  /** The sign-split varint inverts for every int64. */
  lemma SignedRoundTrip(v: int64)
    ensures Signed(Magnitude(v), v < 0) == v
  {
  }

  // ---- what the reader makes of a datum ----

  /** Blocks are read and then overwritten: only the tail after them survives. */
  function Kept(data: Data): (r: Data)
    ensures |r| < BLOCK && (r == data <==> |data| < BLOCK)
  {
    data[BlockSize(data)..]
  }

  function KeptValue(v: Value): Value {
    match v
    case Text(text) => Text(Kept(text))
    case Blob(blob) => Blob(Kept(blob))
    case _ => v
  }

  function KeptRow(row: seq<Value>): (r: seq<Value>)
    ensures |r| == |row|
  {
    seq(|row|, i requires 0 <= i < |row| => KeptValue(row[i]))
  }

  function KeptRows(rows: seq<seq<Value>>): (r: seq<seq<Value>>)
    ensures |r| == |rows|
  {
    seq(|rows|, i requires 0 <= i < |rows| => KeptRow(rows[i]))
  }

  function KeptItem(item: Item): Item {
    match item
    case OneShot(sql) => OneShot(Kept(sql))
    case Repeated(sql, rows) => Repeated(Kept(sql), KeptRows(rows))
  }

  function KeptItems(items: seq<Item>): (r: seq<Item>)
    ensures |r| == |items|
  {
    seq(|items|, i requires 0 <= i < |items| => KeptItem(items[i]))
  }

  // ---- running the items directly, without the format ----

  function CellOf(v: Value): Cell {
    match v
    case Null => CNull
    case Integer(i) => CInteger(i)
    case Float(bits) => CFloat(bits)
    case Text(text) => CText(text)
    case Blob(blob) => CBlob(blob)
  }

  /** Values `values[k..]` are bound at k + 1, k + 2, ... */
  function BindAll(db: Db, stmt: bool, values: seq<Value>, k: nat): Db
    decreases |values| - k
  {
    if k >= |values| then db
    else BindAll(RunBind(db, stmt, k + 1, CellOf(values[k])), stmt, values, k + 1)
  }

  function RunRows(ok: Oracle, fatal: bool, db: Db, stmt: bool, rows: seq<seq<Value>>): Result
    decreases rows
  {
    if rows == [] then Go(db)
    else
      match RunRow(ok, fatal, BindAll(db, stmt, rows[0], 0), stmt)
      case Stop(d) => Stop(d)
      case Go(d) => RunRows(ok, fatal, d, stmt, rows[1..])
  }

  function RunItem(ok: Oracle, fatal: bool, db: Db, item: Item): Result {
    match item
    case OneShot(sql) => RunExec(ok, fatal, db, sql)
    case Repeated(sql, rows) =>
      var (p, stmt) := RunPrepare(ok, fatal, db, sql);
      match p
      case Stop(d) => Stop(d)
      case Go(d) =>
        match RunRows(ok, fatal, d, stmt, rows)
        case Stop(e) => Stop(e)
        case Go(e) => RunFinalize(ok, e, stmt)
  }

  function RunItems(ok: Oracle, fatal: bool, db: Db, items: seq<Item>): (Ret, Db)
    decreases items
  {
    if items == [] then (OK, db)
    else
      match RunItem(ok, fatal, db, items[0])
      case Stop(d) => (FAILED, d)
      case Go(d) => RunItems(ok, fatal, d, items[1..])
  }

  /** After a call into SQLite the reader either gives up or goes on from `t`. */
  ghost predicate Leads(ok: Oracle, fatal: bool, s: State, r: Result, t: State) {
    Run(ok, fatal, s) == if r.Stop? then (FAILED, r.db) else Run(ok, fatal, t.(db := r.db))
  }

  // ---- one datum ----

  /** After the LARGE_DATA part, if there is one, the reader stands before the tail. */
  function AfterLarge(s: State, data: Data, rest: seq<byte>): State {
    s.(input := rest, buffer := if |data| < BLOCK then NoBuffer else Large(data[..BlockSize(data)], 0))
  }

  /** How many blocks the LARGE_DATA part of `data` announces. */
  lemma BlockCount(data: Data)
    ensures BlockSize(data) / BLOCK < BLOCK && BlockSize(data) / BLOCK * BLOCK == BlockSize(data)
  {
  }

  lemma LargeParts(input: seq<byte>, data: Data, rest: seq<byte>)
    requires |data| >= BLOCK && input == EncodeLarge(data) + rest
    ensures input != [] && input[0] == TAG_LARGE_DATA
    ensures var u := input[1..]; var n := BlockSize(data);
      && |u| >= 2 + n && ShortAt(u) * BLOCK == n && u[2..2 + n] == data[..n] && u[2 + n..] == rest
  {
    var n := BlockSize(data);
    BlockCount(data);
    Parts(input, TAG_LARGE_DATA, Short(n / BLOCK), data[..n], rest);
    ShortParts(input[1..], n / BLOCK);
  }

  lemma LargeStep(ok: Oracle, fatal: bool, s: State, data: Data, rest: seq<byte>)
    requires s.buffer.NoBuffer? && s.input == EncodeLarge(data) + rest
    ensures |data| >= BLOCK ==> Step(ok, fatal, s) == Next(AfterLarge(s, data, rest))
    ensures Run(ok, fatal, s) == Run(ok, fatal, AfterLarge(s, data, rest))
  {
    if |data| < BLOCK {
      assert s.input == rest;
    } else {
      LargeParts(s.input, data, rest);
      assert Step(ok, fatal, s) == StepLarge(s.(input := s.input[1..])) == Next(AfterLarge(s, data, rest));
    }
  }

  lemma Regroup(a: seq<byte>, b: seq<byte>, c: seq<byte>, d: seq<byte>)
    ensures a + b + c + d == a + (b + (c + d))
  {
  }

  /** Where the parts of a tag, a length and its data lie. */
  lemma Parts(input: seq<byte>, tag: byte, length: seq<byte>, tail: seq<byte>, rest: seq<byte>)
    requires input == [tag] + length + tail + rest
    ensures input != [] && input[0] == tag
    ensures var u := input[1..];
      && |u| == |length| + |tail| + |rest| && u[..|length|] == length
      && u[|length|..|length| + |tail|] == tail && u[|length| + |tail|..] == rest
  {
    var u := input[1..];
    assert u == length + (tail + rest);
    assert u[..|length|] == length && u[|length|..] == tail + rest;
    assert u[|length|..|length| + |tail|] == u[|length|..][..|tail|] == tail;
    assert u[|length| + |tail|..] == u[|length|..][|tail|..] == rest;
  }

  lemma ShortParts(u: seq<byte>, n: nat)
    requires |u| >= 2 && u[..2] == Short(n) && n < BLOCK
    ensures ShortAt(u) == n
  {
    assert u[0] == u[..2][0] && u[1] == u[..2][1];
  }

  /** The state after a value has been bound. */
  function AfterBind(s: State, rest: seq<byte>, cell: Cell): State {
    s.(input := rest, buffer := NoBuffer, db := RunBind(s.db, s.stmt, s.bindIdx + 1, cell),
    bindIdx := if s.stmt then s.bindIdx + 1 else s.bindIdx)
  }

  function DataCell(tag: byte, data: seq<byte>): Cell {
    if tag == TAG_BIND_TEXT then CText(data) else CBlob(data)
  }

  lemma TailParts(input: seq<byte>, tag: byte, tail: seq<byte>, rest: seq<byte>)
    requires |tail| < BLOCK && tag < 255 && input == EncodeTail(tag, tail) + rest
    ensures input != []
    ensures var u := input[1..]; var n := |tail|;
      if n < 256 && (tag == TAG_BIND_TEXT || tag == TAG_BIND_BLOB) then
        input[0] == tag + 1 && |u| >= 1 + n && u[0] == n && u[1..1 + n] == tail && u[1 + n..] == rest
      else
        input[0] == tag && |u| >= 2 + n && ShortAt(u) == n && u[2..2 + n] == tail && u[2 + n..] == rest
  {
    if |tail| < 256 && (tag == TAG_BIND_TEXT || tag == TAG_BIND_BLOB) {
      Parts(input, tag + 1, [|tail|], tail, rest);
      assert input[1..][0] == input[1..][..1][0];
    } else {
      Parts(input, tag, Short(|tail|), tail, rest);
      ShortParts(input[1..], |tail|);
    }
  }

  lemma LandedAfterLarge(s: State, data: Data, rest: seq<byte>, tail: seq<byte>)
    ensures AfterLarge(s, data, rest).buffer.Landed(tail) == tail
  {
  }

  /** The length and the last part of a text or blob lie before the reader. */
  ghost predicate AtTail(t: State, tag: byte, tail: seq<byte>, rest: seq<byte>)
    requires tag < 255
  {
    && t.rows && t.input != [] && t.buffer.Landed(tail) == tail
    && var u := t.input[1..]; var n := |tail|;
    if n < 256 then
      t.input[0] == tag + 1 && |u| >= 1 + n && u[0] == n && u[1..1 + n] == tail && u[1 + n..] == rest
    else
      t.input[0] == tag && |u| >= 2 + n && ShortAt(u) == n && u[2..2 + n] == tail && u[2 + n..] == rest
  }

  lemma ToTail(ok: Oracle, fatal: bool, s: State, tag: byte, data: Data, rest: seq<byte>) returns (t: State)
    requires s.rows && s.buffer.NoBuffer? && (tag == TAG_BIND_TEXT || tag == TAG_BIND_BLOB)
    requires s.input == EncodeData(tag, data) + rest
    ensures Run(ok, fatal, s) == Run(ok, fatal, t)
    ensures AtTail(t, tag, Kept(data), rest)
    ensures t.db == s.db && t.stmt == s.stmt && t.bindIdx == s.bindIdx
  {
    DataSplit(tag, data, rest);
    var more := EncodeTail(tag, Kept(data)) + rest;
    LargeStep(ok, fatal, s, data, more);
    TailParts(more, tag, Kept(data), rest);
    LandedAfterLarge(s, data, more, Kept(data));
    t := AfterLarge(s, data, more);
  }

  lemma TailStep(ok: Oracle, fatal: bool, s: State, tag: byte, tail: seq<byte>, rest: seq<byte>)
    requires tag == TAG_BIND_TEXT || tag == TAG_BIND_BLOB
    requires AtTail(s, tag, tail, rest)
    ensures Step(ok, fatal, s) == Next(AfterBind(s, rest, DataCell(tag, tail)))
  {
    var w := if |tail| < 256 then 1 else 2;
    assert Step(ok, fatal, s) == StepData(s.(input := s.input[1..]), w, tag == TAG_BIND_TEXT);
  }

  lemma DataSplit(tag: byte, data: Data, rest: seq<byte>)
    requires tag < 255
    ensures EncodeData(tag, data) + rest == EncodeLarge(data) + (EncodeTail(tag, Kept(data)) + rest)
  {
  }

  lemma DataStep(ok: Oracle, fatal: bool, s: State, tag: byte, data: Data, rest: seq<byte>)
    requires s.rows && s.buffer.NoBuffer? && (tag == TAG_BIND_TEXT || tag == TAG_BIND_BLOB)
    requires s.input == EncodeData(tag, data) + rest
    ensures Run(ok, fatal, s) == Run(ok, fatal, AfterBind(s, rest, DataCell(tag, Kept(data))))
  {
    hide Step, AtTail, EncodeData, DataCell;
    var t := ToTail(ok, fatal, s, tag, data, rest);
    TailStep(ok, fatal, t, tag, Kept(data), rest);
    assert AfterBind(t, rest, DataCell(tag, Kept(data))) == AfterBind(s, rest, DataCell(tag, Kept(data)));
  }

  lemma VarintStep(ok: Oracle, fatal: bool, s: State, i: int64, rest: seq<byte>)
    requires s.rows && s.buffer.NoBuffer? && s.input == EncodeVarint(i) + rest
    ensures Step(ok, fatal, s) == Next(AfterBind(s, rest, CInteger(i)))
    ensures Run(ok, fatal, s) == Run(ok, fatal, AfterBind(s, rest, CInteger(i)))
  {
    var u := s.input[1..];
    assert u == Groups(Magnitude(i)) + rest;
    GroupsRoundTrip(Magnitude(i), rest);
    SignedRoundTrip(i);
    assert u[|Groups(Magnitude(i))|..] == rest;
    assert Step(ok, fatal, s) == StepVarint(s.(input := u), i < 0);
  }

  lemma FloatStep(ok: Oracle, fatal: bool, s: State, bits: Double, rest: seq<byte>)
    requires s.rows && s.buffer.NoBuffer? && s.input == [TAG_BIND_FLOAT] + bits + rest
    ensures Step(ok, fatal, s) == Next(AfterBind(s, rest, CFloat(bits)))
  {
    assert s.input[1..] == bits + rest;
    assert s.input[1..][..8] == bits && s.input[1..][8..] == rest;
  }

  lemma ValueStep(ok: Oracle, fatal: bool, s: State, v: Value, rest: seq<byte>)
    requires s.rows && s.buffer.NoBuffer? && s.input == EncodeValue(v) + rest
    ensures Run(ok, fatal, s) == Run(ok, fatal, AfterBind(s, rest, CellOf(KeptValue(v))))
  {
    match v {
      case Null =>
        assert s.input[1..][0..] == rest;
        assert Step(ok, fatal, s) == Next(AfterBind(s, rest, CNull));
      case Integer(i) => VarintStep(ok, fatal, s, i, rest);
      case Float(bits) => FloatStep(ok, fatal, s, bits, rest);
      case Text(text) => DataStep(ok, fatal, s, TAG_BIND_TEXT, text, rest);
      case Blob(blob) => DataStep(ok, fatal, s, TAG_BIND_BLOB, blob, rest);
    }
  }

  /** The text of a statement, whole or only its tail, lies before the reader. */
  ghost predicate AtSql(t: State, tag: byte, sql: seq<byte>, rest: seq<byte>) {
    && !t.rows && t.input != [] && t.input[0] == tag && t.buffer.Landed(sql) == sql
    && var u := t.input[1..];
    |u| >= 2 + |sql| && ShortAt(u) == |sql| && u[2..2 + |sql|] == sql && u[2 + |sql|..] == rest
  }

  lemma SqlStep(ok: Oracle, fatal: bool, s: State, tag: byte, data: Data, rest: seq<byte>) returns (t: State)
    requires !s.rows && s.buffer.NoBuffer? && (tag == TAG_SQL_ONESHOT || tag == TAG_SQL_REPEATED)
    requires s.input == EncodeData(tag, data) + rest
    ensures Run(ok, fatal, s) == Run(ok, fatal, t)
    ensures AtSql(t, tag, Kept(data), rest)
    ensures t.db == s.db && t.stmt == s.stmt && t.bindIdx == s.bindIdx
  {
    DataSplit(tag, data, rest);
    var more := EncodeTail(tag, Kept(data)) + rest;
    LargeStep(ok, fatal, s, data, more);
    TailParts(more, tag, Kept(data), rest);
    LandedAfterLarge(s, data, more, Kept(data));
    t := AfterLarge(s, data, more);
  }

  // ---- rows, items, dumps ----

  /** Reading values k, k + 1, ... of a row binds the kept values at k + 1, k + 2, ... */
  lemma {:induction false} ValuesRun(ok: Oracle, fatal: bool, s: State, row: seq<Value>, k: nat, rest: seq<byte>)
    requires k <= |row|
    requires s.rows && s.buffer.NoBuffer? && s.bindIdx == (if s.stmt then k else 0)
    requires s.input == EncodeValues(row[k..]) + rest
    ensures Run(ok, fatal, s) ==
            Run(ok, fatal, s.(input := rest, db := BindAll(s.db, s.stmt, KeptRow(row), k),
                                                bindIdx := if s.stmt then |row| else 0))
    decreases |row| - k
  {
    if k == |row| {
      assert s.input == rest;
    } else {
      var more := EncodeValues(row[k + 1..]) + rest;
      assert row[k..][1..] == row[k + 1..];
      assert s.input == EncodeValue(row[k]) + more;
      ValueStep(ok, fatal, s, row[k], more);
      ValuesRun(ok, fatal, AfterBind(s, more, CellOf(KeptValue(row[k]))), row, k + 1, rest);
    }
  }

  lemma EndRowStep(ok: Oracle, fatal: bool, s: State, rest: seq<byte>)
    requires s.rows && s.input == [TAG_END_ROW] + rest
    ensures Step(ok, fatal, s) == Continue(s.(input := rest, bindIdx := 0), RunRow(ok, fatal, s.db, s.stmt))
  {
    assert s.input[1..] == rest;
  }

  lemma EndSqlStep(ok: Oracle, fatal: bool, s: State, rest: seq<byte>)
    requires s.rows && s.input == [TAG_END_SQL] + rest
    ensures Step(ok, fatal, s) == Continue(s.(input := rest, rows := false), RunFinalize(ok, s.db, s.stmt))
  {
    assert s.input[1..] == rest;
  }

  lemma OneshotStep(ok: Oracle, fatal: bool, s: State, sql: Data, rest: seq<byte>)
    requires !s.rows && s.buffer.NoBuffer? && s.input == EncodeData(TAG_SQL_ONESHOT, sql) + rest
    ensures Leads(ok, fatal, s, RunExec(ok, fatal, s.db, Kept(sql)), s.(input := rest))
  {
    hide Step, AtSql, EncodeData;
    var t := SqlStep(ok, fatal, s, TAG_SQL_ONESHOT, sql, rest);
    OneshotAt(ok, fatal, t, Kept(sql), rest);
    assert t.(input := rest, buffer := NoBuffer) == s.(input := rest) by { SqlOutside(t, TAG_SQL_ONESHOT, Kept(sql), rest); }
  }

  lemma SqlOutside(t: State, tag: byte, sql: seq<byte>, rest: seq<byte>)
    requires AtSql(t, tag, sql, rest)
    ensures !t.rows
  {
  }

  /** In front of a one-shot's text the reader runs it. */
  lemma OneshotAt(ok: Oracle, fatal: bool, t: State, sql: seq<byte>, rest: seq<byte>)
    requires AtSql(t, TAG_SQL_ONESHOT, sql, rest)
    ensures Step(ok, fatal, t) == Continue(t.(input := rest, buffer := NoBuffer), RunExec(ok, fatal, t.db, sql))
  {
    assert Step(ok, fatal, t) == StepOneshot(ok, fatal, t.(input := t.input[1..]));
  }

  lemma RepeatedStep(ok: Oracle, fatal: bool, s: State, sql: Data, rest: seq<byte>)
    requires !s.rows && s.buffer.NoBuffer? && s.input == EncodeData(TAG_SQL_REPEATED, sql) + rest
    ensures var (p, stmt) := RunPrepare(ok, fatal, s.db, Kept(sql));
            Leads(ok, fatal, s, p, State(rest, NoBuffer, s.db, true, stmt, 0))
  {
    var t := SqlStep(ok, fatal, s, TAG_SQL_REPEATED, sql, rest);
    assert Step(ok, fatal, t) == StepRepeated(ok, fatal, t.(input := t.input[1..]));
  }

  lemma {:induction false} RowsRun(ok: Oracle, fatal: bool, s: State, rows: seq<seq<Value>>, rest: seq<byte>)
    requires s.rows && s.buffer.NoBuffer? && s.bindIdx == 0
    requires s.input == EncodeRows(rows) + rest
    ensures Leads(ok, fatal, s, RunRows(ok, fatal, s.db, s.stmt, KeptRows(rows)), s.(input := rest))
    decreases rows
  {
    if rows == [] {
      assert s.input == rest;
    } else {
      var row := rows[0];
      var more := EncodeRows(rows[1..]) + rest;
      Regroup(EncodeValues(row), [TAG_END_ROW], EncodeRows(rows[1..]), rest);
      assert row[0..] == row;
      ValuesRun(ok, fatal, s, row, 0, [TAG_END_ROW] + more);
      var d := BindAll(s.db, s.stmt, KeptRow(row), 0);
      EndRowStep(ok, fatal, s.(input := [TAG_END_ROW] + more, db := d, bindIdx := if s.stmt then |row| else 0), more);
      assert KeptRows(rows)[1..] == KeptRows(rows[1..]);
      match RunRow(ok, fatal, d, s.stmt) {
        case Stop(_) =>
        case Go(e) => RowsRun(ok, fatal, s.(input := more, db := e), rows[1..], rest);
      }
    }
  }

  lemma ItemRun(ok: Oracle, fatal: bool, s: State, item: Item, rest: seq<byte>) returns (t: State)
    requires !s.rows && s.buffer.NoBuffer? && s.input == EncodeItem(item) + rest
    ensures !t.rows && t.buffer.NoBuffer? && t.input == rest
    ensures Leads(ok, fatal, s, RunItem(ok, fatal, s.db, KeptItem(item)), t)
  {
    t := s.(input := rest);
    match item {
      case OneShot(sql) => OneshotStep(ok, fatal, s, sql, rest);
      case Repeated(sql, rows) =>
        var more := EncodeRows(rows) + ([TAG_END_SQL] + rest);
        Regroup(EncodeData(TAG_SQL_REPEATED, sql), EncodeRows(rows), [TAG_END_SQL], rest);
        RepeatedStep(ok, fatal, s, sql, more);
        var (p, stmt) := RunPrepare(ok, fatal, s.db, Kept(sql));
        if p.Go? {
          RowsRun(ok, fatal, State(more, NoBuffer, p.db, true, stmt, 0), rows, [TAG_END_SQL] + rest);
          var r := RunRows(ok, fatal, p.db, stmt, KeptRows(rows));
          if r.Go? {
            var u := State([TAG_END_SQL] + rest, NoBuffer, r.db, true, stmt, 0);
            EndSqlStep(ok, fatal, u, rest);
            t := u.(input := rest, rows := false);
          }
        }
    }
  }

  /**
   What a recovery does with any dump at all: it runs the items with every datum
   of 65536 bytes or more cut down to the part after its whole blocks.
   */
  lemma {:induction false} DumpRun(ok: Oracle, fatal: bool, s: State, items: seq<Item>)
    requires !s.rows && s.buffer.NoBuffer? && s.input == Encode(items)
    ensures Run(ok, fatal, s) == RunItems(ok, fatal, s.db, KeptItems(items))
    decreases items
  {
    if items == [] {
      assert KeptItems(items) == [];
    } else {
      KeptTail(items);
      var t := ItemRun(ok, fatal, s, items[0], Encode(items[1..]));
      var r := RunItem(ok, fatal, s.db, KeptItem(items[0]));
      if r.Go? {
        DumpRun(ok, fatal, t.(db := r.db), items[1..]);
      }
    }
  }

  lemma KeptTail(items: seq<Item>)
    requires items != []
    ensures KeptItems(items) != [] && KeptItems(items)[0] == KeptItem(items[0])
    ensures KeptItems(items)[1..] == KeptItems(items[1..])
  {
  }
}
