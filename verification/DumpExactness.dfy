/** For which dumps a recovery executes exactly what was dumped. */
module DumpExactness {
  import opened Bytes
  import opened DumpFormat
  import opened DumpReader
  import opened DumpRoundTrip

  predicate SmallValue(v: Value) {
    (v.Text? ==> |v.text| < BLOCK) && (v.Blob? ==> |v.blob| < BLOCK)
  }

  predicate SmallRow(row: seq<Value>) { forall i :: 0 <= i < |row| ==> SmallValue(row[i]) }

  predicate SmallRows(rows: seq<seq<Value>>) { forall i :: 0 <= i < |rows| ==> SmallRow(rows[i]) }

  /** Every text of a statement and every text or blob is below 65536 bytes. */
  predicate SmallItem(item: Item) {
    |item.sql| < BLOCK && (item.Repeated? ==> SmallRows(item.rows))
  }

  predicate SmallItems(items: seq<Item>) { forall i :: 0 <= i < |items| ==> SmallItem(items[i]) }

  lemma KeptSmallItem(item: Item)
    requires SmallItem(item)
    ensures KeptItem(item) == item
  {
    if item.Repeated? {
      forall i | 0 <= i < |item.rows|
        ensures KeptRow(item.rows[i]) == item.rows[i]
      {
      }
      assert KeptRows(item.rows) == item.rows;
    }
  }

  /**
   The round trip: with any behaviour of SQLite, recovering a dump makes the calls
   that running its items directly would make, with the same counts and result.
   */
  lemma RoundTrip(ok: Oracle, fatal: bool, db: Db, items: seq<Item>)
    requires SmallItems(items)
    ensures Run(ok, fatal, Start(Encode(items), db)) == RunItems(ok, fatal, db, items)
  {
    DumpRun(ok, fatal, Start(Encode(items), db), items);
    forall i | 0 <= i < |items|
      ensures KeptItem(items[i]) == items[i]
    {
      KeptSmallItem(items[i]);
    }
    assert KeptItems(items) == items;
  }

  // ---- the size limit is exact ----

  const ALWAYS: Oracle := _ => true

  /** Two recoveries that have made equally many calls and successes. */
  predicate Pair(a: Db, b: Db) { |a.trace| == |b.trace| && a.succ == b.succ }

  /** Two recoveries step together, and agree later only if they agreed before and `small` holds. */
  ghost predicate Together(a: Db, b: Db, a2: Db, b2: Db, small: bool) {
    && Pair(a2, b2)
    && a.trace <= a2.trace && b.trace <= b2.trace
    && (a2.trace == b2.trace ==> a.trace == b.trace && small)
  }

  lemma Compose(a: Db, b: Db, a2: Db, b2: Db, a3: Db, b3: Db, p: bool, q: bool)
    requires Pair(a, b) && Together(a, b, a2, b2, p) && Together(a2, b2, a3, b3, q)
    ensures Together(a, b, a3, b3, p && q)
  {
  }

  lemma OneCall(a: Db, b: Db, x: Event, y: Event, small: bool)
    requires Pair(a, b) && (x == y ==> small)
    ensures Together(a, b, a.(trace := a.trace + [x]), b.(trace := b.trace + [y]), small)
  {
    var s, t := a.trace + [x], b.trace + [y];
    if s == t {
      assert a.trace == s[..|a.trace|] == t[..|b.trace|] == b.trace;
      assert x == s[|a.trace|] == t[|b.trace|] == y;
    }
  }

  lemma {:induction false} BindTogether(a: Db, b: Db, row: seq<Value>, k: nat)
    requires Pair(a, b) && k <= |row|
    ensures Together(a, b, BindAll(a, true, KeptRow(row), k), BindAll(b, true, row, k), SmallRow(row[k..]))
    decreases |row| - k
  {
    if k < |row| {
      var a2 := RunBind(a, true, k + 1, CellOf(KeptValue(row[k])));
      var b2 := RunBind(b, true, k + 1, CellOf(row[k]));
      OneCall(a, b, Bind(k + 1, CellOf(KeptValue(row[k]))), Bind(k + 1, CellOf(row[k])), SmallValue(row[k]));
      BindTogether(a2, b2, row, k + 1);
      var p := SmallValue(row[k]) && SmallRow(row[k + 1..]);
      Compose(a, b, a2, b2, BindAll(a, true, KeptRow(row), k), BindAll(b, true, row, k),
              SmallValue(row[k]), SmallRow(row[k + 1..]));
      assert row[k..] == [row[k]] + row[k + 1..];
      assert p ==> SmallRow(row[k..]);
    }
  }

  lemma RowTogether(a: Db, b: Db, fatal: bool)
    requires Pair(a, b)
    ensures var x := RunRow(ALWAYS, fatal, a, true); var y := RunRow(ALWAYS, fatal, b, true);
      x.Go? && y.Go? && Together(a, b, x.db, y.db, true)
  {
    OneCall(a, b, StepRow, StepRow, true);
    var a2, b2 := a.(trace := a.trace + [StepRow], succ := a.succ + 1), b.(trace := b.trace + [StepRow], succ := b.succ + 1);
    if a2.succ % 256 == 0 {
      OneCall(a2, b2, Commit, Commit, true);
    }
  }

  lemma {:induction false} RowsTogether(a: Db, b: Db, fatal: bool, rows: seq<seq<Value>>)
    requires Pair(a, b)
    ensures var x := RunRows(ALWAYS, fatal, a, true, KeptRows(rows)); var y := RunRows(ALWAYS, fatal, b, true, rows);
      x.Go? && y.Go? && Together(a, b, x.db, y.db, SmallRows(rows))
    decreases rows
  {
    if rows != [] {
      var a2, b2 := BindAll(a, true, KeptRow(rows[0]), 0), BindAll(b, true, rows[0], 0);
      BindTogether(a, b, rows[0], 0);
      assert rows[0][0..] == rows[0];
      RowTogether(a2, b2, fatal);
      var a3, b3 := RunRow(ALWAYS, fatal, a2, true).db, RunRow(ALWAYS, fatal, b2, true).db;
      Compose(a, b, a2, b2, a3, b3, SmallRow(rows[0]), true);
      RowsTogether(a3, b3, fatal, rows[1..]);
      assert KeptRows(rows)[1..] == KeptRows(rows[1..]) && KeptRows(rows)[0] == KeptRow(rows[0]);
      var a4 := RunRows(ALWAYS, fatal, a3, true, KeptRows(rows[1..])).db;
      var b4 := RunRows(ALWAYS, fatal, b3, true, rows[1..]).db;
      Compose(a, b, a3, b3, a4, b4, SmallRow(rows[0]), SmallRows(rows[1..]));
      assert SmallRow(rows[0]) && SmallRows(rows[1..]) ==> SmallRows(rows) by {
        assert rows == [rows[0]] + rows[1..];
      }
    }
  }

  lemma ItemTogether(a: Db, b: Db, fatal: bool, item: Item)
    requires Pair(a, b)
    ensures var x := RunItem(ALWAYS, fatal, a, KeptItem(item)); var y := RunItem(ALWAYS, fatal, b, item);
      x.Go? && y.Go? && Together(a, b, x.db, y.db, SmallItem(item))
  {
    match item {
      case OneShot(sql) => OneCall(a, b, Exec(Kept(sql)), Exec(sql), |sql| < BLOCK);
      case Repeated(sql, rows) =>
        OneCall(a, b, Prepare(Kept(sql)), Prepare(sql), |sql| < BLOCK);
        var a2 := a.(trace := a.trace + [Prepare(Kept(sql))]);
        var b2 := b.(trace := b.trace + [Prepare(sql)]);
        RowsTogether(a2, b2, fatal, rows);
        var a3 := RunRows(ALWAYS, fatal, a2, true, KeptRows(rows)).db;
        var b3 := RunRows(ALWAYS, fatal, b2, true, rows).db;
        Compose(a, b, a2, b2, a3, b3, |sql| < BLOCK, SmallRows(rows));
        OneCall(a3, b3, Finalize, Finalize, true);
        Compose(a, b, a3, b3, a3.(trace := a3.trace + [Finalize]), b3.(trace := b3.trace + [Finalize]),
                SmallItem(item), true);
    }
  }

  lemma {:induction false} ItemsTogether(a: Db, b: Db, fatal: bool, items: seq<Item>)
    requires Pair(a, b)
    ensures Together(a, b, RunItems(ALWAYS, fatal, a, KeptItems(items)).1, RunItems(ALWAYS, fatal, b, items).1,
                     SmallItems(items))
    decreases items
  {
    if items != [] {
      KeptTail(items);
      ItemTogether(a, b, fatal, items[0]);
      var a2 := RunItem(ALWAYS, fatal, a, KeptItem(items[0])).db;
      var b2 := RunItem(ALWAYS, fatal, b, items[0]).db;
      ItemsTogether(a2, b2, fatal, items[1..]);
      Compose(a, b, a2, b2, RunItems(ALWAYS, fatal, a2, KeptItems(items[1..])).1,
              RunItems(ALWAYS, fatal, b2, items[1..]).1, SmallItem(items[0]), SmallItems(items[1..]));
      assert SmallItem(items[0]) && SmallItems(items[1..]) ==> SmallItems(items) by {
        assert items == [items[0]] + items[1..];
      }
    }
  }

  /**
   When every SQL call succeeds, a recovery makes the intended calls if and only if
   no statement text, text or blob reaches 65536 bytes.
   */
  lemma RoundTripExactly(fatal: bool, items: seq<Item>)
    ensures Run(ALWAYS, fatal, Start(Encode(items), EMPTY)).1.trace == RunItems(ALWAYS, fatal, EMPTY, items).1.trace
            <==> SmallItems(items)
  {
    DumpRun(ALWAYS, fatal, Start(Encode(items), EMPTY), items);
    ItemsTogether(EMPTY, EMPTY, fatal, items);
    if SmallItems(items) {
      RoundTrip(ALWAYS, fatal, EMPTY, items);
    }
  }

  /** A concrete dump that is not recovered: one blob of 65536 bytes comes back empty. */
  lemma LargeBlobIsLost(zeros: seq<byte>, sql: seq<byte>)
    requires |zeros| == 65536 && |sql| < 65536
    ensures RunItems(ALWAYS, false, EMPTY, [Repeated(sql, [[Blob(zeros)]])]).1.trace
            == [Prepare(sql), Bind(1, CBlob(zeros)), StepRow, Finalize]
    ensures Run(ALWAYS, false, Start(Encode([Repeated(sql, [[Blob(zeros)]])]), EMPTY)).1.trace
            == [Prepare(sql), Bind(1, CBlob([])), StepRow, Finalize]
  {
    var dump := [Repeated(sql, [[Blob(zeros)]])];
    DumpRun(ALWAYS, false, Start(Encode(dump), EMPTY), dump);
    assert BlockSize(zeros) == 65536 && Kept(zeros) == [] && Kept(sql) == sql;
    var kept := [Repeated(sql, [[Blob([])]])];
    assert KeptRow([Blob(zeros)]) == [Blob([])];
    assert KeptRows([[Blob(zeros)]]) == [[Blob([])]];
    assert KeptItems(dump) == kept;
    OneRow(sql, Blob(zeros));
    OneRow(sql, Blob([]));
  }

  lemma SingleRow(ok: Oracle, fatal: bool, db: Db, stmt: bool, row: seq<Value>)
    ensures RunRows(ok, fatal, db, stmt, [row]) == RunRow(ok, fatal, BindAll(db, stmt, row, 0), stmt)
  {
    var rows := [row];
    assert rows[1..] == [];
    match RunRow(ok, fatal, BindAll(db, stmt, rows[0], 0), stmt) {
      case Stop(_) =>
      case Go(d) => assert RunRows(ok, fatal, d, stmt, rows[1..]) == Go(d);
    }
  }

  lemma SingleItem(ok: Oracle, fatal: bool, db: Db, item: Item)
    ensures var r := RunItem(ok, fatal, db, item);
      RunItems(ok, fatal, db, [item]) == (if r.Go? then OK else FAILED, r.db)
  {
    assert [item][1..] == [];
  }

  lemma OneCell(db: Db, fatal: bool, value: Value)
    requires db.succ == 0
    ensures var r := RunRows(ALWAYS, fatal, db, true, [[value]]);
      r.Go? && r.db.trace == db.trace + [Bind(1, CellOf(value)), StepRow]
  {
    var row := [value];
    var e := RunBind(db, true, 1, CellOf(value));
    assert BindAll(e, true, row, 1) == e;
    assert BindAll(db, true, row, 0) == e;
    SingleRow(ALWAYS, fatal, db, true, row);
    assert e.trace + [StepRow] == db.trace + [Bind(1, CellOf(value)), StepRow];
  }

  lemma OneRow(sql: Data, value: Value)
    ensures RunItems(ALWAYS, false, EMPTY, [Repeated(sql, [[value]])]).1.trace
            == [Prepare(sql), Bind(1, CellOf(value)), StepRow, Finalize]
  {
    var d := EMPTY.(trace := EMPTY.trace + [Prepare(sql)]);
    OneCell(d, false, value);
    SingleItem(ALWAYS, false, EMPTY, Repeated(sql, [[value]]));
  }
}
