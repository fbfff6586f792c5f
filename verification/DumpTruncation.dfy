/** Recovering a dump that ends too early. */
module DumpTruncation {
  import opened Bytes
  import opened DumpFormat
  import opened DumpReader
  import opened DumpRoundTrip
  import opened DumpExactness

  // ---- any stream of bytes ----

  function More(s: State, more: seq<byte>): State { s.(input := s.input + more) }

  lemma {:induction false} VarintExtend(s: seq<byte>, more: seq<byte>)
    requires VarintAt(s).Varint?
    ensures VarintAt(s + more) == VarintAt(s)
  {
    if s[0] >= 128 {
      assert (s + more)[1..] == s[1..] + more;
      VarintExtend(s[1..], more);
    }
  }

  /** Slices inside `s` are the same in `s + more`. */
  lemma Inside(s: seq<byte>, more: seq<byte>, i: nat, j: nat)
    requires i <= j <= |s|
    ensures (s + more)[i..j] == s[i..j] && (s + more)[j..] == s[j..] + more
  {
  }

  lemma TagExtend(s: State, more: seq<byte>)
    requires s.input != []
    ensures More(s, more).input[0] == s.input[0]
    ensures More(s, more).(input := More(s, more).input[1..]) == More(s.(input := s.input[1..]), more)
  {
    Inside(s.input, more, 1, 1);
  }

  /** A step that did not need the missing bytes is the same with them; one that did has done nothing. */
  ghost predicate Same(s: State, p: Progress, q: Progress, more: seq<byte>) {
    match p
    case Next(t) => q == Next(More(t, more))
    case End(ret, db) => ret == FAILED && (q == p || db == s.db)
  }

  lemma LargeExtend(s: State, more: seq<byte>)
    ensures Same(s, StepLarge(s), StepLarge(More(s, more)), more)
  {
    if StepLarge(s).Next? {
      var size := ShortAt(s.input) * BLOCK;
      assert ShortAt(s.input + more) == ShortAt(s.input);
      Inside(s.input, more, 2, 2 + size);
    }
  }

  lemma OneshotExtend(ok: Oracle, fatal: bool, s: State, more: seq<byte>)
    ensures Same(s, StepOneshot(ok, fatal, s), StepOneshot(ok, fatal, More(s, more)), more)
  {
    if |s.input| >= 2 && |s.input| >= 2 + ShortAt(s.input) {
      assert ShortAt(s.input + more) == ShortAt(s.input);
      Inside(s.input, more, 2, 2 + ShortAt(s.input));
    }
  }

  lemma RepeatedExtend(ok: Oracle, fatal: bool, s: State, more: seq<byte>)
    ensures Same(s, StepRepeated(ok, fatal, s), StepRepeated(ok, fatal, More(s, more)), more)
  {
    if |s.input| >= 2 && |s.input| >= 2 + ShortAt(s.input) {
      assert ShortAt(s.input + more) == ShortAt(s.input);
      Inside(s.input, more, 2, 2 + ShortAt(s.input));
    }
  }

  lemma BoundExtend(s: State, size: nat, value: Cell, more: seq<byte>)
    requires size <= |s.input|
    ensures Same(s, Bound(s, size, value), Bound(More(s, more), size, value), more)
  {
    Inside(s.input, more, 0, size);
  }

  lemma VarintStepExtend(s: State, minus: bool, more: seq<byte>)
    ensures Same(s, StepVarint(s, minus), StepVarint(More(s, more), minus), more)
  {
    if VarintAt(s.input).Varint? {
      VarintExtend(s.input, more);
      var r := VarintAt(s.input);
      BoundExtend(s, r.size, CInteger(Signed(r.value, minus)), more);
    }
  }

  lemma DataExtend(s: State, w: nat, text: bool, more: seq<byte>)
    requires w == 1 || w == 2
    ensures Same(s, StepData(s, w, text), StepData(More(s, more), w, text), more)
  {
    hide StepData, RunBind;
    StepDataIs(s, w, text);
    StepDataIs(More(s, more), w, text);
    if |s.input| >= w {
      var n := if w == 1 then s.input[0] else ShortAt(s.input);
      assert n == if w == 1 then (s.input + more)[0] else ShortAt(s.input + more);
      if |s.input| >= w + n { Inside(s.input, more, w, w + n); }
    }
  }

  lemma FloatExtend(s: State, more: seq<byte>)
    requires |s.input| >= 8
    ensures Same(s, Bound(s, 8, CFloat(s.input[..8])), Bound(More(s, more), 8, CFloat(More(s, more).input[..8])), more)
  {
    Inside(s.input, more, 0, 8);
  }

  lemma StepExtend(ok: Oracle, fatal: bool, s: State, more: seq<byte>)
    requires s.input != []
    ensures Same(s, Step(ok, fatal, s), Step(ok, fatal, More(s, more)), more)
  {
    hide StepLarge, StepOneshot, StepRepeated, StepVarint, StepData, RunRow, RunFinalize, Bound;
    TagExtend(s, more);
    var tag := s.input[0];
    var t := s.(input := s.input[1..]);
    if tag == TAG_LARGE_DATA {
      LargeExtend(t, more);
    } else if !s.rows {
      OneshotExtend(ok, fatal, t, more);
      RepeatedExtend(ok, fatal, t, more);
    } else if tag == TAG_BIND_NULL {
      BoundExtend(t, 0, CNull, more);
    } else if tag == TAG_BIND_VARINT || tag == TAG_BIND_VARINT_MINUS {
      VarintStepExtend(t, tag == TAG_BIND_VARINT_MINUS, more);
    } else if tag == TAG_BIND_FLOAT {
      if |t.input| >= 8 { FloatExtend(t, more); }
    } else if tag == TAG_BIND_TEXT || tag == TAG_BIND_BLOB {
      DataExtend(t, 2, tag == TAG_BIND_TEXT, more);
    } else if tag == TAG_BIND_TEXT_SHORT || tag == TAG_BIND_BLOB_SHORT {
      DataExtend(t, 1, tag == TAG_BIND_TEXT_SHORT, more);
    }
  }

  lemma StepGrows(ok: Oracle, fatal: bool, s: State)
    ensures match Step(ok, fatal, s)
            case Next(t) => s.db.trace <= t.db.trace
            case End(_, db) => s.db.trace <= db.trace
  {
  }

  lemma {:induction false} RunGrows(ok: Oracle, fatal: bool, s: State)
    ensures s.db.trace <= Run(ok, fatal, s).1.trace
    decreases |s.input|
  {
    StepGrows(ok, fatal, s);
    match Step(ok, fatal, s) {
      case End(_, _) =>
      case Next(t) => RunGrows(ok, fatal, t);
    }
  }

  /**
   Whatever the bytes are and however SQLite behaves: cutting the stream short
   makes the recovery stop early and do nothing else.
   */
  lemma {:induction false} TruncatedTrace(ok: Oracle, fatal: bool, s: State, more: seq<byte>)
    ensures Run(ok, fatal, s).1.trace <= Run(ok, fatal, More(s, more)).1.trace
    decreases |s.input|
  {
    if s.input == [] {
      RunGrows(ok, fatal, More(s, more));
    } else {
      StepExtend(ok, fatal, s, more);
      match Step(ok, fatal, s) {
        case End(_, db) =>
          if db == s.db { RunGrows(ok, fatal, More(s, more)); }
        case Next(t) => TruncatedTrace(ok, fatal, t, more);
      }
    }
  }

  // ---- what has been executed ----

  /** A one-shot statement, or a row with the values bound at 1, 2, ... */
  datatype Done = Ran(sql: seq<byte>) | Row(sql: seq<byte>, values: seq<Cell>)

  datatype View = View(done: seq<Done>, sql: seq<byte>, bound: seq<Cell>, gap: bool)

  /** `gap` remembers a value bound at any other position than the next one. */
  function Look(v: View, e: Event): View {
    match e
    case Exec(sql) => v.(done := v.done + [Ran(sql)])
    case Prepare(sql) => v.(sql := sql, bound := [])
    case Bind(i, value) => v.(bound := v.bound + [value], gap := v.gap || i != |v.bound| + 1)
    case StepRow => v.(done := v.done + [Row(v.sql, v.bound)], bound := [])
    case Commit => v
    case Finalize => v
  }

  function Executed(trace: seq<Event>): View {
    if trace == [] then View([], [], [], false) else Look(Executed(trace[..|trace| - 1]), trace[|trace| - 1])
  }

  lemma ExecutedStep(trace: seq<Event>, e: Event)
    ensures Executed(trace + [e]) == Look(Executed(trace), e)
  {
    assert (trace + [e])[..|trace|] == trace;
  }

  lemma {:induction false} ExecutedGrows(a: seq<Event>, b: seq<Event>)
    requires a <= b
    ensures Executed(a).done <= Executed(b).done && (Executed(a).gap ==> Executed(b).gap)
    decreases |b|
  {
    if |a| < |b| {
      assert a <= b[..|b| - 1];
      ExecutedGrows(a, b[..|b| - 1]);
    } else {
      assert a == b;
    }
  }

  /** The one-shots and rows of a dump, one by one. */
  function DoneRows(sql: seq<byte>, rows: seq<seq<Value>>): seq<Done> {
    if rows == [] then [] else [Row(sql, Cells(rows[0]))] + DoneRows(sql, rows[1..])
  }

  function DoneItem(item: Item): seq<Done> {
    match item
    case OneShot(sql) => [Ran(sql)]
    case Repeated(sql, rows) => DoneRows(sql, rows)
  }

  function DoneItems(items: seq<Item>): seq<Done> {
    if items == [] then [] else DoneItem(items[0]) + DoneItems(items[1..])
  }

  function Cells(row: seq<Value>): seq<Cell> {
    seq(|row|, i requires 0 <= i < |row| => CellOf(row[i]))
  }

  lemma {:induction false} BindExecuted(db: Db, row: seq<Value>, k: nat)
    requires k <= |row| && Executed(db.trace).bound == Cells(row)[..k] && !Executed(db.trace).gap
    ensures var d := BindAll(db, true, row, k);
      && d.succ == db.succ && d.fail == db.fail
      && Executed(d.trace) == Executed(db.trace).(bound := Cells(row))
    decreases |row| - k
  {
    if k < |row| {
      ExecutedStep(db.trace, Bind(k + 1, CellOf(row[k])));
      assert Cells(row)[..k + 1] == Cells(row)[..k] + [CellOf(row[k])];
      BindExecuted(RunBind(db, true, k + 1, CellOf(row[k])), row, k + 1);
    } else {
      assert Cells(row)[..k] == Cells(row);
    }
  }

  lemma RowTrace(ok: Oracle, db: Db, fatal: bool)
    ensures var r := RunRow(ok, fatal, db, true); var t := db.trace + [StepRow];
      (r.db.trace == t || r.db.trace == t + [Commit]) && (ok == ALWAYS ==> r.Go?)
  {
  }

  lemma RowExecuted(ok: Oracle, db: Db, fatal: bool)
    ensures var r := RunRow(ok, fatal, db, true);
      Executed(r.db.trace) == Look(Executed(db.trace), StepRow) && (ok == ALWAYS ==> r.Go?)
  {
    hide RunRow;
    RowTrace(ok, db, fatal);
    var t := db.trace + [StepRow];
    ExecutedStep(db.trace, StepRow);
    ExecutedStep(t, Commit);
  }

  lemma {:induction false} NothingBound(db: Db, row: seq<Value>, k: nat)
    ensures BindAll(db, false, row, k) == db
    decreases |row| - k
  {
    if k < |row| { NothingBound(db, row, k + 1); }
  }

  /** Without a statement nothing is executed. */
  lemma {:induction false} RowsSkipped(ok: Oracle, db: Db, fatal: bool, rows: seq<seq<Value>>)
    ensures RunRows(ok, fatal, db, false, rows).db.trace == db.trace
    decreases rows
  {
    if rows != [] {
      NothingBound(db, rows[0], 0);
      RowsSkipped(ok, db.(fail := db.fail + 1), fatal, rows[1..]);
    }
  }

  /** The first k rows are executed, all of them unless a failure ends the recovery. */
  lemma {:induction false} RowsExecuted(ok: Oracle, db: Db, fatal: bool, rows: seq<seq<Value>>) returns (k: nat)
    requires Executed(db.trace).bound == [] && !Executed(db.trace).gap
    ensures var r := RunRows(ok, fatal, db, true, rows); var v := Executed(db.trace);
      && k <= |rows| && Executed(r.db.trace) == v.(done := v.done + DoneRows(v.sql, rows[..k]))
      && (ok == ALWAYS ==> r.Go? && k == |rows|)
    decreases rows
  {
    hide RunRow, Executed, BindAll;
    var v := Executed(db.trace);
    if rows != [] {
      assert Cells(rows[0])[..0] == [];
      BindExecuted(db, rows[0], 0);
      var d := BindAll(db, true, rows[0], 0);
      RowExecuted(ok, d, fatal);
      k := 0;
      var r := RunRow(ok, fatal, d, true);
      if r.Go? { k := RowsExecuted(ok, r.db, fatal, rows[1..]); }
      k := k + 1;
      assert rows[..k][0] == rows[0] && rows[..k][1..] == rows[1..][..k - 1];
      Bracket(v.done, [Row(v.sql, Cells(rows[0]))], DoneRows(v.sql, rows[1..][..k - 1]));
    } else {
      k := 0;
      assert v.done + [] == v.done;
    }
  }

  /** Some of the elements, in the same order. */
  ghost predicate Within(a: seq<Done>, b: seq<Done>)
    decreases |b|
  {
    a == [] || (b != [] && (Within(a, b[1..]) || (a[0] == b[0] && Within(a[1..], b[1..]))))
  }

  lemma {:induction false} WithinPrefix(a: seq<Done>, c: seq<Done>, b: seq<Done>)
    requires a <= c && Within(c, b)
    ensures Within(a, b)
    decreases |b|
  {
    if a != [] {
      if Within(c, b[1..]) { WithinPrefix(a, c, b[1..]); } else { WithinPrefix(a[1..], c[1..], b[1..]); }
    }
  }

  lemma {:induction false} WithinSelf(a: seq<Done>)
    ensures Within(a, a)
    decreases |a|
  {
    if a != [] { WithinSelf(a[1..]); }
  }

  lemma {:induction false} WithinAppend(a: seq<Done>, b: seq<Done>, c: seq<Done>, d: seq<Done>)
    requires Within(a, b) && Within(c, d)
    ensures Within(a + c, b + d)
    decreases |b|
  {
    if b == [] {
      assert a + c == c && b + d == d;
    } else {
      assert (b + d)[1..] == b[1..] + d && (b + d)[0] == b[0];
      if Within(a, b[1..]) {
        WithinAppend(a, b[1..], c, d);
      } else {
        WithinAppend(a[1..], b[1..], c, d);
        assert (a + c)[1..] == a[1..] + c && (a + c)[0] == a[0];
      }
    }
  }

  lemma {:induction false} DoneRowsPrefix(sql: seq<byte>, rows: seq<seq<Value>>, k: nat)
    requires k <= |rows|
    ensures DoneRows(sql, rows[..k]) <= DoneRows(sql, rows)
    decreases k
  {
    if k > 0 {
      assert rows[..k][1..] == rows[1..][..k - 1];
      DoneRowsPrefix(sql, rows[1..], k - 1);
    }
  }

  /** What a call has executed: some of the one-shots and rows, in order, or all if SQLite never fails. */
  ghost predicate Does(ok: Oracle, before: Db, after: Db, all: seq<Done>) {
    var v, w := Executed(before.trace), Executed(after.trace);
    && !w.gap && v.done <= w.done && Within(w.done[|v.done|..], all)
    && (ok == ALWAYS ==> w.done == v.done + all)
  }

  lemma RepeatedExecuted(ok: Oracle, db: Db, fatal: bool, sql: Data, rows: seq<seq<Value>>)
    requires !Executed(db.trace).gap
    ensures var r := RunItem(ok, fatal, db, Repeated(sql, rows));
      Does(ok, db, r.db, DoneRows(sql, rows)) && (ok == ALWAYS ==> r.Go?)
  {
    hide Executed, RunRows;
    ExecutedStep(db.trace, Prepare(sql));
    var v := Executed(db.trace);
    var (p, stmt) := RunPrepare(ok, fatal, db, sql);
    assert v.done[|v.done|..] == [];
    if p.Go? && stmt {
      var k := RowsExecuted(ok, p.db, fatal, rows);
      DoneRowsPrefix(sql, rows, k);
      WithinSelf(DoneRows(sql, rows));
      WithinPrefix(DoneRows(sql, rows[..k]), DoneRows(sql, rows), DoneRows(sql, rows));
      var r := RunRows(ok, fatal, p.db, true, rows);
      ExecutedStep(r.db.trace, Finalize);
      assert (v.done + DoneRows(sql, rows[..k]))[|v.done|..] == DoneRows(sql, rows[..k]);
      assert rows[..|rows|] == rows;
    } else if p.Go? {
      RowsSkipped(ok, p.db, fatal, rows);
    }
  }

  lemma ItemExecuted(ok: Oracle, db: Db, fatal: bool, item: Item)
    requires !Executed(db.trace).gap
    ensures var r := RunItem(ok, fatal, db, item); Does(ok, db, r.db, DoneItem(item)) && (ok == ALWAYS ==> r.Go?)
  {
    match item {
      case OneShot(sql) =>
        ExecutedStep(db.trace, Exec(sql));
        WithinSelf([Ran(sql)]);
      case Repeated(sql, rows) => RepeatedExecuted(ok, db, fatal, sql, rows);
    }
  }

  lemma DoesMore(ok: Oracle, a: Db, b: Db, c: Db, x: seq<Done>, y: seq<Done>)
    requires Does(ok, a, b, x) && Does(ok, b, c, y)
    ensures Does(ok, a, c, x + y)
  {
    hide Executed, Within;
    var u, v, w := Executed(a.trace).done, Executed(b.trace).done, Executed(c.trace).done;
    WithinAppend(v[|u|..], x, w[|v|..], y);
    assert w[|u|..] == v[|u|..] + w[|v|..];
    assert u + x + y == u + (x + y);
  }

  /** A recovery that ends early has done some of the first item and none of the others. */
  lemma DoesLess(ok: Oracle, a: Db, b: Db, x: seq<Done>, y: seq<Done>)
    requires Does(ok, a, b, x) && ok != ALWAYS
    ensures Does(ok, a, b, x + y)
  {
    hide Executed;
    var d := Executed(b.trace).done[|Executed(a.trace).done|..];
    WithinAppend(d, x, [], y);
    assert d + [] == d;
  }

  lemma {:induction false} ItemsExecuted(ok: Oracle, db: Db, fatal: bool, items: seq<Item>)
    requires !Executed(db.trace).gap
    ensures var r := RunItems(ok, fatal, db, items); Does(ok, db, r.1, DoneItems(items)) && (ok == ALWAYS ==> r.0 == OK)
    decreases items
  {
    hide Executed, RunItem;
    if items == [] {
      assert Executed(db.trace).done + [] == Executed(db.trace).done;
      assert Executed(db.trace).done[|Executed(db.trace).done|..] == [];
    } else {
      ItemExecuted(ok, db, fatal, items[0]);
      var r := RunItem(ok, fatal, db, items[0]);
      if r.Go? {
        ItemsExecuted(ok, r.db, fatal, items[1..]);
        DoesMore(ok, db, r.db, RunItems(ok, fatal, r.db, items[1..]).1, DoneItem(items[0]), DoneItems(items[1..]));
      } else {
        DoesLess(ok, db, r.db, DoneItem(items[0]), DoneItems(items[1..]));
      }
    }
  }

  /**
   From any byte prefix of a dump, however SQLite behaves, a recovery makes a prefix of the
   calls for the whole dump.  So it executes some of the dump's one-shots and rows, in order:
   never half a row, never a value at another position.  If SQLite does not fail they are a
   prefix of all.
   */
  lemma TruncatedDump(ok: Oracle, fatal: bool, items: seq<Item>, k: nat)
    requires SmallItems(items) && k <= |Encode(items)|
    ensures var trace := Run(ok, fatal, Start(Encode(items)[..k], EMPTY)).1.trace; var v := Executed(trace);
      && trace <= RunItems(ok, fatal, EMPTY, items).1.trace
      && !v.gap && Within(v.done, DoneItems(items)) && (ok == ALWAYS ==> v.done <= DoneItems(items))
  {
    hide Run, RunItems, Encode, SmallItems, DoneItems;
    var s := Start(Encode(items)[..k], EMPTY);
    TruncatedTrace(ok, fatal, s, Encode(items)[k..]);
    Whole(Encode(items), k);
    RoundTrip(ok, fatal, EMPTY, items);
    ItemsExecuted(ok, EMPTY, fatal, items);
    var cut, whole := Run(ok, fatal, s).1.trace, RunItems(ok, fatal, EMPTY, items).1.trace;
    ExecutedGrows(cut, whole);
    FromNothing(ok, RunItems(ok, fatal, EMPTY, items).1, DoneItems(items));
    WithinPrefix(Executed(cut).done, Executed(whole).done, DoneItems(items));
  }

  lemma FromNothing(ok: Oracle, after: Db, all: seq<Done>)
    requires Does(ok, EMPTY, after, all)
    ensures Within(Executed(after.trace).done, all) && (ok == ALWAYS ==> Executed(after.trace).done == all)
  {
    assert Executed(EMPTY.trace).done == [];
    assert Executed(after.trace).done[0..] == Executed(after.trace).done && [] + all == all;
  }

  lemma Whole(e: seq<byte>, k: nat)
    requires k <= |e|
    ensures e[..k] + e[k..] == e && More(Start(e[..k], EMPTY), e[k..]) == Start(e, EMPTY)
  {
    assert e[..k] + e[k..] == e;
  }

  // ---- when a cut goes unnoticed ----

  /** If all of `More(s, more)`'s next step lies beyond the cut, the step fails at the cut. */
  lemma StepShort(ok: Oracle, fatal: bool, s: State, more: seq<byte>)
    requires s.input != []
    requires var p := Step(ok, fatal, More(s, more)); p.Next? ==> |p.s.input| < |more|
    ensures Run(ok, fatal, s).0 == FAILED
  {
    StepExtend(ok, fatal, s, more);
  }

  lemma SplitOff(a: seq<byte>, m: seq<byte>, b: seq<byte>, c: seq<byte>)
    requires a + m == b + c && |a| >= |b|
    ensures a == b + a[|b|..] && a[|b|..] + m == c
  {
    assert (a + m)[..|b|] == a[..|b|] && (b + c)[..|b|] == b;
    assert (a + m)[|b|..] == a[|b|..] + m && (b + c)[|b|..] == c;
  }

  lemma CutLarge(ok: Oracle, fatal: bool, s: State, data: Data, more: seq<byte>, rest: seq<byte>)
    requires s.buffer.NoBuffer? && s.input != [] && s.input + more == EncodeLarge(data) + rest
    requires |s.input| < |EncodeLarge(data)|
    ensures Run(ok, fatal, s).0 == FAILED
  {
    LargeStep(ok, fatal, More(s, more), data, rest);
    assert |s.input| + |more| == |EncodeLarge(data)| + |rest|;
    StepShort(ok, fatal, s, more);
  }

  lemma CutTail(ok: Oracle, fatal: bool, s: State, tag: byte, tail: seq<byte>, more: seq<byte>)
    requires s.rows && s.input != [] && more != [] && |tail| < BLOCK
    requires s.buffer.Landed(tail) == tail
    requires tag == TAG_BIND_TEXT || tag == TAG_BIND_BLOB
    requires s.input + more == EncodeTail(tag, tail)
    ensures Run(ok, fatal, s).0 == FAILED
  {
    assert EncodeTail(tag, tail) + [] == EncodeTail(tag, tail);
    TailParts(s.input + more, tag, tail, []);
    TailStep(ok, fatal, More(s, more), tag, tail, []);
    StepShort(ok, fatal, s, more);
  }

  lemma CutData(ok: Oracle, fatal: bool, s: State, tag: byte, data: Data, more: seq<byte>)
    requires s.rows && s.buffer.NoBuffer? && more != []
    requires tag == TAG_BIND_TEXT || tag == TAG_BIND_BLOB
    requires s.input + more == EncodeData(tag, data)
    ensures Run(ok, fatal, s).0 == FAILED
  {
    var l := EncodeLarge(data);
    if s.input != [] {
      if |s.input| < |l| {
        CutLarge(ok, fatal, s, data, more, EncodeTail(tag, Kept(data)));
      } else {
        SplitOff(s.input, more, l, EncodeTail(tag, Kept(data)));
        var rest := s.input[|l|..];
        LargeStep(ok, fatal, s, data, rest);
        var t := AfterLarge(s, data, rest);
        LandedAfterLarge(s, data, rest, Kept(data));
        if rest != [] { CutTail(ok, fatal, t, tag, Kept(data), more); }
      }
    }
  }

  lemma CutValue(ok: Oracle, fatal: bool, s: State, v: Value, more: seq<byte>)
    requires s.rows && s.buffer.NoBuffer? && more != [] && s.input + more == EncodeValue(v)
    ensures Run(ok, fatal, s).0 == FAILED
  {
    if s.input != [] {
      assert EncodeValue(v) + [] == EncodeValue(v);
      assert |s.input| + |more| == |EncodeValue(v)|;
      match v {
        case Null =>
        case Integer(i) =>
          VarintStep(ok, fatal, More(s, more), i, []);
          StepShort(ok, fatal, s, more);
        case Float(bits) =>
          FloatStep(ok, fatal, More(s, more), bits, []);
          StepShort(ok, fatal, s, more);
        case Text(text) => CutData(ok, fatal, s, TAG_BIND_TEXT, text, more);
        case Blob(blob) => CutData(ok, fatal, s, TAG_BIND_BLOB, blob, more);
      }
    }
  }

  lemma {:induction false} CutRow(ok: Oracle, fatal: bool, s: State, row: seq<Value>, k: nat, more: seq<byte>)
    requires k <= |row| && s.rows && s.buffer.NoBuffer? && more != []
    requires s.input + more == EncodeValues(row[k..]) + [TAG_END_ROW]
    ensures Run(ok, fatal, s).0 == FAILED
    decreases |row| - k
  {
    if k == |row| {
      assert |s.input| + |more| == 1;
    } else {
      var e := EncodeValue(row[k]);
      assert row[k..][1..] == row[k + 1..];
      var rest := EncodeValues(row[k + 1..]) + [TAG_END_ROW];
      Bracket(e, EncodeValues(row[k + 1..]), [TAG_END_ROW]);
      if |s.input| < |e| {
        assert (s.input + more)[..|e|] == s.input + more[..|e| - |s.input|];
        assert (e + rest)[..|e|] == e;
        CutValue(ok, fatal, s, row[k], more[..|e| - |s.input|]);
      } else {
        SplitOff(s.input, more, e, rest);
        ValueStep(ok, fatal, s, row[k], s.input[|e|..]);
        CutRow(ok, fatal, AfterBind(s, s.input[|e|..], CellOf(KeptValue(row[k]))), row, k + 1, more);
      }
    }
  }

  lemma {:induction false} CutRows(ok: Oracle, fatal: bool, s: State, rows: seq<seq<Value>>, more: seq<byte>)
    requires s.rows && s.buffer.NoBuffer? && s.bindIdx == 0 && more != []
    requires s.input + more == EncodeRows(rows) + [TAG_END_SQL]
    ensures Run(ok, fatal, s).0 == FAILED
    decreases rows
  {
    if rows == [] {
      assert |s.input| + |more| == 1;
    } else {
      var row := rows[0];
      var e := EncodeValues(row) + [TAG_END_ROW];
      var rest := EncodeRows(rows[1..]) + [TAG_END_SQL];
      Bracket(e, EncodeRows(rows[1..]), [TAG_END_SQL]);
      assert row[0..] == row;
      if |s.input| < |e| {
        assert (s.input + more)[..|e|] == s.input + more[..|e| - |s.input|];
        assert (e + rest)[..|e|] == e;
        CutRow(ok, fatal, s, row, 0, more[..|e| - |s.input|]);
      } else {
        SplitOff(s.input, more, e, rest);
        var after := s.input[|e|..];
        Bracket(EncodeValues(row), [TAG_END_ROW], after);
        ValuesRun(ok, fatal, s, row, 0, [TAG_END_ROW] + after);
        var d := BindAll(s.db, s.stmt, KeptRow(row), 0);
        EndRowStep(ok, fatal, s.(input := [TAG_END_ROW] + after, db := d, bindIdx := if s.stmt then |row| else 0), after);
        match RunRow(ok, fatal, d, s.stmt) {
          case Stop(_) =>
          case Go(f) => CutRows(ok, fatal, s.(input := after, db := f), rows[1..], more);
        }
      }
    }
  }

  lemma CutSql(ok: Oracle, fatal: bool, s: State, tag: byte, sql: seq<byte>, more: seq<byte>, rest: seq<byte>)
    requires !s.rows && s.input != [] && |sql| < BLOCK && s.buffer.Landed(sql) == sql
    requires tag == TAG_SQL_ONESHOT || tag == TAG_SQL_REPEATED
    requires s.input + more == EncodeTail(tag, sql) + rest && |s.input| < |EncodeTail(tag, sql)|
    ensures Run(ok, fatal, s).0 == FAILED
  {
    TailParts(s.input + more, tag, sql, rest);
    assert |s.input| + |more| == |EncodeTail(tag, sql)| + |rest|;
    StepShort(ok, fatal, s, more);
  }

  /** The part of an item after the LARGE_DATA part of its SQL text. */
  function AfterSqlBlocks(item: Item): seq<byte> {
    match item
    case OneShot(sql) => EncodeTail(TAG_SQL_ONESHOT, Kept(sql))
    case Repeated(sql, rows) => EncodeTail(TAG_SQL_REPEATED, Kept(sql)) + (EncodeRows(rows) + [TAG_END_SQL])
  }

  lemma ItemSplit(item: Item)
    ensures EncodeItem(item) == EncodeLarge(item.sql) + AfterSqlBlocks(item)
  {
    match item {
      case OneShot(_) =>
      case Repeated(sql, rows) =>
        var l, t, r := EncodeLarge(sql), EncodeTail(TAG_SQL_REPEATED, Kept(sql)), EncodeRows(rows);
        Bracket(l + t, r, [TAG_END_SQL]);
        Bracket(l, t, r + [TAG_END_SQL]);
    }
  }

  lemma CutRepeated(ok: Oracle, fatal: bool, s: State, sql: seq<byte>, rows: seq<seq<Value>>, more: seq<byte>)
    requires !s.rows && s.input != [] && more != [] && |sql| < BLOCK && s.buffer.Landed(sql) == sql
    requires s.input + more == EncodeTail(TAG_SQL_REPEATED, sql) + (EncodeRows(rows) + [TAG_END_SQL])
    ensures Run(ok, fatal, s).0 == FAILED
  {
    var e := EncodeTail(TAG_SQL_REPEATED, sql);
    var rest := EncodeRows(rows) + [TAG_END_SQL];
    if |s.input| < |e| {
      CutSql(ok, fatal, s, TAG_SQL_REPEATED, sql, more, rest);
    } else {
      SplitOff(s.input, more, e, rest);
      var after := s.input[|e|..];
      TailParts(s.input, TAG_SQL_REPEATED, sql, after);
      assert Step(ok, fatal, s) == StepRepeated(ok, fatal, s.(input := s.input[1..]));
      var (p, stmt) := RunPrepare(ok, fatal, s.db, sql);
      if p.Go? {
        CutRows(ok, fatal, State(after, NoBuffer, p.db, true, stmt, 0), rows, more);
      }
    }
  }

  lemma CutOneshot(ok: Oracle, fatal: bool, s: State, sql: seq<byte>, more: seq<byte>)
    requires !s.rows && s.input != [] && more != [] && |sql| < BLOCK && s.buffer.Landed(sql) == sql
    requires s.input + more == EncodeTail(TAG_SQL_ONESHOT, sql)
    ensures Run(ok, fatal, s).0 == FAILED
  {
    var e := EncodeTail(TAG_SQL_ONESHOT, sql);
    assert e + [] == e && |s.input| + |more| == |e|;
    CutSql(ok, fatal, s, TAG_SQL_ONESHOT, sql, more, []);
  }

  lemma CutAfterBlocks(ok: Oracle, fatal: bool, s: State, item: Item, more: seq<byte>)
    requires !s.rows && s.input != [] && more != [] && s.buffer.Landed(Kept(item.sql)) == Kept(item.sql)
    requires s.input + more == AfterSqlBlocks(item)
    ensures Run(ok, fatal, s).0 == FAILED
  {
    match item {
      case OneShot(sql) => CutOneshot(ok, fatal, s, Kept(sql), more);
      case Repeated(sql, rows) => CutRepeated(ok, fatal, s, Kept(sql), rows, more);
    }
  }

  lemma CutItem(ok: Oracle, fatal: bool, s: State, item: Item, more: seq<byte>)
    requires !s.rows && s.buffer.NoBuffer? && s.input != [] && more != []
    requires s.input + more == EncodeItem(item)
    ensures Run(ok, fatal, s).0 == if s.input == EncodeLarge(item.sql) then OK else FAILED
  {
    var l := EncodeLarge(item.sql);
    ItemSplit(item);
    if |s.input| < |l| {
      CutLarge(ok, fatal, s, item.sql, more, AfterSqlBlocks(item));
    } else {
      SplitOff(s.input, more, l, AfterSqlBlocks(item));
      var rest := s.input[|l|..];
      LargeStep(ok, fatal, s, item.sql, rest);
      LandedAfterLarge(s, item.sql, rest, Kept(item.sql));
      if rest != [] {
        CutAfterBlocks(ok, fatal, AfterLarge(s, item.sql, rest), item, more);
      } else {
        assert s.input == l;
      }
    }
  }

  /**
   The cuts that a recovery takes for the end of the dump: between two items, or
   after the blocks of a statement text of 65536 bytes or more.
   */
  predicate UnnoticedCut(items: seq<Item>, p: seq<byte>)
    decreases items
  {
    p == [] ||
    (items != [] &&
     var e := EncodeItem(items[0]);
     if |p| < |e| then p == EncodeLarge(items[0].sql)
     else p[..|e|] == e && UnnoticedCut(items[1..], p[|e|..]))
  }

  /** For every dump, small or not, every cut, every behaviour of SQLite: OK only at such a cut. */
  lemma {:induction false} CutReported(ok: Oracle, fatal: bool, s: State, items: seq<Item>, more: seq<byte>)
    requires !s.rows && s.buffer.NoBuffer? && s.input + more == Encode(items)
    ensures Run(ok, fatal, s).0 == OK ==> UnnoticedCut(items, s.input)
    ensures ok == ALWAYS && UnnoticedCut(items, s.input) ==> Run(ok, fatal, s).0 == OK
    decreases items
  {
    if s.input != [] {
      assert items != [];
      var e := EncodeItem(items[0]);
      var rest := Encode(items[1..]);
      if |s.input| < |e| {
        assert (s.input + more)[..|e|] == s.input + more[..|e| - |s.input|];
        assert (e + rest)[..|e|] == e;
        CutItem(ok, fatal, s, items[0], more[..|e| - |s.input|]);
      } else {
        SplitOff(s.input, more, e, rest);
        var after := s.input[|e|..];
        var t := ItemRun(ok, fatal, s, items[0], after);
        var r := RunItem(ok, fatal, s.db, KeptItem(items[0]));
        if ok == ALWAYS { ItemTogether(s.db, s.db, fatal, items[0]); }
        if r.Go? { CutReported(ok, fatal, t.(db := r.db), items[1..], more); }
      }
    }
  }

  lemma EncodePrefix(items: seq<Item>, j: nat)
    requires 0 < j <= |items|
    ensures Encode(items[..j]) == EncodeItem(items[0]) + Encode(items[1..][..j - 1])
  {
    assert items[..j][1..] == items[1..][..j - 1];
  }

  lemma JoinAt(p: seq<byte>, e: seq<byte>)
    requires |e| <= |p| && p[..|e|] == e
    ensures p == e + p[|e|..]
  {
  }

  lemma {:induction false} UnnoticedBoundary(items: seq<Item>, p: seq<byte>) returns (j: nat)
    requires SmallItems(items) && UnnoticedCut(items, p)
    ensures j <= |items| && p == Encode(items[..j])
    decreases items
  {
    if p == [] {
      j := 0;
      assert items[..0] == [];
    } else {
      assert EncodeLarge(items[0].sql) == [];
      var e := EncodeItem(items[0]);
      assert |p| >= |e|;
      JoinAt(p, e);
      j := UnnoticedBoundary(items[1..], p[|e|..]);
      j := j + 1;
      EncodePrefix(items, j);
    }
  }

  /**
   With data below 65536 bytes, however SQLite behaves: a truncated dump is reported OK
   exactly if the cut falls between two items and running those before it is OK.
   */
  lemma TruncationNoticed(ok: Oracle, fatal: bool, items: seq<Item>, k: nat)
    requires SmallItems(items) && k <= |Encode(items)|
    ensures Run(ok, fatal, Start(Encode(items)[..k], EMPTY)).0 == OK
            <==> exists j :: 0 <= j <= |items| && Encode(items)[..k] == Encode(items[..j])
                             && RunItems(ok, fatal, EMPTY, items[..j]).0 == OK
  {
    hide Run, RunItems;
    var p, q := Encode(items)[..k], Encode(items)[k..];
    Whole(Encode(items), k);
    CutReported(ok, fatal, Start(p, EMPTY), items, q);
    if Run(ok, fatal, Start(p, EMPTY)).0 == OK {
      var j := UnnoticedBoundary(items, p);
      RoundTrip(ok, fatal, EMPTY, items[..j]);
    }
    forall j | 0 <= j <= |items| && p == Encode(items[..j])
      ensures Run(ok, fatal, Start(p, EMPTY)) == RunItems(ok, fatal, EMPTY, items[..j])
    {
      RoundTrip(ok, fatal, EMPTY, items[..j]);
    }
  }

  /** If SQLite does not fail, it is reported OK exactly between two items. */
  lemma CleanTruncationNoticed(fatal: bool, items: seq<Item>, k: nat)
    requires SmallItems(items) && k <= |Encode(items)|
    ensures Run(ALWAYS, fatal, Start(Encode(items)[..k], EMPTY)).0 == OK
            <==> exists j :: 0 <= j <= |items| && Encode(items)[..k] == Encode(items[..j])
  {
    hide Run, RunItems;
    TruncationNoticed(ALWAYS, fatal, items, k);
    forall j | 0 <= j <= |items| ensures RunItems(ALWAYS, fatal, EMPTY, items[..j]).0 == OK {
      ItemsExecuted(ALWAYS, EMPTY, fatal, items[..j]);
    }
  }
}
