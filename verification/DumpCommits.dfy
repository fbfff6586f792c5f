/** When a recovery commits, which failures end it, and what its counters say. */
module DumpCommits {
  import opened Bytes
  import opened DumpFormat
  import opened DumpReader
  import opened DumpRoundTrip

  // ---- read off the trace alone ----

  /** How many statements and rows have succeeded. */
  function Successes(ok: Oracle, trace: seq<Event>): nat {
    if trace == [] then 0
    else
      var last := trace[|trace| - 1];
      Successes(ok, trace[..|trace| - 1]) + if (last.Exec? || last.StepRow?) && ok(trace) then 1 else 0
  }

  /** How many commits have failed. */
  function LostCommits(ok: Oracle, trace: seq<Event>): nat {
    if trace == [] then 0
    else LostCommits(ok, trace[..|trace| - 1]) + if trace[|trace| - 1].Commit? && !ok(trace) then 1 else 0
  }

  /** The last call is a row that succeeded and makes the successes a multiple of 256. */
  ghost predicate BatchFull(ok: Oracle, trace: seq<Event>) {
    trace != [] && trace[|trace| - 1].StepRow? && ok(trace) && Successes(ok, trace) % 256 == 0
  }

  /** The commits are exactly the calls after such a row. */
  ghost predicate CommitsRight(ok: Oracle, trace: seq<Event>) {
    forall i :: 0 <= i < |trace| ==> (trace[i].Commit? <==> BatchFull(ok, trace[..i]))
  }

  /** The last call failed, and its failure ends the recovery. */
  ghost predicate Ending(ok: Oracle, fatal: bool, trace: seq<Event>) {
    trace != [] && !ok(trace) && (trace[|trace| - 1].Finalize? || (fatal && !trace[|trace| - 1].Bind?))
  }

  /** No call has ended the recovery. */
  ghost predicate Unended(ok: Oracle, fatal: bool, trace: seq<Event>) {
    forall i :: 0 <= i <= |trace| ==> !Ending(ok, fatal, trace[..i])
  }

  /** Whether a statement is prepared. */
  function Prepared(ok: Oracle, trace: seq<Event>): bool {
    if trace == [] then false
    else
      var last := trace[|trace| - 1];
      if last.Prepare? then ok(trace) else if last.Finalize? then false else Prepared(ok, trace[..|trace| - 1])
  }

  /** Values are bound, rows run and statements finalized only while a statement is prepared. */
  ghost predicate UsesPrepared(ok: Oracle, trace: seq<Event>) {
    forall i :: 0 <= i < |trace| && (trace[i].Bind? || trace[i].StepRow? || trace[i].Finalize?) ==> Prepared(ok, trace[..i])
  }

  // ---- call by call ----

  /** After a call that goes on. */
  ghost predicate Steady(ok: Oracle, fatal: bool, db: Db) {
    && CommitsRight(ok, db.trace) && !BatchFull(ok, db.trace) && UsesPrepared(ok, db.trace)
    && db.succ == Successes(ok, db.trace) && (fatal ==> db.fail == 0) && Unended(ok, fatal, db.trace)
  }

  /** After a call that ends the recovery. */
  ghost predicate Broken(ok: Oracle, fatal: bool, db: Db) {
    && CommitsRight(ok, db.trace) && !BatchFull(ok, db.trace) && UsesPrepared(ok, db.trace)
    && db.succ == Successes(ok, db.trace) && (fatal ==> db.fail == 0)
    && Ending(ok, fatal, db.trace) && Unended(ok, fatal, db.trace[..|db.trace| - 1])
  }

  ghost predicate Sound(ok: Oracle, fatal: bool, r: Result) {
    match r
    case Go(db) => Steady(ok, fatal, db)
    case Stop(db) => Broken(ok, fatal, db)
  }

  lemma {:induction false} Appended(ok: Oracle, fatal: bool, trace: seq<Event>, e: Event)
    ensures var t := trace + [e];
      && Successes(ok, t) == Successes(ok, trace) + (if (e.Exec? || e.StepRow?) && ok(t) then 1 else 0)
      && LostCommits(ok, t) == LostCommits(ok, trace) + (if e.Commit? && !ok(t) then 1 else 0)
      && Prepared(ok, t) == (if e.Prepare? then ok(t) else !e.Finalize? && Prepared(ok, trace))
      && (BatchFull(ok, t) <==> e.StepRow? && ok(t) && Successes(ok, t) % 256 == 0)
      && (Ending(ok, fatal, t) <==> !ok(t) && (e.Finalize? || (fatal && !e.Bind?)))
  {
    assert (trace + [e])[..|trace|] == trace;
  }

  lemma {:induction false} Prefixes(trace: seq<Event>, e: Event)
    ensures forall i :: 0 <= i <= |trace| ==> (trace + [e])[..i] == trace[..i]
    ensures (trace + [e])[..|trace| + 1] == trace + [e] && trace[..|trace|] == trace
  {
  }

  lemma {:induction false} CommitsAppended(ok: Oracle, trace: seq<Event>, e: Event)
    requires CommitsRight(ok, trace) && (e.Commit? <==> BatchFull(ok, trace))
    ensures CommitsRight(ok, trace + [e])
  {
    hide BatchFull;
    Prefixes(trace, e);
  }

  lemma {:induction false} UsesAppended(ok: Oracle, trace: seq<Event>, e: Event)
    requires UsesPrepared(ok, trace) && (e.Bind? || e.StepRow? || e.Finalize? ==> Prepared(ok, trace))
    ensures UsesPrepared(ok, trace + [e])
  {
    hide Prepared;
    Prefixes(trace, e);
  }

  lemma {:induction false} UnendedAppended(ok: Oracle, fatal: bool, trace: seq<Event>, e: Event)
    requires Unended(ok, fatal, trace)
    ensures !Ending(ok, fatal, trace + [e]) ==> Unended(ok, fatal, trace + [e])
    ensures (trace + [e])[..|trace + [e]| - 1] == trace
  {
    hide Ending;
    Prefixes(trace, e);
  }

  lemma {:induction false} AppendedRight(ok: Oracle, fatal: bool, trace: seq<Event>, e: Event)
    requires CommitsRight(ok, trace) && (e.Commit? <==> BatchFull(ok, trace)) && Unended(ok, fatal, trace)
    requires UsesPrepared(ok, trace) && (e.Bind? || e.StepRow? || e.Finalize? ==> Prepared(ok, trace))
    ensures CommitsRight(ok, trace + [e]) && UsesPrepared(ok, trace + [e])
    ensures !Ending(ok, fatal, trace + [e]) ==> Unended(ok, fatal, trace + [e])
    ensures (trace + [e])[..|trace + [e]| - 1] == trace
  {
    hide *;
    CommitsAppended(ok, trace, e);
    UsesAppended(ok, trace, e);
    UnendedAppended(ok, fatal, trace, e);
  }

  lemma ExecSound(ok: Oracle, fatal: bool, db: Db, sql: seq<byte>)
    requires Steady(ok, fatal, db)
    ensures Sound(ok, fatal, RunExec(ok, fatal, db, sql))
  {
    hide BatchFull, CommitsRight, UsesPrepared, Ending, Unended;
    Appended(ok, fatal, db.trace, Exec(sql));
    AppendedRight(ok, fatal, db.trace, Exec(sql));
  }

  lemma PrepareSound(ok: Oracle, fatal: bool, db: Db, sql: seq<byte>)
    requires Steady(ok, fatal, db)
    ensures var (r, stmt) := RunPrepare(ok, fatal, db, sql);
      Sound(ok, fatal, r) && (stmt ==> Prepared(ok, r.db.trace)) && (r.Go? && fatal ==> stmt)
  {
    hide BatchFull, CommitsRight, UsesPrepared, Ending, Unended;
    Appended(ok, fatal, db.trace, Prepare(sql));
    AppendedRight(ok, fatal, db.trace, Prepare(sql));
  }

  lemma BindSound(ok: Oracle, fatal: bool, db: Db, stmt: bool, index: nat, value: Cell)
    requires Steady(ok, fatal, db) && (stmt ==> Prepared(ok, db.trace))
    ensures var d := RunBind(db, stmt, index, value); Steady(ok, fatal, d) && (stmt ==> Prepared(ok, d.trace))
  {
    hide BatchFull, CommitsRight, UsesPrepared, Ending, Unended;
    Appended(ok, fatal, db.trace, Bind(index, value));
    if stmt { AppendedRight(ok, fatal, db.trace, Bind(index, value)); }
  }

  lemma RowSound(ok: Oracle, fatal: bool, db: Db, stmt: bool)
    requires Steady(ok, fatal, db) && (stmt ==> Prepared(ok, db.trace)) && (fatal ==> stmt)
    ensures var r := RunRow(ok, fatal, db, stmt); Sound(ok, fatal, r) && (stmt ==> Prepared(ok, r.db.trace))
  {
    hide BatchFull, CommitsRight, UsesPrepared, Ending, Unended;
    if stmt {
      var t := db.trace + [StepRow];
      Appended(ok, fatal, db.trace, StepRow);
      AppendedRight(ok, fatal, db.trace, StepRow);
      Appended(ok, fatal, t, Commit);
      if BatchFull(ok, t) { AppendedRight(ok, fatal, t, Commit); }
    }
  }

  lemma FinalizeSound(ok: Oracle, fatal: bool, db: Db, stmt: bool)
    requires Steady(ok, fatal, db) && (stmt ==> Prepared(ok, db.trace))
    ensures Sound(ok, fatal, RunFinalize(ok, db, stmt))
  {
    hide BatchFull, CommitsRight, UsesPrepared, Ending, Unended;
    Appended(ok, fatal, db.trace, Finalize);
    if stmt { AppendedRight(ok, fatal, db.trace, Finalize); }
  }

  // ---- whole recoveries of any bytes ----

  ghost predicate Holds(ok: Oracle, fatal: bool, s: State) {
    Steady(ok, fatal, s.db) && (s.rows && s.stmt ==> Prepared(ok, s.db.trace)) && (s.rows && fatal ==> s.stmt)
  }

  ghost predicate Kept(ok: Oracle, fatal: bool, p: Progress) {
    match p
    case Next(t) => Holds(ok, fatal, t)
    case End(ret, db) => Steady(ok, fatal, db) || (Broken(ok, fatal, db) && ret == FAILED)
  }

  lemma BoundSound(ok: Oracle, fatal: bool, s: State, size: nat, value: Cell)
    requires Holds(ok, fatal, s) && s.rows && size <= |s.input|
    ensures Kept(ok, fatal, Bound(s, size, value))
  {
    hide Steady, RunBind;
    BindSound(ok, fatal, s.db, s.stmt, s.bindIdx + 1, value);
  }

  lemma BindStepSound(ok: Oracle, fatal: bool, s: State, tag: byte)
    requires Holds(ok, fatal, s) && s.rows
    ensures Kept(ok, fatal, StepBind(s, tag))
  {
    hide Steady, Broken, Bound;
    forall t: State, size: nat, value: Cell | t.db == s.db && t.rows && t.stmt == s.stmt && size <= |t.input|
      ensures Kept(ok, fatal, Bound(t, size, value))
    {
      BoundSound(ok, fatal, t, size, value);
    }
  }

  lemma StepSound(ok: Oracle, fatal: bool, s: State)
    requires Holds(ok, fatal, s)
    ensures Kept(ok, fatal, Step(ok, fatal, s))
  {
    hide Steady, Broken, RunExec, RunPrepare, RunRow, RunFinalize, StepBind;
    if s.input != [] {
      var tag := s.input[0];
      var t := s.(input := s.input[1..]);
      if tag == TAG_LARGE_DATA {
      } else if !s.rows {
        if tag == TAG_SQL_ONESHOT && StepOneshot(ok, fatal, t) != End(FAILED, t.db) {
          ExecSound(ok, fatal, t.db, t.buffer.Landed(t.input[2..2 + ShortAt(t.input)]));
        } else if tag == TAG_SQL_REPEATED && StepRepeated(ok, fatal, t) != End(FAILED, t.db) {
          PrepareSound(ok, fatal, t.db, t.buffer.Landed(t.input[2..2 + ShortAt(t.input)]));
        }
      } else if tag == TAG_END_ROW {
        RowSound(ok, fatal, t.db, t.stmt);
      } else if tag == TAG_END_SQL {
        FinalizeSound(ok, fatal, t.db, t.stmt);
      } else {
        BindStepSound(ok, fatal, t, tag);
      }
    }
  }

  /** The invariant of a recovery, when it begins in the middle of one. */
  lemma {:induction false} RunSound(ok: Oracle, fatal: bool, s: State)
    requires Holds(ok, fatal, s)
    ensures var (ret, db) := Run(ok, fatal, s); Steady(ok, fatal, db) || (Broken(ok, fatal, db) && ret == FAILED)
    decreases |s.input|
  {
    hide Holds, Steady, Broken, Step;
    StepSound(ok, fatal, s);
    match Step(ok, fatal, s) {
      case End(_, _) =>
      case Next(t) => RunSound(ok, fatal, t);
    }
  }

  /**
   Whatever the bytes are and however SQLite behaves: a commit follows exactly the rows
   that make the successes a multiple of 256; statements are used only while prepared;
   nothing follows a call whose failure ends the recovery, which is then FAILED; the
   successes are counted, and with `fatal` no failure is.
   */
  lemma CommitsEvery256(ok: Oracle, fatal: bool, input: seq<byte>)
    ensures var (ret, db) := Run(ok, fatal, Start(input, EMPTY)); var t := db.trace;
      && (forall i :: 0 <= i < |t| ==> (t[i].Commit? <==> BatchFull(ok, t[..i]))) && !BatchFull(ok, t)
      && (forall i :: 0 <= i < |t| && (t[i].Bind? || t[i].StepRow? || t[i].Finalize?) ==> Prepared(ok, t[..i]))
      && (forall i :: 0 <= i < |t| ==> !Ending(ok, fatal, t[..i])) && (Ending(ok, fatal, t) ==> ret == FAILED)
      && db.succ == Successes(ok, t) && (fatal ==> db.fail == 0)
  {
    hide Run, BatchFull, Prepared, Ending, Successes;
    EmptySound(ok, fatal, input);
    RunSound(ok, fatal, Start(input, EMPTY));
    var t := Run(ok, fatal, Start(input, EMPTY)).1.trace;
    if t != [] {
      forall i | 0 <= i <= |t| - 1 ensures t[..|t| - 1][..i] == t[..i] { }
    }
    assert t[..|t|] == t;
  }

  lemma EmptySound(ok: Oracle, fatal: bool, input: seq<byte>)
    ensures Holds(ok, fatal, Start(input, EMPTY))
  {
  }

  // ---- whole dumps ----

  /** How many one-shot statements and rows there are. */
  function Units(items: seq<Item>): nat {
    if items == [] then 0 else (if items[0].OneShot? then 1 else |items[0].rows|) + Units(items[1..])
  }

  /** The calls went on or not, and `n` units have been counted, or at most `n`. */
  ghost predicate Counts(ok: Oracle, fatal: bool, db: Db, r: Result, n: nat) {
    && Sound(ok, fatal, r)
    && r.db.succ + r.db.fail - LostCommits(ok, r.db.trace) <= db.succ + db.fail - LostCommits(ok, db.trace) + n
    && (r.Go? ==> r.db.succ + r.db.fail - LostCommits(ok, r.db.trace) == db.succ + db.fail - LostCommits(ok, db.trace) + n)
  }

  lemma RowCounts(ok: Oracle, fatal: bool, db: Db, stmt: bool)
    requires Steady(ok, fatal, db) && (stmt ==> Prepared(ok, db.trace)) && (fatal ==> stmt)
    ensures Counts(ok, fatal, db, RunRow(ok, fatal, db, stmt), 1)
  {
    hide BatchFull, CommitsRight, UsesPrepared, Ending, Unended, Successes;
    RowSound(ok, fatal, db, stmt);
    Appended(ok, fatal, db.trace, StepRow);
    Appended(ok, fatal, db.trace + [StepRow], Commit);
  }

  lemma {:induction false} BindsCount(ok: Oracle, fatal: bool, db: Db, stmt: bool, values: seq<Value>, k: nat)
    requires Steady(ok, fatal, db) && (stmt ==> Prepared(ok, db.trace))
    ensures var d := BindAll(db, stmt, values, k);
      && Steady(ok, fatal, d) && (stmt ==> Prepared(ok, d.trace)) && d.succ == db.succ && d.fail == db.fail
      && LostCommits(ok, d.trace) == LostCommits(ok, db.trace)
    decreases |values| - k
  {
    hide Steady, Prepared, LostCommits;
    if k < |values| {
      var e := Bind(k + 1, CellOf(values[k]));
      BindSound(ok, fatal, db, stmt, k + 1, CellOf(values[k]));
      Appended(ok, fatal, db.trace, e);
      BindsCount(ok, fatal, RunBind(db, stmt, k + 1, CellOf(values[k])), stmt, values, k + 1);
    }
  }

  lemma {:induction false} RowsCount(ok: Oracle, fatal: bool, db: Db, stmt: bool, rows: seq<seq<Value>>)
    requires Steady(ok, fatal, db) && (stmt ==> Prepared(ok, db.trace)) && (fatal ==> stmt)
    ensures var r := RunRows(ok, fatal, db, stmt, rows);
      Counts(ok, fatal, db, r, |rows|) && (stmt && r.Go? ==> Prepared(ok, r.db.trace))
    decreases rows
  {
    hide Steady, Broken, Prepared, LostCommits, RunRow, BindAll;
    if rows != [] {
      BindsCount(ok, fatal, db, stmt, rows[0], 0);
      var d := BindAll(db, stmt, rows[0], 0);
      RowCounts(ok, fatal, d, stmt);
      RowSound(ok, fatal, d, stmt);
      var r := RunRow(ok, fatal, d, stmt);
      if r.Go? { RowsCount(ok, fatal, r.db, stmt, rows[1..]); }
    }
  }

  lemma ExecCounts(ok: Oracle, fatal: bool, db: Db, sql: seq<byte>)
    requires Steady(ok, fatal, db)
    ensures Counts(ok, fatal, db, RunExec(ok, fatal, db, sql), 1)
  {
    hide Steady, Broken, LostCommits, Successes, Prepared, BatchFull, Ending;
    ExecSound(ok, fatal, db, sql);
    Appended(ok, fatal, db.trace, Exec(sql));
  }

  lemma PrepareCounts(ok: Oracle, fatal: bool, db: Db, sql: seq<byte>)
    requires Steady(ok, fatal, db)
    ensures Counts(ok, fatal, db, RunPrepare(ok, fatal, db, sql).0, 0)
  {
    hide Steady, Broken, LostCommits, Successes, Prepared, BatchFull, Ending;
    PrepareSound(ok, fatal, db, sql);
    Appended(ok, fatal, db.trace, Prepare(sql));
  }

  lemma FinalizeCounts(ok: Oracle, fatal: bool, db: Db, stmt: bool)
    requires Steady(ok, fatal, db) && (stmt ==> Prepared(ok, db.trace))
    ensures Counts(ok, fatal, db, RunFinalize(ok, db, stmt), 0)
  {
    hide Steady, Broken, LostCommits, Successes, Prepared, BatchFull, Ending;
    FinalizeSound(ok, fatal, db, stmt);
    Appended(ok, fatal, db.trace, Finalize);
  }

  lemma ItemCounts(ok: Oracle, fatal: bool, db: Db, item: Item)
    requires Steady(ok, fatal, db)
    ensures Counts(ok, fatal, db, RunItem(ok, fatal, db, item), if item.OneShot? then 1 else |item.rows|)
  {
    hide Steady, Broken, LostCommits, Prepared, RunExec, RunPrepare, RunRows, RunFinalize;
    match item {
      case OneShot(sql) => ExecCounts(ok, fatal, db, sql);
      case Repeated(sql, rows) =>
        PrepareSound(ok, fatal, db, sql);
        PrepareCounts(ok, fatal, db, sql);
        var (p, stmt) := RunPrepare(ok, fatal, db, sql);
        if p.Go? {
          RowsCount(ok, fatal, p.db, stmt, rows);
          var r := RunRows(ok, fatal, p.db, stmt, rows);
          if r.Go? { FinalizeCounts(ok, fatal, r.db, stmt); }
        }
    }
  }

  lemma {:induction false} ItemsCount(ok: Oracle, fatal: bool, db: Db, items: seq<Item>)
    requires Steady(ok, fatal, db)
    ensures var (ret, d) := RunItems(ok, fatal, db, items);
      Counts(ok, fatal, db, if ret == OK then Go(d) else Stop(d), Units(items))
    decreases items
  {
    hide Steady, Broken, LostCommits, RunItem;
    if items != [] {
      ItemCounts(ok, fatal, db, items[0]);
      var r := RunItem(ok, fatal, db, items[0]);
      if r.Go? { ItemsCount(ok, fatal, r.db, items[1..]); }
    }
  }

  lemma {:induction false} UnitsKept(items: seq<Item>)
    ensures Units(KeptItems(items)) == Units(items)
    decreases items
  {
    if items == [] {
      assert KeptItems(items) == [];
    } else {
      KeptTail(items);
      UnitsKept(items[1..]);
    }
  }

  /**
   For every dump and every behaviour of SQLite: the recovery is FAILED exactly if the
   last call it made ends it, and a recovery that is OK has counted each one-shot
   statement and each row once, as a success or a failure, and each failed commit as
   one failure more.
   */
  lemma EveryRowIsCounted(ok: Oracle, fatal: bool, items: seq<Item>)
    ensures var (ret, db) := Run(ok, fatal, Start(Encode(items), EMPTY));
      && (ret == FAILED <==> Ending(ok, fatal, db.trace))
      && (ret == OK ==> db.succ + db.fail == Units(items) + LostCommits(ok, db.trace))
      && db.succ + db.fail <= Units(items) + LostCommits(ok, db.trace)
  {
    hide Run, RunItems, Ending;
    DumpRun(ok, fatal, Start(Encode(items), EMPTY), items);
    EmptySound(ok, fatal, []);
    ItemsCount(ok, fatal, EMPTY, KeptItems(items));
    UnitsKept(items);
    var t := Run(ok, fatal, Start(Encode(items), EMPTY)).1.trace;
    assert t[..|t|] == t;
  }
}
