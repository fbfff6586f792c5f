/**
 The reader of a dump: `dump_read_and_run_tag`.

 SQLite is an oracle `ok` that tells, from the calls made so far, whether the last
 one succeeded; the calls themselves are recorded as a trace.  `Step` is one tag,
 `Run` all of them; the class below it does the same with the loops of the source.
 Cancelling, inflate errors and memory exhaustion are not part of this model.
 */
module DumpReader {
  import opened Bytes
  import opened DumpFormat

  datatype Event =
    | Exec(sql: seq<byte>)
    | Prepare(sql: seq<byte>)
    | Bind(index: nat, value: Cell)
    | StepRow
    | Commit
    | Finalize

  /** A value as handed to sqlite3_bind_*. */
  datatype Cell = CNull | CInteger(i: int) | CFloat(bits: seq<byte>) | CText(text: seq<byte>) | CBlob(blob: seq<byte>)

  type Oracle = seq<Event> -> bool

  /** What a recovery has done to the database, and its counters. */
  datatype Db = Db(trace: seq<Event>, succ: nat, fail: nat)

  datatype Ret = OK | FAILED

  /** The outcome of a call that may end the recovery. */
  datatype Result = Go(db: Db) | Stop(db: Db)

  // ---- calls into SQLite ----

  function RunExec(ok: Oracle, fatal: bool, db: Db, sql: seq<byte>): Result {
    var d := db.(trace := db.trace + [Exec(sql)]);
    if ok(d.trace) then Go(d.(succ := d.succ + 1))
    else if fatal then Stop(d)
    else Go(d.(fail := d.fail + 1))
  }

  function RunPrepare(ok: Oracle, fatal: bool, db: Db, sql: seq<byte>): (Result, bool) {
    var d := db.(trace := db.trace + [Prepare(sql)]);
    if ok(d.trace) then (Go(d), true) else if fatal then (Stop(d), false) else (Go(d), false)
  }

  /** Nothing is bound when there is no statement. */
  function RunBind(db: Db, stmt: bool, index: nat, value: Cell): Db {
    if stmt then db.(trace := db.trace + [Bind(index, value)]) else db
  }

  /** Step and reset; after every 256 successes the transaction is committed. */
  function RunRow(ok: Oracle, fatal: bool, db: Db, stmt: bool): Result {
    if !stmt then Go(db.(fail := db.fail + 1))
    else
      var d := db.(trace := db.trace + [StepRow]);
      if !ok(d.trace) then
        if fatal then Stop(d) else Go(d.(fail := d.fail + 1))
      else
        var e := d.(succ := d.succ + 1);
        if e.succ % 256 != 0 then Go(e)
        else
          var c := e.(trace := e.trace + [Commit]);
          if ok(c.trace) then Go(c) else if fatal then Stop(c) else Go(c.(fail := c.fail + 1))
  }

  function RunFinalize(ok: Oracle, db: Db, stmt: bool): Result {
    if !stmt then Go(db)
    else
      var d := db.(trace := db.trace + [Finalize]);
      if ok(d.trace) then Go(d) else Stop(d)
  }

  // ---- the reader ----

  /** `data` and `p_data`: the bytes before `pos` stay, the next read lands at `pos`. */
  datatype Buffer = NoBuffer | Large(bytes: seq<byte>, pos: nat)
  {
    /** What the buffer holds up to the end of `tail`, once `tail` has been read into it. */
    function Landed(tail: seq<byte>): seq<byte> {
      if NoBuffer? || pos > |bytes| then tail else bytes[..pos] + tail
    }
  }

  /** `rows` is true inside the loop over the rows of a prepared statement. */
  datatype State = State(input: seq<byte>, buffer: Buffer, db: Db, rows: bool, stmt: bool, bindIdx: nat)

  datatype Progress = Next(s: State) | End(ret: Ret, db: Db)

  /** The value of a uint16_t in memory. */
  function ShortAt(s: seq<byte>): nat
    requires |s| >= 2
  {
    s[0] + 256 * (s[1] as int)
  }

  datatype Varint = NoVarint | Varint(value: nat, size: nat)

  /** Groups of seven bits up to the first byte without the high bit. */
  function VarintAt(s: seq<byte>): (r: Varint)
    ensures r.Varint? ==> 0 < r.size <= |s|
  {
    if s == [] then NoVarint
    else if s[0] < 128 then Varint(s[0], 1)
    else
      match VarintAt(s[1..])
      case NoVarint => NoVarint
      case Varint(v, n) => Varint(s[0] - 128 + 128 * v, n + 1)
  }

  /** The low 64 bits as an int64_t. */
  function ToInt64(v: int): (r: int64) {
    var m := v % TWO_64;
    if m < TWO_63 then m else m - TWO_64
  }

  function Signed(v: nat, minus: bool): int64 {
    if minus then -1 - ToInt64(v) else ToInt64(v)
  }

  /** LARGE_DATA, the same inside and outside of rows; `s.input` starts after the tag. */
  function StepLarge(s: State): Progress {
    if s.buffer.Large? || |s.input| < 2 then End(FAILED, s.db)
    else
      var size := ShortAt(s.input) * BLOCK;
      if |s.input| < 2 + size then End(FAILED, s.db)
      else Next(s.(input := s.input[2 + size..], buffer := Large(s.input[2..2 + size], 0)))
  }

  function Continue(s: State, r: Result): Progress {
    match r
    case Stop(db) => End(FAILED, db)
    case Go(db) => Next(s.(db := db))
  }

  function StepOneshot(ok: Oracle, fatal: bool, s: State): Progress {
    if |s.input| < 2 || |s.input| < 2 + ShortAt(s.input) then End(FAILED, s.db)
    else
      var n := ShortAt(s.input);
      Continue(s.(input := s.input[2 + n..], buffer := NoBuffer),
               RunExec(ok, fatal, s.db, s.buffer.Landed(s.input[2..2 + n])))
  }

  function StepRepeated(ok: Oracle, fatal: bool, s: State): Progress {
    if |s.input| < 2 || |s.input| < 2 + ShortAt(s.input) then End(FAILED, s.db)
    else
      var n := ShortAt(s.input);
      var (r, stmt) := RunPrepare(ok, fatal, s.db, s.buffer.Landed(s.input[2..2 + n]));
      Continue(s.(input := s.input[2 + n..], buffer := NoBuffer, rows := true, stmt := stmt, bindIdx := 0), r)
  }

  /** A bound value that took `size` bytes after its tag. */
  function Bound(s: State, size: nat, value: Cell): Progress
    requires size <= |s.input|
  {
    Next(s.(input := s.input[size..], db := RunBind(s.db, s.stmt, s.bindIdx + 1, value),
    bindIdx := if s.stmt then s.bindIdx + 1 else s.bindIdx))
  }

  function StepVarint(s: State, minus: bool): Progress {
    match VarintAt(s.input)
    case NoVarint => End(FAILED, s.db)
    case Varint(v, n) => Bound(s, n, CInteger(Signed(v, minus)))
  }

  /** A text or blob whose length takes `w` bytes. */
  function StepData(s: State, w: nat, text: bool): Progress
    requires w == 1 || w == 2
  {
    if |s.input| < w then End(FAILED, s.db)
    else
      var n := if w == 1 then s.input[0] else ShortAt(s.input);
      if |s.input| < w + n then End(FAILED, s.db)
      else
        var data := s.buffer.Landed(s.input[w..w + n]);
        Bound(s.(buffer := NoBuffer), w + n, if text then CText(data) else CBlob(data))
  }

  /** The whole state after a text or blob. */
  lemma StepDataIs(s: State, w: nat, text: bool)
    requires w == 1 || w == 2
    ensures StepData(s, w, text) ==
      if |s.input| < w || |s.input| < w + (if w == 1 then s.input[0] else ShortAt(s.input)) then End(FAILED, s.db)
      else
        var n := if w == 1 then s.input[0] else ShortAt(s.input);
        var data := s.buffer.Landed(s.input[w..w + n]);
        Next(State(s.input[w + n..], NoBuffer, RunBind(s.db, s.stmt, s.bindIdx + 1, if text then CText(data) else CBlob(data)),
                   s.rows, s.stmt, if s.stmt then s.bindIdx + 1 else s.bindIdx))
  {
  }

  /** The tags that bind a value; `s.input` starts after the tag. */
  function StepBind(s: State, tag: byte): (p: Progress)
    ensures p.Next? ==> |p.s.input| <= |s.input|
  {
    if tag == TAG_BIND_NULL then Bound(s, 0, CNull)
    else if tag == TAG_BIND_VARINT || tag == TAG_BIND_VARINT_MINUS then StepVarint(s, tag == TAG_BIND_VARINT_MINUS)
    else if tag == TAG_BIND_FLOAT then
      if |s.input| < 8 then End(FAILED, s.db) else Bound(s, 8, CFloat(s.input[..8]))
    else if tag == TAG_BIND_TEXT || tag == TAG_BIND_BLOB then StepData(s, 2, tag == TAG_BIND_TEXT)
    else if tag == TAG_BIND_TEXT_SHORT || tag == TAG_BIND_BLOB_SHORT then StepData(s, 1, tag == TAG_BIND_TEXT_SHORT)
    else End(FAILED, s.db)
  }

  function Step(ok: Oracle, fatal: bool, s: State): (p: Progress)
    ensures p.Next? ==> |p.s.input| < |s.input|
  {
    if s.input == [] then End(if s.rows then FAILED else OK, s.db)
    else
      var tag := s.input[0];
      var t := s.(input := s.input[1..]);
      if tag == TAG_LARGE_DATA then StepLarge(t)
      else if !s.rows then
        if tag == TAG_SQL_ONESHOT then StepOneshot(ok, fatal, t)
        else if tag == TAG_SQL_REPEATED then StepRepeated(ok, fatal, t)
        else End(FAILED, t.db)
      else
        if tag == TAG_END_ROW then Continue(t.(bindIdx := 0), RunRow(ok, fatal, t.db, t.stmt))
        else if tag == TAG_END_SQL then Continue(t.(rows := false), RunFinalize(ok, t.db, t.stmt))
        else StepBind(t, tag)
  }

  function Run(ok: Oracle, fatal: bool, s: State): (Ret, Db)
    decreases |s.input|
  {
    match Step(ok, fatal, s)
    case End(ret, db) => (ret, db)
    case Next(t) => Run(ok, fatal, t)
  }

  function Start(input: seq<byte>, db: Db): State {
    State(input, NoBuffer, db, false, false, 0)
  }

  const EMPTY := Db([], 0, 0)
}
