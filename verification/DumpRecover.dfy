/** The loops of `dump_read_and_run_tag`, proved to do what `DumpReader.Run` says. */
module DumpRecover {
  import opened Bytes
  import opened DumpFormat
  import opened DumpReader

  /** The value of the groups from `v` and `unit` on: `v | rest << shift`. */
  function Joined(v: nat, unit: nat, rest: nat): nat { v + unit * rest }

  lemma JoinedStep(v: nat, unit: nat, low: nat, rest: nat)
    ensures Joined(v, unit, low + 128 * rest) == Joined(Joined(v, unit, low), unit * 128, rest)
  {
    assert unit * (low + 128 * rest) == unit * low + unit * 128 * rest;
  }

  class Recover {
    const ok: Oracle
    const fatal: bool
    var input: seq<byte>
    var trace: seq<Event>
    var succ: nat
    var fail: nat

    constructor (ok: Oracle, fatal: bool, input: seq<byte>)
      ensures this.ok == ok && this.fatal == fatal && this.input == input && Value() == EMPTY
    {
      this.ok, this.fatal, this.input := ok, fatal, input;
      trace, succ, fail := [], 0, 0;
    }

    function Value(): Db
      reads this`trace, this`succ, this`fail
    {
      Db(trace, succ, fail)
    }

    /** The reader's state, given the local variables of the loops. */
    function At(buffer: Buffer, rows: bool, stmt: bool, bindIdx: nat): State
      reads this`input, this`trace, this`succ, this`fail
    {
      State(input, buffer, Value(), rows, stmt, bindIdx)
    }

    /** `dump_read_stream`: as many bytes as there are, up to `size`. */
    method ReadStream(size: nat) returns (data: seq<byte>)
      modifies this`input
      ensures data == old(input)[..if size <= |old(input)| then size else |old(input)|]
      ensures input == old(input)[|data|..]
    {
      var n := if size <= |input| then size else |input|;
      data := input[..n];
      input := input[n..];
    }

    method ReadVarint(minus: bool) returns (failed: bool, value: int64)
      modifies this`input
      ensures failed == VarintAt(old(input)).NoVarint?
      ensures !failed ==> var r := VarintAt(old(input)); value == Signed(r.value, minus) && input == old(input)[r.size..]
    {
      var v: nat := 0;
      var unit: nat := 1;
      var more := true;
      value := 0;
      failed := false;
      ghost var whole := VarintAt(input);
      ghost var used: nat := 0;
      while more
        invariant used <= |old(input)| && input == old(input)[used..]
        invariant more ==> (whole.Varint? <==> VarintAt(input).Varint?)
        invariant more && whole.Varint? ==>
                    whole.value == Joined(v, unit, VarintAt(input).value) && whole.size == used + VarintAt(input).size
        invariant !more ==> whole == Varint(v, used)
        decreases |input|, more
      {
        ghost var before := input;
        var b := ReadStream(1);
        if |b| != 1 {
          failed := true;
          return;
        }
        assert b[0] == before[0] && input == before[1..];
        used := used + 1;
        more := b[0] >= 128;
        if more && VarintAt(input).Varint? {
          JoinedStep(v, unit, b[0] % 128, VarintAt(input).value);
        }
        v := Joined(v, unit, b[0] % 128);
        unit := unit * 128;
      }
      value := Signed(v, minus);
    }

    /** A length of `w` bytes and that many bytes of data, copied to where `p_data` points. */
    method ReadData(w: nat, buffer: Buffer) returns (failed: bool, data: seq<byte>)
      requires w == 1 || w == 2
      modifies this`input
      ensures var s := old(input);
        if |s| < w || |s| < w + (if w == 1 then s[0] else ShortAt(s)) then failed
        else
          var n := if w == 1 then s[0] else ShortAt(s);
          !failed && data == buffer.Landed(s[w..w + n]) && input == s[w + n..]
    {
      data := [];
      var head := ReadStream(w);
      if |head| != w { return true, []; }
      var length := if w == 1 then head[0] else ShortAt(head);
      ghost var s := old(input);
      if |s| >= w + length {
        assert s[w..][..length] == s[w..w + length] && s[w..][length..] == s[w + length..];
      }
      var tail := ReadStream(length);
      if |tail| != length { return true, []; }
      failed, data := false, buffer.Landed(tail);
    }

    method ReadLarge(buffer: Buffer) returns (failed: bool, r: Buffer)
      modifies this`input
      ensures var s := old(At(buffer, false, false, 0));
        failed == StepLarge(s).End? && (!failed ==> StepLarge(s).s == At(r, false, false, 0))
    {
      r := buffer;
      if buffer.Large? { return true, buffer; }
      var head := ReadStream(2);
      if |head| != 2 { return true, buffer; }
      var length := ShortAt(head);
      ghost var s := old(input);
      ghost var size := length * 65536;
      if |s| >= 2 + size {
        assert s[2..][..size] == s[2..2 + size] && s[2..][size..] == s[2 + size..];
      }
      var blocks := ReadStream(length * 65536);
      if |blocks| != length * 65536 { return true, buffer; }
      failed, r := false, Large(blocks, 0);
    }

    /** sqlite3_exec, sqlite3_prepare, ...: a call is recorded and answered by the oracle. */
    method CallEngine(e: Event) returns (good: bool)
      modifies this`trace
      ensures trace == old(trace) + [e] && good == ok(trace)
    {
      trace := trace + [e];
      good := ok(trace);
    }

    method EndRow(stmt: bool) returns (stop: bool)
      modifies this`trace, this`succ, this`fail
      ensures var r := RunRow(ok, fatal, old(Value()), stmt); stop == r.Stop? && Value() == r.db
    {
      stop := false;
      if !stmt {
        fail := fail + 1;
      } else {
        var good := CallEngine(StepRow);
        if !good {
          if fatal { return true; }
          fail := fail + 1;
        } else {
          succ := succ + 1;
          if succ % 256 == 0 {
            good := CallEngine(Commit);
            if !good {
              if fatal { return true; }
              fail := fail + 1;
            }
          }
        }
      }
    }

    method BindValue(stmt: bool, bindIdx: nat, value: Cell) returns (idx: nat)
      modifies this`trace
      ensures Value() == RunBind(old(Value()), stmt, bindIdx + 1, value)
      ensures idx == if stmt then bindIdx + 1 else bindIdx
    {
      idx := bindIdx;
      if stmt {
        idx := idx + 1;
        var _ := CallEngine(Bind(idx, value));
      }
    }

    /** A text or blob whose length takes w bytes. */
    method BindData(w: nat, text: bool, buffer: Buffer, stmt: bool, bindIdx: nat) returns (failed: bool, idx: nat)
      requires w == 1 || w == 2
      modifies this
      ensures var p := StepData(old(At(buffer, true, stmt, bindIdx)), w, text);
        if failed then p == End(FAILED, Value()) else p == Next(At(NoBuffer, true, stmt, idx))
    {
      hide StepData, RunBind;
      ghost var s := At(buffer, true, stmt, bindIdx);
      StepDataIs(s, w, text);
      var data: seq<byte>;
      idx := bindIdx;
      failed, data := ReadData(w, buffer);
      if !failed { idx := BindValue(stmt, bindIdx, if text then CText(data) else CBlob(data)); }
    }

    /** The tags that bind a value. */
    method BindTag(tag: byte, buffer: Buffer, stmt: bool, bindIdx: nat) returns (failed: bool, b: Buffer, idx: nat)
      modifies this
      ensures var p := StepBind(old(At(buffer, true, stmt, bindIdx)), tag);
        if failed then p == End(FAILED, Value()) else p == Next(At(b, true, stmt, idx))
    {
      hide StepData;
      ghost var s := At(buffer, true, stmt, bindIdx);
      failed, b, idx := false, buffer, bindIdx;
      if tag == TAG_BIND_NULL {
        idx := BindValue(stmt, bindIdx, CNull);
        assert s.input[0..] == s.input;
      } else if tag == TAG_BIND_VARINT || tag == TAG_BIND_VARINT_MINUS {
        var value: int64;
        failed, value := ReadVarint(tag == TAG_BIND_VARINT_MINUS);
        if !failed { idx := BindValue(stmt, bindIdx, CInteger(value)); }
      } else if tag == TAG_BIND_FLOAT {
        var bits := ReadStream(8);
        failed := |bits| != 8;
        if !failed { idx := BindValue(stmt, bindIdx, CFloat(bits)); }
      } else if tag == TAG_BIND_TEXT || tag == TAG_BIND_BLOB {
        failed, idx := BindData(2, tag == TAG_BIND_TEXT, buffer, stmt, bindIdx);
        b := NoBuffer;
      } else if tag == TAG_BIND_TEXT_SHORT || tag == TAG_BIND_BLOB_SHORT {
        failed, idx := BindData(1, tag == TAG_BIND_TEXT_SHORT, buffer, stmt, bindIdx);
        b := NoBuffer;
      } else {
        failed := true;
      }
    }

    /** One tag inside the rows of a statement; `done` after END_SQL. */
    method RowTag(buffer: Buffer, stmt: bool, bindIdx: nat)
      returns (failed: bool, done: bool, b: Buffer, idx: nat)
      modifies this
      ensures var p := Step(ok, fatal, old(At(buffer, true, stmt, bindIdx)));
        if failed then p == End(FAILED, Value()) else p == Next(At(b, !done, stmt, idx))
    {
      ghost var s := At(buffer, true, stmt, bindIdx);
      failed, done, b, idx := false, false, buffer, bindIdx;
      var head := ReadStream(1);
      if |head| != 1 { failed := true; return; }
      var tag := head[0];
      ghost var t := s.(input := s.input[1..]);
      assert At(buffer, true, stmt, bindIdx) == t && tag == s.input[0];
      if tag == TAG_LARGE_DATA {
        failed, b := ReadLarge(buffer);
        assert Step(ok, fatal, s) == StepLarge(t);
      } else if tag == TAG_END_ROW {
        failed := EndRow(stmt);
        idx := 0;
      } else if tag == TAG_END_SQL {
        done := true;
        if stmt {
          var good := CallEngine(Finalize);
          failed := !good;
        }
      } else {
        failed, b, idx := BindTag(tag, buffer, stmt, bindIdx);
        assert Step(ok, fatal, s) == StepBind(t, tag);
      }
    }

    /** The inner loop: the rows of a prepared statement, up to END_SQL. */
    method RunRows(stmt: bool) returns (failed: bool, buffer: Buffer, bindIdx: nat)
      modifies this
      ensures var before := Run(ok, fatal, old(At(NoBuffer, true, stmt, 0)));
        if failed then before == (FAILED, Value()) else before == Run(ok, fatal, At(buffer, false, stmt, bindIdx))
      ensures !failed ==> |input| <= |old(input)|
    {
      failed, buffer, bindIdx := false, NoBuffer, 0;
      ghost var start := At(NoBuffer, true, stmt, 0);
      var done := false;
      while !done
        invariant !failed && |input| <= |start.input|
        invariant Run(ok, fatal, start) == Run(ok, fatal, At(buffer, !done, stmt, bindIdx))
        decreases |input|, !done
      {
        ghost var s := At(buffer, true, stmt, bindIdx);
        failed, done, buffer, bindIdx := RowTag(buffer, stmt, bindIdx);
        assert Run(ok, fatal, s) == if failed then (FAILED, Value()) else Run(ok, fatal, At(buffer, !done, stmt, bindIdx));
        if failed { return; }
      }
    }

    /** The reading part of a one-shot or the head of a repeated statement. */
    method ReadSql(buffer: Buffer) returns (failed: bool, sql: seq<byte>)
      modifies this`input
      ensures var s := old(input);
        if |s| < 2 || |s| < 2 + ShortAt(s) then failed
        else !failed && sql == buffer.Landed(s[2..2 + ShortAt(s)]) && input == s[2 + ShortAt(s)..]
    {
      failed, sql := ReadData(2, buffer);
    }

    method Oneshot(buffer: Buffer, stmt: bool, bindIdx: nat) returns (failed: bool)
      modifies this
      ensures var p := StepOneshot(ok, fatal, old(At(buffer, false, stmt, bindIdx)));
        if failed then p == End(FAILED, Value()) else p == Next(At(NoBuffer, false, stmt, bindIdx))
    {
      var sql: seq<byte>;
      failed, sql := ReadSql(buffer);
      if failed { return; }
      var good := CallEngine(Exec(sql));
      if good {
        succ := succ + 1;
      } else if fatal {
        failed := true;
      } else {
        fail := fail + 1;
      }
    }

    /** SQL_REPEATED up to its first row. */
    method Repeated(buffer: Buffer, stale: bool, bindIdx: nat) returns (failed: bool, stmt: bool)
      modifies this
      ensures var p := StepRepeated(ok, fatal, old(At(buffer, false, stale, bindIdx)));
        if failed then p == End(FAILED, Value()) else p == Next(At(NoBuffer, true, stmt, 0))
    {
      var sql: seq<byte>;
      stmt := stale;
      failed, sql := ReadSql(buffer);
      if failed { return; }
      stmt := CallEngine(Prepare(sql));
      failed := !stmt && fatal;
    }

    /** One tag outside of rows; `rows` after the head of a repeated statement. */
    method OuterTag(buffer: Buffer, stmt: bool, bindIdx: nat)
      returns (stop: bool, ret: Ret, rows: bool, b: Buffer, st: bool, idx: nat)
      modifies this
      ensures var p := Step(ok, fatal, old(At(buffer, false, stmt, bindIdx)));
        if stop then p == End(ret, Value()) else p == Next(At(b, rows, st, idx))
      ensures !stop && rows ==> b == NoBuffer && idx == 0
    {
      hide StepOneshot, StepRepeated, StepBind;
      ghost var s := At(buffer, false, stmt, bindIdx);
      stop, ret, rows, b, st, idx := false, FAILED, false, buffer, stmt, bindIdx;
      var head := ReadStream(1);
      if |head| == 0 { return true, OK, rows, b, st, idx; }
      var tag := head[0];
      ghost var t := s.(input := s.input[1..]);
      assert At(buffer, false, stmt, bindIdx) == t && tag == s.input[0];
      if tag == TAG_LARGE_DATA {
        stop, b := ReadLarge(buffer);
        assert Step(ok, fatal, s) == StepLarge(t);
      } else if tag == TAG_SQL_ONESHOT {
        stop := Oneshot(buffer, stmt, bindIdx);
        b := NoBuffer;
        assert Step(ok, fatal, s) == StepOneshot(ok, fatal, t);
      } else if tag == TAG_SQL_REPEATED {
        stop, st := Repeated(buffer, stmt, bindIdx);
        rows, b, idx := true, NoBuffer, 0;
        assert Step(ok, fatal, s) == StepRepeated(ok, fatal, t);
      } else {
        stop := true;
      }
    }

    /** The outer loop. */
    method RunTags() returns (ret: Ret)
      modifies this
      ensures (ret, Value()) == Run(ok, fatal, Start(old(input), old(Value())))
    {
      hide Step;
      var buffer := NoBuffer;
      var stmt, bindIdx := false, 0;
      ghost var start := Start(input, Value());
      while true
        invariant Run(ok, fatal, At(buffer, false, stmt, bindIdx)) == Run(ok, fatal, start)
        decreases |input|
      {
        var stop, rows;
        stop, ret, rows, buffer, stmt, bindIdx := OuterTag(buffer, stmt, bindIdx);
        if stop { return; }
        if rows {
          var failed;
          failed, buffer, bindIdx := RunRows(stmt);
          if failed { return FAILED; }
        }
      }
    }
  }
}
