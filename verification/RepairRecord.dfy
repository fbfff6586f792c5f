/**
 Records, section 2.1 of the SQLite Database File Format: the loop that reads serial
 types and values side by side, the two-pass reading of the file format, and the writer.
 */
module RepairRecord {
  import opened Bytes
  import opened RepairInts
  import opened RepairValues

  // ---- the loop ----

  /** sqliterkBtreeGetLengthForSerialType */
  function SerialLength(st: int): nat {
    if st < 0 then 0
    else if st == 5 then 6
    else if st == 6 || st == 7 then 8
    else if st < 5 then st
    else if st < 12 then 0
    else (st - 12 - st % 2) / 2
  }

  /** A stretch of the payload that is copied; an empty one may start anywhere. */
  function Copied(p: seq<byte>, at: int, length: nat): Result<seq<byte>> {
    if length == 0 then Done([]) else if Within(p, at, length) then Done(Slice(p, at, length)) else Undefined
  }

  /** The value of serial type st at an offset of the payload. */
  function ValueAt(p: seq<byte>, at: int, st: int): Result<Value> {
    if st == 0 then Done(Null)
    else if st < 0 then Undefined
    else if st < 7 then
      match IntAt(p, at, SerialLength(st))
      case Done(i) => Done(Integer(i))
      case _ => Undefined
    else if st == 7 then
      match NumberAt(p, at)
      case Done(bits) => Done(Number(bits))
      case _ => Undefined
    else if st == 8 then Done(Integer(0))
    else if st == 9 then Done(Integer(1))
    else if st < 12 then Failed(DAMAGED)
    else
      match Copied(p, at, SerialLength(st))
      case Done(data) => Done(if st % 2 == 0 then Binary(data) else Text(data))
      case _ => Undefined
  }

  /** The values read, and how the loop ended. */
  datatype Decoded = Decoded(values: seq<Value>, end: Result<()>)

  /** The loop from payload offset `at` and header offset `os`; the header ends at `hdr`. */
  function Fields(p: seq<byte>, at: int, os: nat, hdr: int): Decoded
    decreases |p| - os
  {
    if at >= |p| && os >= hdr then
      Decoded([], if os != hdr || at != |p| then Failed(DAMAGED) else Done(()))
    else
      match Varint32At(p, os)
      case Failed(rc) => Decoded([], Failed(rc))
      case Undefined => Decoded([], Undefined)
      case Done((length, st)) =>
        Varint32Bounds(p, os);
        match ValueAt(p, at, st)
        case Failed(rc) => Decoded([], Failed(rc))
        case Undefined => Decoded([], Undefined)
        case Done(v) =>
          var rest := Fields(p, at + SerialLength(st), os + length, hdr);
          Decoded([v] + rest.values, rest.end)
  }

  /** The part of sqliterkBtreeParsePayload that decodes a payload in memory. */
  function Decode(p: seq<byte>): Decoded {
    match Varint32At(p, 0)
    case Failed(rc) => Decoded([], Failed(rc))
    case Undefined => Decoded([], Undefined)
    case Done((length, hdr)) => Fields(p, hdr, length, hdr)
  }

  lemma Varint32Bounds(p: seq<byte>, os: int)
    ensures Varint32At(p, os).Done? ==> Varint32At(p, os).value.0 > 0 && Within(p, os, Varint32At(p, os).value.0)
  {
    VarintBounds(p, os, 0, 0);
  }

  /** One turn's branch on the serial type: the value goes into the array. */
  method AddValue(p: seq<byte>, at: int, st: int, values: Values) returns (end: Result<()>)
    requires values.Valid()
    modifies values, values.values
    ensures values.Valid() && (values.values == old(values.values) || fresh(values.values))
    ensures match ValueAt(p, at, st)
      case Done(v) => end == Done(()) && values.Contents() == old(values.Contents()) + [v]
      case Failed(rc) => end == Failed(rc) && values.Contents() == old(values.Contents())
      case Undefined => end == Undefined && values.Contents() == old(values.Contents())
  {
    hide IntAt, NumberAt, Copied, SerialLength;
    end := Done(());
    var length := SerialLength(st);
    if st < 0 {
      end := Undefined;
    } else if st == 0 {
      values.AddNull();
    } else if st < 7 {
      var i := ParseInt64(p, at, length);
      if i.Done? { values.AddInteger64(i.value); } else { end := Undefined; }
    } else if st == 7 {
      var bits := ParseNumber(p, at);
      if bits.Done? { values.AddNumber(bits.value); } else { end := Undefined; }
    } else if st == 8 {
      values.AddInteger64(0);
    } else if st == 9 {
      values.AddInteger64(1);
    } else if st >= 12 {
      var data := Copied(p, at, length);
      if !data.Done? {
        end := Undefined;
      } else if st % 2 == 0 {
        values.AddBinary(data.value);
      } else {
        values.AddText(data.value);
      }
    } else {
      end := Failed(DAMAGED);
    }
  }

  /** The same with the values going into a growable array. */
  method ParseRecord(p: seq<byte>, values: Values) returns (end: Result<()>)
    requires values.Valid()
    modifies values, values.values
    ensures values.Valid() && (values.values == old(values.values) || fresh(values.values))
    ensures end == Decode(p).end && values.Contents() == old(values.Contents()) + Decode(p).values
  {
    hide Varint32At, ValueAt, SerialLength;
    var header := ReadVarint32(p, 0);
    Varint32Bounds(p, 0);
    if !header.Done? { return Bad(header); }
    var (columnOffsetValueLength, columnOffsetValue) := header.value;
    var offsetSerialType, offsetValue := columnOffsetValueLength, columnOffsetValue;
    var endSerialType, endValue := columnOffsetValue, |p|;
    ghost var got: seq<Value> := [];
    AfterNone(Decode(p));
    while offsetValue < endValue || offsetSerialType < endSerialType
      invariant values.Valid() && (values.values == old(values.values) || fresh(values.values))
      invariant values.Contents() == old(values.Contents()) + got
      invariant Decode(p) == After(got, Fields(p, offsetValue, offsetSerialType, endSerialType))
      invariant offsetSerialType <= |p|
      decreases |p| - offsetSerialType
    {
      var serial := ReadVarint32(p, offsetSerialType);
      Varint32Bounds(p, offsetSerialType);
      if !serial.Done? { return Bad(serial); }
      var (serialTypeLength, serialType) := serial.value;
      var valueLength := SerialLength(serialType);
      end := AddValue(p, offsetValue, serialType, values);
      if !end.Done? { return; }
      ghost var v := ValueAt(p, offsetValue, serialType).value;
      Bracket(old(values.Contents()), got, [v]);
      AfterMore(got, v, Fields(p, offsetValue + valueLength, offsetSerialType + serialTypeLength, endSerialType));
      got := got + [v];
      offsetValue := offsetValue + valueLength;
      offsetSerialType := offsetSerialType + serialTypeLength;
    }
    if offsetSerialType != endSerialType || offsetValue != endValue { return Failed(DAMAGED); }
    return Done(());
  }

  lemma AfterNone(d: Decoded)
    ensures After([], d) == d
  {
    assert [] + d.values == d.values;
  }

  function After(got: seq<Value>, d: Decoded): Decoded { Decoded(got + d.values, d.end) }

  lemma AfterMore(got: seq<Value>, v: Value, d: Decoded)
    ensures After(got, Decoded([v] + d.values, d.end)) == After(got + [v], d)
  {
    Bracket(got, [v], d.values);
  }

  function Bad<T>(r: Result<T>): Result<()>
    requires !r.Done?
  {
    match r case Failed(rc) => Failed(rc) case Undefined => Undefined
  }

  /** sqliterkParseVarint */
  method ReadVarint32(p: seq<byte>, offset: int) returns (r: Result<(nat, int)>)
    ensures r == Varint32At(p, offset)
  {
    var wide := ParseVarint64(p, offset);
    match wide {
      case Done((length, value)) => r := Done((length, Int32(value)));
      case Failed(rc) => r := Failed(rc);
      case Undefined => r := Undefined;
    }
  }
}
