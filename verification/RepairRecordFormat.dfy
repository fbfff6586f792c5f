/**
 What the record loop computes, against the file format: first the header, then the
 body.  The loop succeeds exactly when the serial types fill the header and the values
 tile the body, and every record that a writer makes is read back.
 */
module RepairRecordFormat {
  import opened Bytes
  import opened RepairInts
  import opened RepairValues
  import opened RepairRecord

  // ---- the file format, in two passes ----

  /** The serial types from one header offset to another, if they end exactly there. */
  function SerialTypes(p: seq<byte>, os: nat, hdr: int): Result<seq<int>>
    decreases |p| - os
  {
    if os == hdr then Done([])
    else if os > hdr then Failed(DAMAGED)
    else
      match Varint32At(p, os)
      case Failed(rc) => Failed(rc)
      case Undefined => Undefined
      case Done((length, st)) =>
        Varint32Bounds(p, os);
        match SerialTypes(p, os + length, hdr)
        case Done(rest) => Done([st] + rest)
        case r => r
  }

  /** The body lengths of the file format, and the kind of value. */
  lemma SerialTable(st: int)
    requires ValidSerial(st)
    ensures SerialLength(st) ==
      match st
      case 0 => 0 case 1 => 1 case 2 => 2 case 3 => 3 case 4 => 4 case 5 => 6 case 6 => 8 case 7 => 8 case 8 => 0 case 9 => 0
      case _ => if st % 2 == 0 then (st - 12) / 2 else (st - 13) / 2
    ensures forall body: seq<byte> | |body| == SerialLength(st) ::
      var v := ValueOf(st, body);
      && (v.Null? <==> st == 0) && (v.Number? <==> st == 7)
      && (v.Binary? <==> st >= 12 && st % 2 == 0) && (v.Text? <==> st >= 13 && st % 2 == 1)
      && (st == 8 ==> v == Integer(0)) && (st == 9 ==> v == Integer(1))
  {
  }

  predicate ValidSerial(st: int) { 0 <= st <= 9 || st >= 12 }

  function BodyLength(types: seq<int>): nat {
    if types == [] then 0 else SerialLength(types[0]) + BodyLength(types[1..])
  }

  /** The value of a serial type with exactly these bytes. */
  function ValueOf(st: int, body: seq<byte>): Value
    requires ValidSerial(st) && |body| == SerialLength(st)
  {
    if st == 0 then Null
    else if st < 7 then Integer(Signed(body))
    else if st == 7 then Number(Reversed(body))
    else if st == 8 then Integer(0)
    else if st == 9 then Integer(1)
    else if st % 2 == 0 then Binary(body)
    else Text(body)
  }

  /** The body cut into pieces of the types' lengths. */
  function ValuesOf(types: seq<int>, body: seq<byte>): (r: seq<Value>)
    requires (forall st :: st in types ==> ValidSerial(st)) && BodyLength(types) == |body|
    ensures |r| == |types|
  {
    if types == [] then []
    else
      var n := SerialLength(types[0]);
      [ValueOf(types[0], body[..n])] + ValuesOf(types[1..], body[n..])
  }

  /** A well-formed record from these offsets on: types fill the header, values tile the body. */
  ghost predicate Reads(p: seq<byte>, at: int, os: nat, hdr: int, values: seq<Value>) {
    exists types :: TilesAs(p, at, os, hdr, types, values)
  }

  ghost predicate TilesAs(p: seq<byte>, at: int, os: nat, hdr: int, types: seq<int>, values: seq<Value>) {
    && SerialTypes(p, os, hdr) == Done(types) && (forall st :: st in types ==> ValidSerial(st))
    && 0 <= at && at + BodyLength(types) == |p|
    && values == ValuesOf(types, p[at..])
  }

  // ---- one value ----

  lemma ValueAtWithin(p: seq<byte>, at: int, st: int)
    requires ValidSerial(st) && Within(p, at, SerialLength(st))
    ensures ValueAt(p, at, st) == Done(ValueOf(st, Slice(p, at, SerialLength(st))))
  {
  }

  /** A value that was read has a valid type, and its bytes are there if it has any. */
  lemma ValueAtDone(p: seq<byte>, at: int, st: int)
    requires ValueAt(p, at, st).Done?
    ensures ValidSerial(st) && (SerialLength(st) > 0 ==> Within(p, at, SerialLength(st)))
  {
  }

  // ---- the loop against the two passes ----

  /** Past the header's end the loop cannot succeed any more. */
  lemma {:induction false} Overshot(p: seq<byte>, at: int, os: nat, hdr: int)
    requires os > hdr
    ensures !Fields(p, at, os, hdr).end.Done?
    decreases |p| - os
  {
    hide Varint32At, ValueAt, SerialLength;
    Varint32Bounds(p, os);
    if !(at >= |p| && os >= hdr) && Varint32At(p, os).Done? {
      var (length, st) := Varint32At(p, os).value;
      Overshot(p, at + SerialLength(st), os + length, hdr);
    }
  }

  /** The loop never goes back in the body: past its end, or before its start, it fails. */
  lemma {:induction false} Misplaced(p: seq<byte>, at: int, os: nat, hdr: int)
    requires at < 0 || at > |p|
    ensures !Fields(p, at, os, hdr).end.Done?
    decreases |p| - os
  {
    hide Varint32At, ValueAt, SerialLength;
    Varint32Bounds(p, os);
    if !(at >= |p| && os >= hdr) && Varint32At(p, os).Done? {
      var (length, st) := Varint32At(p, os).value;
      if ValueAt(p, at, st).Done? {
        ValueAtDone(p, at, st);
        Misplaced(p, at + SerialLength(st), os + length, hdr);
      }
    }
  }

  lemma Tail(types: seq<int>, body: seq<byte>, st: int)
    requires types != [] && types[0] == st && (forall t :: t in types ==> ValidSerial(t)) && BodyLength(types) == |body|
    ensures SerialLength(st) <= |body| && (forall t :: t in types[1..] ==> ValidSerial(t))
    ensures BodyLength(types[1..]) == |body| - SerialLength(st)
    ensures ValuesOf(types, body) == [ValueOf(st, body[..SerialLength(st)])] + ValuesOf(types[1..], body[SerialLength(st)..])
  {
    hide SerialLength, ValueOf, ValidSerial;
  }

  lemma BodySlices(p: seq<byte>, at: nat, n: nat)
    requires at + n <= |p|
    ensures p[at..][..n] == Slice(p, at, n) && p[at..][n..] == p[at + n..]
  {
  }

  /** One turn of the loop is one step of both passes. */
  lemma StepReads(p: seq<byte>, at: nat, os: nat, hdr: int, values: seq<Value>)
    requires at <= |p| && os < hdr && Varint32At(p, os).Done?
    ensures var (length, st) := Varint32At(p, os).value;
      Reads(p, at, os, hdr, values) <==>
        && ValueAt(p, at, st).Done? && at + SerialLength(st) <= |p|
        && values != [] && values[0] == ValueAt(p, at, st).value
        && Reads(p, at + SerialLength(st), os + length, hdr, values[1..])
  {
    hide Varint32At, ValueAt, SerialLength, ValueOf, ValidSerial;
    Varint32Bounds(p, os);
    var (length, st) := Varint32At(p, os).value;
    var n := SerialLength(st);
    if Reads(p, at, os, hdr, values) {
      var types :| TilesAs(p, at, os, hdr, types, values);
      assert SerialTypes(p, os + length, hdr).Done? && types == [st] + types[1..];
      Tail(types, p[at..], st);
      ValueAtWithin(p, at, st);
      BodySlices(p, at, n);
      assert TilesAs(p, at + n, os + length, hdr, types[1..], values[1..]);
    }
    if ValueAt(p, at, st).Done? && at + n <= |p| && values != [] && values[0] == ValueAt(p, at, st).value
      && Reads(p, at + n, os + length, hdr, values[1..]) {
      var rest :| TilesAs(p, at + n, os + length, hdr, rest, values[1..]);
      var types := [st] + rest;
      ValueAtDone(p, at, st);
      ValueAtWithin(p, at, st);
      BodySlices(p, at, n);
      assert types[1..] == rest;
      Tail(types, p[at..], st);
      assert values == [values[0]] + values[1..];
      assert TilesAs(p, at, os, hdr, types, values);
    }
  }

  /**
   The loop succeeds with some values exactly if those are the values of a record that
   is well formed from here on.
   */
  lemma {:induction false} FieldsExactly(p: seq<byte>, at: int, os: nat, hdr: int, values: seq<Value>)
    ensures Fields(p, at, os, hdr) == Decoded(values, Done(())) <==> Reads(p, at, os, hdr, values)
    decreases |p| - os
  {
    hide Varint32At, ValueAt, SerialLength, ValueOf, ValidSerial;
    if os > hdr {
      Overshot(p, at, os, hdr);
    } else if at < 0 || at > |p| {
      Misplaced(p, at, os, hdr);
    } else if os == hdr {
      HeaderDone(p, at, os, values);
    } else {
      Varint32Bounds(p, os);
      if Varint32At(p, os).Done? {
        var (length, st) := Varint32At(p, os).value;
        StepReads(p, at, os, hdr, values);
        if ValueAt(p, at, st).Done? {
          ValueAtDone(p, at, st);
          var next := Fields(p, at + SerialLength(st), os + length, hdr);
          FieldsExactly(p, at + SerialLength(st), os + length, hdr, next.values);
          if values != [] { FieldsExactly(p, at + SerialLength(st), os + length, hdr, values[1..]); }
          FirstAndRest(values, ValueAt(p, at, st).value, next.values);
        }
      }
    }
  }

  lemma FirstAndRest(values: seq<Value>, v: Value, rest: seq<Value>)
    ensures values == [v] + rest <==> values != [] && values[0] == v && values[1..] == rest
  {
  }

  lemma HeaderDone(p: seq<byte>, at: nat, os: nat, values: seq<Value>)
    requires at <= |p|
    ensures Fields(p, at, os, os) == Decoded(values, Done(())) <==> Reads(p, at, os, os, values)
  {
    hide Varint32At, ValueAt, SerialLength;
    assert BodyLength([]) == 0;
    if at == |p| {
      if values == [] { assert TilesAs(p, at, os, os, [], []); }
    } else {
      Varint32Bounds(p, os);
      if Varint32At(p, os).Done? {
        var (length, st) := Varint32At(p, os).value;
        Overshot(p, at + SerialLength(st), os + length, os);
      }
    }
  }

  /** A well-formed record: the header's length, the serial types, the values. */
  ghost predicate IsRecord(p: seq<byte>, values: seq<Value>) {
    var header := Varint32At(p, 0);
    header.Done? && Reads(p, header.value.1, header.value.0, header.value.1, values)
  }

  /** The decoder accepts exactly the well-formed records and returns their values. */
  lemma DecodeExactly(p: seq<byte>, values: seq<Value>)
    ensures Decode(p) == Decoded(values, Done(())) <==> IsRecord(p, values)
  {
    hide Varint32At, Reads;
    var header := Varint32At(p, 0);
    if header.Done? { FieldsExactly(p, header.value.1, header.value.0, header.value.1, values); }
  }

  // ---- the writer ----

  /** Values a column can hold: 64-bit integers, doubles, data of less than 2^30 bytes. */
  predicate Storable(v: Value) {
    match v
    case Null => true
    case Integer(i) => -TWO_64 <= 2 * i < TWO_64
    case Number(bits) => |bits| == 8
    case Text(text) => |text| < TWO_31 / 2 - 6
    case Binary(data) => |data| < TWO_31 / 2 - 6
  }

  /** The smallest serial type for an integer. */
  function IntegerSerial(i: int): int {
    if i == 0 then 8
    else if i == 1 then 9
    else if -0x80 <= i < 0x80 then 1
    else if -0x8000 <= i < 0x8000 then 2
    else if -0x80_0000 <= i < 0x80_0000 then 3
    else if -0x8000_0000 <= i < 0x8000_0000 then 4
    else if -0x8000_0000_0000 <= i < 0x8000_0000_0000 then 5
    else 6
  }

  function SerialOf(v: Value): int {
    match v
    case Null => 0
    case Integer(i) => IntegerSerial(i)
    case Number(_) => 7
    case Text(text) => 13 + 2 * |text|
    case Binary(data) => 12 + 2 * |data|
  }

  function BodyOf(v: Value): seq<byte>
    requires Storable(v)
  {
    match v
    case Null => []
    case Integer(i) =>
      IntegerFits(i);
      EncodeInt(i, SerialLength(IntegerSerial(i)))
    case Number(bits) => Reversed(bits)
    case Text(text) => text
    case Binary(data) => data
  }

  lemma IntegerFits(i: int)
    requires -TWO_64 <= 2 * i < TWO_64
    ensures var n := SerialLength(IntegerSerial(i));
      0 <= i + Pow256(n) && (n > 0 ==> -128 * Pow256(n - 1) <= i < 128 * Pow256(n - 1))
  {
    Pow256Values();
    assert Pow256(0) == 1 && Pow256(6) == 256 * Pow256(5) && Pow256(8) == 256 * Pow256(7);
  }

  lemma ReversedTwice(bits: seq<byte>)
    ensures Reversed(Reversed(bits)) == bits
  {
  }

  /** What is written for a value is read back as that value. */
  lemma ValueRoundTrip(v: Value)
    requires Storable(v)
    ensures ValidSerial(SerialOf(v)) && SerialOf(v) < TWO_31 && |BodyOf(v)| == SerialLength(SerialOf(v))
    ensures ValueOf(SerialOf(v), BodyOf(v)) == v
  {
    match v {
      case Integer(i) =>
        IntegerFits(i);
        if i != 0 && i != 1 { IntRoundTrip(i, SerialLength(IntegerSerial(i))); }
      case Number(bits) => ReversedTwice(bits);
      case _ =>
    }
  }

  predicate AllStorable(values: seq<Value>) { forall v :: v in values ==> Storable(v) }

  function Header(values: seq<Value>): seq<byte>
    requires AllStorable(values)
  {
    if values == [] then []
    else
      ValueRoundTrip(values[0]);
      EncodeVarint(SerialOf(values[0])) + Header(values[1..])
  }

  function Body(values: seq<Value>): seq<byte>
    requires AllStorable(values)
  {
    if values == [] then [] else BodyOf(values[0]) + Body(values[1..])
  }

  function Types(values: seq<Value>): (r: seq<int>)
    ensures |r| == |values|
  {
    if values == [] then [] else [SerialOf(values[0])] + Types(values[1..])
  }

  /** The header with its own length in front: k bytes, the least number that holds n + k. */
  function LengthSize(n: nat, k: nat): (r: nat)
    requires k > 0 && (k == 1 || n + k - 1 >= Power128(k - 1)) && n < TWO_31 && k <= 8
    ensures 0 < r <= 8 && Size(n + r) == r
    decreases 8 - k
  {
    if n + k < Power128(k) then
      SizeExact(n + k, k); k
    else
      SizesAbove(n, k); LengthSize(n, k + 1)
  }

  lemma SizesAbove(n: nat, k: nat)
    requires k > 0 && n + k >= Power128(k) && n < TWO_31 && k <= 8
    ensures k < 8
  {
    if k == 8 { Power128Of8(); }
  }

  lemma {:induction false} SizeExact(v: nat, k: nat)
    requires k > 0 && v < Power128(k) && (k == 1 || v >= Power128(k - 1))
    ensures Size(v) == k
  {
    assert Power128(1) == 128 * Power128(0);
    if k > 1 {
      assert Power128(k) == 128 * Power128(k - 1) && Power128(k - 1) == 128 * Power128(k - 2);
      if k > 2 { assert Power128(k - 2) == 128 * Power128(k - 3); }
      SizeExact(v / 128, k - 1);
    }
  }

  /** A record of the file format. */
  function EncodeRecord(values: seq<Value>): seq<byte>
    requires AllStorable(values) && |Header(values)| < TWO_31 - 8
  {
    var n := |Header(values)|;
    EncodeVarint(n + LengthSize(n, 1)) + Header(values) + Body(values)
  }

  lemma {:induction false} HeaderTypes(p: seq<byte>, os: nat, values: seq<Value>)
    requires AllStorable(values) && Within(p, os, |Header(values)|) && Slice(p, os, |Header(values)|) == Header(values)
    ensures SerialTypes(p, os, os + |Header(values)|) == Done(Types(values))
    ensures forall st :: st in Types(values) ==> ValidSerial(st)
    decreases |values|
  {
    hide Varint32At, EncodeVarint, SerialOf, ValidSerial, Storable;
    if values != [] {
      ValueRoundTrip(values[0]);
      var st := SerialOf(values[0]);
      var enc, rest := EncodeVarint(st), Header(values[1..]);
      SliceParts(p, os, enc, rest);
      Varint32Exactly(p, os, st);
      HeaderTypes(p, os + |enc|, values[1..]);
    }
  }

  lemma SliceParts(p: seq<byte>, at: nat, a: seq<byte>, b: seq<byte>)
    requires Within(p, at, |a + b|) && Slice(p, at, |a + b|) == a + b
    ensures Within(p, at, |a|) && Slice(p, at, |a|) == a
    ensures Within(p, at + |a|, |b|) && Slice(p, at + |a|, |b|) == b
  {
    assert Slice(p, at, |a|) == Slice(p, at, |a + b|)[..|a|];
    assert Slice(p, at + |a|, |b|) == Slice(p, at, |a + b|)[|a|..];
  }

  lemma {:induction false} BodyValues(values: seq<Value>)
    requires AllStorable(values)
    ensures (forall st :: st in Types(values) ==> ValidSerial(st)) && BodyLength(Types(values)) == |Body(values)|
    ensures ValuesOf(Types(values), Body(values)) == values
  {
    hide SerialOf, ValidSerial, Storable, BodyOf, ValueOf, SerialLength;
    if values != [] {
      ValueRoundTrip(values[0]);
      BodyValues(values[1..]);
      var b, rest := BodyOf(values[0]), Body(values[1..]);
      assert (b + rest)[..|b|] == b && (b + rest)[|b|..] == rest;
      assert Types(values)[1..] == Types(values[1..]);
    }
  }

  /** Decoding an encoded record returns its values. */
  lemma RecordRoundTrip(values: seq<Value>)
    requires AllStorable(values) && |Header(values)| < TWO_31 - 8
    ensures Decode(EncodeRecord(values)) == Decoded(values, Done(()))
  {
    hide Varint32At, EncodeVarint, Size, Header, Body, Types, Decode, Reads, Storable, Slice, Power128;
    var n := |Header(values)|;
    var k := LengthSize(n, 1);
    var enc := EncodeVarint(n + k);
    var p := EncodeRecord(values);
    LengthOfLength(n, k);
    ThreeParts(enc, Header(values), Body(values));
    TwoPasses(p, k, n, values);
    Varint32Exactly(p, 0, n + k);
    DecodeExactly(p, values);
  }

  /** Header and body in place are a well-formed record. */
  lemma TwoPasses(p: seq<byte>, k: nat, n: nat, values: seq<Value>)
    requires AllStorable(values) && n == |Header(values)| && Within(p, k, n) && Slice(p, k, n) == Header(values)
    requires p[n + k..] == Body(values)
    ensures Reads(p, n + k, k, n + k, values)
  {
    hide SerialTypes, Header, Body, Types, ValuesOf, Storable, ValidSerial, BodyLength;
    HeaderTypes(p, k, values);
    BodyValues(values);
    assert TilesAs(p, n + k, k, n + k, Types(values), values);
  }

  lemma ThreeParts(a: seq<byte>, b: seq<byte>, c: seq<byte>)
    ensures var p := a + b + c;
      && Within(p, 0, |a|) && Slice(p, 0, |a|) == a && Within(p, |a|, |b|) && Slice(p, |a|, |b|) == b
      && p[|b| + |a|..] == c && |p| == |a| + |b| + |c|
  {
  }

  lemma LengthOfLength(n: nat, k: nat)
    requires n < TWO_31 - 8 && k > 0 && Size(n + k) == k && k <= 8
    ensures |EncodeVarint(n + k)| == k && n + k < TWO_31
  {
  }
}
