/** The growable array that receives the values of a record. */
module RepairValues {
  import opened Bytes

  /** A column value; a double is its eight bytes in memory. */
  datatype Value = Null | Integer(i: int) | Number(bits: seq<byte>) | Text(text: seq<byte>) | Binary(data: seq<byte>)

  class Values {
    var count: nat
    var capacity: nat
    var values: array<Value>

    ghost predicate Valid()
      reads this, values
    {
      4 <= capacity == values.Length && count <= capacity
    }

    function Contents(): (r: seq<Value>)
      requires Valid()
      reads this, values
      ensures |r| == count
    {
      values[..count]
    }

    /** sqliterkValuesAlloc */
    constructor ()
      ensures Valid() && Contents() == [] && fresh(values)
    {
      count := 0;
      capacity := 4;
      values := new Value[4](_ => Null);
    }

    /** sqliterkValuesAutoGrow: makes room for one more value, doubling a full array. */
    method AutoGrow()
      requires Valid()
      modifies this
      ensures Valid() && count == old(count) && Contents() == old(Contents()) && count < capacity
      ensures values == old(values) || fresh(values)
      ensures capacity == if count < old(capacity) then old(capacity) else 2 * old(capacity)
    {
      if count >= capacity {
        var oldCapacity := capacity;
        capacity := oldCapacity * 2;
        var newValues := new Value[capacity](_ => Null);
        for i := 0 to oldCapacity
          invariant values == old(values) && count == old(count) && values[..] == old(values[..])
          invariant capacity == 2 * oldCapacity && values.Length == oldCapacity
          invariant newValues.Length == capacity && newValues[..i] == values[..i]
        {
          newValues[i] := values[i];
        }
        values := newValues;
      }
    }

    /** sqliterkValuesAddInteger64 */
    method AddInteger64(i: int)
      requires Valid()
      modifies this, values
      ensures Valid() && Contents() == old(Contents()) + [Integer(i)]
      ensures values == old(values) || fresh(values)
    {
      AutoGrow();
      values[count] := Integer(i);
      count := count + 1;
    }

    /** sqliterkValuesAddNumber */
    method AddNumber(bits: seq<byte>)
      requires Valid()
      modifies this, values
      ensures Valid() && Contents() == old(Contents()) + [Number(bits)]
      ensures values == old(values) || fresh(values)
    {
      AutoGrow();
      values[count] := Number(bits);
      count := count + 1;
    }

    /** sqliterkValuesAddNoTerminatorText */
    method AddText(text: seq<byte>)
      requires Valid()
      modifies this, values
      ensures Valid() && Contents() == old(Contents()) + [Text(text)]
      ensures values == old(values) || fresh(values)
    {
      AutoGrow();
      values[count] := Text(text);
      count := count + 1;
    }

    /** sqliterkValuesAddBinary */
    method AddBinary(data: seq<byte>)
      requires Valid()
      modifies this, values
      ensures Valid() && Contents() == old(Contents()) + [Binary(data)]
      ensures values == old(values) || fresh(values)
    {
      AutoGrow();
      values[count] := Binary(data);
      count := count + 1;
    }

    /** sqliterkValuesAddNull */
    method AddNull()
      requires Valid()
      modifies this, values
      ensures Valid() && Contents() == old(Contents()) + [Null]
      ensures values == old(values) || fresh(values)
    {
      AutoGrow();
      values[count] := Null;
      count := count + 1;
    }

    /** sqliterkValuesClear: the values go, the room stays. */
    method Clear()
      requires Valid()
      modifies this, values
      ensures Valid() && Contents() == [] && capacity == old(capacity) && values == old(values)
    {
      for i := 0 to count
        invariant Valid() && values == old(values) && capacity == old(capacity)
      {
        values[i] := Null;
      }
      count := 0;
    }
  }
}
