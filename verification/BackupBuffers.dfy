/**
 The two input buffers of a backup and the flags that `buf_lock` guards.

 `Shared` is the value of those fields; the functions on it are what one visit
 to the critical section does.  The class holds the fields themselves, and each
 of its methods is proved to change them as one of the functions says.
 */
module BackupBuffers {
  import opened Bytes

  const INPUT_BUFFER_SIZE := 8192

  datatype Slot = Slot(avail: nat, data: seq<byte>)

  /** `second` tells which of the two slots `p_buf` points to. */
  datatype Shared = Shared(
    slot0: Slot, slot1: Slot, second: bool,
    inAvail: bool, inFull: bool, inFinish: bool, writeError: bool)
  {
    function At(which: bool): Slot { if which then slot1 else slot0 }

    function With(which: bool, slot: Slot): Shared {
      if which then this.(slot1 := slot) else this.(slot0 := slot)
    }

    /** What the producer has put into the current slot since the last swap. */
    function Filled(): seq<byte>
      requires Valid()
    {
      At(second).data[..At(second).avail]
    }

    /** Both flags follow the fill level: above a quarter, and full. */
    predicate Valid() {
      && |slot0.data| == |slot1.data| == INPUT_BUFFER_SIZE
      && slot0.avail <= INPUT_BUFFER_SIZE && slot1.avail <= INPUT_BUFFER_SIZE
      && inAvail == (At(second).avail > INPUT_BUFFER_SIZE / 4)
      && inFull == (At(second).avail == INPUT_BUFFER_SIZE)
    }
  }

  /** How much of `size` bytes goes into a slot that already holds `avail`. */
  function Room(avail: nat, size: nat): (n: nat)
    requires avail <= INPUT_BUFFER_SIZE
  {
    if avail + size > INPUT_BUFFER_SIZE then INPUT_BUFFER_SIZE - avail else size
  }

  /** memcpy: `src` laid over `dst` from `at` on. */
  function Overlay(dst: seq<byte>, at: nat, src: seq<byte>): (r: seq<byte>)
    requires at + |src| <= |dst|
    ensures |r| == |dst|
    ensures r[..at + |src|] == dst[..at] + src
    ensures r[at + |src|..] == dst[at + |src|..]
  {
    dst[..at] + src + dst[at + |src|..]
  }

  /** One pass of the producer's copy loop. */
  function Copied(s: Shared, data: seq<byte>): (r: Shared)
    requires s.Valid()
    ensures r.Valid()
    ensures r.Filled() == s.Filled() + data[..Room(s.At(s.second).avail, |data|)]
    ensures r.second == s.second && r.At(!s.second) == s.At(!s.second)
    ensures r.inFinish == s.inFinish && r.writeError == s.writeError && (r.inFull ==> r.inAvail)
  {
    var slot := s.At(s.second);
    var n := Room(slot.avail, |data|);
    var avail := slot.avail + n;
    s.With(s.second, Slot(avail, Overlay(slot.data, slot.avail, data[..n])))
    .(inAvail := avail > INPUT_BUFFER_SIZE / 4, inFull := avail == INPUT_BUFFER_SIZE)
  }

  /** The writer takes the current slot and hands the other one, emptied, to the producer. */
  function Swapped(s: Shared): (r: Shared)
    requires s.Valid()
    ensures r.Valid() && r.Filled() == [] && r.second != s.second
    ensures r.At(s.second) == s.At(s.second)
    ensures r.inFinish == s.inFinish && r.writeError == s.writeError && !r.inAvail && !r.inFull
  {
    s.With(!s.second, s.At(!s.second).(avail := 0))
    .(second := !s.second, inAvail := false, inFull := false)
  }

  class Buffer {
    var avail: nat
    const data: array<byte>

    constructor ()
      ensures avail == 0 && fresh(data) && data.Length == INPUT_BUFFER_SIZE
    {
      avail := 0;
      data := new byte[INPUT_BUFFER_SIZE](_ => 0);
    }

    function Value(): Slot
      reads this, data
    {
      Slot(avail, data[..])
    }

    /** memcpy behind what is there, and the new fill level. */
    method Append(src: seq<byte>)
      requires avail + |src| <= data.Length
      modifies this`avail, data
      ensures avail == old(avail) + |src| && data[..] == Overlay(old(data[..]), old(avail), src)
    {
      forall i | 0 <= i < |src| { data[avail + i] := src[i]; }
      avail := avail + |src|;
    }
  }

  class Context {
    const buffer0: Buffer
    const buffer1: Buffer
    var pBuf: Buffer
    var inAvail: bool
    var inFull: bool
    var inFinish: bool
    var writeError: bool

    constructor ()
      ensures Separate() && fresh(buffer0) && fresh(buffer1) && fresh(buffer0.data) && fresh(buffer1.data)
      ensures Value().Valid() && Value().Filled() == []
      ensures !inFinish && !writeError && pBuf == buffer0
    {
      buffer0 := new Buffer();
      buffer1 := new Buffer();
      pBuf := buffer0;
      inAvail, inFull, inFinish, writeError := false, false, false, false;
    }

    ghost predicate Separate()
      reads this
    {
      && buffer0 != buffer1 && buffer0.data != buffer1.data
      && (pBuf == buffer0 || pBuf == buffer1)
    }

    ghost function Value(): Shared
      requires Separate()
      reads this, buffer0, buffer1, buffer0.data, buffer1.data
    {
      Shared(buffer0.Value(), buffer1.Value(), pBuf == buffer1, inAvail, inFull, inFinish, writeError)
    }

    /** The body of the copy loop in `dump_write_stream`. */
    method Copy(data: seq<byte>) returns (rest: seq<byte>, signal: bool)
      requires Separate() && Value().Valid()
      modifies this`inAvail, this`inFull, pBuf, pBuf.data
      ensures Separate() && Value() == Copied(old(Value()), data)
      ensures rest == data[Room(old(pBuf.avail), |data|)..]
      ensures signal == (inAvail || inFull)
    {
      hide Overlay;
      var size := Room(pBuf.avail, |data|);
      pBuf.Append(data[..size]);
      rest := data[size..];
      inAvail := pBuf.avail > INPUT_BUFFER_SIZE / 4;
      inFull := pBuf.avail == INPUT_BUFFER_SIZE;
      signal := inAvail || inFull;
    }

    /** The body of the writer's critical section; `taken` is where `next_in` points. */
    method Swap() returns (taken: Buffer, availIn: nat, finish: bool)
      requires Separate() && Value().Valid()
      modifies this`pBuf, this`inAvail, this`inFull, buffer0`avail, buffer1`avail
      ensures Separate() && Value() == Swapped(old(Value()))
      ensures taken == old(pBuf) && taken != pBuf
      ensures availIn == old(pBuf.avail) && taken.avail == availIn && finish == inFinish
    {
      taken := pBuf;
      availIn := pBuf.avail;
      finish := inFinish;
      pBuf := if pBuf == buffer0 then buffer1 else buffer0;
      pBuf.avail := 0;
      inAvail, inFull := false, false;
    }
  }
}
