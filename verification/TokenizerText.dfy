/**
 The text of a tokenizer cursor: UTF-16 units decoded from UTF-8, with the byte offset at
 which each code point begins.
 */
module TokenizerText {

  /** One step of U8_NEXT: the code point, negative for an ill-formed sequence, and the bytes it took. */
  datatype Piece = Piece(c: int, bytes: nat) {
    /** A supplementary code point takes four bytes, anything else at least one; surrogates are ill-formed. */
    predicate Valid() { bytes >= 1 && c <= 0x10ffff && (c >= 0x10000 ==> bytes == 4) && !(0xd800 <= c < 0xe000) }
  }

  type Unit = u: int | 0 <= u < 0x10000

  predicate IsLead(u: int) { 0xd800 <= u < 0xdc00 }

  predicate IsTrail(u: int) { 0xdc00 <= u < 0xe000 }

  /** The units of a code point; an ill-formed sequence becomes a space. */
  function Units(p: Piece): (r: seq<Unit>)
    requires p.Valid()
    ensures 1 <= |r| <= 2 && |r| <= p.bytes
    ensures |r| == 2 ==> IsLead(r[0]) && IsTrail(r[1])
    ensures |r| == 1 ==> !IsLead(r[0]) && !IsTrail(r[0])
  {
    if p.c < 0 then [0x20]
    else if p.c < 0x10000 then [p.c]
    else [0xd800 + (p.c - 0x10000) / 0x400, 0xdc00 + (p.c - 0x10000) % 0x400]
  }

  predicate AllValid(ps: seq<Piece>) { forall p :: p in ps ==> p.Valid() }

  /** Reading stops at a NUL. */
  function Kept(ps: seq<Piece>): (r: seq<Piece>)
    ensures AllValid(ps) ==> AllValid(r)
  {
    if ps == [] || ps[0].c == 0 then [] else [ps[0]] + Kept(ps[1..])
  }

  function Utf16(ps: seq<Piece>): seq<Unit>
    requires AllValid(ps)
  {
    if ps == [] then [] else Utf16(ps[..|ps| - 1]) + Units(ps[|ps| - 1])
  }

  function ByteCount(ps: seq<Piece>): nat {
    if ps == [] then 0 else ByteCount(ps[..|ps| - 1]) + ps[|ps| - 1].bytes
  }

  /** The UTF-16 text is never longer than the UTF-8 text. */
  lemma {:induction false} Utf16Short(ps: seq<Piece>)
    requires AllValid(ps)
    ensures |Utf16(ps)| <= ByteCount(ps)
  {
    if ps != [] { Utf16Short(ps[..|ps| - 1]); }
  }

  lemma {:induction false} BytesMonotone(ps: seq<Piece>, k: nat)
    requires AllValid(ps) && k <= |ps|
    ensures ByteCount(ps[..k]) <= ByteCount(ps) && (k < |ps| ==> ByteCount(ps[..k]) < ByteCount(ps))
    ensures |Utf16(ps[..k])| <= |Utf16(ps)| && Utf16(ps)[..|Utf16(ps[..k])|] == Utf16(ps[..k])
  {
    if k == |ps| {
      assert ps[..k] == ps;
    } else {
      assert ps[..|ps| - 1][..k] == ps[..k];
      var front := ps[..|ps| - 1];
      BytesMonotone(front, k);
      PrefixOfPrefix(Utf16(front), Units(ps[|ps| - 1]), |Utf16(ps[..k])|);
      if k < |front| { assert ByteCount(ps[..k]) < ByteCount(front); } else { assert front[..k] == front; }
    }
  }

  lemma PrefixOfPrefix(a: seq<Unit>, b: seq<Unit>, n: nat)
    requires n <= |a|
    ensures (a + b)[..n] == a[..n]
  {
  }

  /** A position between code points. */
  ghost predicate Boundary(ps: seq<Piece>, at: int)
    requires AllValid(ps)
  {
    exists k :: BoundaryAt(ps, at, k)
  }

  predicate BoundaryAt(ps: seq<Piece>, at: int, k: int)
    requires AllValid(ps)
  {
    0 <= k <= |ps| && |Utf16(ps[..k])| == at
  }

  lemma Step(ps: seq<Piece>, k: nat)
    requires AllValid(ps) && k < |ps|
    ensures Utf16(ps[..k + 1]) == Utf16(ps[..k]) + Units(ps[k]) && ByteCount(ps[..k + 1]) == ByteCount(ps[..k]) + ps[k].bytes
  {
    assert ps[..k + 1][..k] == ps[..k];
  }

  /** A code point occupies one unit, or a lead and a trail surrogate. */
  lemma PieceUnits(ps: seq<Piece>, k: nat)
    requires AllValid(ps) && k < |ps|
    ensures var at, text := |Utf16(ps[..k])|, Utf16(ps);
      && at + |Units(ps[k])| <= |text| && text[at] == Units(ps[k])[0]
      && |Utf16(ps[..k + 1])| == at + |Units(ps[k])|
  {
    Step(ps, k);
    BytesMonotone(ps, k + 1);
    assert Utf16(ps)[..|Utf16(ps[..k + 1])|][|Utf16(ps[..k])|] == Units(ps[k])[0];
  }

  /** Whether a unit is a lead surrogate tells where the next boundary is. */
  lemma NextBoundary(ps: seq<Piece>, at: int)
    requires AllValid(ps) && Boundary(ps, at) && at < |Utf16(ps)|
    ensures 0 <= at
    ensures IsLead(Utf16(ps)[at]) ==> at + 2 <= |Utf16(ps)| && Boundary(ps, at + 2) && !Boundary(ps, at + 1)
    ensures !IsLead(Utf16(ps)[at]) ==> Boundary(ps, at + 1)
  {
    hide Utf16, Units;
    var k :| BoundaryAt(ps, at, k);
    assert ps[..|ps|] == ps;
    PieceUnits(ps, k);
    assert BoundaryAt(ps, at + |Units(ps[k])|, k + 1);
    if IsLead(Utf16(ps)[at]) {
      var middle := at + 1;
      forall j | BoundaryAt(ps, middle, j) ensures false { Between(ps, k, j); }
    }
  }

  /** Boundaries are as far apart as the code points between them. */
  lemma Between(ps: seq<Piece>, k: nat, j: nat)
    requires AllValid(ps) && k < |ps| && j <= |ps|
    ensures j <= k ==> |Utf16(ps[..j])| <= |Utf16(ps[..k])|
    ensures j > k ==> |Utf16(ps[..j])| >= |Utf16(ps[..k])| + |Units(ps[k])|
  {
    if j <= k {
      assert ps[..k][..j] == ps[..j];
      BytesMonotone(ps[..k], j);
    } else {
      Step(ps, k);
      assert ps[..j][..k + 1] == ps[..k + 1];
      BytesMonotone(ps[..j], k + 1);
    }
  }

  /** Two boundaries in order have their byte offsets in the same order. */
  lemma OffsetsOrdered(ps: seq<Piece>, j: nat, k: nat)
    requires AllValid(ps) && j <= |ps| && k <= |ps| && |Utf16(ps[..j])| < |Utf16(ps[..k])|
    ensures ByteCount(ps[..j]) < ByteCount(ps[..k])
  {
    if k <= j {
      assert ps[..j][..k] == ps[..k];
      BytesMonotone(ps[..j], k);
    } else {
      assert ps[..k][..j] == ps[..j];
      BytesMonotone(ps[..k], j);
    }
  }

  // ---- reading the units back ----

  /** The code points of UTF-16 text: a lead and a trail surrogate make one, any other unit is one. */
  function FromUtf16(text: seq<Unit>): seq<int> {
    if text == [] then []
    else if |text| >= 2 && 0xd800 <= text[0] <= 0xdbff && 0xdc00 <= text[1] <= 0xdfff then
      [0x10000 + 0x400 * (text[0] - 0xd800) + (text[1] - 0xdc00)] + FromUtf16(text[2..])
    else [text[0] as int] + FromUtf16(text[1..])
  }

  /** The code points of the input, with a space for each ill-formed sequence. */
  function CodePoints(ps: seq<Piece>): (r: seq<int>)
    ensures |r| == |ps|
  {
    seq(|ps|, i requires 0 <= i < |ps| => if ps[i].c < 0 then 0x20 else ps[i].c)
  }

  lemma {:induction false} Utf16Front(ps: seq<Piece>)
    requires AllValid(ps) && ps != []
    ensures Utf16(ps) == Units(ps[0]) + Utf16(ps[1..])
    decreases |ps|
  {
    hide Units, Utf16;
    var front, last := ps[..|ps| - 1], ps[|ps| - 1];
    Utf16Last(ps);
    if front == [] {
      Utf16None();
      assert ps[1..] == [] && [] + Units(last) == Units(last) + [];
    } else {
      Utf16Front(front);
      Utf16Last(ps[1..]);
      assert front[1..] == ps[1..][..|ps| - 2] && ps[1..][|ps| - 2] == last;
      assert Units(ps[0]) + Utf16(front[1..]) + Units(last) == Units(ps[0]) + (Utf16(front[1..]) + Units(last));
    }
  }

  lemma Utf16None()
    ensures Utf16([]) == []
  {
  }

  lemma {:induction false} Utf16Last(ps: seq<Piece>)
    requires AllValid(ps) && ps != []
    ensures Utf16(ps) == Utf16(ps[..|ps| - 1]) + Units(ps[|ps| - 1])
  {
  }

  lemma {:induction false} FromUnits(p: Piece, rest: seq<Unit>)
    requires p.Valid()
    ensures FromUtf16(Units(p) + rest) == [if p.c < 0 then 0x20 else p.c] + FromUtf16(rest)
  {
    var text := Units(p) + rest;
    assert text[|Units(p)|..] == rest;
  }

  /** Reading the UTF-16 text gives the code points of the input. */
  lemma {:induction false} Utf16Reads(ps: seq<Piece>)
    requires AllValid(ps)
    ensures FromUtf16(Utf16(ps)) == CodePoints(ps)
    decreases |ps|
  {
    hide Units;
    if ps != [] {
      Utf16Front(ps);
      FromUnits(ps[0], Utf16(ps[1..]));
      Utf16Reads(ps[1..]);
      assert CodePoints(ps) == [CodePoints(ps)[0]] + CodePoints(ps[1..]);
    }
  }

  /** The first n sequences are those before the first NUL, or all. */
  predicate UpToNul(ps: seq<Piece>, n: nat) {
    n <= |ps| && (forall i :: 0 <= i < n ==> ps[i].c != 0) && (n < |ps| ==> ps[n].c == 0)
  }

  lemma {:induction false} KeptUpToNul(ps: seq<Piece>) returns (n: nat)
    ensures UpToNul(ps, n) && Kept(ps) == ps[..n]
    decreases |ps|
  {
    n := 0;
    if ps != [] && ps[0].c != 0 {
      n := KeptUpToNul(ps[1..]);
      n := n + 1;
      assert ps[..n] == [ps[0]] + ps[1..][..n - 1];
    }
  }

  /** U+4E2D stays one unit, U+1F600 becomes two, and an ill-formed byte a space. */
  lemma Utf16Example()
    ensures var ps := [Piece(0x4e2d, 3), Piece(0x1f600, 4), Piece(-1, 1)];
      AllValid(ps) && Utf16(ps) == [0x4e2d, 0xd83d, 0xde00, 0x20]
  {
    var a, b, c := Piece(0x4e2d, 3), Piece(0x1f600, 4), Piece(-1, 1);
    assert [a, b, c][..2] == [a, b] && [a, b][..1] == [a] && [a][..0] == [];
    assert Utf16([a]) == [0x4e2d] && Utf16([a, b]) == [0x4e2d] + [0xd83d, 0xde00];
  }

  // ---- the buffers ----

  function Round4(n: nat): (r: nat)
    ensures n <= r < n + 4 && r % 4 == 0
  {
    (n + 3) / 4 * 4
  }

  /** The offsets at all boundaries: where the code point begins in the input. */
  ghost predicate OffsetsOf(ps: seq<Piece>, offsets: seq<int>)
    requires AllValid(ps)
  {
    forall k :: 0 <= k <= |ps| ==> OffsetAt(ps[..k], offsets)
  }

  ghost predicate OffsetAt(front: seq<Piece>, offsets: seq<int>)
    requires AllValid(front)
  {
    |Utf16(front)| < |offsets| && offsets[|Utf16(front)|] == ByteCount(front)
  }

  /** The first i pieces have been kept. */
  ghost predicate KeptTo(ps: seq<Piece>, i: nat)
    requires i <= |ps|
  {
    Kept(ps) == ps[..i] + Kept(ps[i..])
  }

  lemma KeptStart(ps: seq<Piece>)
    ensures KeptTo(ps, 0)
  {
    assert ps[0..] == ps && ps[..0] == [];
  }

  lemma KeptStep(ps: seq<Piece>, i: nat)
    requires i < |ps| && KeptTo(ps, i)
    ensures if ps[i].c == 0 then Kept(ps) == ps[..i] else KeptTo(ps, i + 1)
  {
    assert ps[i..][0] == ps[i] && ps[i..][1..] == ps[i + 1..];
    Push(ps, i, Kept(ps[i + 1..]));
    assert ps[..i] + [] == ps[..i];
  }

  lemma Push(ps: seq<Piece>, i: nat, rest: seq<Piece>)
    requires i < |ps|
    ensures ps[..i] + ([ps[i]] + rest) == ps[..i + 1] + rest
  {
  }

  lemma KeptEnd(ps: seq<Piece>)
    requires KeptTo(ps, |ps|)
    ensures Kept(ps) == ps[..|ps|]
  {
    assert ps[|ps|..] == [];
  }

  lemma OffsetsStep(ps: seq<Piece>, i: nat, offsets: seq<int>, more: seq<int>)
    requires AllValid(ps) && i < |ps| && OffsetsOf(ps[..i], offsets)
    requires |more| == |offsets| && |Utf16(ps[..i + 1])| < |more|
    requires more == offsets[|Utf16(ps[..i + 1])| := ByteCount(ps[..i + 1])]
    ensures OffsetsOf(ps[..i + 1], more)
  {
    hide Utf16, ByteCount, Units;
    var after := ps[..i + 1];
    forall k | 0 <= k <= i + 1
      ensures OffsetAt(after[..k], more)
    {
      assert after[..k] == ps[..k];
      if k <= i {
        assert ps[..i][..k] == ps[..k] && OffsetAt(ps[..k], offsets);
        Between(ps, i, k);
        PieceUnits(ps, i);
      }
    }
  }

  /** What the decoding loop has done after i pieces. */
  ghost predicate Decoded(ps: seq<Piece>, i: nat, iInput: nat, text: seq<Unit>, offsets: seq<int>)
    requires AllValid(ps) && i <= |ps|
  {
    KeptTo(ps, i) && iInput == ByteCount(ps[..i]) && text == Utf16(ps[..i]) && OffsetsOf(ps[..i], offsets)
  }

  lemma DecodedStart(ps: seq<Piece>, offsets: seq<int>)
    requires AllValid(ps) && offsets != [] && offsets[0] == 0
    ensures Decoded(ps, 0, 0, [], offsets)
  {
    KeptStart(ps);
    assert ps[..0] == [] && Utf16([]) == [] && ByteCount([]) == 0;
  }

  lemma DecodedStep(ps: seq<Piece>, i: nat, iInput: nat, text: seq<Unit>, offsets: seq<int>, more: seq<int>)
    requires AllValid(ps) && i < |ps| && ps[i].c != 0 && Decoded(ps, i, iInput, text, offsets)
    requires |more| == |offsets| && |text| + |Units(ps[i])| < |more|
    requires more == offsets[|text| + |Units(ps[i])| := iInput + ps[i].bytes]
    ensures Decoded(ps, i + 1, iInput + ps[i].bytes, text + Units(ps[i]), more)
  {
    hide Utf16, ByteCount, Units, KeptTo, OffsetsOf;
    Step(ps, i);
    KeptStep(ps, i);
    OffsetsStep(ps, i, offsets, more);
  }

  /** Room for the next code point: the text so far is no longer than the bytes read. */
  lemma RoomForPiece(ps: seq<Piece>, i: nat)
    requires AllValid(ps) && i < |ps|
    ensures |Utf16(ps[..i])| + |Units(ps[i])| <= ByteCount(ps)
  {
    Utf16Short(ps[..i]);
    Step(ps, i);
    BytesMonotone(ps, i + 1);
  }

  /**
   The decoding loop of mmtok_open: both buffers are large enough for every input, so the
   append never fails.
   */
  method Open(ps: seq<Piece>) returns (inBuffer: seq<Unit>, inOffset: seq<int>)
    requires AllValid(ps)
    ensures inBuffer == Utf16(Kept(ps)) && OffsetsOf(Kept(ps), inOffset)
    ensures exists n: nat :: UpToNul(ps, n) && Kept(ps) == ps[..n] && FromUtf16(inBuffer) == CodePoints(ps[..n])
  {
    hide Utf16, ByteCount, Kept, Units, KeptTo, OffsetsOf, FromUtf16, CodePoints, UpToNul;
    var nInput := ByteCount(ps);
    var dstLen := Round4(nInput + 1);
    var buffer, offset := new Unit[dstLen](_ => 0), new int[dstLen + 1](_ => 0);
    var iInput, iOutput, i := 0, 0, 0;
    offset[0] := 0;
    DecodedStart(ps, offset[..]);
    assert buffer[..0] == [];
    while i < |ps|
      invariant 0 <= i <= |ps| && 0 <= iInput && 0 <= iOutput < dstLen
      invariant Decoded(ps, i, iInput, buffer[..iOutput], offset[..])
    {
      var p := ps[i];
      KeptStep(ps, i);
      RoomForPiece(ps, i);
      ghost var text, offsets := buffer[..iOutput], offset[..];
      iInput := iInput + p.bytes;
      if p.c == 0 { break; }
      var units := Units(p);
      buffer[iOutput] := units[0];
      if |units| == 2 { buffer[iOutput + 1] := units[1]; }
      iOutput := iOutput + |units|;
      offset[iOutput] := iInput;
      assert buffer[..iOutput] == text + units;
      DecodedStep(ps, i, ByteCount(ps[..i]), text, offsets, offset[..]);
      i := i + 1;
    }
    if i == |ps| { KeptEnd(ps); }
    ghost var n := KeptUpToNul(ps);
    Utf16Reads(Kept(ps));
    inBuffer := buffer[..iOutput];
    inOffset := offset[..];
  }
}
