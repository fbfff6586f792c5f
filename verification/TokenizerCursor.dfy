/**
 The tokenizer's cursor: it walks the boundaries of a word-break iterator, skips white
 space, and cuts runs of ideographs into single code points.
 */
module TokenizerCursor {
  import opened Bytes
  import opened TokenizerText

  const UBRK_WORD_NONE := 0
  const UBRK_WORD_NONE_LIMIT := 100
  const UBRK_WORD_IDEO := 400
  const UBRK_WORD_IDEO_LIMIT := 500

  /** A boundary, with the rule status of the segment that ends there. */
  datatype Break = Break(at: int, status: int)

  /** The text as code points and units, the boundaries, and what u_isspace and output_token answer. */
  datatype Text = Text(ps: seq<Piece>, breaks: seq<Break>, isSpace: int -> bool, outputs: (int, int) -> bool) {
    /** Boundaries increase from the start of the text to its end and are aligned to code points. */
    ghost predicate Valid() {
      && AllValid(ps) && breaks != [] && breaks[0].at == 0 && breaks[|breaks| - 1].at == |Utf16(ps)|
      && (forall i, j :: 0 <= i < j < |breaks| ==> breaks[i].at < breaks[j].at)
      && (forall i :: 0 <= i < |breaks| ==> Boundary(ps, breaks[i].at))
    }
  }

  predicate Ideographic(t: Text, i: nat)
    requires i + 1 < |t.breaks|
  {
    UBRK_WORD_IDEO <= t.breaks[i + 1].status < UBRK_WORD_IDEO_LIMIT
  }

  /** A NONE segment that starts with white space, a zero-width space or a star. */
  predicate Skipped(t: Text, i: nat)
    requires t.Valid() && i + 1 < |t.breaks|
  {
    && UBRK_WORD_NONE <= t.breaks[i + 1].status < UBRK_WORD_NONE_LIMIT
    && var c := Utf16(t.ps)[t.breaks[i].at];
       c == 0x2a || c == 0x200b || t.isSpace(c)
  }

  // ---- the cursor ----

  /** `at` is the iterator's position among the boundaries. */
  datatype Cursor = Cursor(at: nat, ideoStart: int, ideoEnd: int, ideoState: int, count: nat)

  datatype Result = Token(start: int, end: int, position: nat) | Error | Done

  ghost predicate CursorOk(t: Text, c: Cursor)
    requires t.Valid()
  {
    c.at < |t.breaks| && (c.ideoState >= 0 ==>
      && 0 <= c.ideoStart <= c.ideoEnd == t.breaks[c.at].at && Boundary(t.ps, c.ideoStart))
  }

  const OPENED := Cursor(0, -1, -1, -1, 0)

  /** output_token */
  function Output(t: Text, c: Cursor, start: int, end: int): (Cursor, Result) {
    if t.outputs(start, end) then (c.(count := c.count + 1), Token(start, end, c.count)) else (c, Error)
  }

  /** The end of the code point at s, seen by find_splited_ideo_token. */
  function PointEnd(t: Text, s: int, end: int): (e: int)
    requires t.Valid() && 0 <= s < end <= |Utf16(t.ps)|
    ensures s < e <= end
  {
    if IsLead(Utf16(t.ps)[s]) && end - s >= 2 then s + 2 else s + 1
  }

  /** The first segment from `at` on that is not skipped; the last boundary if there is none. */
  function FindSegment(t: Text, at: nat): (i: nat)
    requires t.Valid() && at < |t.breaks|
    ensures at <= i < |t.breaks|
    decreases |t.breaks| - at
  {
    if at + 1 == |t.breaks| then at else if Skipped(t, at) then FindSegment(t, at + 1) else at
  }

  /** The boundary that ends the run of ideographic segments containing boundary `at`. */
  function RunEnd(t: Text, at: nat): (j: nat)
    requires at < |t.breaks|
    ensures at <= j < |t.breaks|
    decreases |t.breaks| - at
  {
    if at + 1 == |t.breaks| || !Ideographic(t, at) then at else RunEnd(t, at + 1)
  }

  /** mmtok_next */
  function Next(t: Text, c: Cursor): (Cursor, Result)
    requires t.Valid() && CursorOk(t, c)
  {
    BreakBounds(t, c.at);
    if c.ideoState >= 0 && c.ideoStart != c.ideoEnd then
      var e := PointEnd(t, c.ideoStart, c.ideoEnd);
      Output(t, c.(ideoStart := e), c.ideoStart, e)
    else
      var c1 := c.(ideoState := -1);
      var i := FindSegment(t, c.at);
      if i + 1 == |t.breaks| then (c1.(at := i), Done)
      else
        var start := t.breaks[i].at;
        if !Ideographic(t, i) then Output(t, c1.(at := i + 1), start, t.breaks[i + 1].at)
        else
          var j := RunEnd(t, i + 1);
          BreakBounds(t, j);
          var e := PointEnd(t, start, t.breaks[j].at);
          Output(t, Cursor(j, e, t.breaks[j].at, 0, c.count), start, e)
  }

  lemma BreakBounds(t: Text, i: nat)
    requires t.Valid() && i < |t.breaks|
    ensures 0 <= t.breaks[i].at <= |Utf16(t.ps)|
  {
  }

  // ---- the tokens of a text ----

  /** The code points from s to e. */
  function Split(t: Text, s: int, e: int): seq<(int, int)>
    requires t.Valid() && 0 <= s && e <= |Utf16(t.ps)|
    decreases e - s
  {
    if s >= e then []
    else
      var n := PointEnd(t, s, e);
      [(s, n)] + Split(t, n, e)
  }

  /** From boundary i on: segments, skipped segments left out, maximal ideographic runs split. */
  function Tokens(t: Text, i: nat): seq<(int, int)>
    requires t.Valid() && i < |t.breaks|
    decreases |t.breaks| - i
  {
    if i + 1 == |t.breaks| then []
    else if Skipped(t, i) then Tokens(t, i + 1)
    else if !Ideographic(t, i) then [(t.breaks[i].at, t.breaks[i + 1].at)] + Tokens(t, i + 1)
    else
      var j := RunEnd(t, i + 1);
      BreakBounds(t, i);
      BreakBounds(t, j);
      Split(t, t.breaks[i].at, t.breaks[j].at) + Tokens(t, j)
  }

  /** What the cursor has still to hand out. */
  function Rest(t: Text, c: Cursor): seq<(int, int)>
    requires t.Valid() && CursorOk(t, c)
  {
    BreakBounds(t, c.at);
    (if c.ideoState >= 0 then Split(t, c.ideoStart, c.ideoEnd) else []) + Tokens(t, c.at)
  }

  lemma {:induction false} FindTokens(t: Text, at: nat)
    requires t.Valid() && at < |t.breaks|
    ensures Tokens(t, at) == Tokens(t, FindSegment(t, at))
    ensures FindSegment(t, at) + 1 < |t.breaks| ==> !Skipped(t, FindSegment(t, at))
    decreases |t.breaks| - at
  {
    hide Skipped, Utf16;
    if at + 1 < |t.breaks| && Skipped(t, at) { FindTokens(t, at + 1); }
  }

  /** A call of mmtok_next hands out the next token, if its text can be produced, or ends. */
  lemma NextIsRest(t: Text, c: Cursor)
    requires t.Valid() && CursorOk(t, c)
    ensures HandsOut(t, c, Next(t, c).0, Next(t, c).1)
  {
    hide Skipped, Utf16, Ideographic, HandsOut, Rest, FindSegment, RunEnd, PointEnd;
    BreakBounds(t, c.at);
    if c.ideoState >= 0 && c.ideoStart != c.ideoEnd {
      PendingNext(t, c);
      OutputHandsOut(t, c, c.(ideoStart := PointEnd(t, c.ideoStart, c.ideoEnd)), c.ideoStart, PointEnd(t, c.ideoStart, c.ideoEnd));
    } else {
      FoundNext(t, c);
    }
  }

  /** c hands out the first of what it has left and becomes d, or has nothing left. */
  ghost predicate HandsOut(t: Text, c: Cursor, d: Cursor, r: Result)
    requires t.Valid() && CursorOk(t, c)
  {
    && CursorOk(t, d)
    && (Rest(t, c) == [] <==> r == Done)
    && (Rest(t, c) != [] ==>
          var (start, end) := Rest(t, c)[0];
          && Rest(t, d) == Rest(t, c)[1..]
          && (if t.outputs(start, end) then r == Token(start, end, c.count) && d.count == c.count + 1
              else r == Error && d.count == c.count))
  }

  lemma OutputHandsOut(t: Text, c: Cursor, d: Cursor, start: int, end: int)
    requires t.Valid() && CursorOk(t, c) && CursorOk(t, d) && c.count == d.count
    requires Rest(t, c) == [(start, end)] + Rest(t, d)
    ensures HandsOut(t, c, Output(t, d, start, end).0, Output(t, d, start, end).1)
  {
    hide Tokens, Split;
    var rest := Rest(t, d);
    assert ([(start, end)] + rest)[1..] == rest;
    assert Rest(t, d.(count := d.count + 1)) == rest;
  }

  lemma SplitNothing(t: Text, s: int)
    requires t.Valid()
    ensures 0 <= s <= |Utf16(t.ps)| ==> Split(t, s, s) == []
  {
    hide Utf16;
  }

  lemma FoundRun(t: Text, c: Cursor, i: nat)
    requires t.Valid() && CursorOk(t, c) && i + 1 < |t.breaks| && Ideographic(t, i) && !Skipped(t, i)
    requires Rest(t, c) == Tokens(t, i)
    ensures 0 <= t.breaks[i].at < t.breaks[RunEnd(t, i + 1)].at <= |Utf16(t.ps)|
    ensures var j := RunEnd(t, i + 1);
      var e := PointEnd(t, t.breaks[i].at, t.breaks[j].at);
      var out := Output(t, Cursor(j, e, t.breaks[j].at, 0, c.count), t.breaks[i].at, e);
      HandsOut(t, c, out.0, out.1)
  {
    hide Skipped, Utf16, Ideographic, RunEnd, PointEnd, Tokens, Split, HandsOut;
    RunNext(t, i);
    var j := RunEnd(t, i + 1);
    BreakBounds(t, j);
    var e := PointEnd(t, t.breaks[i].at, t.breaks[j].at);
    OutputHandsOut(t, c, Cursor(j, e, t.breaks[j].at, 0, c.count), t.breaks[i].at, e);
  }

  lemma FoundSegment(t: Text, c: Cursor, i: nat)
    requires t.Valid() && CursorOk(t, c) && i + 1 < |t.breaks| && !Ideographic(t, i) && !Skipped(t, i)
    requires Rest(t, c) == Tokens(t, i)
    ensures var out := Output(t, c.(at := i + 1, ideoState := -1), t.breaks[i].at, t.breaks[i + 1].at);
      HandsOut(t, c, out.0, out.1)
  {
    hide Skipped, Utf16, Ideographic, Split, HandsOut;
    assert [] + Tokens(t, i + 1) == Tokens(t, i + 1);
    OutputHandsOut(t, c, c.(at := i + 1, ideoState := -1), t.breaks[i].at, t.breaks[i + 1].at);
  }

  lemma FoundEnd(t: Text, c: Cursor, i: nat)
    requires t.Valid() && CursorOk(t, c) && i + 1 == |t.breaks| && Rest(t, c) == Tokens(t, i)
    ensures HandsOut(t, c, c.(at := i, ideoState := -1), Done)
  {
    hide Skipped, Utf16, Ideographic, Split;
  }

  lemma NothingPending(t: Text, c: Cursor)
    requires t.Valid() && CursorOk(t, c) && !(c.ideoState >= 0 && c.ideoStart != c.ideoEnd)
    ensures Rest(t, c) == Tokens(t, FindSegment(t, c.at))
  {
    hide Skipped, Utf16, Ideographic, FindSegment, Split, Tokens;
    BreakBounds(t, c.at);
    assert c.ideoState >= 0 ==> Split(t, c.ideoStart, c.ideoEnd) == [] by { SplitNothing(t, c.ideoEnd); }
    FindTokens(t, c.at);
    assert [] + Tokens(t, c.at) == Tokens(t, c.at);
  }

  lemma FoundNext(t: Text, c: Cursor)
    requires t.Valid() && CursorOk(t, c) && !(c.ideoState >= 0 && c.ideoStart != c.ideoEnd)
    ensures HandsOut(t, c, Next(t, c).0, Next(t, c).1)
  {
    hide Skipped, Utf16, Ideographic, FindSegment, RunEnd, PointEnd, Split, Tokens, Rest, HandsOut, Output;
    BreakBounds(t, c.at);
    NothingPending(t, c);
    FindTokens(t, c.at);
    var i := FindSegment(t, c.at);
    if i + 1 == |t.breaks| {
      FoundEnd(t, c, i);
    } else if Ideographic(t, i) {
      FoundRun(t, c, i);
    } else {
      FoundSegment(t, c, i);
    }
  }

  /** The code point at a boundary ends at the next one. */
  lemma PointBoundary(t: Text, s: int, end: int)
    requires t.Valid() && 0 <= s < end <= |Utf16(t.ps)| && Boundary(t.ps, s) && Boundary(t.ps, end)
    ensures Boundary(t.ps, PointEnd(t, s, end))
    ensures forall p :: s < p < PointEnd(t, s, end) ==> !Boundary(t.ps, p)
  {
    hide Utf16;
    NextBoundary(t.ps, s);
  }

  lemma PendingNext(t: Text, c: Cursor)
    requires t.Valid() && CursorOk(t, c) && c.ideoState >= 0 && c.ideoStart != c.ideoEnd && c.ideoEnd <= |Utf16(t.ps)|
    ensures var e := PointEnd(t, c.ideoStart, c.ideoEnd);
      && CursorOk(t, c.(ideoStart := e)) && Rest(t, c) == [(c.ideoStart, e)] + Rest(t, c.(ideoStart := e))
  {
    hide Utf16, Tokens;
    PointBoundary(t, c.ideoStart, c.ideoEnd);
    var e := PointEnd(t, c.ideoStart, c.ideoEnd);
    Bracket([(c.ideoStart, e)], Split(t, e, c.ideoEnd), Tokens(t, c.at));
  }

  lemma RunNext(t: Text, i: nat)
    requires t.Valid() && i + 1 < |t.breaks| && Ideographic(t, i) && !Skipped(t, i)
    ensures var j := RunEnd(t, i + 1);
      && t.breaks[i].at < t.breaks[j].at <= |Utf16(t.ps)| && 0 <= t.breaks[i].at
      && var e := PointEnd(t, t.breaks[i].at, t.breaks[j].at);
         && Boundary(t.ps, e) && e <= t.breaks[j].at
         && Tokens(t, i) == [(t.breaks[i].at, e)] + (Split(t, e, t.breaks[j].at) + Tokens(t, j))
  {
    hide Utf16, Skipped, Ideographic;
    var j := RunEnd(t, i + 1);
    BreakBounds(t, i);
    BreakBounds(t, j);
    PointBoundary(t, t.breaks[i].at, t.breaks[j].at);
    var e := PointEnd(t, t.breaks[i].at, t.breaks[j].at);
    Bracket([(t.breaks[i].at, e)], Split(t, e, t.breaks[j].at), Tokens(t, j));
  }

  // ---- a whole run ----

  /** The tokens in turn, numbered by those whose text could be produced. */
  function Numbered(t: Text, toks: seq<(int, int)>, n: nat): seq<Result>
    decreases |toks|
  {
    if toks == [] then []
    else if t.outputs(toks[0].0, toks[0].1) then [Token(toks[0].0, toks[0].1, n)] + Numbered(t, toks[1..], n + 1)
    else [Error] + Numbered(t, toks[1..], n)
  }

  /** All results before the last, which is Done. */
  function Run(t: Text, c: Cursor): seq<Result>
    requires t.Valid() && CursorOk(t, c)
    decreases |Rest(t, c)|
  {
    NextIsRest(t, c);
    var (d, r) := Next(t, c);
    if r == Done then [] else [r] + Run(t, d)
  }

  /** A run from any cursor hands out what is left, in order, and then ends. */
  lemma {:induction false} RunIsRest(t: Text, c: Cursor)
    requires t.Valid() && CursorOk(t, c)
    ensures Run(t, c) == Numbered(t, Rest(t, c), c.count)
    decreases |Rest(t, c)|
  {
    hide CursorOk, Next, Rest;
    NextIsRest(t, c);
    var (d, r) := Next(t, c);
    if r != Done { RunIsRest(t, d); }
  }

  /** From the opened cursor: the tokens of the text. */
  lemma RunIsTokens(t: Text)
    requires t.Valid()
    ensures CursorOk(t, OPENED) && Run(t, OPENED) == Numbered(t, Tokens(t, 0), 0)
  {
    hide Run, Tokens;
    RunIsRest(t, OPENED);
    assert [] + Tokens(t, 0) == Tokens(t, 0);
  }

  // ---- what the tokens are ----

  /** Non-empty, disjoint, in order, within lo and hi, with both ends between code points. */
  ghost predicate InOrder(t: Text, toks: seq<(int, int)>, lo: int, hi: int)
    requires AllValid(t.ps)
    decreases |toks|
  {
    if toks == [] then lo <= hi
    else
      && lo <= toks[0].0 < toks[0].1 && Boundary(t.ps, toks[0].0) && Boundary(t.ps, toks[0].1)
      && InOrder(t, toks[1..], toks[0].1, hi)
  }

  predicate Holds(tok: (int, int), u: int) { tok.0 <= u < tok.1 }

  predicate Covered(toks: seq<(int, int)>, u: int) { exists k :: 0 <= k < |toks| && Holds(toks[k], u) }

  /** The token is a single code point. */
  ghost predicate Point(t: Text, tok: (int, int))
    requires AllValid(t.ps)
  {
    forall p :: tok.0 < p < tok.1 ==> !Boundary(t.ps, p)
  }

  lemma {:induction false} InOrderAppend(t: Text, a: seq<(int, int)>, b: seq<(int, int)>, lo: int, mid: int, hi: int)
    requires AllValid(t.ps) && InOrder(t, a, lo, mid) && InOrder(t, b, mid, hi)
    ensures InOrder(t, a + b, lo, hi)
    decreases |a|
  {
    if a == [] {
      assert a + b == b;
      Lower(t, b, mid, lo, hi);
    } else {
      assert (a + b)[1..] == a[1..] + b;
      InOrderAppend(t, a[1..], b, a[0].1, mid, hi);
    }
  }

  lemma {:induction false} Lower(t: Text, toks: seq<(int, int)>, mid: int, lo: int, hi: int)
    requires AllValid(t.ps) && lo <= mid && InOrder(t, toks, mid, hi)
    ensures InOrder(t, toks, lo, hi)
  {
  }

  /** Tokens in order lie between the bounds. */
  lemma {:induction false} InOrderBounds(t: Text, toks: seq<(int, int)>, lo: int, hi: int, u: int)
    requires AllValid(t.ps) && InOrder(t, toks, lo, hi) && Covered(toks, u)
    ensures lo <= u < hi
    decreases |toks|
  {
    var k :| 0 <= k < |toks| && Holds(toks[k], u);
    InOrderEnd(t, toks, lo, hi);
    if k > 0 {
      assert toks[1..][k - 1] == toks[k];
      InOrderBounds(t, toks[1..], toks[0].1, hi, u);
    } else {
      InOrderEnd(t, toks[1..], toks[0].1, hi);
    }
  }

  lemma {:induction false} InOrderEnd(t: Text, toks: seq<(int, int)>, lo: int, hi: int)
    requires AllValid(t.ps) && InOrder(t, toks, lo, hi)
    ensures lo <= hi
    decreases |toks|
  {
    if toks != [] { InOrderEnd(t, toks[1..], toks[0].1, hi); }
  }

  lemma CoveredAppend(a: seq<(int, int)>, b: seq<(int, int)>, u: int)
    ensures Covered(a + b, u) <==> Covered(a, u) || Covered(b, u)
  {
    if Covered(a, u) {
      var k :| 0 <= k < |a| && Holds(a[k], u);
      assert (a + b)[k] == a[k];
    }
    if Covered(b, u) {
      var k :| 0 <= k < |b| && Holds(b[k], u);
      assert (a + b)[|a| + k] == b[k];
    }
  }

  /** A run of ideographs is cut into exactly its code points. */
  lemma {:induction false} SplitPoints(t: Text, s: int, e: int)
    requires t.Valid() && 0 <= s <= e <= |Utf16(t.ps)| && Boundary(t.ps, s) && Boundary(t.ps, e)
    ensures InOrder(t, Split(t, s, e), s, e)
    ensures forall u :: Covered(Split(t, s, e), u) <==> s <= u < e
    ensures forall k :: 0 <= k < |Split(t, s, e)| ==> Point(t, Split(t, s, e)[k])
    decreases e - s
  {
    hide Utf16, PointEnd, Boundary;
    if s < e {
      var n := PointEnd(t, s, e);
      PointBoundary(t, s, e);
      SplitPoints(t, n, e);
      forall u ensures Covered(Split(t, s, e), u) <==> s <= u < e {
        CoveredAppend([(s, n)], Split(t, n, e), u);
        OneCovered((s, n), u);
      }
    }
  }

  lemma OneCovered(tok: (int, int), u: int)
    ensures Covered([tok], u) <==> Holds(tok, u)
  {
    assert [tok][0] == tok;
  }

  /** The part of the text from boundary i on is in order, and covered but for the skipped segments. */
  lemma {:induction false} TokensInOrder(t: Text, i: nat)
    requires t.Valid() && i < |t.breaks|
    ensures InOrder(t, Tokens(t, i), t.breaks[i].at, |Utf16(t.ps)|)
    decreases |t.breaks| - i
  {
    hide Utf16, Skipped, Ideographic, Split, Boundary;
    BreakBounds(t, i);
    if i + 1 < |t.breaks| {
      var lo, hi := t.breaks[i].at, |Utf16(t.ps)|;
      BreakBounds(t, i + 1);
      if Skipped(t, i) {
        TokensInOrder(t, i + 1);
        Lower(t, Tokens(t, i + 1), t.breaks[i + 1].at, lo, hi);
      } else if !Ideographic(t, i) {
        TokensInOrder(t, i + 1);
      } else {
        var j := RunEnd(t, i + 1);
        BreakBounds(t, j);
        TokensInOrder(t, j);
        SplitPoints(t, lo, t.breaks[j].at);
        InOrderAppend(t, Split(t, lo, t.breaks[j].at), Tokens(t, j), lo, t.breaks[j].at, hi);
      }
    }
  }

  lemma {:induction false} RunIsIdeographic(t: Text, at: nat, k: nat)
    requires t.Valid() && at < |t.breaks| && at <= k < RunEnd(t, at)
    ensures Ideographic(t, k)
    decreases |t.breaks| - at
  {
    hide Ideographic;
    if k > at { RunIsIdeographic(t, at + 1, k); }
  }

  lemma NotSkippedIdeographic(t: Text, k: nat)
    requires t.Valid() && k + 1 < |t.breaks| && Ideographic(t, k)
    ensures !Skipped(t, k)
  {
    hide Utf16;
  }

  /** The rule status of the segment that starts at a boundary. */
  predicate HasStatus(t: Text, i: nat, from: int, limit: int)
    requires i + 1 < |t.breaks|
  {
    from <= t.breaks[i + 1].status < limit
  }

  /** No word, and it begins with a star, a zero-width space or white space. */
  predicate Ignorable(t: Text, i: nat)
    requires t.Valid() && i + 1 < |t.breaks|
  {
    HasStatus(t, i, 0, 100) && var c := Utf16(t.ps)[t.breaks[i].at]; c == '*' as int || c == 0x200b || t.isSpace(c)
  }

  lemma SkippedIs(t: Text, i: nat)
    requires t.Valid() && i + 1 < |t.breaks|
    ensures Skipped(t, i) <==> Ignorable(t, i)
  {
  }

  lemma IdeographicIs(t: Text, i: nat)
    requires i + 1 < |t.breaks|
    ensures Ideographic(t, i) <==> HasStatus(t, i, 400, 500)
  {
  }

  /** A unit is outside all tokens exactly if it is in a segment that can be ignored. */
  lemma TokensCover(t: Text, i: nat, k: nat, u: int)
    requires t.Valid() && i <= k && k + 1 < |t.breaks| && t.breaks[k].at <= u < t.breaks[k + 1].at
    ensures Covered(Tokens(t, i), u) <==> !Ignorable(t, k)
  {
    hide Utf16, Skipped, Ignorable, Tokens, Covered;
    CoverFrom(t, i, k, u);
    SkippedIs(t, k);
  }

  lemma {:induction false} CoverFrom(t: Text, i: nat, k: nat, u: int)
    requires t.Valid() && i <= k && k + 1 < |t.breaks| && t.breaks[k].at <= u < t.breaks[k + 1].at
    ensures Covered(Tokens(t, i), u) <==> !Skipped(t, k)
    decreases |t.breaks| - i
  {
    hide Utf16, Skipped, Ideographic, Split, Boundary, Covered, Holds;
    BreakBounds(t, i);
    BreakBounds(t, i + 1);
    if Skipped(t, i) {
      SkipCover(t, i, k, u);
    } else if !Ideographic(t, i) {
      var tok := (t.breaks[i].at, t.breaks[i + 1].at);
      CoveredAppend([tok], Tokens(t, i + 1), u);
      OneCovered(tok, u);
      assert Holds(tok, u) <==> k == i by { HoldsHere(t, i, k, u); }
      SkipCover(t, i, k, u);
    } else {
      var j := RunEnd(t, i + 1);
      BreakBounds(t, j);
      SplitPoints(t, t.breaks[i].at, t.breaks[j].at);
      CoveredAppend(Split(t, t.breaks[i].at, t.breaks[j].at), Tokens(t, j), u);
      if k < j {
        if k > i { RunIsIdeographic(t, i + 1, k); }
        NotSkippedIdeographic(t, k);
      } else {
        CoverFrom(t, j, k, u);
      }
    }
  }

  lemma HoldsHere(t: Text, i: nat, k: nat, u: int)
    requires t.Valid() && i <= k && k + 1 < |t.breaks| && t.breaks[k].at <= u < t.breaks[k + 1].at
    ensures Holds((t.breaks[i].at, t.breaks[i + 1].at), u) <==> k == i
  {
  }

  /** Of the tokens after segment i, exactly those after k == i matter. */
  lemma {:induction false} SkipCover(t: Text, i: nat, k: nat, u: int)
    requires t.Valid() && i <= k && k + 1 < |t.breaks| && t.breaks[k].at <= u < t.breaks[k + 1].at
    ensures k == i ==> !Covered(Tokens(t, i + 1), u)
    ensures k > i ==> (Covered(Tokens(t, i + 1), u) <==> !Skipped(t, k))
    decreases |t.breaks| - i, 0
  {
    hide Utf16, Skipped, Ideographic, Tokens;
    if k > i {
      CoverFrom(t, i + 1, k, u);
    } else if Covered(Tokens(t, i + 1), u) {
      TokensInOrder(t, i + 1);
      InOrderBounds(t, Tokens(t, i + 1), t.breaks[i + 1].at, |Utf16(t.ps)|, u);
    }
  }

  /** A token is a whole segment that is neither ideographic nor skipped, or one ideograph. */
  ghost predicate Proper(t: Text, tok: (int, int))
    requires t.Valid()
  {
    || (exists i: nat :: IsSegment(t, i, tok) && !HasStatus(t, i, 400, 500) && !Ignorable(t, i))
    || (Point(t, tok) && exists i: nat :: Within(t, i, tok.0) && HasStatus(t, i, 400, 500))
  }

  predicate IsSegment(t: Text, i: nat, tok: (int, int)) {
    i + 1 < |t.breaks| && tok == (t.breaks[i].at, t.breaks[i + 1].at)
  }

  predicate Within(t: Text, i: nat, u: int) { i + 1 < |t.breaks| && t.breaks[i].at <= u < t.breaks[i + 1].at }

  /** A position of a run lies in one of its segments. */
  lemma {:induction false} SegmentOf(t: Text, i: nat, j: nat, u: int) returns (k: nat)
    requires t.Valid() && i <= j < |t.breaks| && t.breaks[i].at <= u < t.breaks[j].at
    ensures i <= k < j && Within(t, k, u)
    decreases j - i
  {
    if u < t.breaks[i + 1].at { k := i; } else { k := SegmentOf(t, i + 1, j, u); }
  }

  lemma SplitProper(t: Text, i: nat, k: nat)
    requires t.Valid() && i + 1 < |t.breaks| && Ideographic(t, i)
    requires 0 <= t.breaks[i].at && t.breaks[RunEnd(t, i + 1)].at <= |Utf16(t.ps)|
    requires k < |Split(t, t.breaks[i].at, t.breaks[RunEnd(t, i + 1)].at)|
    ensures Proper(t, Split(t, t.breaks[i].at, t.breaks[RunEnd(t, i + 1)].at)[k])
  {
    hide Utf16, Skipped, Ideographic, Split, Boundary, InOrder;
    var j := RunEnd(t, i + 1);
    var toks := Split(t, t.breaks[i].at, t.breaks[j].at);
    SplitPoints(t, t.breaks[i].at, t.breaks[j].at);
    InOrderEach(t, toks, t.breaks[i].at, t.breaks[j].at, k);
    assert Holds(toks[k], toks[k].0);
    assert Covered(toks, toks[k].0);
    var n := SegmentOf(t, i, j, toks[k].0);
    if n > i { RunIsIdeographic(t, i + 1, n); }
    IdeographicIs(t, n);
    assert Within(t, n, toks[k].0) && HasStatus(t, n, 400, 500);
  }

  lemma {:induction false} InOrderEach(t: Text, toks: seq<(int, int)>, lo: int, hi: int, k: nat)
    requires AllValid(t.ps) && InOrder(t, toks, lo, hi) && k < |toks|
    ensures lo <= toks[k].0 < toks[k].1 <= hi && Boundary(t.ps, toks[k].0) && Boundary(t.ps, toks[k].1)
    decreases |toks|
  {
    InOrderEnd(t, toks, lo, hi);
    if k > 0 { InOrderEach(t, toks[1..], toks[0].1, hi, k - 1); } else { InOrderEnd(t, toks[1..], toks[0].1, hi); }
  }

  lemma {:induction false} TokensProper(t: Text, i: nat, k: nat)
    requires t.Valid() && i < |t.breaks| && k < |Tokens(t, i)|
    ensures Proper(t, Tokens(t, i)[k])
    decreases |t.breaks| - i
  {
    hide Utf16, Skipped, Ideographic, Split, Proper;
    BreakBounds(t, i);
    if Skipped(t, i) {
      TokensProper(t, i + 1, k);
    } else if !Ideographic(t, i) {
      SegmentProper(t, i);
      if k > 0 { TokensProper(t, i + 1, k - 1); }
    } else {
      var j := RunEnd(t, i + 1);
      BreakBounds(t, j);
      var n := |Split(t, t.breaks[i].at, t.breaks[j].at)|;
      if k < n { SplitProper(t, i, k); } else { TokensProper(t, j, k - n); }
    }
  }

  lemma SegmentProper(t: Text, i: nat)
    requires t.Valid() && i + 1 < |t.breaks| && !Ideographic(t, i) && !Skipped(t, i)
    ensures Proper(t, (t.breaks[i].at, t.breaks[i + 1].at))
  {
    SkippedIs(t, i);
    IdeographicIs(t, i);
    assert IsSegment(t, i, (t.breaks[i].at, t.breaks[i + 1].at));
  }

  /** The tokens that were handed out, without the errors. */
  function Successes(rs: seq<Result>): seq<Result> {
    if rs == [] then [] else if rs[0].Token? then [rs[0]] + Successes(rs[1..]) else Successes(rs[1..])
  }

  /** The successful tokens are numbered without gaps, and each is one of the tokens. */
  lemma {:induction false} NumberedInTurn(t: Text, toks: seq<(int, int)>, n: nat, k: nat)
    requires k < |Successes(Numbered(t, toks, n))|
    ensures var r := Successes(Numbered(t, toks, n))[k];
      && r.Token? && r.position == n + k
      && exists i :: 0 <= i < |toks| && toks[i] == (r.start, r.end)
    decreases |toks|
  {
    var rest := toks[1..];
    if t.outputs(toks[0].0, toks[0].1) {
      assert ([Token(toks[0].0, toks[0].1, n)] + Numbered(t, rest, n + 1))[1..] == Numbered(t, rest, n + 1);
      if k > 0 { NumberedInTurn(t, rest, n + 1, k - 1); }
    } else {
      assert ([Result.Error] + Numbered(t, rest, n))[1..] == Numbered(t, rest, n);
      NumberedInTurn(t, rest, n, k);
    }
    var r := Successes(Numbered(t, toks, n))[k];
    if !(k == 0 && t.outputs(toks[0].0, toks[0].1)) {
      var i :| 0 <= i < |rest| && rest[i] == (r.start, r.end);
      assert toks[i + 1] == (r.start, r.end);
    }
  }

  /** Where the successful tokens lie. */
  function Spans(rs: seq<Result>): seq<(int, int)> {
    if rs == [] then [] else if rs[0].Token? then [(rs[0].start, rs[0].end)] + Spans(rs[1..]) else Spans(rs[1..])
  }

  lemma {:induction false} SpansInOrder(t: Text, toks: seq<(int, int)>, n: nat, lo: int, hi: int)
    requires AllValid(t.ps) && InOrder(t, toks, lo, hi)
    ensures InOrder(t, Spans(Numbered(t, toks, n)), lo, hi)
    decreases |toks|
  {
    hide Boundary;
    if toks != [] {
      var rest := toks[1..];
      if t.outputs(toks[0].0, toks[0].1) {
        SpansInOrder(t, rest, n + 1, toks[0].1, hi);
        assert ([Token(toks[0].0, toks[0].1, n)] + Numbered(t, rest, n + 1))[1..] == Numbered(t, rest, n + 1);
      } else {
        SpansInOrder(t, rest, n, toks[0].1, hi);
        Lower(t, Spans(Numbered(t, rest, n)), toks[0].1, lo, hi);
        assert ([Result.Error] + Numbered(t, rest, n))[1..] == Numbered(t, rest, n);
      }
    }
  }

  /**
   A whole run: the tokens handed out are numbered 0, 1, 2, ..., non-empty, disjoint and
   increasing, and begin and end between code points.
   */
  lemma WholeRun(t: Text)
    requires t.Valid()
    ensures CursorOk(t, OPENED) && InOrder(t, Spans(Run(t, OPENED)), 0, |Utf16(t.ps)|)
    ensures forall k :: 0 <= k < |Successes(Run(t, OPENED))| ==>
      Successes(Run(t, OPENED))[k].Token? && Successes(Run(t, OPENED))[k].position == k
  {
    hide Run, Tokens, Utf16, Spans, Successes, Numbered, InOrder;
    RunIsTokens(t);
    TokensInOrder(t, 0);
    SpansInOrder(t, Tokens(t, 0), 0, 0, |Utf16(t.ps)|);
    forall k | 0 <= k < |Successes(Run(t, OPENED))|
      ensures Successes(Run(t, OPENED))[k].Token? && Successes(Run(t, OPENED))[k].position == k
    {
      NumberedInTurn(t, Tokens(t, 0), 0, k);
    }
  }

  /** The byte offsets of a token: where its first code point begins and where its last one ends. */
  lemma TokenOffsets(t: Text, offsets: seq<int>, i: nat)
    requires t.Valid() && OffsetsOf(t.ps, offsets) && i < |Tokens(t, 0)|
    ensures var (start, end) := Tokens(t, 0)[i];
      exists j, k :: BoundaryAt(t.ps, start, j) && BoundaryAt(t.ps, end, k) && start < |offsets| && end < |offsets|
        && 0 <= start < end && offsets[start] == ByteCount(t.ps[..j]) < ByteCount(t.ps[..k]) == offsets[end]
  {
    hide Utf16, ByteCount, Tokens, InOrder, OffsetAt;
    TokensInOrder(t, 0);
    var (start, end) := Tokens(t, 0)[i];
    InOrderEach(t, Tokens(t, 0), 0, |Utf16(t.ps)|, i);
    var j :| BoundaryAt(t.ps, start, j);
    var k :| BoundaryAt(t.ps, end, k);
    OffsetsOrdered(t.ps, j, k);
    OffsetIs(t.ps, offsets, j);
    OffsetIs(t.ps, offsets, k);
  }

  lemma OffsetIs(ps: seq<Piece>, offsets: seq<int>, k: nat)
    requires AllValid(ps) && OffsetsOf(ps, offsets) && k <= |ps|
    ensures |Utf16(ps[..k])| < |offsets| && offsets[|Utf16(ps[..k])|] == ByteCount(ps[..k])
  {
    assert OffsetAt(ps[..k], offsets);
  }

  // ---- the cursor's fields ----

  class MmCursor {
    const text: Text
    const inBuffer: seq<Unit>
    /** The iterator's position, an index of text.breaks. */
    var iter: nat
    var ideoStart: int
    var ideoEnd: int
    var ideoState: int
    var tokenCount: nat

    function At(): Cursor
      reads this
    {
      Cursor(iter, ideoStart, ideoEnd, ideoState, tokenCount)
    }

    ghost predicate Valid()
      reads this
    {
      text.Valid() && inBuffer == Utf16(text.ps) && CursorOk(text, At())
    }

    /** The end of mmtok_open. */
    constructor (text: Text, inBuffer: seq<Unit>)
      requires text.Valid() && inBuffer == Utf16(text.ps)
      ensures Valid() && At() == OPENED && this.text == text
    {
      this.text := text;
      this.inBuffer := inBuffer;
      iter, ideoStart, ideoEnd, ideoState, tokenCount := 0, -1, -1, -1, 0;
    }

    /** output_token */
    method OutputToken(start: int, end: int) returns (r: Result)
      modifies this`tokenCount
      ensures (At(), r) == Output(text, old(At()), start, end)
    {
      if !text.outputs(start, end) { return Error; }
      r := Token(start, end, tokenCount);
      tokenCount := tokenCount + 1;
    }

    /** find_splited_ideo_token */
    method FindSplitedIdeoToken() returns (found: bool, start: int, end: int)
      requires Valid()
      modifies this`ideoStart, this`ideoState
      ensures found == (old(ideoState) >= 0 && old(ideoStart) != ideoEnd)
      ensures found ==> 0 <= start == old(ideoStart) < ideoEnd <= |Utf16(text.ps)|
      ensures found ==> end == PointEnd(text, start, ideoEnd) && At() == old(At()).(ideoStart := end)
      ensures !found ==> start == 0 && end == 0 && At() == old(At()).(ideoState := if old(ideoState) >= 0 then -1 else old(ideoState))
    {
      hide Utf16, Boundary;
      BreakBounds(text, iter);
      found, start, end := false, 0, 0;
      if ideoState < 0 { return; }
      if ideoStart == ideoEnd {
        ideoState := -1;
        return;
      }
      var s := ideoStart;
      var e := s + 1;
      if IsLead(inBuffer[s]) && ideoEnd - s >= 2 { e := e + 1; }
      ideoStart := e;
      return true, s, e;
    }

    /** The ideographic segments that follow belong to the run; the iterator stays at their end. */
    method ExtendRun() returns (end: int)
      requires iter < |text.breaks|
      modifies this`iter
      ensures iter == RunEnd(text, old(iter)) && end == text.breaks[iter].at
    {
      hide Ideographic;
      end := text.breaks[iter].at;
      while iter + 1 < |text.breaks| && IsIdeographic(iter)
        invariant iter < |text.breaks| && RunEnd(text, old(iter)) == RunEnd(text, iter) && end == text.breaks[iter].at
        decreases |text.breaks| - iter
      {
        iter := iter + 1;
        end := text.breaks[iter].at;
      }
    }

    /** On to the first segment that is not skipped. */
    method SkipSegments()
      requires text.Valid() && inBuffer == Utf16(text.ps) && iter < |text.breaks|
      modifies this`iter
      ensures iter == FindSegment(text, old(iter))
    {
      hide Skipped, Utf16;
      while iter + 1 < |text.breaks| && SkipsSegment(iter)
        invariant iter < |text.breaks| && FindSegment(text, old(iter)) == FindSegment(text, iter)
        decreases |text.breaks| - iter
      {
        iter := iter + 1;
      }
    }

    /** mmtok_next */
    method NextToken() returns (r: Result)
      requires Valid() && (ideoState >= 0 || ideoState == -1)
      modifies this
      ensures Valid() && (At(), r) == Next(text, old(At())) && (ideoState >= 0 || ideoState == -1)
    {
      hide Utf16, Skipped, Ideographic, PointEnd, Boundary, FindSegment, RunEnd, Output, Rest, Split, Tokens;
      ghost var c := At();
      NextIsRest(text, c);
      var found, start, end := FindSplitedIdeoToken();
      if found {
        r := OutputToken(start, end);
        return;
      }
      SkipSegments();
      if iter + 1 == |text.breaks| { return Done; }
      BreakBounds(text, iter);
      start := text.breaks[iter].at;
      ghost var i := iter;
      iter := iter + 1;
      end := text.breaks[iter].at;
      if !IsIdeographic(iter - 1) {
        r := OutputToken(start, end);
        return;
      }
      end := ExtendRun();
      ideoStart, ideoEnd, ideoState := start, end, 0;
      RunCursorOk(text, At(), i);
      found, start, end := FindSplitedIdeoToken();
      r := OutputToken(start, end);
    }

    predicate IsIdeographic(i: nat)
      requires i + 1 < |text.breaks|
    {
      Ideographic(text, i)
    }

    /** The test on the first unit of a segment. */
    predicate SkipsSegment(i: nat)
      requires text.Valid() && inBuffer == Utf16(text.ps) && i + 1 < |text.breaks|
      ensures SkipsSegment(i) == Skipped(text, i)
    {
      && UBRK_WORD_NONE <= text.breaks[i + 1].status < UBRK_WORD_NONE_LIMIT
      && var c := inBuffer[text.breaks[i].at];
         c == 0x2a || c == 0x200b || text.isSpace(c)
    }
  }

  lemma RunCursorOk(t: Text, c: Cursor, i: nat)
    requires t.Valid() && i < c.at < |t.breaks| && c.ideoStart == t.breaks[i].at && c.ideoEnd == t.breaks[c.at].at
    ensures CursorOk(t, c) && c.ideoStart < c.ideoEnd
  {
    BreakBounds(t, i);
  }
}
