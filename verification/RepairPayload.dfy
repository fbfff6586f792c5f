/**
 Payloads, sections 1.6 and 1.7 of the SQLite Database File Format: how much of a
 payload is on its leaf page, and the chain of overflow pages that holds the rest.
 */
module RepairPayload {
  import opened Bytes
  import opened RepairInts

  /** The pages of a file; page numbers start at 1. */
  datatype Image = Image(pages: seq<seq<byte>>, pagesize: nat, usable: nat) {
    ghost predicate Valid() {
      && 512 <= pagesize && pagesize - 255 <= usable <= pagesize
      && forall p :: p in pages ==> |p| == pagesize
    }

    /** sqliterkPagerIsPagenoValid */
    predicate Has(pageno: int) { 1 <= pageno <= |pages| }

    function Page(pageno: int): seq<byte>
      requires Has(pageno)
    {
      pages[pageno - 1]
    }
  }

  // ---- the split ----

  function MaxLeaf(usable: nat): int { usable - 35 }

  function MinLocal(usable: nat): int
    requires usable >= 12
  {
    (usable - 12) * 32 / 255 - 23
  }

  /** The number of payload bytes on the leaf page. */
  function Local(size: int, usable: nat): int
    requires usable >= 12
  {
    if size <= MaxLeaf(usable) then size
    else
      var surplus := MinLocal(usable) + (size - MinLocal(usable)) % (usable - 4);
      if surplus <= MaxLeaf(usable) then surplus else MinLocal(usable)
  }

  /**
   A payload that overflows leaves between minLocal and maxLeaf bytes, and not all, on
   its page; if it leaves more than minLocal, the rest fills its overflow pages.
   */
  lemma LocalSplit(size: int, usable: nat)
    requires usable >= 257 && size > MaxLeaf(usable)
    ensures 0 < MinLocal(usable) <= Local(size, usable) <= MaxLeaf(usable) < size
    ensures Local(size, usable) > MinLocal(usable) ==> (size - Local(size, usable)) % (usable - 4) == 0
  {
    var m, n := MinLocal(usable), usable - 4;
    MultipleMod((size - m) / n, n);
    assert size - (m + (size - m) % n) == (size - m) / n * n;
  }

  /**
   M and X of section 1.6 of the file format, without rounding: M + 23 is the whole part
   of 32 (U - 12) / 255, and X, of a table leaf, leaves 35 of the usable bytes.
   */
  predicate LeastLocal(usable: nat, m: int) { 255 * (m + 23) <= 32 * (usable - 12) < 255 * (m + 24) }

  /** With k bytes on the leaf page the others fill their overflow pages. */
  predicate Gapless(size: int, usable: nat, k: int)
    requires usable >= 257
  {
    (size - k) % (usable - 4) == 0
  }

  /** k bytes of a payload stay on its page: all of it, else what leaves no gap, else the least. */
  ghost predicate Split(size: int, usable: nat, k: int)
    requires usable >= 257
  {
    if size + 35 <= usable then k == size
    else exists m :: LeastLocal(usable, m) && SplitFrom(size, usable, m, k)
  }

  ghost predicate SplitFrom(size: int, usable: nat, m: int, k: int)
    requires usable >= 257
  {
    && m <= k <= usable - 35
    && (Gapless(size, usable, k) || (k == m && forall j :: m <= j <= usable - 35 ==> !Gapless(size, usable, j)))
  }

  /** If some allowed split leaves no unused space on the last overflow page, it is the one taken. */
  lemma LocalLeavesNoGap(size: int, usable: nat, k: int)
    requires usable >= 257 && size > MaxLeaf(usable)
    requires MinLocal(usable) <= k <= MaxLeaf(usable) && (size - k) % (usable - 4) == 0
    ensures Local(size, usable) == k
  {
    var m, n := MinLocal(usable), usable - 4;
    var a := size - m;
    assert a - (k - m) == (a - (k - m)) / n * n && a == a / n * n + a % n;
    OnlyMultiple(a / n - (a - (k - m)) / n, n, k - m - a % n);
  }

  lemma LeastIsMinLocal(usable: nat, m: int)
    requires usable >= 12
    ensures LeastLocal(usable, m) <==> m == MinLocal(usable)
  {
  }

  lemma SplitFromExactly(size: int, usable: nat, k: int)
    requires usable >= 257 && size > usable - 35
    ensures SplitFrom(size, usable, MinLocal(usable), k) <==> k == Local(size, usable)
  {
    LocalSplit(size, usable);
    var m, local := MinLocal(usable), Local(size, usable);
    assert Gapless(size, usable, local) || local == m;
    forall j | m <= j <= usable - 35 && Gapless(size, usable, j) ensures j == local {
      LocalLeavesNoGap(size, usable, j);
    }
  }

  /** The code's split is the one of the file format, and there is no other. */
  lemma SplitExactly(size: int, usable: nat, k: int)
    requires usable >= 257
    ensures Split(size, usable, k) <==> k == Local(size, usable)
  {
    hide LeastLocal, SplitFrom, MinLocal;
    if size > usable - 35 {
      hide Local;
      forall i ensures LeastLocal(usable, i) <==> i == MinLocal(usable) { LeastIsMinLocal(usable, i); }
      SplitFromExactly(size, usable, k);
      assert LeastLocal(usable, MinLocal(usable));
    }
  }

  /** 5000 bytes on a page of 4096: 908 stay, and 4092 fill one overflow page. */
  lemma SplitExample()
    ensures Split(5000, 4096, 908) && Local(5000, 4096) == 908 && !Split(5000, 4096, 1002)
  {
    assert LeastLocal(4096, 489) && Gapless(5000, 4096, 908);
    LeastIsMinLocal(4096, 489);
    SplitExactly(5000, 4096, 908);
    SplitExactly(5000, 4096, 1002);
  }

  lemma MultipleMod(q: int, n: int)
    requires n > 0
    ensures q * n % n == 0
  {
    assert q * n == q * n / n * n + q * n % n;
    OnlyMultiple(q - q * n / n, n, q * n % n);
  }

  lemma OnlyMultiple(e: int, n: int, s: int)
    requires n > 0 && e * n == s && -n < s < n
    ensures s == 0
  {
    assert e >= 1 ==> e * n >= n;
    assert e <= -1 ==> e * n <= -n;
  }

  // ---- the chain of overflow pages ----

  /** The number of the next page of a chain, read as an int. */
  function Next(img: Image, pageno: int): int
    requires img.Valid() && img.Has(pageno)
  {
    Signed(Slice(img.Page(pageno), 0, 4))
  }

  datatype Chain = Ends(pages: seq<int>) | Circles

  /**
   The pages of the overflow loop, which stops at a number that is no page; a loop that
   comes back to a page never stops.
   */
  function Follow(img: Image, pageno: int, seen: set<int>): Chain
    requires img.Valid()
    decreases PageSet(img) - seen
  {
    if !img.Has(pageno) then Ends([])
    else if pageno in seen then Circles
    else
      assert pageno in PageSet(img) - seen && pageno !in PageSet(img) - (seen + {pageno});
      match Follow(img, Next(img, pageno), seen + {pageno})
      case Circles => Circles
      case Ends(rest) => Ends([pageno] + rest)
  }

  function PageSet(img: Image): set<int> { set p | 1 <= p <= |img.pages| && img.Has(p) }

  /** How many of the missing bytes one overflow page holds. */
  function Piece(img: Image, left: nat): (n: nat)
    requires img.Valid()
    ensures n <= left && n <= img.usable - 4 && (left > 0 ==> n > 0)
  {
    if left > img.usable - 4 then img.usable - 4 else left
  }

  /** The bytes that the chain's pages contribute while `left` bytes are missing. */
  function Filled(img: Image, pages: seq<int>, left: nat): (r: seq<byte>)
    requires img.Valid() && forall p :: p in pages ==> img.Has(p)
    ensures |r| <= left
  {
    if pages == [] then []
    else
      var n := Piece(img, left);
      Slice(img.Page(pages[0]), 4, n) + Filled(img, pages[1..], left - n)
  }

  lemma {:induction false} FollowPages(img: Image, pageno: int, seen: set<int>)
    requires img.Valid()
    ensures Follow(img, pageno, seen).Ends? ==> forall p :: p in Follow(img, pageno, seen).pages ==> img.Has(p) && p !in seen
    decreases PageSet(img) - seen
  {
    if img.Has(pageno) && pageno !in seen {
      assert pageno in PageSet(img) - seen && pageno !in PageSet(img) - (seen + {pageno});
      FollowPages(img, Next(img, pageno), seen + {pageno});
    }
  }

  /** A payload with its overflow pages, an error, a read outside the data, or a loop without end. */
  datatype Fetched = Fetched(bytes: seq<byte>, pages: seq<int>) | Rejected(rc: Fault) | Outside | Endless

  /** The part of sqliterkBtreeParsePayload that gets a payload into memory. */
  function Fetch(img: Image, pageno: int, offset: int, size: int): Fetched
    requires img.Valid() && img.Has(pageno)
  {
    var page := img.Page(pageno);
    var local := Local(size, img.usable);
    if size <= 0 then Rejected(MISUSE)
    else if offset + local > img.pagesize then Rejected(DAMAGED)
    else if !Within(page, offset, local) then Outside
    else if local == size then Fetched(Slice(page, offset, local), [])
    else if !Within(page, offset + local, 4) then Outside
    else
      var first := Signed(Slice(page, offset + local, 4));
      FollowPages(img, first, {});
      match Follow(img, first, {})
      case Circles => Endless
      case Ends(pages) =>
        var bytes := Slice(page, offset, local) + Filled(img, pages, size - local);
        if |bytes| < size then Outside else Fetched(bytes, pages)
  }

  /** What is rejected: a payload without bytes, and one whose part on this page would run past its end. */
  lemma FetchRejects(img: Image, pageno: int, offset: int, size: int, local: int)
    requires img.Valid() && img.Has(pageno) && Split(size, img.usable, local)
    ensures Fetch(img, pageno, offset, size) == Rejected(MISUSE) <==> size <= 0
    ensures Fetch(img, pageno, offset, size) == Rejected(DAMAGED) <==> size > 0 && offset + local > img.pagesize
  {
    hide Split, Local, Follow, Filled, Signed;
    SplitExactly(size, img.usable, local);
  }

  // ---- payloads as the file format stores them ----

  /** The first page of a chain, 0 for none. */
  function Head(pages: seq<int>): int { if pages == [] then 0 else pages[0] }

  /**
   Section 1.7: each page holds the number of the next one, 0 on the last, and then as many
   bytes as it has room for, on the last all that are left.
   */
  ghost predicate Chained(img: Image, pages: seq<int>, rest: seq<byte>)
    requires img.Valid()
  {
    if pages == [] then rest == []
    else
      var n := if |pages| == 1 then |rest| else img.usable - 4;
      Link(img, pages, rest, n) && Chained(img, pages[1..], rest[n..])
  }

  /** The first page of a chain holds n bytes, which are not all if there are more pages. */
  ghost predicate Link(img: Image, pages: seq<int>, rest: seq<byte>, n: int)
    requires img.Valid() && pages != []
  {
    && 0 < n <= |rest| && n + 4 <= img.usable && (|pages| > 1 ==> n < |rest|)
    && img.Has(pages[0]) && pages[0] !in pages[1..]
    && Next(img, pages[0]) == Head(pages[1..])
    && Slice(img.Page(pages[0]), 4, n) == rest[..n]
  }

  /** The first `local` bytes of a payload lie at this place of a leaf page, the others on these overflow pages. */
  ghost predicate StoredAt(img: Image, pageno: int, offset: nat, payload: seq<byte>, pages: seq<int>, local: int)
    requires img.Valid() && img.Has(pageno)
  {
    var page := img.Page(pageno);
    && payload != [] && 0 <= local <= |payload|
    && Within(page, offset, local) && Slice(page, offset, local) == payload[..local]
    && (if local == |payload| then pages == []
        else Within(page, offset + local, 4) && Signed(Slice(page, offset + local, 4)) == Head(pages)
             && Chained(img, pages, payload[local..]))
  }

  /** The payload is stored as the file format splits it. */
  ghost predicate Stored(img: Image, pageno: int, offset: nat, payload: seq<byte>, pages: seq<int>)
    requires img.Valid() && img.Has(pageno)
  {
    exists local :: Split(|payload|, img.usable, local) && StoredAt(img, pageno, offset, payload, pages, local)
  }

  lemma StoredLocal(img: Image, pageno: int, offset: nat, payload: seq<byte>, pages: seq<int>)
    requires img.Valid() && img.Has(pageno)
    ensures Stored(img, pageno, offset, payload, pages)
            <==> StoredAt(img, pageno, offset, payload, pages, Local(|payload|, img.usable))
  {
    hide Split, StoredAt, Local;
    forall k ensures Split(|payload|, img.usable, k) <==> k == Local(|payload|, img.usable) {
      SplitExactly(|payload|, img.usable, k);
    }
  }

  lemma {:induction false} ChainedStep(img: Image, pages: seq<int>, rest: seq<byte>)
    requires img.Valid() && Chained(img, pages, rest) && pages != []
    ensures var n := Piece(img, |rest|); Link(img, pages, rest, n) && Chained(img, pages[1..], rest[n..])
  {
    hide Next, Signed, Slice;
    var n := if |pages| == 1 then |rest| else img.usable - 4;
    assert Link(img, pages, rest, n);
    assert n == Piece(img, |rest|);
  }

  lemma {:induction false} ChainedEmpty(img: Image, rest: seq<byte>)
    requires img.Valid() && Chained(img, [], rest)
    ensures rest == []
  {
  }

  lemma {:induction false} ChainedFollow(img: Image, pages: seq<int>, rest: seq<byte>, seen: set<int>)
    requires img.Valid() && Chained(img, pages, rest) && forall p :: p in pages ==> p !in seen
    ensures Follow(img, Head(pages), seen) == Ends(pages) && (forall p :: p in pages ==> img.Has(p))
    ensures Filled(img, pages, |rest|) == rest
  {
    hide Next, Chained, Piece;
    if pages != [] {
      ChainedStep(img, pages, rest);
      var n := Piece(img, |rest|);
      ChainedFollow(img, pages[1..], rest[n..], seen + {pages[0]});
      assert rest == rest[..n] + rest[n..];
      assert pages == [pages[0]] + pages[1..];
    } else {
      ChainedEmpty(img, rest);
    }
  }

  /** A stored payload is fetched whole, with its overflow pages in order. */
  lemma FetchRebuilds(img: Image, pageno: int, offset: nat, payload: seq<byte>, pages: seq<int>)
    requires img.Valid() && img.Has(pageno) && Stored(img, pageno, offset, payload, pages)
    ensures Fetch(img, pageno, offset, |payload|) == Fetched(payload, pages)
  {
    hide Local, Split, Signed, Chained, Follow, Filled, Next;
    StoredLocal(img, pageno, offset, payload, pages);
    var local := Local(|payload|, img.usable);
    if local < |payload| {
      ChainedFollow(img, pages, payload[local..], {});
      FollowPages(img, Head(pages), {});
      assert payload == payload[..local] + payload[local..];
    } else {
      assert payload[..local] == payload;
    }
  }
}
