/**
 Index b-trees, section 1.6 of the SQLite Database File Format, and what the walk makes of
 them.  The header of an interior index page has twelve bytes, as that of an interior table
 page, but the code reads the cell pointers behind the first eight.  So the two halves of
 the right-most child's number are taken for cell pointers, and the last cells are missed.
 */
module RepairIndex {
  import opened Bytes
  import opened RepairInts
  import opened RepairPayload
  import opened RepairWalk
  import opened RepairTree
  import opened RepairReach

  /** An index page with its children, of which the last is the right-most one; none on a leaf. */
  datatype IndexTree = IndexTree(pageno: int, kids: seq<IndexTree>)

  function Roots(kids: seq<IndexTree>): (r: seq<int>)
    ensures |r| == |kids|
  {
    seq(|kids|, i requires 0 <= i < |kids| => kids[i].pageno)
  }

  function IndexPages(t: IndexTree): set<int> { {t.pageno} + AllIndexPages(t.kids) }

  function AllIndexPages(kids: seq<IndexTree>): set<int> {
    if kids == [] then {} else IndexPages(kids[0]) + AllIndexPages(kids[1..])
  }

  // ---- the file format ----

  predicate IndexPage(img: Image, p: int, children: seq<int>, pointers: seq<int>)
    requires img.Valid() && img.Has(p)
  {
    var page := img.Page(p);
    if children == [] then PageHeader(img, p, LEAF_INDEX, 8, pointers)
    else
      && PageHeader(img, p, INTERIOR_INDEX, 12, pointers) && |pointers| + 1 == |children|
      && (forall i :: 0 <= i < |pointers| ==> IntIs(page, pointers[i], 4, children[i]))
      && IntIs(page, 8, 4, children[|children| - 1])
  }

  /** The page and those below it hold the index. */
  ghost predicate HoldsIndex(img: Image, t: IndexTree)
    requires img.Valid()
  {
    && img.Has(t.pageno) && (exists pointers :: IndexPage(img, t.pageno, Roots(t.kids), pointers))
    && forall i :: 0 <= i < |t.kids| ==> HoldsIndex(img, t.kids[i])
  }

  // ---- the code's view of it ----

  /** The halves of the right-most child's number, as two signed integers. */
  function High(page: seq<byte>): int
    requires |page| >= 12
  {
    Signed(Slice(page, 8, 2))
  }

  function Low(page: seq<byte>): int
    requires |page| >= 12
  {
    Signed(Slice(page, 10, 2))
  }

  /** What is read in place of the first cell pointers of a page with n cells. */
  function StrayOffsets(page: seq<byte>, n: nat): (r: seq<int>)
    requires |page| >= 12
    ensures |r| <= n && |r| <= 2
  {
    if n == 0 then [] else if n == 1 then [High(page)] else [High(page), Low(page)]
  }

  /** The numbers that are read there and taken for children. */
  function Strays(img: Image, p: int, n: nat): Result<seq<int>>
    requires img.Valid() && img.Has(p)
  {
    Ints(img.Page(p), StrayOffsets(img.Page(p), n), 4)
  }

  lemma {:induction false} IntsLength(page: seq<byte>, at: seq<int>, width: int)
    ensures Ints(page, at, width).Done? ==> |Ints(page, at, width).value| == |at|
    decreases |at|
  {
    hide IntAt;
    if at != [] { IntsLength(page, at[1..], width); }
  }

  /** Reading at two lists of places, one behind the other. */
  lemma {:induction false} IntsJoin(page: seq<byte>, a: seq<int>, b: seq<int>, width: int)
    ensures Ints(page, a, width).Done? && Ints(page, b, width).Done? ==>
      Ints(page, a + b, width) == Done(Ints(page, a, width).value + Ints(page, b, width).value)
    ensures !Ints(page, a, width).Done? ==> !Ints(page, a + b, width).Done?
    decreases |a|
  {
    hide IntAt;
    if a == [] {
      assert a + b == b;
      if Ints(page, b, width).Done? { assert [] + Ints(page, b, width).value == Ints(page, b, width).value; }
    } else {
      IntsJoin(page, a[1..], b, width);
      assert (a + b)[1..] == a[1..] + b;
      var first, r, s := IntAt(page, a[0], width), Ints(page, a[1..], width), Ints(page, b, width);
      if first.Done? && r.Done? && s.Done? { Bracket([first.value], r.value, s.value); }
    }
  }

  /** The cell pointers of an interior index page as the code reads them. */
  lemma Misread(img: Image, p: int, children: seq<int>, pointers: seq<int>)
    requires img.Valid() && img.Has(p) && IndexPage(img, p, children, pointers) && children != []
    ensures var n, page := |pointers|, img.Page(p); var s := StrayOffsets(page, n);
      Ints(page, PointerOffsets(8, n), 2) == Done(s + pointers[..n - |s|])
  {
    hide Signed;
    var n, page := |pointers|, img.Page(p);
    var read := StrayOffsets(page, n) + pointers[..n - |StrayOffsets(page, n)|];
    forall i | 0 <= i < n ensures IntIs(page, PointerOffsets(8, n)[i], 2, read[i]) {
      if i >= 2 { assert IntIs(page, 12 + (i - 2) * 2, 2, pointers[i - 2]); }
    }
    IntsRead(page, PointerOffsets(8, n), 2, read);
  }

  lemma IndexLeafView(img: Image, p: int, pointers: seq<int>)
    requires img.Valid() && img.Has(p) && IndexPage(img, p, [], pointers)
    ensures PageView(img, p) == IndexLeaf
  {
    hide Ints, Signed;
    PointersRead(img, p, LEAF_INDEX, 8, pointers);
  }

  /**
   The view of an interior index page with n cells: instead of the n + 1 children first one
   or two stray numbers and then the children of all but the last two cells; or a read
   outside of the page.
   */
  lemma IndexView(img: Image, p: int, children: seq<int>, pointers: seq<int>)
    requires img.Valid() && img.Has(p) && IndexPage(img, p, children, pointers) && children != []
    ensures PageView(img, p) ==
      match Strays(img, p, |pointers|)
      case Done(xs) => Interior(xs + if |pointers| < 2 then [] else children[..|pointers| - 2])
      case _ => Unreadable
  {
    hide Ints, Signed, StrayOffsets;
    var n, page := |pointers|, img.Page(p);
    var s := StrayOffsets(page, n);
    Misread(img, p, children, pointers);
    HeaderCount(img, p, children, pointers);
    StrayCount(page, n);
    var rest := pointers[..n - |s|];
    IntsRead(page, rest, 4, children[..n - |s|]);
    IntsJoin(page, s, rest, 4);
    IntsLength(page, s, 4);
  }

  lemma StrayCount(page: seq<byte>, n: nat)
    requires |page| >= 12 && n > 0
    ensures |StrayOffsets(page, n)| == if n < 2 then 1 else 2
  {
  }

  lemma HeaderCount(img: Image, p: int, children: seq<int>, pointers: seq<int>)
    requires img.Valid() && img.Has(p) && IndexPage(img, p, children, pointers) && children != []
    ensures Signed(Slice(img.Page(p), 3, 2)) == |pointers| && HeaderOffset(p) == 0 && img.Page(p)[0] == INTERIOR_INDEX
    ensures |pointers| > 0 && |pointers| * 2 + 8 <= img.pagesize
  {
    hide Signed;
  }

  /** How the stray offsets come from the right-most child's number. */
  lemma Halves(img: Image, p: int, children: seq<int>, pointers: seq<int>)
    requires img.Valid() && img.Has(p) && IndexPage(img, p, children, pointers) && children != []
    ensures var page := img.Page(p);
      children[|children| - 1] == High(page) * 65536 + if Low(page) < 0 then Low(page) + 65536 else Low(page)
  {
    hide PageHeader;
    var page := img.Page(p);
    SignedParts(Slice(page, 8, 4));
    SignedParts(Slice(page, 8, 2));
    SignedParts(Slice(page, 10, 2));
  }

  /**
   The first stray number: with a right-most child below 65536 it is no page of a file of
   less than 2^25 pages; with one from 65536 to 131071, and no free block, it is the number
   of cells.
   */
  lemma FirstStray(img: Image, p: int, children: seq<int>, pointers: seq<int>)
    requires img.Valid() && img.Has(p) && IndexPage(img, p, children, pointers) && children != []
    ensures var page := img.Page(p);
      && (0 <= children[|children| - 1] < 65536 && |img.pages| < 0x200_0000 ==>
            IntAt(page, High(page), 4).Done? && !img.Has(IntAt(page, High(page), 4).value))
      && (65536 <= children[|children| - 1] < 131072 && page[1] == 0 && page[2] == 0 ==>
            IntAt(page, High(page), 4) == Done(|pointers|))
  {
    Halves(img, p, children, pointers);
    HeaderCount(img, p, children, pointers);
    var page := img.Page(p);
    SignedParts(Slice(page, 8, 2));
    SignedParts(Slice(page, 10, 2));
    SignedParts(Slice(page, 0, 4));
    SignedParts(Slice(page, 1, 4));
    SignedParts(Slice(page, 3, 2));
  }

  // ---- indexes whose walk reports nothing ----

  /** Every page that the walk comes to from p can be read, and reports nothing. */
  ghost predicate Quiet(img: Image, kind: Kind, p: int)
    requires img.Valid()
  {
    forall x :: x in Reach(img, {}, p) && img.Has(x) ==> Silent(img, kind, x) && !PageView(img, x).Broken?
  }

  /** The stray numbers on all pages of the index are no pages, or pages of a set. */
  ghost predicate StraysIn(img: Image, t: IndexTree, area: set<int>)
    requires img.Valid()
  {
    && (img.Has(t.pageno) && t.kids != [] ==>
          match Strays(img, t.pageno, |t.kids| - 1)
          case Done(xs) => forall x :: x in xs && img.Has(x) ==> x in area
          case _ => false)
    && forall i :: 0 <= i < |t.kids| ==> StraysIn(img, t.kids[i], area)
  }

  /** No row on this page, and no way out of the set. */
  ghost predicate Closed(img: Image, x: int, area: set<int>)
    requires img.Valid()
  {
    img.Has(x) ==>
      match PageView(img, x)
      case Interior(children) => forall c :: c in children && img.Has(c) ==> c in area
      case IndexLeaf => true
      case _ => false
  }

  lemma {:induction false} IndexClosed(img: Image, t: IndexTree, area: set<int>)
    requires img.Valid() && HoldsIndex(img, t) && StraysIn(img, t, area) && IndexPages(t) <= area
    ensures forall x :: x in IndexPages(t) ==> Closed(img, x, area)
    decreases t, 0
  {
    hide IndexPage, PageView, AllIndexPages;
    RootClosed(img, t, area);
    AllIndexClosed(img, t.kids, area);
  }

  lemma RootClosed(img: Image, t: IndexTree, area: set<int>)
    requires img.Valid() && HoldsIndex(img, t) && StraysIn(img, t, area) && AllIndexPages(t.kids) <= area
    ensures Closed(img, t.pageno, area)
  {
    hide IndexPage, PageView, Strays;
    var pointers :| IndexPage(img, t.pageno, Roots(t.kids), pointers);
    if t.kids == [] {
      assert Roots(t.kids) == [];
      IndexLeafView(img, t.pageno, pointers);
    } else {
      IndexView(img, t.pageno, Roots(t.kids), pointers);
      KidCount(img, t, pointers);
      forall i | 0 <= i < |t.kids| ensures Roots(t.kids)[i] in area { KidPages(t.kids, i); }
    }
  }

  lemma KidCount(img: Image, t: IndexTree, pointers: seq<int>)
    requires img.Valid() && img.Has(t.pageno) && t.kids != [] && IndexPage(img, t.pageno, Roots(t.kids), pointers)
    ensures |pointers| + 1 == |t.kids|
  {
    hide PageHeader;
  }

  lemma {:induction false} KidPages(kids: seq<IndexTree>, i: nat)
    requires i < |kids|
    ensures kids[i].pageno in IndexPages(kids[i]) && IndexPages(kids[i]) <= AllIndexPages(kids)
    decreases i
  {
    if i > 0 { KidPages(kids[1..], i - 1); }
  }

  lemma {:induction false} AllIndexClosed(img: Image, kids: seq<IndexTree>, area: set<int>)
    requires img.Valid() && AllIndexPages(kids) <= area
    requires forall i :: 0 <= i < |kids| ==> HoldsIndex(img, kids[i]) && StraysIn(img, kids[i], area)
    ensures forall x :: x in AllIndexPages(kids) ==> Closed(img, x, area)
    decreases kids, |kids|
  {
    hide HoldsIndex, StraysIn, IndexPages, Closed;
    if kids != [] {
      IndexClosed(img, kids[0], area);
      AllIndexClosed(img, kids[1..], area);
    }
  }

  /**
   If the stray numbers on the pages of some indexes are no pages, or pages of these indexes,
   the walk over each of them reports nothing.
   */
  lemma IndexesQuiet(img: Image, ts: seq<IndexTree>, kind: Kind, i: nat)
    requires img.Valid() && i < |ts|
    requires forall j :: 0 <= j < |ts| ==> HoldsIndex(img, ts[j]) && StraysIn(img, ts[j], AllIndexPages(ts))
    ensures Quiet(img, kind, ts[i].pageno)
  {
    hide HoldsIndex, StraysIn, IndexPages, AllIndexPages, Reach, PageView;
    var area := AllIndexPages(ts);
    AllIndexClosed(img, ts, area);
    KidPages(ts, i);
    forall x, c | x in area && c in Below(img, x) ensures !img.Has(c) || c in area { assert Closed(img, x, area); }
    ReachInside(img, area, ts[i].pageno);
    forall x | x in Reach(img, {}, ts[i].pageno) && img.Has(x)
      ensures Silent(img, kind, x) && !PageView(img, x).Broken?
    {
      assert Closed(img, x, area);
    }
  }

  /** The walk over a quiet index: no row, and exactly the pages that it comes to become checked. */
  lemma WalkIndex(img: Image, cfg: Config, b: Btree, st: seq<Status>, p: int)
    requires img.Valid() && |st| == |img.pages| && img.Has(p) && Quiet(img, b.kind, p) && NoneChecking(st, Reach(img, {}, p))
    ensures Walk(img, cfg, b, st, p) == Visit(Marked(st, Reach(img, {}, p)), [], OK)
  {
    hide PageView, Reach, Silent, Walk;
    var pages := Reach(img, {}, p);
    ReachNotBusy(img, {}, p);
    ReachSelf(img, {}, p);
    FreePages(st, pages);
    ReachFree(img, Busy(st), p);
    ReachNotBusy(img, Busy(st), p);
    SilentWalk(img, cfg, b, st, p);
    SettleMarks(img, st, pages);
  }

  lemma FreePages(st: seq<Status>, pages: set<int>)
    requires NoneChecking(st, pages)
    ensures pages !! Busy(st)
  {
    forall p | p in pages ensures p !in Busy(st) {
      InBusy(st, p);
      assert GetStatus(st, p) != Checking;
    }
  }

  /** Settled pages that are not broken are checked. */
  lemma SettleMarks(img: Image, st: seq<Status>, pages: set<int>)
    requires img.Valid() && |st| == |img.pages| && forall x :: x in pages && img.Has(x) ==> !PageView(img, x).Broken?
    ensures Settle(img, st, pages) == Marked(st, pages)
  {
    hide PageView;
  }

  // ---- what is reached and what is missed ----

  /** The children that are read: all but the right-most one and those of the last two cells. */
  function SeenKids(kids: seq<IndexTree>): (r: seq<IndexTree>)
    ensures |r| <= |kids| && forall k :: k in r ==> k in kids
  {
    if |kids| < 3 then [] else kids[..|kids| - 3]
  }

  function SeenPages(t: IndexTree): set<int>
    decreases t, 0
  {
    {t.pageno} + AllSeenPages(t.kids, |SeenKids(t.kids)|)
  }

  function AllSeenPages(kids: seq<IndexTree>, n: nat): set<int>
    requires n <= |kids|
    decreases kids, n
  {
    if n == 0 then {} else AllSeenPages(kids, n - 1) + SeenPages(kids[n - 1])
  }

  lemma {:induction false} SeenWithin(t: IndexTree)
    ensures SeenPages(t) <= IndexPages(t)
    decreases t, 0
  {
    hide AllIndexPages;
    AllSeenWithin(t.kids, |SeenKids(t.kids)|);
  }

  lemma {:induction false} AllSeenWithin(kids: seq<IndexTree>, n: nat)
    requires n <= |kids|
    ensures AllSeenPages(kids, n) <= AllIndexPages(kids)
    decreases kids, n
  {
    hide AllIndexPages, IndexPages, SeenPages;
    if n > 0 {
      AllSeenWithin(kids, n - 1);
      SeenWithin(kids[n - 1]);
      KidPages(kids, n - 1);
    }
  }

  /** The root's view when its strays are no pages. */
  lemma SeenView(img: Image, t: IndexTree)
    requires img.Valid() && HoldsIndex(img, t) && StraysIn(img, t, {})
    ensures forall c :: img.Has(c) && c in Below(img, t.pageno) <==> img.Has(c) && c in Roots(SeenKids(t.kids))
    ensures forall k :: k in SeenKids(t.kids) ==> HoldsIndex(img, k) && StraysIn(img, k, {})
  {
    hide IndexPage, PageView, Strays;
    var pointers :| IndexPage(img, t.pageno, Roots(t.kids), pointers);
    if t.kids == [] {
      assert Roots(t.kids) == [];
      IndexLeafView(img, t.pageno, pointers);
    } else {
      IndexView(img, t.pageno, Roots(t.kids), pointers);
      KidCount(img, t, pointers);
      var seen := Roots(SeenKids(t.kids));
      assert seen == if |pointers| < 2 then [] else Roots(t.kids)[..|pointers| - 2];
    }
  }

  lemma InSeen(kids: seq<IndexTree>, n: nat, x: int)
    requires n <= |kids|
    ensures x in AllSeenPages(kids, n) <==> exists i :: 0 <= i < n && x in SeenPages(kids[i])
    decreases n
  {
    hide SeenPages;
    if n > 0 { InSeen(kids, n - 1, x); }
  }

  /** The pages that are seen are closed under the code's children. */
  lemma {:induction false} SeenClosed(img: Image, t: IndexTree, x: int, c: int)
    requires img.Valid() && HoldsIndex(img, t) && StraysIn(img, t, {}) && x in SeenPages(t)
    requires c in Below(img, x) && img.Has(c)
    ensures c in SeenPages(t)
    decreases t
  {
    hide Below, HoldsIndex, StraysIn, SeenPages;
    SeenView(img, t);
    SeenSplit(t, x);
    if x == t.pageno {
      var i :| 0 <= i < |SeenKids(t.kids)| && Roots(SeenKids(t.kids))[i] == c;
      SeenRoot(t.kids[i]);
      SeenSplit(t, c);
    } else {
      var i :| 0 <= i < |SeenKids(t.kids)| && x in SeenPages(t.kids[i]);
      assert t.kids[i] == SeenKids(t.kids)[i];
      SeenClosed(img, t.kids[i], x, c);
      SeenSplit(t, c);
    }
  }

  lemma SeenRoot(t: IndexTree)
    ensures t.pageno in SeenPages(t)
  {
  }

  lemma SeenSplit(t: IndexTree, x: int)
    ensures x in SeenPages(t) <==> x == t.pageno || exists i :: 0 <= i < |SeenKids(t.kids)| && x in SeenPages(t.kids[i])
  {
    hide SeenPages;
    InSeen(t.kids, |SeenKids(t.kids)|, x);
    SeenIs(t);
  }

  lemma SeenIs(t: IndexTree)
    ensures SeenPages(t) == {t.pageno} + AllSeenPages(t.kids, |SeenKids(t.kids)|)
  {
  }

  lemma {:induction false} SeenReached(img: Image, t: IndexTree, x: int)
    requires img.Valid() && HoldsIndex(img, t) && StraysIn(img, t, {}) && x in SeenPages(t)
    ensures x in Reach(img, {}, t.pageno)
    decreases t
  {
    hide Below, StraysIn, SeenPages, IndexPage;
    SeenView(img, t);
    SeenSplit(t, x);
    if x == t.pageno {
      ReachSelf(img, {}, x);
    } else {
      var i :| 0 <= i < |SeenKids(t.kids)| && x in SeenPages(t.kids[i]);
      var k := SeenKids(t.kids)[i];
      SeenReached(img, k, x);
      assert Roots(SeenKids(t.kids))[i] == k.pageno;
      ReachThrough(img, t.pageno, k.pageno, x);
    }
  }

  lemma ReachThrough(img: Image, p: int, c: int, x: int)
    requires img.Valid() && img.Has(p) && c in Below(img, p) && x in Reach(img, {}, c)
    ensures x in Reach(img, {}, p)
  {
    hide Below;
    var path :| Leads(img, {}, path, c, x);
    TrailMore(img, {}, p, path);
    assert Leads(img, {}, [p] + path, p, x);
  }

  /**
   Where no stray number is a page, exactly the pages below the children that are read are
   reached: on every interior page the last three children and all below them are missed.
   */
  lemma ReachIsSeen(img: Image, t: IndexTree)
    requires img.Valid() && HoldsIndex(img, t) && StraysIn(img, t, {})
    ensures Reach(img, {}, t.pageno) == SeenPages(t)
  {
    hide Below, HoldsIndex, StraysIn, SeenPages, Reach;
    SeenRoot(t);
    forall x, c | x in SeenPages(t) && c in Below(img, x) ensures !img.Has(c) || c in SeenPages(t) {
      if img.Has(c) { SeenClosed(img, t, x, c); }
    }
    ReachInside(img, SeenPages(t), t.pageno);
    forall x | x in SeenPages(t) ensures x in Reach(img, {}, t.pageno) { SeenReached(img, t, x); }
  }

  // ---- a stray number that is a table ----

  /**
   If the second stray number is the root of a table, and nothing else that is reached
   speaks, the table's rows are reported as the index's.
   */
  lemma StrayTable(img: Image, cfg: Config, p: int, st: seq<Status>, x: int, rest: seq<int>, t: Tree)
    requires img.Valid() && |st| == |img.pages| && img.Has(p) && Busy(st) == {}
    requires PageView(img, p) == Interior([x, t.pageno] + rest) && !img.Has(x)
    requires Represents(img, t) && p !in Pages(t) && AllSilent(img, Plain, ReachAll(img, {p}, rest))
    ensures Walk(img, cfg, Btree(p, Plain), st, p).Visit?
    ensures Walk(img, cfg, Btree(p, Plain), st, p).reports == Reports(p, Rows(t))
  {
    hide PageView, Represents, Pages, Rows, ReachAll, AllSilent, Walk, WalkAll, Marked, Busy, Reports, SetStatus, Settle;
    var b, st1 := Btree(p, Plain), SetStatus(st, p, Checking);
    InBusy(st, p);
    EnterBusy(st, p);
    var children := [x, t.pageno] + rest;
    assert children[1..] == [t.pageno] + rest && children[1..][1..] == rest;
    TableFree(st, p, Pages(t));
    WalkReadsTree(img, cfg, b, st1, t);
    var st2 := Marked(st1, Pages(t));
    MarkedBusy(st1, Pages(t));
    assert Busy(st2) == {} + {p} == {p};
    SilentWalkAll(img, cfg, b, st2, rest);
    FirstNone(img, cfg, b, st1, x, children[1..]);
    FirstTable(img, cfg, b, st1, t.pageno, rest);
    assert [x] + children[1..] == children;
    InteriorWalk(img, cfg, b, st, p, children);
    assert [] + (Reports(p, Rows(t)) + []) == Reports(p, Rows(t));
  }

  lemma InteriorWalk(img: Image, cfg: Config, b: Btree, st: seq<Status>, p: int, children: seq<int>)
    requires img.Valid() && |st| == |img.pages| && img.Has(p) && p !in Busy(st) && PageView(img, p) == Interior(children)
    requires WalkAll(img, cfg, b, SetStatus(st, p, Checking), children).Visit?
    ensures var v := Walk(img, cfg, b, st, p);
      v.Visit? && v.reports == WalkAll(img, cfg, b, SetStatus(st, p, Checking), children).reports
  {
    hide PageView, WalkAll;
    InBusy(st, p);
  }

  lemma TableFree(st: seq<Status>, p: int, pages: set<int>)
    requires Busy(st) == {} && p !in pages
    ensures NoneChecking(SetStatus(st, p, Checking), pages)
  {
    forall q | q in pages ensures GetStatus(SetStatus(st, p, Checking), q) != Checking { InBusy(st, q); }
  }

  lemma MarkedBusy(st: seq<Status>, pages: set<int>)
    requires NoneChecking(st, pages)
    ensures Busy(Marked(st, pages)) == Busy(st)
  {
    forall q ensures q in Busy(Marked(st, pages)) <==> q in Busy(st) {
      InBusy(st, q);
      InBusy(Marked(st, pages), q);
      if q in pages { assert GetStatus(st, q) != Checking; }
    }
  }

  lemma FirstNone(img: Image, cfg: Config, b: Btree, st: seq<Status>, x: int, rest: seq<int>)
    requires img.Valid() && |st| == |img.pages| && !img.Has(x)
    ensures WalkAll(img, cfg, b, st, [x] + rest) == Before([], WalkAll(img, cfg, b, st, rest))
  {
    assert ([x] + rest)[1..] == rest;
    assert Walk(img, cfg, b, st, x) == Visit(st, [], MISUSE);
  }

  lemma FirstTable(img: Image, cfg: Config, b: Btree, st: seq<Status>, x: int, rest: seq<int>)
    requires img.Valid() && |st| == |img.pages| && Walk(img, cfg, b, st, x).Visit?
    ensures var v := Walk(img, cfg, b, st, x);
      WalkAll(img, cfg, b, st, [x] + rest) == Before(v.reports, WalkAll(img, cfg, b, v.status, rest))
  {
    hide Walk;
    assert ([x] + rest)[1..] == rest;
  }
}
