/**
 Table b-trees, section 1.6 of the SQLite Database File Format: what it means that pages
 represent a tree of rows, and that the walk then reports exactly its rows, in order.
 */
module RepairTree {
  import opened Bytes
  import opened RepairInts
  import opened RepairValues
  import opened RepairRecord
  import opened RepairRecordFormat
  import opened RepairPayload
  import opened RepairWalk

  /** A page of rows, or a page of children of which the last is the right-most one. */
  datatype Tree = Leaf(pageno: int, rows: seq<Row>) | Node(pageno: int, kids: seq<Tree>)

  /** The rows from left to right. */
  function Rows(t: Tree): seq<Row> {
    match t
    case Leaf(_, rows) => rows
    case Node(_, kids) => AllRows(kids)
  }

  function AllRows(kids: seq<Tree>): seq<Row> {
    if kids == [] then [] else Rows(kids[0]) + AllRows(kids[1..])
  }

  /** The pages of the tree and of its overflow chains. */
  function Pages(t: Tree): set<int> {
    match t
    case Leaf(p, rows) => {p} + OverflowPages(rows)
    case Node(p, kids) => {p} + AllPages(kids)
  }

  function AllPages(kids: seq<Tree>): set<int> {
    if kids == [] then {} else Pages(kids[0]) + AllPages(kids[1..])
  }

  function OverflowPages(rows: seq<Row>): set<int> {
    if rows == [] then {} else (set p | p in rows[0].overflow) + OverflowPages(rows[1..])
  }

  // ---- pages that represent a tree ----

  /** The n-th of the integers of a width at an offset. */
  predicate IntIs(page: seq<byte>, at: int, width: int, v: int) {
    width in INT_LENGTHS && Within(page, at, width) && Signed(Slice(page, at, width)) == v
  }

  /** A cell: payload size, row id, payload; the payload is any record with the row's values. */
  ghost predicate CellOf(img: Image, pageno: int, at: int, row: Row, payload: seq<byte>)
    requires img.Valid() && img.Has(pageno)
  {
    && IsRecord(payload, row.values) && |payload| < TWO_31 && IsInt64(row.rowid) && at >= 0
    && var size, rowid := EncodeVarint(|payload|), EncodeVarint(Unsigned(row.rowid));
       && Within(img.Page(pageno), at, |size + rowid|) && Slice(img.Page(pageno), at, |size + rowid|) == size + rowid
       && Stored(img, pageno, at + |size| + |rowid|, payload, row.overflow)
  }

  ghost predicate CellStored(img: Image, pageno: int, at: int, row: Row)
    requires img.Valid() && img.Has(pageno)
  {
    exists payload :: CellOf(img, pageno, at, row, payload)
  }

  /** The row id's varint is not taken for damage. */
  predicate Readable(row: Row) { IsInt64(row.rowid) && ReadAs(Unsigned(row.rowid)).Done? }

  /** The row as it is reported: its id has been read as an int. */
  function Seen(row: Row): Row { if Readable(row) then row.(rowid := ReadAs(Unsigned(row.rowid)).value) else row }

  ghost predicate RowAt(img: Image, pageno: int, at: int, row: Row)
    requires img.Valid() && img.Has(pageno)
  {
    CellStored(img, pageno, at, row) && Readable(row)
  }

  /** Page type, cell count and cell pointers; the header of a page other than page 1. */
  predicate PageHeader(img: Image, pageno: int, kind: byte, offset: nat, pointers: seq<int>)
    requires img.Valid() && img.Has(pageno)
  {
    var page := img.Page(pageno);
    && pageno != 1 && page[0] == kind && |pointers| > 0 && offset + 2 * |pointers| <= img.pagesize
    && IntIs(page, 3, 2, |pointers|)
    && forall i :: 0 <= i < |pointers| ==> IntIs(page, offset + i * 2, 2, pointers[i])
  }

  ghost predicate LeafPage(img: Image, pageno: int, rows: seq<Row>, pointers: seq<int>)
    requires img.Valid() && img.Has(pageno)
  {
    && PageHeader(img, pageno, LEAF_TABLE, 8, pointers) && |pointers| == |rows|
    && forall i :: 0 <= i < |rows| ==> RowAt(img, pageno, pointers[i], rows[i])
  }

  /** A table page of children, the last one in the page header. */
  predicate InteriorPage(img: Image, pageno: int, children: seq<int>, pointers: seq<int>)
    requires img.Valid() && img.Has(pageno)
  {
    var page := img.Page(pageno);
    && PageHeader(img, pageno, INTERIOR_TABLE, 12, pointers) && |pointers| + 1 == |children|
    && (forall i :: 0 <= i < |pointers| ==> IntIs(page, pointers[i], 4, children[i]))
    && IntIs(page, 8, 4, children[|children| - 1])
  }

  function PageNumbers(kids: seq<Tree>): (r: seq<int>)
    ensures |r| == |kids|
  {
    seq(|kids|, i requires 0 <= i < |kids| => kids[i].pageno)
  }

  /** The page and those below it hold the tree; no page is below itself. */
  ghost predicate Represents(img: Image, t: Tree)
    requires img.Valid()
  {
    img.Has(t.pageno) &&
    match t
    case Leaf(p, rows) => p !in OverflowPages(rows) && exists pointers :: LeafPage(img, p, rows, pointers)
    case Node(p, kids) =>
      && p !in AllPages(kids) && (exists pointers :: InteriorPage(img, p, PageNumbers(kids), pointers))
      && forall i :: 0 <= i < |kids| ==> Represents(img, kids[i])
  }

  // ---- reading a page ----

  lemma {:induction false} IntsRead(page: seq<byte>, at: seq<int>, width: int, vs: seq<int>)
    requires |at| == |vs| && forall i :: 0 <= i < |at| ==> IntIs(page, at[i], width, vs[i])
    ensures Ints(page, at, width) == Done(vs)
    decreases |at|
  {
    hide IntIs;
    if at != [] {
      assert IntIs(page, at[0], width, vs[0]);
      IntRead(page, at[0], width, vs[0]);
      IntsRead(page, at[1..], width, vs[1..]);
      assert vs == [vs[0]] + vs[1..];
    }
  }

  lemma IntRead(page: seq<byte>, at: int, width: int, v: int)
    requires IntIs(page, at, width, v)
    ensures IntAt(page, at, width) == Done(v)
  {
  }

  lemma PointersRead(img: Image, pageno: int, kind: byte, offset: nat, pointers: seq<int>)
    requires img.Valid() && img.Has(pageno) && PageHeader(img, pageno, kind, offset, pointers)
    ensures Ints(img.Page(pageno), PointerOffsets(offset, |pointers|), 2) == Done(pointers)
    ensures Signed(Slice(img.Page(pageno), 3, 2)) == |pointers| && HeaderOffset(pageno) == 0
  {
    hide Signed;
    IntsRead(img.Page(pageno), PointerOffsets(offset, |pointers|), 2, pointers);
  }

  lemma LeafView(img: Image, pageno: int, rows: seq<Row>, pointers: seq<int>)
    requires img.Valid() && img.Has(pageno) && LeafPage(img, pageno, rows, pointers)
    ensures PageView(img, pageno) == TableLeaf(pointers)
  {
    hide RowAt, Ints, Signed;
    PointersRead(img, pageno, LEAF_TABLE, 8, pointers);
  }

  lemma InteriorView(img: Image, pageno: int, children: seq<int>, pointers: seq<int>)
    requires img.Valid() && img.Has(pageno) && InteriorPage(img, pageno, children, pointers)
    ensures PageView(img, pageno) == Interior(children)
  {
    hide Ints, Signed;
    PointersRead(img, pageno, INTERIOR_TABLE, 12, pointers);
    IntsRead(img.Page(pageno), pointers + [8], 4, children);
  }

  // ---- reading rows ----

  /** The pages of a set are checked, the others as they were. */
  function Marked(st: seq<Status>, pages: set<int>): (r: seq<Status>)
    ensures |r| == |st|
  {
    seq(|st|, i requires 0 <= i < |st| => if i + 1 in pages then Checked else st[i])
  }

  predicate NoneChecking(st: seq<Status>, pages: set<int>) { forall p :: p in pages ==> GetStatus(st, p) != Checking }

  lemma MarkedTwice(st: seq<Status>, a: set<int>, b: set<int>)
    ensures Marked(Marked(st, a), b) == Marked(st, a + b)
  {
  }

  lemma MarkedNone(st: seq<Status>)
    ensures Marked(st, {}) == st
  {
  }

  lemma MarkedFree(st: seq<Status>, a: set<int>, b: set<int>)
    requires NoneChecking(st, b)
    ensures NoneChecking(Marked(st, a), b)
  {
    forall p | p in b ensures GetStatus(Marked(st, a), p) != Checking { assert GetStatus(st, p) != Checking; }
  }

  lemma {:induction false} MarkChainIs(st: seq<Status>, pages: seq<int>)
    ensures MarkChain(st, pages) == Marked(st, set p | p in pages)
    decreases |pages|
  {
    if pages == [] {
      assert (set p | p in pages) == {};
      MarkedNone(st);
    } else {
      var rest := pages[1..];
      MarkChainIs(SetStatus(st, pages[0], Checked), rest);
      assert SetStatus(st, pages[0], Checked) == Marked(st, {pages[0]});
      MarkedTwice(st, {pages[0]}, set p | p in rest);
      assert {pages[0]} + (set p | p in rest) == set p | p in pages;
    }
  }

  /** A stored cell is read whole if its row id can be read, and is taken for damage otherwise. */
  lemma CellRead(img: Image, st: seq<Status>, pageno: int, at: int, row: Row)
    requires img.Valid() && img.Has(pageno) && CellStored(img, pageno, at, row)
    requires NoneChecking(st, set p | p in row.overflow)
    ensures CellAt(img, st, pageno, at) ==
      if Readable(row) then Cell(Marked(st, set p | p in row.overflow), Seen(row)) else BadCell(st, DAMAGED)
  {
    hide Varint32At, EncodeVarint, IsRecord, Fetch, Stored, Decode, Marked, MarkChain, ReadAs, Unsigned;
    var payload :| CellOf(img, pageno, at, row, payload);
    var size, rowid := EncodeVarint(|payload|), EncodeVarint(Unsigned(row.rowid));
    var page := img.Page(pageno);
    SliceParts(page, at, size, rowid);
    Varint32Exactly(page, at, |payload|);
    Varint32Reads(page, at + |size|, Unsigned(row.rowid));
    ReadAsFails(Unsigned(row.rowid));
    FetchRebuilds(img, pageno, at + |size| + |rowid|, payload, row.overflow);
    DecodeExactly(payload, row.values);
    MarkChainIs(st, row.overflow);
  }

  lemma ReadAsFails(v: nat)
    ensures ReadAs(v).Done? || ReadAs(v) == Failed(DAMAGED)
  {
  }

  lemma RowRead(img: Image, st: seq<Status>, pageno: int, at: int, row: Row)
    requires img.Valid() && img.Has(pageno) && RowAt(img, pageno, at, row)
    requires NoneChecking(st, set p | p in row.overflow)
    ensures CellAt(img, st, pageno, at) == Cell(Marked(st, set p | p in row.overflow), Seen(row))
  {
    hide CellStored, Readable, CellAt, Seen;
    CellRead(img, st, pageno, at, row);
  }

  /** A stored cell is reported with its own row id exactly if that is from 0 to 2^31 - 1. */
  lemma RowidExactly(img: Image, st: seq<Status>, pageno: int, at: int, row: Row)
    requires img.Valid() && img.Has(pageno) && CellStored(img, pageno, at, row)
    requires NoneChecking(st, set p | p in row.overflow)
    ensures CellAt(img, st, pageno, at) == Cell(Marked(st, set p | p in row.overflow), row) <==> 0 <= row.rowid < TWO_31
  {
    hide CellAt, Marked, ReadAs, Unsigned, CellOf;
    CellRead(img, st, pageno, at, row);
    StoredRowid(img, pageno, at, row);
    ReadAsExactly(row.rowid);
  }

  lemma StoredRowid(img: Image, pageno: int, at: int, row: Row)
    requires img.Valid() && img.Has(pageno) && CellStored(img, pageno, at, row)
    ensures IsInt64(row.rowid)
  {
  }

  /** The reports of a b-tree's rows, with the row ids as they are read. */
  function Reports(root: int, rows: seq<Row>): (r: seq<Report>)
    ensures |r| == |rows|
  {
    seq(|rows|, i requires 0 <= i < |rows| => Report(root, Seen(rows[i])))
  }

  lemma ReportsAppend(root: int, a: seq<Row>, b: seq<Row>)
    ensures Reports(root, a + b) == Reports(root, a) + Reports(root, b)
  {
  }

  /** Rows of this b-tree do not lead to other b-trees. */
  predicate Ordinary(cfg: Config, b: Btree) { b.kind == Plain || (b.kind == Master && !cfg.recursive) }

  lemma {:induction false} RowsRead(
    img: Image, cfg: Config, b: Btree, st: seq<Status>, pageno: int, pointers: seq<int>, rows: seq<Row>)
    requires img.Valid() && img.Has(pageno) && |st| == |img.pages| && |pointers| == |rows| && Ordinary(cfg, b)
    requires forall i :: 0 <= i < |rows| ==> RowAt(img, pageno, pointers[i], rows[i])
    requires NoneChecking(st, OverflowPages(rows))
    ensures Cells(img, cfg, b, st, pageno, pointers) == Visit(Marked(st, OverflowPages(rows)), Reports(b.root, rows), OK)
    decreases |rows|
  {
    hide RowAt, CellAt, Marked, TableOf, Seen;
    if rows == [] {
      MarkedNone(st);
    } else {
      var first := set p | p in rows[0].overflow;
      assert NoneChecking(st, first);
      RowRead(img, st, pageno, pointers[0], rows[0]);
      MarkedFree(st, first, OverflowPages(rows[1..]));
      RowsRead(img, cfg, b, Marked(st, first), pageno, pointers[1..], rows[1..]);
      MarkedTwice(st, first, OverflowPages(rows[1..]));
      ReportsFirst(b.root, rows);
    }
  }

  lemma ReportsFirst(root: int, rows: seq<Row>)
    requires rows != []
    ensures Reports(root, rows) == [Report(root, Seen(rows[0]))] + [] + Reports(root, rows[1..])
  {
  }

  // ---- the walk over a tree ----

  /** Entering a page, visiting what lies below it and leaving it marks it and what lies below. */
  lemma EnterAndLeave(st: seq<Status>, p: int, below: set<int>)
    requires 1 <= p <= |st| && p !in below && NoneChecking(st, {p} + below)
    ensures st[p - 1] != Checking && NoneChecking(SetStatus(st, p, Checking), below)
    ensures SetStatus(Marked(SetStatus(st, p, Checking), below), p, Checked) == Marked(st, {p} + below)
  {
    assert GetStatus(st, p) != Checking;
    forall q | q in below ensures GetStatus(SetStatus(st, p, Checking), q) != Checking { assert GetStatus(st, q) != Checking; }
  }

  /**
   On pages that represent a table b-tree, whatever else the file holds, the walk reports
   each row once, from left to right, with its row id as an int, its values and its
   overflow pages, and leaves exactly the tree's pages newly checked.
   */
  lemma {:induction false} WalkReadsTree(img: Image, cfg: Config, b: Btree, st: seq<Status>, t: Tree)
    requires img.Valid() && |st| == |img.pages| && Represents(img, t) && NoneChecking(st, Pages(t)) && Ordinary(cfg, b)
    ensures Walk(img, cfg, b, st, t.pageno) == Visit(Marked(st, Pages(t)), Reports(b.root, Rows(t)), OK)
    decreases t, 0
  {
    hide LeafPage, InteriorPage, Marked, SetStatus, NoneChecking, Walk, WalkAll, AllPages, OverflowPages, AllRows;
    match t
    case Leaf(p, rows) =>
      var pointers :| LeafPage(img, p, rows, pointers);
      WalkLeaf(img, cfg, b, st, p, rows, pointers);
    case Node(p, kids) =>
      var pointers :| InteriorPage(img, p, PageNumbers(kids), pointers);
      InteriorView(img, p, PageNumbers(kids), pointers);
      EnterAndLeave(st, p, AllPages(kids));
      WalkReadsTrees(img, cfg, b, SetStatus(st, p, Checking), kids);
      WalkNode(img, cfg, b, st, p, kids);
  }

  lemma WalkLeaf(img: Image, cfg: Config, b: Btree, st: seq<Status>, p: int, rows: seq<Row>, pointers: seq<int>)
    requires img.Valid() && |st| == |img.pages| && img.Has(p) && LeafPage(img, p, rows, pointers) && Ordinary(cfg, b)
    requires p !in OverflowPages(rows) && NoneChecking(st, {p} + OverflowPages(rows))
    ensures Walk(img, cfg, b, st, p) == Visit(Marked(st, {p} + OverflowPages(rows)), Reports(b.root, rows), OK)
  {
    hide PageView, LeafPage, Marked, SetStatus, NoneChecking, Cells, OverflowPages;
    LeafView(img, p, rows, pointers);
    EnterAndLeave(st, p, OverflowPages(rows));
    LeafRows(img, p, rows, pointers);
    RowsRead(img, cfg, b, SetStatus(st, p, Checking), p, pointers, rows);
  }

  lemma WalkNode(img: Image, cfg: Config, b: Btree, st: seq<Status>, p: int, kids: seq<Tree>)
    requires img.Valid() && |st| == |img.pages| && img.Has(p) && PageView(img, p) == Interior(PageNumbers(kids))
    requires p !in AllPages(kids) && NoneChecking(st, {p} + AllPages(kids))
    requires WalkAll(img, cfg, b, SetStatus(st, p, Checking), PageNumbers(kids))
      == Visit(Marked(SetStatus(st, p, Checking), AllPages(kids)), Reports(b.root, AllRows(kids)), OK)
    ensures Walk(img, cfg, b, st, p) == Visit(Marked(st, {p} + AllPages(kids)), Reports(b.root, AllRows(kids)), OK)
  {
    hide PageView, Marked, SetStatus, NoneChecking, WalkAll, AllPages, AllRows;
    EnterAndLeave(st, p, AllPages(kids));
  }

  lemma LeafRows(img: Image, p: int, rows: seq<Row>, pointers: seq<int>)
    requires img.Valid() && img.Has(p) && LeafPage(img, p, rows, pointers)
    ensures |pointers| == |rows| && forall i :: 0 <= i < |rows| ==> RowAt(img, p, pointers[i], rows[i])
  {
    hide RowAt, PageHeader;
  }

  lemma {:induction false} WalkReadsTrees(img: Image, cfg: Config, b: Btree, st: seq<Status>, kids: seq<Tree>)
    requires img.Valid() && |st| == |img.pages| && NoneChecking(st, AllPages(kids)) && Ordinary(cfg, b)
    requires forall i :: 0 <= i < |kids| ==> Represents(img, kids[i])
    ensures WalkAll(img, cfg, b, st, PageNumbers(kids)) == Visit(Marked(st, AllPages(kids)), Reports(b.root, AllRows(kids)), OK)
    decreases kids, |kids|
  {
    hide Walk, Marked, Represents, Pages, Rows, Reports;
    if kids == [] {
      MarkedNone(st);
      assert Reports(b.root, []) == [];
    } else {
      var first, rest := Pages(kids[0]), AllPages(kids[1..]);
      assert NoneChecking(st, first) && NoneChecking(st, rest);
      WalkReadsTree(img, cfg, b, st, kids[0]);
      MarkedFree(st, first, rest);
      WalkReadsTrees(img, cfg, b, Marked(st, first), kids[1..]);
      MarkedTwice(st, first, rest);
      assert PageNumbers(kids)[1..] == PageNumbers(kids[1..]);
      ReportsAppend(b.root, Rows(kids[0]), AllRows(kids[1..]));
    }
  }

  // ---- a root on page 1 ----

  /** An interior page 1 of the file format: its header starts at byte 100. */
  predicate FirstPage(img: Image, pointers: seq<int>, children: seq<int>)
    requires img.Valid() && img.Has(1)
  {
    var page := img.Page(1);
    && page[100] == INTERIOR_TABLE && |pointers| > 0 && 112 + 2 * |pointers| <= img.pagesize
    && IntIs(page, 103, 2, |pointers|) && |children| == |pointers| + 1
    && (forall i :: 0 <= i < |pointers| ==> IntIs(page, 112 + i * 2, 2, pointers[i]))
    && (forall i :: 0 <= i < |pointers| ==> IntIs(page, pointers[i], 4, children[i]))
    && IntIs(page, 108, 4, children[|pointers|])
  }

  /** The right-most child is read at byte 8 of the page even there. */
  lemma FirstPageView(img: Image, pointers: seq<int>, children: seq<int>)
    requires img.Valid() && img.Has(1) && FirstPage(img, pointers, children)
    ensures PageView(img, 1) == Interior(children[..|pointers|] + [Signed(Slice(img.Page(1), 8, 4))])
  {
    hide Ints, Signed;
    var page, n := img.Page(1), |pointers|;
    IntsRead(page, PointerOffsets(112, n), 2, pointers);
    IntsRead(page, pointers + [8], 4, children[..n] + [Signed(Slice(page, 8, 4))]);
  }

  /** So the walk sees the children of the file format exactly if bytes 8 and 108 hold the same number. */
  lemma FirstPageChildren(img: Image, pointers: seq<int>, children: seq<int>)
    requires img.Valid() && img.Has(1) && FirstPage(img, pointers, children)
    ensures PageView(img, 1) == Interior(children) <==> Signed(Slice(img.Page(1), 8, 4)) == children[|pointers|]
  {
    hide PageView, Signed;
    FirstPageView(img, pointers, children);
    var n := |pointers|;
    var read := children[..n] + [Signed(Slice(img.Page(1), 8, 4))];
    assert read == children <==> read[n] == children[n];
  }

  /** With the magic string in place byte 8 holds 0x6f726d61, so the right-most child is missed. */
  lemma FirstPageLosesRightmost(img: Image, pointers: seq<int>, children: seq<int>)
    requires img.Valid() && img.Has(1) && FirstPage(img, pointers, children) && img.Has(children[|pointers|])
    requires HasMagic(img) && |img.pages| < 0x6f72_6d61
    ensures PageView(img, 1) != Interior(children)
  {
    hide PageView, FirstPage;
    MagicNumber(img);
    FirstPageChildren(img, pointers, children);
  }

  /** Bytes 8 to 11 of the magic string. */
  predicate HasMagic(img: Image)
    requires img.Valid() && img.Has(1)
  {
    img.Page(1)[8..12] == [0x6f, 0x72, 0x6d, 0x61]
  }

  lemma MagicNumber(img: Image)
    requires img.Valid() && img.Has(1) && HasMagic(img)
    ensures Signed(Slice(img.Page(1), 8, 4)) == 0x6f72_6d61
  {
    var bs := Slice(img.Page(1), 8, 4);
    SignedParts(bs);
    assert bs[0] == 0x6f && bs[1] == 0x72 && bs[2] == 0x6d && bs[3] == 0x61;
  }
}
