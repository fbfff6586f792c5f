/**
 Damage: what the walk saves of a b-tree of which some pages are overwritten, some cells
 cannot be read, and some child numbers lead nowhere or back up the tree.
 */
module RepairDamage {
  import opened Bytes
  import opened RepairInts
  import opened RepairValues
  import opened RepairRecord
  import opened RepairRecordFormat
  import opened RepairPayload
  import opened RepairWalk
  import opened RepairTree
  import Examples = RepairExamples

  /**
   What is left of a b-tree: a whole subtree, a page that is none of a b-tree, a leaf that
   can be read up to a cell, a number that is no page or one further up, and an interior
   page whose children may be any of these.
   */
  datatype Ruin =
    | Whole(tree: Tree)
    | Wreck(pageno: int)
    | Torn(pageno: int, rows: seq<Row>, rc: Fault)
    | Gone(pageno: int)
    | Inner(pageno: int, kids: seq<Ruin>)
  {
    function Root(): int { if Whole? then tree.pageno else pageno }
  }

  /** The rows that are left, from left to right. */
  function Saved(r: Ruin): seq<Row> {
    match r
    case Whole(t) => Rows(t)
    case Torn(_, rows, _) => rows
    case Inner(_, kids) => AllSaved(kids)
    case _ => []
  }

  function AllSaved(kids: seq<Ruin>): seq<Row> {
    if kids == [] then [] else Saved(kids[0]) + AllSaved(kids[1..])
  }

  /** The pages that are looked at. */
  function Area(r: Ruin): set<int> {
    match r
    case Whole(t) => Pages(t)
    case Wreck(p) => {p}
    case Torn(p, rows, _) => {p} + OverflowPages(rows)
    case Gone(_) => {}
    case Inner(p, kids) => {p} + AllAreas(kids)
  }

  function AllAreas(kids: seq<Ruin>): set<int> {
    if kids == [] then {} else Area(kids[0]) + AllAreas(kids[1..])
  }

  /** A damaged page is marked as such, a page with any other error as invalid, all others as checked. */
  function After(st: seq<Status>, r: Ruin): (t: seq<Status>)
    ensures |t| == |st|
    decreases r
  {
    match r
    case Whole(t) => Marked(st, Pages(t))
    case Wreck(p) => SetStatus(st, p, Damaged)
    case Torn(p, rows, rc) => SetStatus(Marked(st, OverflowPages(rows)), p, if rc == DAMAGED then Damaged else Invalid)
    case Gone(_) => st
    case Inner(p, kids) => SetStatus(AfterAll(st, kids), p, Checked)
  }

  function AfterAll(st: seq<Status>, kids: seq<Ruin>): (t: seq<Status>)
    ensures |t| == |st|
    decreases kids
  {
    if kids == [] then st else AfterAll(After(st, kids[0]), kids[1..])
  }

  /** How the call for the root ends. */
  function Ends(r: Ruin): Rc {
    match r
    case Wreck(_) => DAMAGED
    case Torn(_, _, rc) => rc
    case Gone(_) => MISUSE
    case _ => OK
  }

  // ---- pages that hold a ruin ----

  /** A type that is none of the four of a b-tree page, or a cell count that is no count or too large. */
  predicate WreckedPage(img: Image, p: int)
    requires img.Valid()
  {
    img.Has(p) && p != 1 &&
    var page := img.Page(p);
    var count := Signed(Slice(page, 3, 2));
    page[0] !in {2, 5, 10, 13} || count <= 0 || count * 2 + (if page[0] == 5 then 12 else 8) > img.pagesize
  }

  /** The cell is rejected: its sizes, its place on the page, or its record, which has no overflow pages. */
  predicate FailsAt(img: Image, p: int, at: int, rc: Fault)
    requires img.Valid() && img.Has(p)
  {
    match Varint32At(img.Page(p), at)
    case Failed(f) => rc == f
    case Undefined => false
    case Done((n, size)) =>
      match Varint32At(img.Page(p), at + n)
      case Failed(f) => rc == f
      case Undefined => false
      case Done((m, _)) =>
        match Fetch(img, p, at + n + m, size)
        case Rejected(f) => rc == f
        case Fetched(bytes, pages) => pages == [] && Decode(bytes).end == Failed(rc)
        case _ => false
  }

  /** The first cells of a leaf hold the rows, the next one is rejected; any others do not matter. */
  ghost predicate TornPage(img: Image, p: int, rows: seq<Row>, rc: Fault, pointers: seq<int>)
    requires img.Valid() && img.Has(p)
  {
    && PageHeader(img, p, 13, 8, pointers) && |rows| < |pointers|
    && (forall i :: 0 <= i < |rows| ==> RowAt(img, p, pointers[i], rows[i]))
    && FailsAt(img, p, pointers[|rows|], rc)
  }

  function Numbers(kids: seq<Ruin>): (r: seq<int>)
    ensures |r| == |kids|
  {
    seq(|kids|, i requires 0 <= i < |kids| => kids[i].Root())
  }

  /** The pages hold the ruin, below the pages of `path`. */
  ghost predicate Ruined(img: Image, path: set<int>, r: Ruin)
    requires img.Valid()
    decreases r
  {
    match r
    case Whole(t) => Represents(img, t)
    case Wreck(p) => WreckedPage(img, p)
    case Torn(p, rows, rc) => img.Has(p) && p !in OverflowPages(rows) && exists pointers :: TornPage(img, p, rows, rc, pointers)
    case Gone(p) => !img.Has(p) || p in path
    case Inner(p, kids) =>
      && img.Has(p) && p !in AllAreas(kids) && (exists pointers :: InteriorPage(img, p, Numbers(kids), pointers))
      && forall i :: 0 <= i < |kids| ==> Ruined(img, path + {p}, kids[i])
  }

  // ---- statuses ----

  /** Outside its area a ruin changes nothing; inside the result does not depend on what was there. */
  ghost predicate Settles(st: seq<Status>, st2: seq<Status>, area: set<int>, t: seq<Status>, t2: seq<Status>, i: nat)
    requires i < |st| == |st2| == |t| == |t2|
  {
    if i + 1 in area then t[i] == t2[i] != Checking else t[i] == st[i] && t2[i] == st2[i]
  }

  lemma {:induction false} AfterSettles(st: seq<Status>, st2: seq<Status>, r: Ruin, i: nat)
    requires i < |st| == |st2|
    ensures Settles(st, st2, Area(r), After(st, r), After(st2, r), i)
    decreases r, 0
  {
    match r
    case Inner(p, kids) => AllSettle(st, st2, kids, i);
    case _ =>
  }

  lemma {:induction false} AllSettle(st: seq<Status>, st2: seq<Status>, kids: seq<Ruin>, i: nat)
    requires i < |st| == |st2|
    ensures Settles(st, st2, AllAreas(kids), AfterAll(st, kids), AfterAll(st2, kids), i)
    decreases kids, |kids|
  {
    hide After, Area;
    if kids != [] {
      AfterSettles(st, st2, kids[0], i);
      AllSettle(After(st, kids[0]), After(st2, kids[0]), kids[1..], i);
    }
  }

  ghost predicate OnPath(st: seq<Status>, path: set<int>) { forall p :: p in path ==> GetStatus(st, p) == Checking }

  /** After a child its siblings can be walked, and the path is as it was. */
  lemma AfterChild(st: seq<Status>, r: Ruin, rest: set<int>, path: set<int>)
    requires NoneChecking(st, Area(r)) && NoneChecking(st, rest) && OnPath(st, path)
    ensures NoneChecking(After(st, r), rest) && OnPath(After(st, r), path)
  {
    hide After, Area;
    forall p | p in rest ensures GetStatus(After(st, r), p) != Checking {
      assert GetStatus(st, p) != Checking;
      if 1 <= p <= |st| { AfterSettles(st, st, r, p - 1); }
    }
    forall p | p in path ensures GetStatus(After(st, r), p) == Checking {
      assert GetStatus(st, p) == Checking;
      AfterSettles(st, st, r, p - 1);
    }
  }

  /** Entering an interior page and leaving it. */
  lemma InnerSettles(st: seq<Status>, p: int, kids: seq<Ruin>)
    requires 1 <= p <= |st| && p !in AllAreas(kids)
    ensures SetStatus(AfterAll(SetStatus(st, p, Checking), kids), p, Checked) == SetStatus(AfterAll(st, kids), p, Checked)
  {
    hide AfterAll, AllAreas;
    var st1 := SetStatus(st, p, Checking);
    var a, b := SetStatus(AfterAll(st1, kids), p, Checked), SetStatus(AfterAll(st, kids), p, Checked);
    forall i | 0 <= i < |st| ensures a[i] == b[i] { AllSettle(st1, st, kids, i); }
  }

  lemma EnterInner(st: seq<Status>, p: int, below: set<int>, path: set<int>)
    requires 1 <= p <= |st| && p !in below && NoneChecking(st, {p} + below) && OnPath(st, path)
    ensures st[p - 1] != Checking
    ensures NoneChecking(SetStatus(st, p, Checking), below) && OnPath(SetStatus(st, p, Checking), path + {p})
  {
    assert GetStatus(st, p) != Checking;
    forall q | q in below ensures GetStatus(SetStatus(st, p, Checking), q) != Checking { assert GetStatus(st, q) != Checking; }
    forall q | q in path ensures GetStatus(SetStatus(st, p, Checking), q) == Checking { assert GetStatus(st, q) == Checking; }
  }

  // ---- a page by itself ----

  lemma WreckView(img: Image, p: int)
    requires img.Valid() && WreckedPage(img, p)
    ensures PageView(img, p) == Broken
  {
    hide Signed, Ints;
  }

  lemma CellFails(img: Image, st: seq<Status>, p: int, at: int, rc: Fault)
    requires img.Valid() && img.Has(p) && FailsAt(img, p, at, rc)
    ensures CellAt(img, st, p, at) == BadCell(st, rc)
  {
    hide Varint32At, Fetch, Decode;
  }

  lemma TornView(img: Image, p: int, rows: seq<Row>, rc: Fault, pointers: seq<int>)
    requires img.Valid() && img.Has(p) && TornPage(img, p, rows, rc, pointers)
    ensures PageView(img, p) == TableLeaf(pointers) && |rows| < |pointers|
    ensures forall i :: 0 <= i < |rows| ==> RowAt(img, p, pointers[i], rows[i])
    ensures FailsAt(img, p, pointers[|rows|], rc)
  {
    hide RowAt, Ints, Signed, FailsAt;
    PointersRead(img, p, LEAF_TABLE, 8, pointers);
  }

  lemma {:induction false} RowsSaved(
    img: Image, cfg: Config, b: Btree, st: seq<Status>, p: int, pointers: seq<int>, rows: seq<Row>, rc: Fault)
    requires img.Valid() && img.Has(p) && |st| == |img.pages| && |rows| < |pointers| && Ordinary(cfg, b)
    requires forall i :: 0 <= i < |rows| ==> RowAt(img, p, pointers[i], rows[i])
    requires FailsAt(img, p, pointers[|rows|], rc) && NoneChecking(st, OverflowPages(rows))
    ensures Cells(img, cfg, b, st, p, pointers) == Visit(Marked(st, OverflowPages(rows)), Reports(b.root, rows), rc)
    decreases |rows|
  {
    hide RowAt, CellAt, Marked, TableOf, Seen, FailsAt;
    if rows == [] {
      CellFails(img, st, p, pointers[0], rc);
      MarkedNone(st);
    } else {
      var first := set q | q in rows[0].overflow;
      assert NoneChecking(st, first);
      RowRead(img, st, p, pointers[0], rows[0]);
      MarkedFree(st, first, OverflowPages(rows[1..]));
      RowsSaved(img, cfg, b, Marked(st, first), p, pointers[1..], rows[1..], rc);
      MarkedTwice(st, first, OverflowPages(rows[1..]));
      ReportsFirst(b.root, rows);
    }
  }

  lemma WalkTorn(
    img: Image, cfg: Config, b: Btree, st: seq<Status>, p: int, rows: seq<Row>, rc: Fault, pointers: seq<int>)
    requires img.Valid() && |st| == |img.pages| && img.Has(p) && TornPage(img, p, rows, rc, pointers) && Ordinary(cfg, b)
    requires p !in OverflowPages(rows) && NoneChecking(st, {p} + OverflowPages(rows))
    ensures Walk(img, cfg, b, st, p) == Visit(After(st, Torn(p, rows, rc)), Reports(b.root, rows), rc)
  {
    hide PageView, TornPage, NoneChecking, Cells, OverflowPages, FailsAt, RowAt;
    TornView(img, p, rows, rc, pointers);
    EnterAndLeave(st, p, OverflowPages(rows));
    var st1 := SetStatus(st, p, Checking);
    RowsSaved(img, cfg, b, st1, p, pointers, rows, rc);
    var s := if rc == DAMAGED then Damaged else Invalid;
    assert SetStatus(Marked(st1, OverflowPages(rows)), p, s) == SetStatus(Marked(st, OverflowPages(rows)), p, s);
  }

  lemma WalkWreck(img: Image, cfg: Config, b: Btree, st: seq<Status>, p: int)
    requires img.Valid() && |st| == |img.pages| && WreckedPage(img, p) && NoneChecking(st, {p})
    ensures Walk(img, cfg, b, st, p) == Visit(SetStatus(st, p, Damaged), [], DAMAGED)
  {
    hide PageView, WreckedPage;
    WreckView(img, p);
    assert img.Has(p) by { WreckIsPage(img, p); }
    assert GetStatus(st, p) != Checking;
    assert SetStatus(SetStatus(st, p, Checking), p, Damaged) == SetStatus(st, p, Damaged);
  }

  lemma WreckIsPage(img: Image, p: int)
    requires img.Valid() && WreckedPage(img, p)
    ensures img.Has(p)
  {
  }

  // ---- the whole b-tree ----

  /**
   Whatever is left of a b-tree, the walk reports exactly the rows of its readable parts,
   from left to right: an overwritten page or a lost child costs its own rows, a bad cell
   those from it to the end of its leaf, and a number that leads back up is refused.  The
   pages of the readable parts become checked, the others damaged or invalid.
   */
  lemma {:induction false} WalkSaves(img: Image, cfg: Config, b: Btree, st: seq<Status>, path: set<int>, r: Ruin)
    requires img.Valid() && |st| == |img.pages| && Ruined(img, path, r) && Ordinary(cfg, b)
    requires NoneChecking(st, Area(r)) && OnPath(st, path)
    ensures Walk(img, cfg, b, st, r.Root()) == Visit(After(st, r), Reports(b.root, Saved(r)), Ends(r))
    decreases r, 0
  {
    hide Represents, TornPage, WreckedPage, InteriorPage, Marked, SetStatus, Walk, WalkAll, AllAreas, OverflowPages, AllSaved, AfterAll;
    match r
    case Whole(t) => WalkReadsTree(img, cfg, b, st, t);
    case Wreck(p) => WalkWreck(img, cfg, b, st, p);
    case Torn(p, rows, rc) =>
      var pointers :| TornPage(img, p, rows, rc, pointers);
      WalkTorn(img, cfg, b, st, p, rows, rc, pointers);
    case Gone(p) => WalkGone(img, cfg, b, st, path, p);
    case Inner(p, kids) =>
      var pointers :| InteriorPage(img, p, Numbers(kids), pointers);
      InteriorView(img, p, Numbers(kids), pointers);
      EnterInner(st, p, AllAreas(kids), path);
      WalkSavesAll(img, cfg, b, SetStatus(st, p, Checking), path + {p}, kids);
      WalkInner(img, cfg, b, st, p, kids);
  }

  lemma WalkGone(img: Image, cfg: Config, b: Btree, st: seq<Status>, path: set<int>, p: int)
    requires img.Valid() && |st| == |img.pages| && (!img.Has(p) || p in path) && OnPath(st, path)
    ensures Walk(img, cfg, b, st, p) == Visit(st, [], MISUSE)
  {
    hide PageView;
    if img.Has(p) { assert GetStatus(st, p) == Checking; }
  }

  lemma WalkInner(img: Image, cfg: Config, b: Btree, st: seq<Status>, p: int, kids: seq<Ruin>)
    requires img.Valid() && |st| == |img.pages| && img.Has(p) && PageView(img, p) == Interior(Numbers(kids))
    requires p !in AllAreas(kids) && st[p - 1] != Checking
    requires
      var v := WalkAll(img, cfg, b, SetStatus(st, p, Checking), Numbers(kids));
      v == Visit(AfterAll(SetStatus(st, p, Checking), kids), Reports(b.root, AllSaved(kids)), OK)
    ensures Walk(img, cfg, b, st, p) == Visit(SetStatus(AfterAll(st, kids), p, Checked), Reports(b.root, AllSaved(kids)), OK)
  {
    hide PageView, WalkAll, AfterAll, AllAreas, AllSaved, SetStatus;
    InnerSettles(st, p, kids);
  }

  lemma {:induction false} WalkSavesAll(img: Image, cfg: Config, b: Btree, st: seq<Status>, path: set<int>, kids: seq<Ruin>)
    requires img.Valid() && |st| == |img.pages| && NoneChecking(st, AllAreas(kids)) && OnPath(st, path) && Ordinary(cfg, b)
    requires forall i :: 0 <= i < |kids| ==> Ruined(img, path, kids[i])
    ensures WalkAll(img, cfg, b, st, Numbers(kids)) == Visit(AfterAll(st, kids), Reports(b.root, AllSaved(kids)), OK)
    decreases kids, |kids|
  {
    hide Walk, Ruined, Area, Saved, Reports, After;
    if kids == [] {
      assert Reports(b.root, []) == [];
    } else {
      assert NoneChecking(st, Area(kids[0])) && NoneChecking(st, AllAreas(kids[1..]));
      WalkSaves(img, cfg, b, st, path, kids[0]);
      AfterChild(st, kids[0], AllAreas(kids[1..]), path);
      WalkSavesAll(img, cfg, b, After(st, kids[0]), path, kids[1..]);
      assert Numbers(kids)[1..] == Numbers(kids[1..]);
      ReportsAppend(b.root, Saved(kids[0]), AllSaved(kids[1..]));
    }
  }

  // ---- damage that is met ----

  /** A stored cell whose row id cannot be read as an int is rejected. */
  lemma UnreadableFails(img: Image, p: int, at: int, row: Row)
    requires img.Valid() && img.Has(p) && CellStored(img, p, at, row) && !Readable(row)
    ensures FailsAt(img, p, at, DAMAGED)
  {
    hide Varint32At, EncodeVarint, IsRecord, Fetch, Stored, Decode, ReadAs, Unsigned;
    var payload :| CellOf(img, p, at, row, payload);
    var size, rowid := EncodeVarint(|payload|), EncodeVarint(Unsigned(row.rowid));
    SliceParts(img.Page(p), at, size, rowid);
    Varint32Exactly(img.Page(p), at, |payload|);
    Varint32Reads(img.Page(p), at + |size|, Unsigned(row.rowid));
    ReadAsFails(Unsigned(row.rowid));
  }

  /** A table page with children 3, 2 and 4. */
  function InnerBytes(): (r: seq<byte>)
    ensures |r| == 512
  {
    Examples.Sparse(map[0 := 5, 4 := 2, 11 := 4, 12 := 1, 13 := 0xF4, 14 := 1, 15 := 0xFA, 503 := 3, 509 := 2])
  }

  lemma InnerIs(img: Image)
    requires img.Valid() && img.pagesize == 512 && img.Has(2) && img.Page(2) == InnerBytes()
    ensures InteriorPage(img, 2, [3, 2, 4], [500, 506])
  {
    hide InnerBytes, Signed;
    var page := img.Page(2);
    assert page[0] == 5 && page[3] == 0 && page[4] == 2 && page[8] == page[9] == page[10] == 0 && page[11] == 4 by { InnerHead(); }
    assert page[12] == 1 && page[13] == 0xF4 && page[14] == 1 && page[15] == 0xFA by { InnerHead(); }
    assert page[500] == page[501] == page[502] == 0 && page[503] == 3 by { InnerCells(); }
    assert page[506] == page[507] == page[508] == 0 && page[509] == 2 by { InnerCells(); }
    Examples.Two(page, 3);
    Examples.Two(page, 12);
    Examples.Two(page, 14);
    Examples.Four(page, 500);
    Examples.Four(page, 506);
    Examples.Four(page, 8);
  }

  lemma InnerHead()
    ensures var r := InnerBytes();
      && r[0] == 5 && r[3] == 0 && r[4] == 2 && r[8] == r[9] == r[10] == 0 && r[11] == 4
      && r[12] == 1 && r[13] == 0xF4 && r[14] == 1 && r[15] == 0xFA
  {
  }

  lemma InnerCells()
    ensures var r := InnerBytes();
      && r[500] == r[501] == r[502] == 0 && r[503] == 3 && r[506] == r[507] == r[508] == 0 && r[509] == 2
  {
  }

  /** The first leaf is overwritten, the second child is the root itself, the last one is a leaf. */
  function Kids(row: Row): seq<Ruin> { [Wreck(3), Gone(2), Whole(Leaf(4, [row]))] }

  const FRESH := [Unchecked, Unchecked, Unchecked, Unchecked]

  lemma {:induction false} KidsSaved(row: Row)
    requires row.overflow == []
    ensures Numbers(Kids(row)) == [3, 2, 4] && AllAreas(Kids(row)) == {3, 4} && AllSaved(Kids(row)) == [row]
  {
    var last: Ruin := Whole(Leaf(4, [row]));
    AreasOf(Wreck(3), [Gone(2), last]);
    AreasOf(Gone(2), [last]);
    AreasOf(last, []);
    Examples.NoOverflow(row);
    assert Pages(Leaf(4, [row])) == {4} && Rows(Leaf(4, [row])) == [row];
    assert Kids(row) == [Wreck(3)] + [Gone(2), last] && [Gone(2), last] == [Gone(2)] + [last] && [last] == [last] + [];
  }

  lemma AreasOf(r: Ruin, kids: seq<Ruin>)
    ensures AllAreas([r] + kids) == Area(r) + AllAreas(kids) && AllSaved([r] + kids) == Saved(r) + AllSaved(kids)
  {
    hide Area, Saved;
    assert ([r] + kids)[1..] == kids;
  }

  lemma KidsAfter(row: Row)
    requires row.overflow == []
    ensures After(FRESH, Inner(2, Kids(row))) == [Unchecked, Checked, Damaged, Checked]
  {
    var k1: seq<Ruin>, k2: seq<Ruin> := [Gone(2), Whole(Leaf(4, [row]))], [Whole(Leaf(4, [row]))];
    Examples.NoOverflow(row);
    assert Kids(row)[1..] == k1 && k1[1..] == k2 && k2[1..] == [];
    var st1 := SetStatus(FRESH, 3, Damaged);
    assert AfterAll(FRESH, Kids(row)) == AfterAll(st1, k1);
    assert AfterAll(st1, k1) == AfterAll(st1, k2);
    assert AfterAll(st1, k2) == AfterAll(Marked(st1, {4} + {}), []);
    assert Marked(st1, {4} + {}) == [Unchecked, Unchecked, Damaged, Checked];
  }

  lemma KidsRuined(img: Image, row: Row, payload: seq<byte>)
    requires Examples.Short(row, payload) && Readable(row)
    requires img == Examples.File([Examples.Zeros(512), InnerBytes(), Examples.Zeros(512),
                                   Examples.OneCell(Examples.CellBytes(row.rowid, payload))])
    ensures img.Valid() && Ruined(img, {}, Inner(2, Kids(row)))
  {
    hide InnerBytes, Examples.OneCell, Examples.CellBytes, WreckedPage, InteriorPage, Represents, Readable, IsRecord, Ruined;
    InnerIs(img);
    ZerosWreck(img);
    Examples.OneRow(img, 4, row, payload);
    KidsSaved(row);
    KidsAre(img, row);
  }

  lemma KidsAre(img: Image, row: Row)
    requires img.Valid() && img.Has(2) && InteriorPage(img, 2, Numbers(Kids(row)), [500, 506]) && 2 !in AllAreas(Kids(row))
    requires WreckedPage(img, 3) && Represents(img, Leaf(4, [row]))
    ensures Ruined(img, {}, Inner(2, Kids(row)))
  {
    hide WreckedPage, InteriorPage, Represents, AllAreas;
  }

  lemma ZerosWreck(img: Image)
    requires img.Valid() && img.Has(3) && img.Page(3) == Examples.Zeros(512)
    ensures WreckedPage(img, 3)
  {
    hide Signed;
  }

  /** Of this b-tree the row of the last leaf is reported, and the overwritten page becomes damaged. */
  lemma DamageExample(cfg: Config, row: Row, payload: seq<byte>)
    requires Examples.Short(row, payload) && Readable(row)
    ensures var leaf := Examples.OneCell(Examples.CellBytes(row.rowid, payload));
      var img := Examples.File([Examples.Zeros(512), InnerBytes(), Examples.Zeros(512), leaf]);
      img.Valid() && |img.pages| == 4
      && Walk(img, cfg, Btree(2, Plain), FRESH, 2)
         == Visit([Unchecked, Checked, Damaged, Checked], [Report(2, Seen(row))], OK)
  {
    hide InnerBytes, Examples.OneCell, Examples.CellBytes, Ruined, Walk, Seen, Readable, IsRecord, After, AllSaved, AllAreas, Kids;
    var leaf := Examples.OneCell(Examples.CellBytes(row.rowid, payload));
    var img := Examples.File([Examples.Zeros(512), InnerBytes(), Examples.Zeros(512), leaf]);
    KidsRuined(img, row, payload);
    KidsSaved(row);
    KidsAfter(row);
    WalkSaves(img, cfg, Btree(2, Plain), FRESH, {}, Inner(2, Kids(row)));
  }
}
