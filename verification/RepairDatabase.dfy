/**
 A whole database: the master table on page 1 names the roots of the other b-trees, and
 parsing it leads to all of them.
 */
module RepairDatabase {
  import opened Bytes
  import opened RepairInts
  import opened RepairValues
  import opened RepairRecord
  import opened RepairPayload
  import opened RepairWalk
  import opened RepairTree
  import opened RepairReach
  import opened RepairIndex

  /** A table or an index. */
  datatype Stored = Table(table: Tree) | Index(index: IndexTree)
  {
    function Root(): int { match this case Table(t) => t.pageno case Index(t) => t.pageno }
  }

  /** A row of the master table and the b-tree it names, if it names one. */
  datatype Entry = Entry(row: Row, tree: Option<Stored>)

  function RowsOf(entries: seq<Entry>): (r: seq<Row>)
    ensures |r| == |entries|
  {
    seq(|entries|, i requires 0 <= i < |entries| => entries[i].row)
  }

  /** The master table as a single leaf on page 1, whose header starts at byte 100. */
  ghost predicate SchemaPage(img: Image, rows: seq<Row>, pointers: seq<int>)
    requires img.Valid() && img.Has(1)
  {
    var page := img.Page(1);
    && page[100] == LEAF_TABLE && |pointers| == |rows| > 0 && 108 + 2 * |pointers| <= img.pagesize
    && IntIs(page, 103, 2, |pointers|)
    && (forall i :: 0 <= i < |pointers| ==> IntIs(page, 108 + i * 2, 2, pointers[i]))
    && (forall i :: 0 <= i < |rows| ==> RowAt(img, 1, pointers[i], rows[i]))
  }

  /** The b-tree that the pages hold; the walk over an index must not come to a table. */
  ghost predicate Holds(img: Image, kind: Kind, t: Stored)
    requires img.Valid()
  {
    match t
    case Table(tree) => Represents(img, tree)
    case Index(tree) => HoldsIndex(img, tree) && Quiet(img, kind, tree.pageno)
  }

  /** Type, name, table name and root; the name of a b-tree is not the master table's. */
  ghost predicate EntryOk(img: Image, cfg: Config, e: Entry)
    requires img.Valid()
  {
    match e.tree
    case None => TableOf(img, cfg, e.row) == None
    case Some(t) =>
      var values := e.row.values;
      && |values| >= 4 && values[0].Text? && values[1].Text? && values[3] == Integer(t.Root()) && t.Root() < TWO_31
      && var kind := KindOf(t.Root(), values[1].text); kind != Master && Holds(img, kind, t)
  }

  /** A system table's leaves are not read: its name begins with sqlite_sequence, sqlite_autoindex or sqlite_stat. */
  predicate IsHidden(e: Entry)
    requires e.tree.Some? && |e.row.values| >= 2 && e.row.values[1].Text?
  {
    IsSystemName(e.row.values[1].text)
  }

  /** The pages of a tree without its overflow pages. */
  function Skeleton(t: Tree): set<int> {
    match t
    case Leaf(p, _) => {p}
    case Node(p, kids) => {p} + Skeletons(kids)
  }

  function Skeletons(kids: seq<Tree>): set<int> {
    if kids == [] then {} else Skeleton(kids[0]) + Skeletons(kids[1..])
  }

  /** The pages that parsing the entry checks. */
  ghost function Touched(img: Image, e: Entry): set<int>
    requires img.Valid()
  {
    if e.tree.None? || !(|e.row.values| >= 2 && e.row.values[1].Text?) then {}
    else
      match e.tree.value
      case Index(t) => Reach(img, {}, t.pageno)
      case Table(t) => if IsHidden(e) then Skeleton(t) else Pages(t)
  }

  /** The calls of onParseColumn for an entry: its own row, then the rows of its table. */
  ghost function EntryReports(e: Entry): seq<Report> {
    [Report(1, Seen(e.row))] +
    if e.tree.None? || !(|e.row.values| >= 2 && e.row.values[1].Text?) || e.tree.value.Index? || IsHidden(e) then []
    else Reports(e.tree.value.Root(), Rows(e.tree.value.table))
  }

  ghost function AllReports(entries: seq<Entry>): seq<Report> {
    if entries == [] then [] else EntryReports(entries[0]) + AllReports(entries[1..])
  }

  ghost function AllTouched(img: Image, entries: seq<Entry>): set<int>
    requires img.Valid()
  {
    if entries == [] then {}
    else (set p | p in entries[0].row.overflow) + Touched(img, entries[0]) + AllTouched(img, entries[1..])
  }

  // ---- system tables ----

  lemma {:induction false} WalkHidden(img: Image, cfg: Config, b: Btree, st: seq<Status>, t: Tree)
    requires img.Valid() && |st| == |img.pages| && Represents(img, t) && NoneChecking(st, Skeleton(t)) && b.kind == RepairWalk.Hidden
    ensures Walk(img, cfg, b, st, t.pageno) == Visit(Marked(st, Skeleton(t)), [], OK)
    decreases t, 0
  {
    hide LeafPage, InteriorPage, Marked, SetStatus, NoneChecking, Walk, WalkAll, AllPages, OverflowPages, Skeletons, PageView;
    match t
    case Leaf(p, rows) =>
      var pointers :| LeafPage(img, p, rows, pointers);
      LeafView(img, p, rows, pointers);
      SkeletonPages([]);
      HiddenLeaf(img, cfg, b, st, p);
    case Node(p, kids) =>
      var pointers :| InteriorPage(img, p, PageNumbers(kids), pointers);
      InteriorView(img, p, PageNumbers(kids), pointers);
      SkeletonPages(kids);
      EnterAndLeave(st, p, Skeletons(kids));
      WalkHiddenAll(img, cfg, b, SetStatus(st, p, Checking), kids);
      HiddenNode(img, cfg, b, st, p, kids);
  }

  lemma {:induction false} SkeletonPages(kids: seq<Tree>)
    ensures Skeletons(kids) <= AllPages(kids)
    ensures kids == [] ==> Skeletons(kids) == {}
    decreases kids, |kids|
  {
    if kids != [] {
      SkeletonPages(kids[1..]);
      match kids[0]
      case Leaf(_, _) =>
      case Node(_, more) => SkeletonPages(more);
    }
  }

  lemma HiddenLeaf(img: Image, cfg: Config, b: Btree, st: seq<Status>, p: int)
    requires img.Valid() && |st| == |img.pages| && img.Has(p) && b.kind == RepairWalk.Hidden && NoneChecking(st, {p})
    requires PageView(img, p).TableLeaf?
    ensures Walk(img, cfg, b, st, p) == Visit(Marked(st, {p}), [], OK)
    ensures {p} + Skeletons([]) == {p}
  {
    hide PageView;
    assert GetStatus(st, p) != Checking;
    assert SetStatus(SetStatus(st, p, Checking), p, Checked) == Marked(st, {p});
  }

  lemma HiddenNode(img: Image, cfg: Config, b: Btree, st: seq<Status>, p: int, kids: seq<Tree>)
    requires img.Valid() && |st| == |img.pages| && img.Has(p) && PageView(img, p) == Interior(PageNumbers(kids))
    requires p !in Skeletons(kids) && NoneChecking(st, {p} + Skeletons(kids))
    requires WalkAll(img, cfg, b, SetStatus(st, p, Checking), PageNumbers(kids))
      == Visit(Marked(SetStatus(st, p, Checking), Skeletons(kids)), [], OK)
    ensures Walk(img, cfg, b, st, p) == Visit(Marked(st, {p} + Skeletons(kids)), [], OK)
  {
    hide PageView, Marked, SetStatus, NoneChecking, WalkAll, Skeletons;
    EnterAndLeave(st, p, Skeletons(kids));
  }

  lemma {:induction false} WalkHiddenAll(img: Image, cfg: Config, b: Btree, st: seq<Status>, kids: seq<Tree>)
    requires img.Valid() && |st| == |img.pages| && NoneChecking(st, Skeletons(kids)) && b.kind == RepairWalk.Hidden
    requires forall i :: 0 <= i < |kids| ==> Represents(img, kids[i])
    ensures WalkAll(img, cfg, b, st, PageNumbers(kids)) == Visit(Marked(st, Skeletons(kids)), [], OK)
    decreases kids, |kids|
  {
    hide Walk, Marked, Represents, Skeleton;
    if kids == [] {
      MarkedNone(st);
    } else {
      var first, rest := Skeleton(kids[0]), Skeletons(kids[1..]);
      assert NoneChecking(st, first) && NoneChecking(st, rest);
      WalkHidden(img, cfg, b, st, kids[0]);
      MarkedFree(st, first, rest);
      WalkHiddenAll(img, cfg, b, Marked(st, first), kids[1..]);
      MarkedTwice(st, first, rest);
      assert PageNumbers(kids)[1..] == PageNumbers(kids[1..]);
    }
  }

  // ---- the master table ----

  lemma SchemaView(img: Image, rows: seq<Row>, pointers: seq<int>)
    requires img.Valid() && img.Has(1) && SchemaPage(img, rows, pointers)
    ensures PageView(img, 1) == TableLeaf(pointers)
  {
    hide RowAt, Ints, Signed;
    IntsRead(img.Page(1), PointerOffsets(108, |pointers|), 2, pointers);
  }

  /** A represented tree has a page of one of the four types at its root. */
  lemma RepresentedOpens(img: Image, t: Tree)
    requires img.Valid() && Represents(img, t)
    ensures Opens(img, t.pageno) && t.pageno != 1
  {
    hide RowAt, AllPages, OverflowPages, IntIs;
    match t
    case Leaf(p, rows) => var pointers :| LeafPage(img, p, rows, pointers);
    case Node(p, kids) => var pointers :| InteriorPage(img, p, PageNumbers(kids), pointers);
  }

  lemma IndexOpens(img: Image, t: IndexTree)
    requires img.Valid() && HoldsIndex(img, t)
    ensures Opens(img, t.pageno) && t.pageno > 1
  {
    hide IntIs;
    var pointers :| IndexPage(img, t.pageno, Roots(t.kids), pointers);
  }

  /** The entry's row leads to its tree. */
  lemma EntryLeads(img: Image, cfg: Config, e: Entry)
    requires img.Valid() && EntryOk(img, cfg, e) && e.tree.Some?
    ensures var t := e.tree.value;
      && |e.row.values| >= 2 && e.row.values[1].Text? && t.Root() != 1 && img.Has(t.Root())
      && TableOf(img, cfg, e.row) == Some(Btree(t.Root(), KindOf(t.Root(), e.row.values[1].text)))
  {
    hide Represents, HoldsIndex, Quiet, Opens, KindOf;
    match e.tree.value
    case Table(t) =>
      RepresentedOpens(img, t);
      HasPage(img, t);
    case Index(t) =>
      IndexOpens(img, t);
      IndexHasPage(img, t);
  }

  lemma IndexHasPage(img: Image, t: IndexTree)
    requires img.Valid() && HoldsIndex(img, t)
    ensures img.Has(t.pageno)
  {
    hide IndexPage;
  }

  lemma HasPage(img: Image, t: Tree)
    requires img.Valid() && Represents(img, t)
    ensures img.Has(t.pageno)
  {
    hide LeafPage, InteriorPage, AllPages, OverflowPages;
  }

  /** A root, cast to int: a number, or a text or double as it is converted to one; anything else is 0. */
  function RootOf(cfg: Config, v: Value): int {
    match v
    case Integer(i) => Int32(i)
    case Text(_) => Int32(cfg.convert(v))
    case Number(_) => Int32(cfg.convert(v))
    case _ => 0
  }

  /** The page is there, and it is page 1 or of one of the four types of a b-tree. */
  predicate IsBtree(img: Image, p: int)
    requires img.Valid()
  {
    img.Has(p) && (p == 1 || img.Page(p)[0] in {2, 5, 10, 13})
  }

  /**
   Where a row of the master table leads: if its type and its name are texts, to the b-tree
   at its fourth value, whose kind is that of its name; otherwise nowhere.
   */
  lemma LeadsExactly(img: Image, cfg: Config, row: Row)
    requires img.Valid()
    ensures
      var v := row.values;
      if |v| >= 4 && v[0].Text? && v[1].Text? && IsBtree(img, RootOf(cfg, v[3])) then
        TableOf(img, cfg, row) == Some(Btree(RootOf(cfg, v[3]), KindOf(RootOf(cfg, v[3]), v[1].text)))
      else TableOf(img, cfg, row) == None
  {
    hide KindOf;
  }

  /** A row that leads nowhere is reported, and nothing else happens. */
  lemma LeadsNowhere(img: Image, cfg: Config, b: Btree, st: seq<Status>, row: Row)
    requires img.Valid() && |st| == |img.pages|
    requires TableOf(img, cfg, row) == None || !cfg.recursive || b.kind != Master
    ensures Recurse(img, cfg, b, st, row) == Visit(st, [], OK)
  {
    hide TableOf, Walk;
  }

  lemma RecurseReads(img: Image, cfg: Config, st: seq<Status>, e: Entry)
    requires img.Valid() && |st| == |img.pages| && EntryOk(img, cfg, e) && cfg.recursive && NoneChecking(st, Touched(img, e))
    ensures var v := Recurse(img, cfg, Btree(1, Master), st, Seen(e.row));
      v.Visit? && v.status == Marked(st, Touched(img, e)) && [Report(1, Seen(e.row))] + v.reports == EntryReports(e)
  {
    hide Walk, TableOf, Represents, HoldsIndex, Quiet, Reach, Pages, Rows, Marked, NoneChecking, Skeleton, KindOf, Seen, IsSystemName, Begins;
    SeenLeads(img, cfg, e.row);
    match e.tree
    case None => MarkedNone(st);
    case Some(t) =>
      EntryLeads(img, cfg, e);
      EntryTree(img, cfg, e);
      KindExactly(t.Root(), e.row.values[1].text);
      var b := TableOf(img, cfg, e.row).value;
      match t
      case Index(index) => WalkIndex(img, cfg, b, st, index.pageno);
      case Table(table) =>
        if IsHidden(e) { WalkHidden(img, cfg, b, st, table); } else { WalkReadsTree(img, cfg, b, st, table); }
  }

  /** Where a row leads does not depend on its row id. */
  lemma SeenLeads(img: Image, cfg: Config, row: Row)
    requires img.Valid()
    ensures TableOf(img, cfg, Seen(row)) == TableOf(img, cfg, row)
  {
    hide Opens, IntegerOf, KindOf;
  }

  lemma EntryTree(img: Image, cfg: Config, e: Entry)
    requires img.Valid() && EntryOk(img, cfg, e) && e.tree.Some?
    ensures |e.row.values| >= 2 && e.row.values[1].Text?
    ensures var kind := KindOf(e.tree.value.Root(), e.row.values[1].text); kind != Master && Holds(img, kind, e.tree.value)
  {
  }

  lemma {:induction false} SchemaRead(
    img: Image, cfg: Config, st: seq<Status>, p: int, pointers: seq<int>, entries: seq<Entry>)
    requires img.Valid() && img.Has(p) && |st| == |img.pages| && |pointers| == |entries| && cfg.recursive
    requires forall i :: 0 <= i < |entries| ==> RowAt(img, p, pointers[i], entries[i].row) && EntryOk(img, cfg, entries[i])
    requires NoneChecking(st, AllTouched(img, entries))
    ensures Cells(img, cfg, Btree(1, Master), st, p, pointers)
      == Visit(Marked(st, AllTouched(img, entries)), AllReports(entries), OK)
    decreases |entries|
  {
    hide RowAt, CellAt, Marked, TableOf, EntryOk, Recurse, Touched, EntryReports, Seen;
    if entries == [] {
      MarkedNone(st);
    } else {
      var e := entries[0];
      var row, tree, rest := (set p | p in e.row.overflow), Touched(img, e), AllTouched(img, entries[1..]);
      assert NoneChecking(st, row) && NoneChecking(st, tree) && NoneChecking(st, rest);
      RowRead(img, st, p, pointers[0], e.row);
      MarkedFree(st, row, tree);
      MarkedFree(st, row, rest);
      RecurseReads(img, cfg, Marked(st, row), e);
      MarkedFree(Marked(st, row), tree, rest);
      SchemaRead(img, cfg, Marked(Marked(st, row), tree), p, pointers[1..], entries[1..]);
      MarkedTwice(st, row, tree);
      MarkedTwice(st, row + tree, rest);
    }
  }

  // ---- a master table of any size ----

  /** The master table's b-tree: pages of entries, and pages of children of which the last is the right-most one. */
  datatype Schema = Entries(pageno: int, entries: seq<Entry>) | Inner(pageno: int, kids: seq<Schema>)

  function EntriesOf(t: Schema): seq<Entry> {
    match t
    case Entries(_, entries) => entries
    case Inner(_, kids) => AllEntries(kids)
  }

  function AllEntries(kids: seq<Schema>): seq<Entry> {
    if kids == [] then [] else EntriesOf(kids[0]) + AllEntries(kids[1..])
  }

  function Numbers(kids: seq<Schema>): (r: seq<int>)
    ensures |r| == |kids|
  {
    seq(|kids|, i requires 0 <= i < |kids| => kids[i].pageno)
  }

  /** The pages of the master table and of the b-trees that its entries name. */
  ghost function SchemaPages(img: Image, t: Schema): set<int>
    requires img.Valid()
  {
    match t
    case Entries(p, entries) => {p} + AllTouched(img, entries)
    case Inner(p, kids) => {p} + AllSchemaPages(img, kids)
  }

  ghost function AllSchemaPages(img: Image, kids: seq<Schema>): set<int>
    requires img.Valid()
  {
    if kids == [] then {} else SchemaPages(img, kids[0]) + AllSchemaPages(img, kids[1..])
  }

  /** The pages below page 1 hold the schema. */
  ghost predicate HoldsSchema(img: Image, cfg: Config, t: Schema)
    requires img.Valid()
  {
    img.Has(t.pageno) &&
    match t
    case Entries(p, entries) =>
      && p !in AllTouched(img, entries) && (exists pointers :: LeafPage(img, p, RowsOf(entries), pointers))
      && forall i :: 0 <= i < |entries| ==> EntryOk(img, cfg, entries[i])
    case Inner(p, kids) =>
      && p !in AllSchemaPages(img, kids) && (exists pointers :: InteriorPage(img, p, Numbers(kids), pointers))
      && forall i :: 0 <= i < |kids| ==> HoldsSchema(img, cfg, kids[i])
  }

  /** A database file: page 1 begins with the magic string and is the root of the schema. */
  ghost predicate HoldsDatabase(img: Image, cfg: Config, t: Schema)
    requires img.Valid()
  {
    && img.Has(1) && t.pageno == 1 && HasMagic(img) && |img.pages| < 0x6f72_6d61
    && match t
       case Entries(_, entries) =>
         && 1 !in AllTouched(img, entries) && (exists pointers :: SchemaPage(img, RowsOf(entries), pointers))
         && forall i :: 0 <= i < |entries| ==> EntryOk(img, cfg, entries[i])
       case Inner(_, kids) =>
         && 1 !in AllSchemaPages(img, kids) && (exists pointers :: FirstPage(img, pointers, Numbers(kids)))
         && forall i :: 0 <= i < |kids| ==> HoldsSchema(img, cfg, kids[i])
  }

  lemma SchemaEntries(img: Image, cfg: Config, st: seq<Status>, p: int, entries: seq<Entry>, pointers: seq<int>)
    requires img.Valid() && img.Has(p) && |st| == |img.pages| && cfg.recursive && PageView(img, p) == TableLeaf(pointers)
    requires |pointers| == |entries| && forall i :: 0 <= i < |entries| ==> RowAt(img, p, pointers[i], entries[i].row)
    requires forall i :: 0 <= i < |entries| ==> EntryOk(img, cfg, entries[i])
    requires p !in AllTouched(img, entries) && NoneChecking(st, {p} + AllTouched(img, entries))
    ensures Walk(img, cfg, Btree(1, Master), st, p) == Visit(Marked(st, {p} + AllTouched(img, entries)), AllReports(entries), OK)
  {
    hide PageView, RowAt, Marked, SetStatus, NoneChecking, Cells, AllTouched, AllReports, EntryOk;
    EnterAndLeave(st, p, AllTouched(img, entries));
    SchemaRead(img, cfg, SetStatus(st, p, Checking), p, pointers, entries);
  }

  lemma {:induction false} WalkReadsSchema(img: Image, cfg: Config, st: seq<Status>, t: Schema)
    requires img.Valid() && |st| == |img.pages| && cfg.recursive && HoldsSchema(img, cfg, t) && NoneChecking(st, SchemaPages(img, t))
    ensures Walk(img, cfg, Btree(1, Master), st, t.pageno) == Visit(Marked(st, SchemaPages(img, t)), AllReports(EntriesOf(t)), OK)
    decreases t, 0
  {
    hide LeafPage, InteriorPage, RowAt, Marked, SetStatus, NoneChecking, Walk, WalkAll, AllSchemaPages, AllEntries,
         AllTouched, AllReports, EntryOk, PageView;
    match t
    case Entries(p, entries) =>
      var pointers :| LeafPage(img, p, RowsOf(entries), pointers);
      LeafView(img, p, RowsOf(entries), pointers);
      LeafRows(img, p, RowsOf(entries), pointers);
      assert forall i :: 0 <= i < |entries| ==> RowsOf(entries)[i] == entries[i].row;
      SchemaEntries(img, cfg, st, p, entries, pointers);
    case Inner(p, kids) =>
      var pointers :| InteriorPage(img, p, Numbers(kids), pointers);
      InteriorView(img, p, Numbers(kids), pointers);
      EnterAndLeave(st, p, AllSchemaPages(img, kids));
      WalkReadsSchemas(img, cfg, SetStatus(st, p, Checking), kids);
      WalkInner(img, cfg, st, p, Numbers(kids), AllSchemaPages(img, kids), AllReports(AllEntries(kids)));
  }

  /** From the visit of the children to the visit of the page. */
  lemma WalkInner(
    img: Image, cfg: Config, st: seq<Status>, p: int, children: seq<int>, below: set<int>, reports: seq<Report>)
    requires img.Valid() && |st| == |img.pages| && img.Has(p) && PageView(img, p) == Interior(children)
    requires p !in below && NoneChecking(st, {p} + below)
    requires var v := WalkAll(img, cfg, Btree(1, Master), SetStatus(st, p, Checking), children);
      v == Visit(Marked(SetStatus(st, p, Checking), below), reports, OK)
    ensures Walk(img, cfg, Btree(1, Master), st, p) == Visit(Marked(st, {p} + below), reports, OK)
  {
    hide PageView, Marked, SetStatus, NoneChecking, WalkAll;
    EnterAndLeave(st, p, below);
  }

  lemma {:induction false} WalkReadsSchemas(img: Image, cfg: Config, st: seq<Status>, kids: seq<Schema>)
    requires img.Valid() && |st| == |img.pages| && cfg.recursive && NoneChecking(st, AllSchemaPages(img, kids))
    requires forall i :: 0 <= i < |kids| ==> HoldsSchema(img, cfg, kids[i])
    ensures WalkAll(img, cfg, Btree(1, Master), st, Numbers(kids))
      == Visit(Marked(st, AllSchemaPages(img, kids)), AllReports(AllEntries(kids)), OK)
    decreases kids, |kids|
  {
    hide Walk, Marked, HoldsSchema, SchemaPages, EntriesOf, AllReports;
    if kids == [] {
      MarkedNone(st);
      NoReports();
    } else {
      var first, rest := SchemaPages(img, kids[0]), AllSchemaPages(img, kids[1..]);
      assert NoneChecking(st, first) && NoneChecking(st, rest);
      WalkReadsSchema(img, cfg, st, kids[0]);
      MarkedFree(st, first, rest);
      WalkReadsSchemas(img, cfg, Marked(st, first), kids[1..]);
      MarkedTwice(st, first, rest);
      assert Numbers(kids)[1..] == Numbers(kids[1..]);
      AllReportsAppend(EntriesOf(kids[0]), AllEntries(kids[1..]));
    }
  }

  lemma NoReports()
    ensures AllReports([]) == []
  {
  }

  lemma {:induction false} AllReportsAppend(a: seq<Entry>, b: seq<Entry>)
    ensures AllReports(a + b) == AllReports(a) + AllReports(b)
    decreases |a|
  {
    hide EntryReports;
    if a == [] {
      assert a + b == b;
    } else {
      AllReportsAppend(a[1..], b);
      assert (a + b)[1..] == a[1..] + b;
      assert EntryReports(a[0]) + (AllReports(a[1..]) + AllReports(b)) == EntryReports(a[0]) + AllReports(a[1..]) + AllReports(b);
    }
  }

  /** What the walk reaches: on an interior page 1 all children but the right-most one. */
  function Reached(t: Schema): Schema {
    if t.Inner? && t.kids != [] then Inner(t.pageno, t.kids[..|t.kids| - 1]) else t
  }

  lemma {:induction false} WalkAllStray(img: Image, cfg: Config, b: Btree, st: seq<Status>, children: seq<int>, x: int)
    requires img.Valid() && |st| == |img.pages| && !img.Has(x)
    ensures WalkAll(img, cfg, b, st, children + [x]) == WalkAll(img, cfg, b, st, children)
    decreases |children|
  {
    if children == [] {
      assert (children + [x])[1..] == [];
      assert Walk(img, cfg, b, st, x) == Visit(st, [], MISUSE);
    } else {
      hide Walk;
      assert (children + [x])[1..] == children[1..] + [x];
      var v := Walk(img, cfg, b, st, children[0]);
      if v.Visit? { WalkAllStray(img, cfg, b, v.status, children[1..], x); }
    }
  }

  /**
   Parsing the master table of a database whose b-trees are represented reports each of the
   rows that it reaches and behind it, left to right, the rows of the table that it names;
   system tables and indexes are passed over; exactly the pages of all these become checked.
   */
  lemma WalkReadsDatabase(img: Image, cfg: Config, st: seq<Status>, t: Schema)
    requires img.Valid() && |st| == |img.pages| && cfg.recursive && HoldsDatabase(img, cfg, t)
    requires NoneChecking(st, SchemaPages(img, Reached(t)))
    ensures Walk(img, cfg, Btree(1, Master), st, 1)
      == Visit(Marked(st, SchemaPages(img, Reached(t))), AllReports(EntriesOf(Reached(t))), OK)
  {
    hide SchemaPage, FirstPage, RowAt, Marked, NoneChecking, SetStatus, Walk, WalkAll, AllSchemaPages, AllEntries, AllTouched,
         AllReports, EntryOk, PageView, HoldsSchema, HasMagic;
    match t
    case Entries(_, entries) =>
      var pointers :| SchemaPage(img, RowsOf(entries), pointers);
      SchemaView(img, RowsOf(entries), pointers);
      SchemaRows(img, entries, pointers);
      SchemaEntries(img, cfg, st, 1, entries, pointers);
    case Inner(_, kids) =>
      var pointers :| FirstPage(img, pointers, Numbers(kids));
      FirstPageView(img, pointers, Numbers(kids));
      FirstPageSize(img, pointers, Numbers(kids));
      MagicNumber(img);
      var near := kids[..|kids| - 1];
      assert Numbers(kids)[..|kids| - 1] == Numbers(near);
      NotBelow(img, kids);
      EnterAndLeave(st, 1, AllSchemaPages(img, near));
      WalkReadsSchemas(img, cfg, SetStatus(st, 1, Checking), near);
      WalkAllStray(img, cfg, Btree(1, Master), SetStatus(st, 1, Checking), Numbers(near), 0x6f72_6d61);
      WalkInner(img, cfg, st, 1, Numbers(near) + [0x6f72_6d61], AllSchemaPages(img, near), AllReports(AllEntries(near)));
  }

  lemma FirstPageSize(img: Image, pointers: seq<int>, children: seq<int>)
    requires img.Valid() && img.Has(1) && FirstPage(img, pointers, children)
    ensures |children| == |pointers| + 1 > 1
  {
    hide IntIs;
  }

  lemma {:induction false} AllPagesAppend(img: Image, a: seq<Schema>, b: seq<Schema>)
    requires img.Valid()
    ensures AllSchemaPages(img, a + b) == AllSchemaPages(img, a) + AllSchemaPages(img, b)
    ensures AllEntries(a + b) == AllEntries(a) + AllEntries(b)
    decreases |a|
  {
    hide SchemaPages, EntriesOf;
    if a == [] {
      assert a + b == b;
    } else {
      AllPagesAppend(img, a[1..], b);
      assert (a + b)[1..] == a[1..] + b;
    }
  }

  lemma NotBelow(img: Image, kids: seq<Schema>)
    requires img.Valid() && kids != []
    ensures AllSchemaPages(img, kids[..|kids| - 1]) <= AllSchemaPages(img, kids)
  {
    hide SchemaPages, AllSchemaPages, AllEntries;
    AllPagesAppend(img, kids[..|kids| - 1], kids[|kids| - 1..]);
    assert kids[..|kids| - 1] + kids[|kids| - 1..] == kids;
  }

  /** A page of entries has at least one. */
  lemma {:induction false} SomeEntry(img: Image, cfg: Config, t: Schema)
    requires img.Valid() && HoldsSchema(img, cfg, t)
    ensures EntriesOf(t) != []
    decreases t
  {
    hide EntryOk, RowAt, IntIs, AllSchemaPages, AllTouched;
    match t
    case Entries(p, entries) => var pointers :| LeafPage(img, p, RowsOf(entries), pointers);
    case Inner(p, kids) =>
      var pointers :| InteriorPage(img, p, Numbers(kids), pointers);
      SomeEntry(img, cfg, kids[0]);
  }

  lemma {:induction false} ReportsGrow(entries: seq<Entry>)
    ensures |AllReports(entries)| >= |entries|
    decreases |entries|
  {
    hide EntryReports;
    if entries != [] {
      OwnReport(entries[0]);
      ReportsGrow(entries[1..]);
    }
  }

  lemma OwnReport(e: Entry)
    ensures |EntryReports(e)| >= 1
  {
  }

  /** Nothing is missed exactly if the schema fits on page 1. */
  lemma SchemaExactly(img: Image, cfg: Config, t: Schema)
    requires img.Valid() && HoldsDatabase(img, cfg, t)
    ensures AllReports(EntriesOf(Reached(t))) == AllReports(EntriesOf(t)) <==> t.Entries?
  {
    hide EntryOk, AllTouched, AllSchemaPages, AllReports, HoldsSchema;
    if t.Inner? {
      var kids := t.kids;
      var pointers :| FirstPage(img, pointers, Numbers(kids));
      FirstPageSize(img, pointers, Numbers(kids));
      var near, last := kids[..|kids| - 1], kids[|kids| - 1..];
      AllPagesAppend(img, near, last);
      assert near + last == kids;
      SomeEntry(img, cfg, last[0]);
      assert last[1..] == [] && AllEntries(last) == EntriesOf(last[0]) + [];
      AllReportsAppend(AllEntries(near), AllEntries(last));
      ReportsGrow(AllEntries(last));
    }
  }

  lemma SchemaRows(img: Image, entries: seq<Entry>, pointers: seq<int>)
    requires img.Valid() && img.Has(1) && SchemaPage(img, RowsOf(entries), pointers)
    ensures |pointers| == |entries| && forall i :: 0 <= i < |entries| ==> RowAt(img, 1, pointers[i], entries[i].row)
  {
    hide RowAt, IntIs;
    assert forall i :: 0 <= i < |entries| ==> RowsOf(entries)[i] == entries[i].row;
  }
}
