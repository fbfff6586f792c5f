/**
 The recursive walk over the pages of a b-tree, as a function of the page-status array.
 It ends on every graph of pages, cyclic ones included, because a page is not entered
 while it is being checked, and every call leaves the set of such pages as it found it.
 */
module RepairWalk {
  import opened Bytes
  import opened RepairInts
  import opened RepairValues
  import opened RepairRecord
  import opened RepairPayload

  datatype Status = Unchecked | Checking | Checked | Damaged | Invalid | Discarded

  const INTERIOR_INDEX := 2
  const INTERIOR_TABLE := 5
  const LEAF_INDEX := 10
  const LEAF_TABLE := 13

  // ---- one page by itself ----

  /** sqliterkPagenoHeaderOffset */
  function HeaderOffset(pageno: int): nat { if pageno == 1 then 100 else 0 }

  /** n integers of a width, read where `at` says. */
  function Ints(page: seq<byte>, at: seq<int>, width: int): Result<seq<int>> {
    if at == [] then Done([])
    else
      match IntAt(page, at[0], width)
      case Done(v) => (match Ints(page, at[1..], width) case Done(rest) => Done([v] + rest) case r => r)
      case Failed(rc) => Failed(rc)
      case Undefined => Undefined
  }

  /** The offsets of the cell pointer array. */
  function PointerOffsets(base: int, n: nat): (r: seq<int>)
    ensures |r| == n
  {
    seq(n, i requires 0 <= i < n => base + i * 2)
  }

  /** What the walk sees of a page: children, cells, nothing to do, damage, or a read outside it. */
  datatype View = Interior(children: seq<int>) | TableLeaf(cells: seq<int>) | IndexLeaf | Broken | Unreadable

  function PageView(img: Image, pageno: int): View
    requires img.Valid() && img.Has(pageno)
  {
    var page, h := img.Page(pageno), HeaderOffset(pageno);
    var kind := Int8(page[h]);
    if kind !in {INTERIOR_INDEX, INTERIOR_TABLE, LEAF_INDEX, LEAF_TABLE} then Broken
    else
      var offset := if kind == INTERIOR_TABLE then 12 else 8;
      var count := Signed(Slice(page, 3 + h, 2));
      if count <= 0 || count * 2 + offset > img.pagesize then Broken
      else
        match Ints(page, PointerOffsets(h + offset, count), 2)
        case Done(pointers) =>
          if kind == LEAF_TABLE then TableLeaf(pointers)
          else if kind == LEAF_INDEX then IndexLeaf
          else
            (match Ints(page, if kind == INTERIOR_TABLE then pointers + [8] else pointers, 4)
             case Done(children) => Interior(children)
             case _ => Unreadable)
        case _ => Unreadable
  }

  // ---- statuses ----

  /** sqliterkPagerSetStatus */
  function SetStatus(st: seq<Status>, pageno: int, s: Status): (r: seq<Status>)
    ensures |r| == |st|
  {
    if 1 <= pageno <= |st| then st[pageno - 1 := s] else st
  }

  /** sqliterkPagerGetStatus */
  function GetStatus(st: seq<Status>, pageno: int): Status {
    if 1 <= pageno <= |st| then st[pageno - 1] else Invalid
  }

  /** The status in which sqliterkNotify_onEndParsePage leaves a page. */
  function Outcome(rc: Rc): Status { if rc == OK then Checked else if rc == DAMAGED then Damaged else Invalid }

  /** The pages that are not being checked. */
  function Free(st: seq<Status>): set<int> { set i | 0 <= i < |st| && st[i] != Checking }

  /** The two agree on which pages are being checked. */
  predicate SameChecking(a: seq<Status>, b: seq<Status>) {
    |a| == |b| && forall i :: 0 <= i < |a| ==> (a[i] == Checking <==> b[i] == Checking)
  }

  lemma SameFree(a: seq<Status>, b: seq<Status>)
    requires SameChecking(a, b)
    ensures Free(a) == Free(b)
  {
  }

  lemma EnterFree(st: seq<Status>, pageno: int)
    requires 1 <= pageno <= |st| && st[pageno - 1] != Checking
    ensures Free(SetStatus(st, pageno, Checking)) < Free(st)
  {
    assert pageno - 1 in Free(st) && pageno - 1 !in Free(SetStatus(st, pageno, Checking));
  }

  // ---- b-trees ----

  /** What matters of a b-tree's type: the master table, another system b-tree, anything else. */
  datatype Kind = Master | Hidden | Plain

  datatype Btree = Btree(root: int, kind: Kind)

  datatype Row = Row(rowid: int, values: seq<Value>, overflow: seq<int>)

  /** A call of onParseColumn: the b-tree's root and the row. */
  datatype Report = Report(root: int, row: Row)

  /** Whether rows of the master table lead to their tables, and the conversion of other values to int64. */
  datatype Config = Config(recursive: bool, convert: Value -> int)

  const SEQUENCE: seq<byte> := [0x73, 0x71, 0x6c, 0x69, 0x74, 0x65, 0x5f, 0x73, 0x65, 0x71, 0x75, 0x65, 0x6e, 0x63, 0x65]
  const AUTOINDEX: seq<byte> :=
    [0x73, 0x71, 0x6c, 0x69, 0x74, 0x65, 0x5f, 0x61, 0x75, 0x74, 0x6f, 0x69, 0x6e, 0x64, 0x65, 0x78]
  const STAT: seq<byte> := [0x73, 0x71, 0x6c, 0x69, 0x74, 0x65, 0x5f, 0x73, 0x74, 0x61, 0x74]
  const MASTER: seq<byte> := [0x73, 0x71, 0x6c, 0x69, 0x74, 0x65, 0x5f, 0x6d, 0x61, 0x73, 0x74, 0x65, 0x72]

  /** sqliterkBtreeSetMeta: a name that begins with a system name decides, else the type stays. */
  function KindOf(root: int, name: seq<byte>): Kind {
    if SEQUENCE <= name || AUTOINDEX <= name || STAT <= name then Hidden
    else if MASTER <= name || root == 1 then Master
    else Plain
  }

  /** The name begins with these letters. */
  predicate Begins(name: seq<byte>, s: string) {
    |s| <= |name| && forall i :: 0 <= i < |s| ==> name[i] == s[i] as int
  }

  /** Which names belong to system tables that are not read, and which to the master table. */
  predicate IsSystemName(name: seq<byte>) {
    Begins(name, "sqlite_sequence") || Begins(name, "sqlite_autoindex") || Begins(name, "sqlite_stat")
  }

  lemma BeginsIs(name: seq<byte>, letters: seq<byte>, s: string)
    requires |s| == |letters| && forall i :: 0 <= i < |s| ==> letters[i] == s[i] as int
    ensures Begins(name, s) <==> letters <= name
  {
    if letters <= name {
      forall i | 0 <= i < |s| ensures name[i] == s[i] as int { assert name[i] == letters[i]; }
    }
  }

  lemma KindExactly(root: int, name: seq<byte>)
    ensures KindOf(root, name) == Hidden <==> IsSystemName(name)
    ensures KindOf(root, name) == Master <==> !IsSystemName(name) && (root == 1 || Begins(name, "sqlite_master"))
  {
    hide Begins;
    BeginsIs(name, SEQUENCE, "sqlite_sequence");
    BeginsIs(name, AUTOINDEX, "sqlite_autoindex");
    BeginsIs(name, STAT, "sqlite_stat");
    BeginsIs(name, MASTER, "sqlite_master");
  }

  /** sqliterkValuesGetInteger */
  function IntegerOf(cfg: Config, values: seq<Value>, i: nat): int {
    if i >= |values| then 0
    else match values[i]
      case Integer(v) => Int32(v)
      case Number(_) => Int32(cfg.convert(values[i]))
      case Text(_) => Int32(cfg.convert(values[i]))
      case _ => 0
  }

  /** sqliterkBtreeOpen reads the page and accepts four types, or anything on page 1. */
  predicate Opens(img: Image, root: int)
    requires img.Valid()
  {
    img.Has(root) && (root == 1 || Int8(img.Page(root)[0]) in {INTERIOR_INDEX, INTERIOR_TABLE, LEAF_INDEX, LEAF_TABLE})
  }

  datatype Option<T> = None | Some(value: T)

  /** The b-tree that a row of the master table names: type, name, table name, root. */
  function TableOf(img: Image, cfg: Config, row: Row): Option<Btree>
    requires img.Valid()
  {
    var values := row.values;
    if !(|values| >= 2 && values[0].Text? && values[1].Text?) then None
    else
      var root := IntegerOf(cfg, values, 3);
      if Opens(img, root) then Some(Btree(root, KindOf(root, values[1].text))) else None
  }

  // ---- leaves ----

  /** Statuses, reports and result of a call, or Lost: a read outside the data or an endless chain. */
  datatype Visit = Visit(status: seq<Status>, reports: seq<Report>, rc: Rc) | Lost

  /** Both notifications for each overflow page. */
  function MarkChain(st: seq<Status>, pages: seq<int>): (r: seq<Status>)
    ensures |r| == |st|
    decreases |pages|
  {
    if pages == [] then st else MarkChain(SetStatus(st, pages[0], Checked), pages[1..])
  }

  predicate Untouched(st: seq<Status>, pages: seq<int>) { forall p :: p in pages ==> GetStatus(st, p) != Checking }

  /** One cell: its row, with the overflow pages marked, or how it failed. */
  datatype Cell = Cell(status: seq<Status>, row: Row) | BadCell(status: seq<Status>, rc: Fault) | LostCell

  /** A fetched payload: the overflow pages are marked, then the record is decoded. */
  function DecodeCell(st: seq<Status>, rowid: int, fetched: Fetched): Cell {
    match fetched
    case Rejected(rc) => BadCell(st, rc)
    case Outside => LostCell
    case Endless => LostCell
    case Fetched(bytes, pages) =>
      if !Untouched(st, pages) then LostCell
      else
        var marked := MarkChain(st, pages);
        match Decode(bytes).end
        case Done(_) => Cell(marked, Row(rowid, Decode(bytes).values, pages))
        case Failed(rc) => BadCell(marked, rc)
        case Undefined => LostCell
  }

  /** One turn of the loop of sqliterkBtreeParseCell. */
  function CellAt(img: Image, st: seq<Status>, pageno: int, at: int): Cell
    requires img.Valid() && img.Has(pageno)
  {
    var page := img.Page(pageno);
    match Varint32At(page, at)
    case Failed(rc) => BadCell(st, rc)
    case Undefined => LostCell
    case Done((sizeLength, size)) =>
      match Varint32At(page, at + sizeLength)
      case Failed(rc) => BadCell(st, rc)
      case Undefined => LostCell
      case Done((rowidLength, rowid)) =>
        DecodeCell(st, rowid, Fetch(img, pageno, at + sizeLength + rowidLength, size))
  }

  lemma {:induction false} MarkSame(st: seq<Status>, pages: seq<int>)
    requires Untouched(st, pages)
    ensures SameChecking(st, MarkChain(st, pages))
    decreases |pages|
  {
    if pages != [] {
      var st1 := SetStatus(st, pages[0], Checked);
      assert GetStatus(st, pages[0]) != Checking;
      forall p | p in pages[1..] ensures GetStatus(st1, p) != Checking { assert GetStatus(st, p) != Checking; }
      MarkSame(st1, pages[1..]);
    }
  }

  lemma CellSame(img: Image, st: seq<Status>, pageno: int, at: int)
    requires img.Valid() && img.Has(pageno)
    ensures var c := CellAt(img, st, pageno, at); !c.LostCell? ==> SameChecking(st, c.status)
  {
    hide Varint32At, Fetch, Decode, MarkChain;
    var page := img.Page(pageno);
    if Varint32At(page, at).Done? {
      var (sizeLength, size) := Varint32At(page, at).value;
      if Varint32At(page, at + sizeLength).Done? {
        var (rowidLength, rowid) := Varint32At(page, at + sizeLength).value;
        var fetched := Fetch(img, pageno, at + sizeLength + rowidLength, size);
        if fetched.Fetched? && Untouched(st, fetched.pages) { MarkSame(st, fetched.pages); }
      }
    }
  }

  // ---- the walk ----

  /** sqliterkNotify_onEndParsePage: the page gets its final status. */
  function Leave(v: Visit, pageno: int): Visit {
    match v case Lost => Lost case Visit(st, reports, rc) => Visit(SetStatus(st, pageno, Outcome(rc)), reports, rc)
  }

  function WithOk(v: Visit): Visit { match v case Lost => Lost case Visit(st, reports, _) => Visit(st, reports, OK) }

  lemma LeaveSame(st: seq<Status>, pageno: int, v: Visit)
    requires 1 <= pageno <= |st| && st[pageno - 1] != Checking
    requires v.Visit? ==> SameChecking(SetStatus(st, pageno, Checking), v.status)
    ensures Leave(v, pageno).Visit? ==> SameChecking(st, Leave(v, pageno).status)
  {
    if v.Visit? {
      var st1, t := SetStatus(st, pageno, Checking), Leave(v, pageno).status;
      forall i | 0 <= i < |st| ensures t[i] == Checking <==> st[i] == Checking {
        assert i != pageno - 1 ==> st1[i] == st[i] && t[i] == v.status[i];
      }
    }
  }

  /**
   sqliterkBtreeParsePage with the notifications of sqliterk.c.  The measure is the set of
   pages that are not being checked, so the recursion is no deeper than the number of
   pages.
   */
  ghost function Walk(img: Image, cfg: Config, b: Btree, st: seq<Status>, pageno: int): (v: Visit)
    requires img.Valid() && |st| == |img.pages|
    ensures v.Visit? ==> SameChecking(st, v.status)
    decreases Free(st), 1, 0
  {
    if !img.Has(pageno) || st[pageno - 1] == Checking then Visit(st, [], MISUSE)
    else
      var st1 := SetStatus(st, pageno, Checking);
      EnterFree(st, pageno);
      var inner := match PageView(img, pageno)
        case Unreadable => Lost
        case Broken => Visit(st1, [], DAMAGED)
        case IndexLeaf => Visit(st1, [], OK)
        case Interior(children) => WithOk(WalkAll(img, cfg, b, st1, children))
        case TableLeaf(cells) => if b.kind == Hidden then Visit(st1, [], OK) else Cells(img, cfg, b, st1, pageno, cells);
      LeaveSame(st, pageno, inner);
      Leave(inner, pageno)
  }

  /** The children in order, whatever becomes of each. */
  ghost function WalkAll(img: Image, cfg: Config, b: Btree, st: seq<Status>, children: seq<int>): (v: Visit)
    requires img.Valid() && |st| == |img.pages|
    ensures v.Visit? ==> SameChecking(st, v.status)
    decreases Free(st), 3, |children|
  {
    if children == [] then Visit(st, [], OK)
    else
      match Walk(img, cfg, b, st, children[0])
      case Lost => Lost
      case Visit(st1, reports, _) =>
        SameFree(st, st1);
        Before(reports, WalkAll(img, cfg, b, st1, children[1..]))
  }

  function Before(reports: seq<Report>, v: Visit): Visit {
    match v case Lost => Lost case Visit(st, more, rc) => Visit(st, reports + more, rc)
  }

  /** sqliterkNotify_onParseColumn after the report: a row of the master table leads to its b-tree. */
  ghost function Recurse(img: Image, cfg: Config, b: Btree, st: seq<Status>, row: Row): (v: Visit)
    requires img.Valid() && |st| == |img.pages|
    ensures v.Visit? ==> SameChecking(st, v.status)
    decreases Free(st), 2, 0
  {
    if b.kind == Master && cfg.recursive && TableOf(img, cfg, row).Some? then
      var sub := TableOf(img, cfg, row).value;
      Walk(img, cfg, sub, st, sub.root)
    else Visit(st, [], OK)
  }

  /** sqliterkBtreeParseCell: the rows up to the first cell that fails. */
  ghost function Cells(img: Image, cfg: Config, b: Btree, st: seq<Status>, pageno: int, cells: seq<int>): (v: Visit)
    requires img.Valid() && img.Has(pageno) && |st| == |img.pages|
    ensures v.Visit? ==> SameChecking(st, v.status)
    decreases Free(st), 4, |cells|
  {
    if cells == [] then Visit(st, [], OK)
    else
      CellSame(img, st, pageno, cells[0]);
      match CellAt(img, st, pageno, cells[0])
      case LostCell => Lost
      case BadCell(st1, rc) => Visit(st1, [], rc)
      case Cell(st1, row) =>
        SameFree(st, st1);
        match Recurse(img, cfg, b, st1, row)
        case Lost => Lost
        case Visit(st2, reports, _) =>
          SameFree(st, st2);
          Before([Report(b.root, row)] + reports, Cells(img, cfg, b, st2, pageno, cells[1..]))
  }

  // ---- how deep the walk goes ----

  function Max(a: nat, b: nat): nat { if a > b then a else b }

  /** The nesting of page parses in a walk. */
  ghost function Depth(img: Image, cfg: Config, b: Btree, st: seq<Status>, pageno: int): nat
    requires img.Valid() && |st| == |img.pages|
    decreases Free(st), 1, 0
  {
    if !img.Has(pageno) || st[pageno - 1] == Checking then 0
    else
      var st1 := SetStatus(st, pageno, Checking);
      EnterFree(st, pageno);
      match PageView(img, pageno)
      case Interior(children) => 1 + DepthAll(img, cfg, b, st1, children)
      case TableLeaf(cells) => 1 + if b.kind == Hidden then 0 else DepthCells(img, cfg, b, st1, pageno, cells)
      case _ => 1
  }

  ghost function DepthAll(img: Image, cfg: Config, b: Btree, st: seq<Status>, children: seq<int>): nat
    requires img.Valid() && |st| == |img.pages|
    decreases Free(st), 3, |children|
  {
    if children == [] then 0
    else
      var first := Depth(img, cfg, b, st, children[0]);
      match Walk(img, cfg, b, st, children[0])
      case Lost => first
      case Visit(st1, _, _) =>
        SameFree(st, st1);
        Max(first, DepthAll(img, cfg, b, st1, children[1..]))
  }

  ghost function DepthCells(img: Image, cfg: Config, b: Btree, st: seq<Status>, pageno: int, cells: seq<int>): nat
    requires img.Valid() && img.Has(pageno) && |st| == |img.pages|
    decreases Free(st), 4, |cells|
  {
    if cells == [] then 0
    else
      CellSame(img, st, pageno, cells[0]);
      match CellAt(img, st, pageno, cells[0])
      case Cell(st1, row) =>
        SameFree(st, st1);
        var first := if b.kind == Master && cfg.recursive && TableOf(img, cfg, row).Some? then
            Depth(img, cfg, TableOf(img, cfg, row).value, st1, TableOf(img, cfg, row).value.root)
          else 0;
        (match Recurse(img, cfg, b, st1, row)
         case Lost => first
         case Visit(st2, _, _) =>
           SameFree(st, st2);
           Max(first, DepthCells(img, cfg, b, st2, pageno, cells[1..])))
      case _ => 0
  }

  lemma SmallerSet(a: set<int>, b: set<int>)
    requires a < b
    ensures |a| < |b|
  {
    assert b == a + (b - a);
    assert |b| == |a| + |b - a|;
    assert b - a != {};
  }

  /** No page is parsed inside itself: the recursion is no deeper than the pages not being checked. */
  lemma {:induction false} DepthBounded(img: Image, cfg: Config, b: Btree, st: seq<Status>, pageno: int)
    requires img.Valid() && |st| == |img.pages|
    ensures Depth(img, cfg, b, st, pageno) <= |Free(st)|
    decreases Free(st), 1, 0
  {
    hide PageView;
    if img.Has(pageno) && st[pageno - 1] != Checking {
      var st1 := SetStatus(st, pageno, Checking);
      EnterFree(st, pageno);
      SmallerSet(Free(st1), Free(st));
      match PageView(img, pageno)
      case Interior(children) => DepthAllBounded(img, cfg, b, st1, children);
      case TableLeaf(cells) => DepthCellsBounded(img, cfg, b, st1, pageno, cells);
      case _ =>
    }
  }

  lemma {:induction false} DepthAllBounded(img: Image, cfg: Config, b: Btree, st: seq<Status>, children: seq<int>)
    requires img.Valid() && |st| == |img.pages|
    ensures DepthAll(img, cfg, b, st, children) <= |Free(st)|
    decreases Free(st), 3, |children|
  {
    hide Walk, Depth;
    if children != [] {
      DepthBounded(img, cfg, b, st, children[0]);
      var v := Walk(img, cfg, b, st, children[0]);
      if v.Visit? {
        SameFree(st, v.status);
        DepthAllBounded(img, cfg, b, v.status, children[1..]);
      }
    }
  }

  lemma {:induction false} DepthCellsBounded(img: Image, cfg: Config, b: Btree, st: seq<Status>, pageno: int, cells: seq<int>)
    requires img.Valid() && img.Has(pageno) && |st| == |img.pages|
    ensures DepthCells(img, cfg, b, st, pageno, cells) <= |Free(st)|
    decreases Free(st), 4, |cells|
  {
    hide Walk, Depth, CellAt, TableOf;
    if cells != [] {
      CellSame(img, st, pageno, cells[0]);
      var c := CellAt(img, st, pageno, cells[0]);
      if c.Cell? {
        SameFree(st, c.status);
        var sub := TableOf(img, cfg, c.row);
        if sub.Some? { DepthBounded(img, cfg, sub.value, c.status, sub.value.root); }
        var v := Recurse(img, cfg, b, c.status, c.row);
        if v.Visit? {
          SameFree(st, v.status);
          DepthCellsBounded(img, cfg, b, v.status, pageno, cells[1..]);
        }
      }
    }
  }

  // ---- when the walk is defined ----

  /** Reading the page alone never leaves it, and its cells are local. */
  ghost predicate SelfContained(img: Image, pageno: int)
    requires img.Valid() && img.Has(pageno)
  {
    match PageView(img, pageno)
    case Unreadable => false
    case TableLeaf(cells) => forall c :: c in cells ==> LocalCell(img, pageno, c)
    case _ => true
  }

  /** The cell is read within the page, its record within its payload, and nothing overflows. */
  ghost predicate LocalCell(img: Image, pageno: int, at: int)
    requires img.Valid() && img.Has(pageno)
  {
    var page := img.Page(pageno);
    match Varint32At(page, at)
    case Failed(_) => true
    case Undefined => false
    case Done((sizeLength, size)) =>
      match Varint32At(page, at + sizeLength)
      case Failed(_) => true
      case Undefined => false
      case Done((rowidLength, rowid)) =>
        && size <= MaxLeaf(img.usable)
        && var fetched := Fetch(img, pageno, at + sizeLength + rowidLength, size);
           match fetched
           case Rejected(_) => true
           case Fetched(bytes, _) => !Decode(bytes).end.Undefined?
           case _ => false
  }

  lemma LocalCellDefined(img: Image, st: seq<Status>, pageno: int, at: int)
    requires img.Valid() && img.Has(pageno) && LocalCell(img, pageno, at)
    ensures !CellAt(img, st, pageno, at).LostCell?
  {
    hide Varint32At, Decode;
  }

  /**
   On every page graph whose pages can be read by themselves, with payloads local to
   their pages, the walk ends with a result, and the same pages are being checked after
   it as before.
   */
  lemma {:induction false} WalkEnds(img: Image, cfg: Config, b: Btree, st: seq<Status>, pageno: int)
    requires img.Valid() && |st| == |img.pages| && forall p :: img.Has(p) ==> SelfContained(img, p)
    ensures var v := Walk(img, cfg, b, st, pageno); v.Visit? && SameChecking(st, v.status)
    decreases Free(st), 1, 0
  {
    hide PageView, LocalCell, Cells, WalkAll;
    if img.Has(pageno) && st[pageno - 1] != Checking {
      var st1 := SetStatus(st, pageno, Checking);
      EnterFree(st, pageno);
      assert SelfContained(img, pageno);
      match PageView(img, pageno)
      case Interior(children) => WalkAllEnds(img, cfg, b, st1, children);
      case TableLeaf(cells) => CellsEnd(img, cfg, b, st1, pageno, cells);
      case _ =>
    }
  }

  lemma {:induction false} WalkAllEnds(img: Image, cfg: Config, b: Btree, st: seq<Status>, children: seq<int>)
    requires img.Valid() && |st| == |img.pages| && forall p :: img.Has(p) ==> SelfContained(img, p)
    ensures WalkAll(img, cfg, b, st, children).Visit?
    decreases Free(st), 3, |children|
  {
    hide Walk, SelfContained;
    if children != [] {
      WalkEnds(img, cfg, b, st, children[0]);
      var v := Walk(img, cfg, b, st, children[0]);
      SameFree(st, v.status);
      WalkAllEnds(img, cfg, b, v.status, children[1..]);
    }
  }

  lemma {:induction false} CellsEnd(img: Image, cfg: Config, b: Btree, st: seq<Status>, pageno: int, cells: seq<int>)
    requires img.Valid() && img.Has(pageno) && |st| == |img.pages| && forall c :: c in cells ==> LocalCell(img, pageno, c)
    requires forall p :: img.Has(p) ==> SelfContained(img, p)
    ensures Cells(img, cfg, b, st, pageno, cells).Visit?
    decreases Free(st), 4, |cells|
  {
    hide Walk, SelfContained, CellAt, LocalCell, TableOf;
    if cells != [] {
      CellSame(img, st, pageno, cells[0]);
      LocalCellDefined(img, st, pageno, cells[0]);
      var c := CellAt(img, st, pageno, cells[0]);
      if c.Cell? {
        SameFree(st, c.status);
        var sub := TableOf(img, cfg, c.row);
        if sub.Some? { WalkEnds(img, cfg, sub.value, c.status, sub.value.root); }
        var v := Recurse(img, cfg, b, c.status, c.row);
        SameFree(st, v.status);
        CellsEnd(img, cfg, b, v.status, pageno, cells[1..]);
      }
    }
  }
}
