/**
 Parsing every page: each page that has not been looked at yet is taken for the root of a
 b-tree, so pages that no known b-tree leads to are read as well.
 */
module RepairSweep {
  import opened RepairInts
  import opened RepairPayload
  import opened RepairWalk
  import opened RepairTree
  import opened RepairReach
  import opened RepairIndex
  import opened RepairDatabase

  /** sqliterkParsePage: nothing for a page that has been looked at, else the b-tree below it. */
  ghost function ParseOnce(img: Image, cfg: Config, st: seq<Status>, pageno: int): (v: Visit)
    requires img.Valid() && |st| == |img.pages|
    ensures v.Visit? ==> SameChecking(st, v.status)
  {
    if GetStatus(st, pageno) != Unchecked then Visit(st, [], OK)
    else if !Opens(img, pageno) then Visit(st, [], DAMAGED)
    else Walk(img, cfg, Btree(pageno, if pageno == 1 then Master else Plain), st, pageno)
  }

  /** sqliterkParse from a page on, whatever becomes of each. */
  ghost function Sweep(img: Image, cfg: Config, st: seq<Status>, pageno: int): (v: Visit)
    requires img.Valid() && |st| == |img.pages| && pageno >= 1
    ensures v.Visit? ==> SameChecking(st, v.status)
    decreases |img.pages| - pageno
  {
    if pageno > |img.pages| then Visit(st, [], OK)
    else
      match ParseOnce(img, cfg, st, pageno)
      case Lost => Lost
      case Visit(st1, reports, _) => Before(reports, Sweep(img, cfg, st1, pageno + 1))
  }

  /** A page that is none of a b-tree is not opened, and stays as it was. */
  lemma NotABtree(img: Image, cfg: Config, st: seq<Status>, p: int)
    requires img.Valid() && |st| == |img.pages| && img.Has(p) && p != 1 && img.Page(p)[0] !in {2, 5, 10, 13}
    requires st[p - 1] == Unchecked
    ensures ParseOnce(img, cfg, st, p) == Visit(st, [], DAMAGED)
  {
    hide Walk;
  }

  // ---- every page is looked at ----

  /** Pages that have been looked at stay so. */
  predicate StillSeen(a: seq<Status>, b: seq<Status>) {
    |a| == |b| && forall i :: 0 <= i < |a| ==> b[i] == Unchecked ==> a[i] == Unchecked
  }

  lemma {:induction false} MarkSeen(st: seq<Status>, pages: seq<int>)
    ensures StillSeen(st, MarkChain(st, pages))
    decreases |pages|
  {
    if pages != [] { MarkSeen(SetStatus(st, pages[0], Checked), pages[1..]); }
  }

  lemma CellSeen(img: Image, st: seq<Status>, pageno: int, at: int)
    requires img.Valid() && img.Has(pageno)
    ensures var c := CellAt(img, st, pageno, at); !c.LostCell? ==> StillSeen(st, c.status)
  {
    hide Varint32At, Fetch, MarkChain;
    var page := img.Page(pageno);
    if Varint32At(page, at).Done? {
      var (sizeLength, size) := Varint32At(page, at).value;
      if Varint32At(page, at + sizeLength).Done? {
        var (rowidLength, rowid) := Varint32At(page, at + sizeLength).value;
        var fetched := Fetch(img, pageno, at + sizeLength + rowidLength, size);
        DecodeSeen(st, rowid, fetched);
      }
    }
  }

  lemma DecodeSeen(st: seq<Status>, rowid: int, fetched: Fetched)
    ensures var c := DecodeCell(st, rowid, fetched); !c.LostCell? ==> StillSeen(st, c.status)
  {
    hide MarkChain;
    if fetched.Fetched? { MarkSeen(st, fetched.pages); }
  }

  lemma LeaveSeen(st: seq<Status>, pageno: int, v: Visit)
    requires 1 <= pageno <= |st| && (v.Visit? ==> StillSeen(SetStatus(st, pageno, Checking), v.status))
    ensures var w := Leave(v, pageno); w.Visit? ==> StillSeen(st, w.status) && w.status[pageno - 1] != Unchecked
  {
    if v.Visit? {
      var w := Leave(v, pageno).status;
      forall i | 0 <= i < |st| && w[i] == Unchecked ensures st[i] == Unchecked {
        assert SetStatus(st, pageno, Checking)[i] == Unchecked;
      }
    }
  }

  /** A walk looks at its page and forgets none. */
  lemma {:induction false} WalkSeen(img: Image, cfg: Config, b: Btree, st: seq<Status>, pageno: int)
    requires img.Valid() && |st| == |img.pages|
    ensures var v := Walk(img, cfg, b, st, pageno);
      v.Visit? ==> StillSeen(st, v.status) && (img.Has(pageno) ==> v.status[pageno - 1] != Unchecked)
    decreases Free(st), 1, 0
  {
    hide PageView, WalkAll, Cells;
    if img.Has(pageno) && st[pageno - 1] != Checking {
      var st1 := SetStatus(st, pageno, Checking);
      EnterFree(st, pageno);
      match PageView(img, pageno)
      case Interior(children) =>
        WalkAllSeen(img, cfg, b, st1, children);
        LeaveSeen(st, pageno, WithOk(WalkAll(img, cfg, b, st1, children)));
      case TableLeaf(cells) =>
        if b.kind != RepairWalk.Hidden {
          CellsSeen(img, cfg, b, st1, pageno, cells);
          LeaveSeen(st, pageno, Cells(img, cfg, b, st1, pageno, cells));
        } else {
          LeaveSeen(st, pageno, Visit(st1, [], OK));
        }
      case IndexLeaf => LeaveSeen(st, pageno, Visit(st1, [], OK));
      case Broken => LeaveSeen(st, pageno, Visit(st1, [], DAMAGED));
      case Unreadable =>
    }
  }

  lemma {:induction false} WalkAllSeen(img: Image, cfg: Config, b: Btree, st: seq<Status>, children: seq<int>)
    requires img.Valid() && |st| == |img.pages|
    ensures var v := WalkAll(img, cfg, b, st, children); v.Visit? ==> StillSeen(st, v.status)
    decreases Free(st), 3, |children|
  {
    hide Walk;
    if children != [] {
      WalkSeen(img, cfg, b, st, children[0]);
      var v := Walk(img, cfg, b, st, children[0]);
      if v.Visit? {
        SameFree(st, v.status);
        WalkAllSeen(img, cfg, b, v.status, children[1..]);
      }
    }
  }

  lemma {:induction false} CellsSeen(img: Image, cfg: Config, b: Btree, st: seq<Status>, pageno: int, cells: seq<int>)
    requires img.Valid() && img.Has(pageno) && |st| == |img.pages|
    ensures var v := Cells(img, cfg, b, st, pageno, cells); v.Visit? ==> StillSeen(st, v.status)
    decreases Free(st), 4, |cells|
  {
    hide Walk, CellAt, TableOf;
    if cells != [] {
      CellSame(img, st, pageno, cells[0]);
      CellSeen(img, st, pageno, cells[0]);
      var c := CellAt(img, st, pageno, cells[0]);
      if c.Cell? {
        SameFree(st, c.status);
        var sub := TableOf(img, cfg, c.row);
        if sub.Some? { WalkSeen(img, cfg, sub.value, c.status, sub.value.root); }
        var v := Recurse(img, cfg, b, c.status, c.row);
        if v.Visit? {
          SameFree(st, v.status);
          CellsSeen(img, cfg, b, v.status, pageno, cells[1..]);
        }
      }
    }
  }

  lemma OnceSeen(img: Image, cfg: Config, st: seq<Status>, pageno: int)
    requires img.Valid() && |st| == |img.pages|
    ensures var v := ParseOnce(img, cfg, st, pageno);
      v.Visit? ==> StillSeen(st, v.status) && (Opens(img, pageno) ==> v.status[pageno - 1] != Unchecked)
  {
    hide Walk;
    WalkSeen(img, cfg, Btree(pageno, if pageno == 1 then Master else Plain), st, pageno);
  }

  /** After parsing every page, a page has not been looked at only if it is no b-tree page. */
  lemma {:induction false} SweepCovers(img: Image, cfg: Config, st: seq<Status>, pageno: int)
    requires img.Valid() && |st| == |img.pages| && pageno >= 1
    ensures var v := Sweep(img, cfg, st, pageno); v.Visit? ==>
      StillSeen(st, v.status) && forall p :: pageno <= p <= |img.pages| && Opens(img, p) ==> v.status[p - 1] != Unchecked
    decreases |img.pages| - pageno
  {
    hide ParseOnce, Opens;
    if pageno <= |img.pages| {
      OnceSeen(img, cfg, st, pageno);
      var v := ParseOnce(img, cfg, st, pageno);
      if v.Visit? { SweepCovers(img, cfg, v.status, pageno + 1); }
    }
  }

  // ---- a sound database ----

  /** Nothing that a walk from the page comes to has a row to report. */
  ghost predicate Mute(img: Image, p: int)
    requires img.Valid()
  {
    AllSilent(img, Plain, Reach(img, {}, p))
  }

  lemma MuteOnce(img: Image, cfg: Config, st: seq<Status>, p: int)
    requires img.Valid() && |st| == |img.pages| && Busy(st) == {} && p > 1
    requires 1 <= p <= |st| && st[p - 1] == Unchecked && Opens(img, p) ==> Mute(img, p)
    ensures var v := ParseOnce(img, cfg, st, p);
      v.Visit? && v.reports == [] && Busy(v.status) == {} && StillSeen(st, v.status)
  {
    hide Walk, Opens, Reach, Busy, AllSilent, Settle;
    if 1 <= p <= |st| && st[p - 1] == Unchecked && Opens(img, p) {
      var pages := Reach(img, {}, p);
      SilentWalk(img, cfg, Btree(p, Plain), st, p);
      SettleBusy(img, st, pages);
      SettleSeen(img, st, pages);
    }
  }

  lemma SettleSeen(img: Image, st: seq<Status>, pages: set<int>)
    requires img.Valid() && |st| == |img.pages|
    ensures StillSeen(st, Settle(img, st, pages))
  {
    hide PageView;
  }

  /** A page that holds a table is not mute, and neither is any page of the table. */
  lemma {:induction false} TableSpeaks(img: Image, t: Tree, x: int)
    requires img.Valid() && Represents(img, t) && x in Skeleton(t)
    ensures !Mute(img, x)
    decreases t, 0
  {
    hide LeafPage, InteriorPage, Reach, PageView, Skeletons, AllPages, OverflowPages;
    match t
    case Leaf(p, rows) =>
      var pointers :| LeafPage(img, p, rows, pointers);
      LeafView(img, p, rows, pointers);
      ReachSelf(img, {}, p);
    case Node(p, kids) =>
      var pointers :| InteriorPage(img, p, PageNumbers(kids), pointers);
      InteriorView(img, p, PageNumbers(kids), pointers);
      if x == p {
        SomeKid(img, p, PageNumbers(kids), pointers);
        SkeletonRoot(kids[0]);
        TableSpeaks(img, kids[0], kids[0].pageno);
        if Mute(img, p) { MuteBelow(img, p, PageNumbers(kids)[0]); }
      } else {
        TablesSpeak(img, kids, x);
      }
  }

  lemma SomeKid(img: Image, p: int, children: seq<int>, pointers: seq<int>)
    requires img.Valid() && img.Has(p) && InteriorPage(img, p, children, pointers)
    ensures children != []
  {
  }

  lemma SkeletonRoot(t: Tree)
    ensures t.pageno in Skeleton(t)
  {
  }

  lemma {:induction false} TablesSpeak(img: Image, kids: seq<Tree>, x: int)
    requires img.Valid() && (forall i :: 0 <= i < |kids| ==> Represents(img, kids[i])) && x in Skeletons(kids)
    ensures !Mute(img, x)
    decreases kids, |kids|
  {
    hide Represents, Skeleton, Mute;
    if x in Skeleton(kids[0]) { TableSpeaks(img, kids[0], x); } else { TablesSpeak(img, kids[1..], x); }
  }

  /** What a mute page leads to is mute. */
  lemma MuteBelow(img: Image, p: int, c: int)
    requires img.Valid() && img.Has(p) && c in Below(img, p) && Mute(img, p)
    ensures Mute(img, c)
  {
    hide Below, Reach, Silent;
    forall x | x in Reach(img, {}, c) ensures x in Reach(img, {}, p) { ReachThrough(img, p, c, x); }
  }

  lemma {:induction false} MuteReach(img: Image, path: seq<int>, p: int, x: int)
    requires img.Valid() && Leads(img, {}, path, p, x) && Mute(img, p)
    ensures Mute(img, x)
    decreases |path|
  {
    hide Below, Mute;
    if |path| > 1 {
      TrailTail(img, {}, path, 1);
      assert path[1] in Below(img, path[0]);
      MuteBelow(img, p, path[1]);
      MuteReach(img, path[1..], path[1], x);
    }
  }

  /** A walk from a mute page does not come to the pages of a table. */
  lemma MuteApart(img: Image, p: int, t: Tree)
    requires img.Valid() && Mute(img, p) && Represents(img, t)
    ensures Reach(img, {}, p) !! Skeleton(t)
  {
    hide Mute, Represents, Skeleton, Below;
    forall x | x in Reach(img, {}, p) ensures x !in Skeleton(t) {
      var path :| Leads(img, {}, path, p, x);
      MuteReach(img, path, p, x);
      if x in Skeleton(t) { TableSpeaks(img, t, x); }
    }
  }

  // ---- tables that no other walk has come to ----

  /** The pages of the table have not been looked at, and its root has the lowest number. */
  ghost predicate Fresh(st: seq<Status>, t: Tree) {
    forall p :: p in Skeleton(t) ==> t.pageno <= p <= |st| && 1 <= p && st[p - 1] == Unchecked
  }

  /** Tables by the numbers of their roots; a table's pages are not pages of a later one. */
  ghost predicate Forest(img: Image, st: seq<Status>, ts: seq<Tree>, k: int)
    requires img.Valid()
  {
    && (forall i :: 0 <= i < |ts| ==> Represents(img, ts[i]) && Fresh(st, ts[i]) && ts[i].pageno >= k)
    && forall i, j :: 0 <= i < j < |ts| ==> ts[i].pageno < ts[j].pageno && Pages(ts[i]) !! Skeleton(ts[j])
  }

  /** Every other page that is still to be looked at is mute. */
  ghost predicate RestMute(img: Image, st: seq<Status>, ts: seq<Tree>, k: int)
    requires img.Valid() && |st| == |img.pages|
  {
    forall p :: k <= p <= |st| && 1 <= p && st[p - 1] == Unchecked && Opens(img, p) ==> Mute(img, p) || InForest(ts, p)
  }

  ghost predicate InForest(ts: seq<Tree>, p: int) { exists i :: 0 <= i < |ts| && p in Skeleton(ts[i]) }

  function ForestReports(ts: seq<Tree>): seq<Report> {
    if ts == [] then [] else Reports(ts[0].pageno, Rows(ts[0])) + ForestReports(ts[1..])
  }

  lemma FirstTree(img: Image, cfg: Config, st: seq<Status>, ts: seq<Tree>)
    requires img.Valid() && |st| == |img.pages| && ts != [] && ts[0].pageno > 1 && Busy(st) == {}
    requires Forest(img, st, ts, ts[0].pageno) && RestMute(img, st, ts, ts[0].pageno)
    ensures var t := ts[0]; var st1 := Marked(st, Pages(t));
      && ParseOnce(img, cfg, st, t.pageno) == Visit(st1, Reports(t.pageno, Rows(t)), OK)
      && Busy(st1) == {} && Forest(img, st1, ts[1..], t.pageno + 1) && RestMute(img, st1, ts[1..], t.pageno + 1)
  {
    hide Walk, Represents, Pages, Rows, Skeleton, Reports, Opens, Mute, Busy, TableOf;
    var t := ts[0];
    AllNotChecking(st, Pages(t));
    RepresentedOpens(img, t);
    SkeletonRoot(t);
    WalkReadsTree(img, cfg, Btree(t.pageno, Plain), st, t);
    var st1 := Marked(st, Pages(t));
    MarkedBusy(st, Pages(t));
    forall j | 0 <= j < |ts[1..]| ensures Represents(img, ts[1..][j]) && Fresh(st1, ts[1..][j]) && ts[1..][j].pageno > t.pageno {
      assert Pages(ts[0]) !! Skeleton(ts[j + 1]) && Fresh(st, ts[j + 1]);
    }
    forall i, j | 0 <= i < j < |ts[1..]|
      ensures ts[1..][i].pageno < ts[1..][j].pageno && Pages(ts[1..][i]) !! Skeleton(ts[1..][j])
    {
      assert Pages(ts[i + 1]) !! Skeleton(ts[j + 1]);
    }
    SkeletonWithin(t);
    forall p | t.pageno < p <= |st| && st1[p - 1] == Unchecked && Opens(img, p) ensures Mute(img, p) || InForest(ts[1..], p) {
      if !Mute(img, p) {
        var i :| 0 <= i < |ts| && p in Skeleton(ts[i]);
        assert p in Skeleton(ts[1..][i - 1]);
      }
    }
  }

  lemma AllNotChecking(st: seq<Status>, pages: set<int>)
    requires Busy(st) == {}
    ensures NoneChecking(st, pages)
  {
    forall p | p in pages ensures GetStatus(st, p) != Checking { InBusy(st, p); }
  }

  lemma SkeletonWithin(t: Tree)
    ensures Skeleton(t) <= Pages(t)
  {
    match t
    case Leaf(_, _) =>
    case Node(_, kids) => SkeletonPages(kids);
  }

  /** A page that is not the root of the next table leaves the tables as they are. */
  lemma NoTree(img: Image, cfg: Config, st: seq<Status>, ts: seq<Tree>, k: int)
    requires img.Valid() && 1 < k <= |st| == |img.pages| && (ts == [] || ts[0].pageno != k) && Busy(st) == {}
    requires Forest(img, st, ts, k) && RestMute(img, st, ts, k)
    ensures var v := ParseOnce(img, cfg, st, k);
      && v.Visit? && v.reports == [] && Busy(v.status) == {}
      && Forest(img, v.status, ts, k + 1) && RestMute(img, v.status, ts, k + 1)
  {
    hide Represents, Pages, Skeleton, Mute, Busy, Settle, Opens, Reach, Walk;
    forall i | 0 <= i < |ts| ensures ts[i].pageno > k && k !in Skeleton(ts[i]) {
      if i > 0 { assert ts[0].pageno < ts[i].pageno && Pages(ts[0]) !! Skeleton(ts[i]); }
      assert Fresh(st, ts[i]);
    }
    assert !InForest(ts, k);
    MuteOnce(img, cfg, st, k);
    var v := ParseOnce(img, cfg, st, k);
    forall i | 0 <= i < |ts| ensures Fresh(v.status, ts[i]) { StaysFresh(img, cfg, st, k, ts[i]); }
  }

  lemma StaysFresh(img: Image, cfg: Config, st: seq<Status>, k: int, t: Tree)
    requires img.Valid() && 1 < k <= |st| == |img.pages| && Busy(st) == {} && Represents(img, t) && Fresh(st, t)
    requires st[k - 1] == Unchecked && Opens(img, k) ==> Mute(img, k)
    ensures var v := ParseOnce(img, cfg, st, k); v.Visit? && Fresh(v.status, t)
  {
    hide Represents, Pages, Skeleton, Busy, Opens, Reach, Walk, PageView, AllSilent;
    if st[k - 1] == Unchecked && Opens(img, k) {
      MuteApart(img, k, t);
      SilentWalk(img, cfg, Btree(k, Plain), st, k);
    }
  }

  /** The sweep over tables that have not been looked at reports each of them once, in the order of their roots. */
  lemma {:induction false} SweepForest(img: Image, cfg: Config, st: seq<Status>, ts: seq<Tree>, k: int)
    requires img.Valid() && |st| == |img.pages| && k > 1 && Busy(st) == {} && Forest(img, st, ts, k) && RestMute(img, st, ts, k)
    ensures var v := Sweep(img, cfg, st, k); v.Visit? && v.reports == ForestReports(ts)
    decreases |img.pages| - k
  {
    hide ParseOnce, Forest, RestMute, Busy, Reports, Rows;
    if k > |img.pages| {
      NoForest(img, st, ts, k);
    } else if ts != [] && ts[0].pageno == k {
      FirstTree(img, cfg, st, ts);
      SweepForest(img, cfg, Marked(st, Pages(ts[0])), ts[1..], k + 1);
    } else {
      NoTree(img, cfg, st, ts, k);
      SweepForest(img, cfg, ParseOnce(img, cfg, st, k).status, ts, k + 1);
    }
  }

  lemma FreshRoot(st: seq<Status>, t: Tree)
    requires Fresh(st, t)
    ensures t.pageno <= |st|
  {
    hide Skeleton;
    SkeletonRoot(t);
  }

  lemma NoForest(img: Image, st: seq<Status>, ts: seq<Tree>, k: int)
    requires img.Valid() && |st| == |img.pages| && k > |img.pages| && Forest(img, st, ts, k)
    ensures ts == []
  {
    hide LeafPage, InteriorPage, Skeleton;
    if ts != [] { FreshRoot(st, ts[0]); }
  }

  /**
   Parsing every page of a database from a fresh start reports what parsing the master table
   reports, and then the rows of each table that this has not come to, if the root of such a
   table has the lowest number of its pages and all other pages are mute.
   */
  lemma SweepReadsDatabase(img: Image, cfg: Config, st: seq<Status>, t: Schema, ts: seq<Tree>)
    requires img.Valid() && |st| == |img.pages| && cfg.recursive && HoldsDatabase(img, cfg, t)
    requires forall i :: 0 <= i < |st| ==> st[i] == Unchecked
    requires var st1 := Marked(st, SchemaPages(img, Reached(t))); Forest(img, st1, ts, 2) && RestMute(img, st1, ts, 2)
    ensures var v := Sweep(img, cfg, st, 1); v.Visit? && v.reports == AllReports(EntriesOf(Reached(t))) + ForestReports(ts)
  {
    hide Walk, HoldsDatabase, SchemaPages, AllReports, EntriesOf, Marked, Opens, Forest, RestMute, Busy;
    RootIsOne(img, cfg, t);
    AllFree(st, SchemaPages(img, Reached(t)));
    WalkReadsDatabase(img, cfg, st, t);
    MarkedPages(st, SchemaPages(img, Reached(t)));
    SweepForest(img, cfg, Marked(st, SchemaPages(img, Reached(t))), ts, 2);
  }

  /**
   A table that is parsed as the root of its own b-tree before its parent is: once the parent
   is looked at, all rows are reported again.
   */
  lemma ParsedTwice(img: Image, cfg: Config, st: seq<Status>, t: Tree, i: nat)
    requires img.Valid() && |st| == |img.pages| && Busy(st) == {} && Represents(img, t) && t.Node? && i < |t.kids|
    requires 1 <= t.pageno <= |st| && 1 <= t.kids[i].pageno <= |st|
    requires st[t.kids[i].pageno - 1] == Unchecked && st[t.pageno - 1] == Unchecked
    ensures var u := t.kids[i]; var v := ParseOnce(img, cfg, st, u.pageno);
      && v.Visit? && v.reports == Reports(u.pageno, Rows(u))
      && ParseOnce(img, cfg, v.status, t.pageno).Visit?
      && ParseOnce(img, cfg, v.status, t.pageno).reports == Reports(t.pageno, Rows(t))
  {
    hide Walk, Pages, Rows, Busy, Reports, Opens, Marked, TableOf, LeafPage, InteriorPage, PageNumbers;
    var u := t.kids[i];
    AllNotChecking(st, Pages(u));
    RepresentedOpens(img, u);
    WalkReadsTree(img, cfg, Btree(u.pageno, Plain), st, u);
    var st1 := Marked(st, Pages(u));
    MarkedBusy(st, Pages(u));
    AllNotChecking(st1, Pages(t));
    RepresentedOpens(img, t);
    NotInKid(t, i);
    MarkedOther(st, Pages(u), t.pageno);
    WalkReadsTree(img, cfg, Btree(t.pageno, Plain), st1, t);
  }

  lemma MarkedOther(st: seq<Status>, pages: set<int>, p: int)
    requires 1 <= p <= |st| && p !in pages
    ensures Marked(st, pages)[p - 1] == st[p - 1]
  {
  }

  lemma NotInKid(t: Tree, i: nat)
    requires t.Node? && i < |t.kids| && t.pageno !in AllPages(t.kids)
    ensures t.pageno !in Pages(t.kids[i])
  {
    InAllPages(t.kids, i);
  }

  lemma {:induction false} InAllPages(kids: seq<Tree>, i: nat)
    requires i < |kids|
    ensures Pages(kids[i]) <= AllPages(kids)
    decreases i
  {
    hide Pages;
    if i > 0 { InAllPages(kids[1..], i - 1); }
  }

  lemma AllFree(st: seq<Status>, pages: set<int>)
    requires forall i :: 0 <= i < |st| ==> st[i] == Unchecked
    ensures NoneChecking(st, pages)
  {
  }

  lemma MarkedPages(st: seq<Status>, pages: set<int>)
    requires forall i :: 0 <= i < |st| ==> st[i] == Unchecked
    ensures Busy(Marked(st, pages)) == {}
    ensures forall p :: 1 <= p <= |st| && p in pages ==> Marked(st, pages)[p - 1] != Unchecked
  {
  }

  lemma RootIsOne(img: Image, cfg: Config, t: Schema)
    requires img.Valid() && HoldsDatabase(img, cfg, t)
    ensures img.Has(1) && Opens(img, 1)
  {
  }
}
