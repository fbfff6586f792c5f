/**
 Which pages a walk visits on any page graph, and when it reports no row.  The graph is the
 one that the code sees: the children that it reads from a page, right or wrong.
 */
module RepairReach {
  import opened RepairInts
  import opened RepairRecord
  import opened RepairPayload
  import opened RepairWalk
  import opened RepairTree

  // ---- the graph ----

  /** The numbers that are read as children of a page. */
  function Below(img: Image, p: int): seq<int>
    requires img.Valid()
  {
    if !img.Has(p) then [] else match PageView(img, p) case Interior(children) => children case _ => []
  }

  /** A path along children that stays on pages outside of a set. */
  ghost predicate Trail(img: Image, busy: set<int>, path: seq<int>)
    requires img.Valid()
  {
    && path != [] && (forall i :: 0 <= i < |path| ==> img.Has(path[i]) && path[i] !in busy)
    && forall i :: 0 < i < |path| ==> path[i] in Below(img, path[i - 1])
  }

  ghost predicate Leads(img: Image, busy: set<int>, path: seq<int>, p: int, x: int)
    requires img.Valid()
  {
    Trail(img, busy, path) && path[0] == p && path[|path| - 1] == x
  }

  ghost predicate Reaches(img: Image, busy: set<int>, p: int, x: int)
    requires img.Valid()
  {
    exists path :: Leads(img, busy, path, p, x)
  }

  /** The pages that can be reached. */
  ghost function Reach(img: Image, busy: set<int>, p: int): set<int>
    requires img.Valid()
  {
    set x | 1 <= x <= |img.pages| && Reaches(img, busy, p, x)
  }

  ghost function ReachAll(img: Image, busy: set<int>, children: seq<int>): set<int>
    requires img.Valid()
  {
    if children == [] then {} else Reach(img, busy, children[0]) + ReachAll(img, busy, children[1..])
  }

  lemma TrailTail(img: Image, busy: set<int>, path: seq<int>, i: nat)
    requires img.Valid() && Trail(img, busy, path) && i < |path|
    ensures Trail(img, busy, path[i..])
  {
    hide Below;
    var tail := path[i..];
    forall j | 0 < j < |tail| ensures tail[j] in Below(img, tail[j - 1]) { assert path[i + j] in Below(img, path[i + j - 1]); }
  }

  lemma TrailHead(img: Image, busy: set<int>, path: seq<int>, n: nat)
    requires img.Valid() && Trail(img, busy, path) && 0 < n <= |path|
    ensures Trail(img, busy, path[..n])
  {
    hide Below;
  }

  lemma TrailMore(img: Image, busy: set<int>, p: int, path: seq<int>)
    requires img.Valid() && Trail(img, busy, path) && img.Has(p) && p !in busy && path[0] in Below(img, p)
    ensures Trail(img, busy, [p] + path)
  {
    hide Below;
    var more := [p] + path;
    forall j | 0 < j < |more| ensures more[j] in Below(img, more[j - 1]) {
      if j > 1 { assert path[j - 1] in Below(img, path[j - 2]); }
    }
  }

  lemma NoReach(img: Image, busy: set<int>, p: int)
    requires img.Valid() && (!img.Has(p) || p in busy)
    ensures Reach(img, busy, p) == {}
  {
    hide Below;
    forall x, path ensures !Leads(img, busy, path, p, x) {
      assert Trail(img, busy, path) ==> img.Has(path[0]) && path[0] !in busy;
    }
  }

  lemma ReachSelf(img: Image, busy: set<int>, p: int)
    requires img.Valid() && img.Has(p) && p !in busy
    ensures p in Reach(img, busy, p)
  {
    assert Leads(img, busy, [p], p, p);
  }

  lemma {:induction false} InReachAll(img: Image, busy: set<int>, children: seq<int>, x: int)
    requires img.Valid()
    ensures x in ReachAll(img, busy, children) <==> exists i :: 0 <= i < |children| && x in Reach(img, busy, children[i])
    decreases |children|
  {
    hide Reach;
    if children != [] {
      InReachAll(img, busy, children[1..], x);
      if x in ReachAll(img, busy, children[1..]) {
        var i :| 0 <= i < |children[1..]| && x in Reach(img, busy, children[1..][i]);
        assert x in Reach(img, busy, children[i + 1]);
      }
      forall i | 0 <= i < |children| && x in Reach(img, busy, children[i]) ensures x in ReachAll(img, busy, children) {
        if i > 0 { assert x in Reach(img, busy, children[1..][i - 1]); }
      }
    }
  }

  /** What can be reached through a child without coming back to p. */
  lemma ReachDown(img: Image, busy: set<int>, p: int, x: int)
    requires img.Valid() && img.Has(p) && p !in busy && x in ReachAll(img, busy + {p}, Below(img, p))
    ensures x in Reach(img, busy, p)
  {
    hide Below;
    InReachAll(img, busy + {p}, Below(img, p), x);
    var i :| 0 <= i < |Below(img, p)| && x in Reach(img, busy + {p}, Below(img, p)[i]);
    var path :| Leads(img, busy + {p}, path, Below(img, p)[i], x);
    assert Trail(img, busy, path);
    TrailMore(img, busy, p, path);
    assert Leads(img, busy, [p] + path, p, x);
  }

  /** A path from p to another page can be cut so that it does not come back to p. */
  lemma {:induction false} ReachUp(img: Image, busy: set<int>, p: int, path: seq<int>)
    requires img.Valid() && Trail(img, busy, path) && path[0] == p && path[|path| - 1] != p
    ensures path[|path| - 1] in ReachAll(img, busy + {p}, Below(img, p))
    decreases |path|
  {
    hide Below;
    if i :| 0 < i < |path| && path[i] == p {
      TrailTail(img, busy, path, i);
      ReachUp(img, busy, p, path[i..]);
    } else {
      var rest, x := path[1..], path[|path| - 1];
      TrailTail(img, busy, path, 1);
      assert path[1] in Below(img, path[0]);
      var k :| 0 <= k < |Below(img, p)| && Below(img, p)[k] == path[1];
      assert Leads(img, busy + {p}, rest, path[1], x);
      InReachAll(img, busy + {p}, Below(img, p), x);
    }
  }

  /** The pages below p are p and what its children lead to without p. */
  lemma ReachSplit(img: Image, busy: set<int>, p: int)
    requires img.Valid() && img.Has(p) && p !in busy
    ensures Reach(img, busy, p) == {p} + ReachAll(img, busy + {p}, Below(img, p))
  {
    hide Below, ReachAll;
    ReachSelf(img, busy, p);
    forall x ensures x in Reach(img, busy, p) <==> x == p || x in ReachAll(img, busy + {p}, Below(img, p)) {
      if x in Reach(img, busy, p) && x != p {
        var path :| Leads(img, busy, path, p, x);
        ReachUp(img, busy, p, path);
      }
      if x in ReachAll(img, busy + {p}, Below(img, p)) { ReachDown(img, busy, p, x); }
    }
  }

  /** If nothing reachable is busy, the busy pages do not matter. */
  lemma ReachFree(img: Image, busy: set<int>, p: int)
    requires img.Valid() && Reach(img, {}, p) !! busy
    ensures Reach(img, busy, p) == Reach(img, {}, p)
  {
    hide Below;
    forall x ensures x in Reach(img, busy, p) <==> x in Reach(img, {}, p) {
      if x in Reach(img, busy, p) {
        var path :| Leads(img, busy, path, p, x);
        assert Leads(img, {}, path, p, x);
      }
      if x in Reach(img, {}, p) {
        var path :| Leads(img, {}, path, p, x);
        forall i | 0 <= i < |path| ensures path[i] !in busy {
          TrailHead(img, {}, path, i + 1);
          assert Leads(img, {}, path[..i + 1], p, path[i]);
        }
        assert Leads(img, busy, path, p, x);
      }
    }
  }

  /** A set of pages that no child leads out of. */
  lemma {:induction false} TrailInside(img: Image, area: set<int>, path: seq<int>)
    requires img.Valid() && Trail(img, {}, path) && path[0] in area
    requires forall x :: x in area ==> forall c :: c in Below(img, x) ==> !img.Has(c) || c in area
    ensures path[|path| - 1] in area
    decreases |path|
  {
    hide Below;
    if |path| > 1 {
      TrailTail(img, {}, path, 1);
      assert path[1] in Below(img, path[0]);
      TrailInside(img, area, path[1..]);
    }
  }

  lemma ReachInside(img: Image, area: set<int>, p: int)
    requires img.Valid() && p in area
    requires forall x :: x in area ==> forall c :: c in Below(img, x) ==> !img.Has(c) || c in area
    ensures Reach(img, {}, p) <= area
  {
    hide Below;
    forall x | x in Reach(img, {}, p) ensures x in area {
      var path :| Leads(img, {}, path, p, x);
      TrailInside(img, area, path);
    }
  }

  // ---- walks that report nothing ----

  /** The pages that are being checked. */
  function Busy(st: seq<Status>): set<int> { set i | 0 <= i < |st| && st[i] == Checking :: i + 1 }

  lemma InBusy(st: seq<Status>, p: int)
    ensures p in Busy(st) <==> 1 <= p <= |st| && st[p - 1] == Checking
  {
    if 1 <= p <= |st| && st[p - 1] == Checking {
      var i := p - 1;
      assert i + 1 in Busy(st);
    }
  }

  /** Reading the page reports no row, whatever is below it. */
  predicate Silent(img: Image, kind: Kind, p: int)
    requires img.Valid() && img.Has(p)
  {
    match PageView(img, p)
    case Interior(_) => true
    case IndexLeaf => true
    case Broken => true
    case TableLeaf(_) => kind == RepairWalk.Hidden
    case Unreadable => false
  }

  ghost predicate AllSilent(img: Image, kind: Kind, pages: set<int>)
    requires img.Valid()
  {
    forall p :: p in pages && img.Has(p) ==> Silent(img, kind, p)
  }

  /** The status of a page that was read without a row. */
  function Settled(img: Image, p: int): Status
    requires img.Valid() && img.Has(p)
  {
    if PageView(img, p).Broken? then Damaged else Checked
  }

  /** The pages of a set are settled, the others as they were. */
  function Settle(img: Image, st: seq<Status>, pages: set<int>): (r: seq<Status>)
    requires img.Valid() && |st| == |img.pages|
    ensures |r| == |st|
  {
    seq(|st|, i requires 0 <= i < |st| => if i + 1 in pages then Settled(img, i + 1) else st[i])
  }

  lemma SettleTwice(img: Image, st: seq<Status>, a: set<int>, b: set<int>)
    requires img.Valid() && |st| == |img.pages|
    ensures Settle(img, Settle(img, st, a), b) == Settle(img, st, a + b)
  {
    hide Settled;
  }

  lemma SettleNone(img: Image, st: seq<Status>)
    requires img.Valid() && |st| == |img.pages|
    ensures Settle(img, st, {}) == st
  {
  }

  /** Settling pages that are not busy leaves the same pages busy. */
  lemma SettleBusy(img: Image, st: seq<Status>, pages: set<int>)
    requires img.Valid() && |st| == |img.pages| && pages !! Busy(st)
    ensures Busy(Settle(img, st, pages)) == Busy(st)
  {
    hide PageView;
    var t := Settle(img, st, pages);
    forall p ensures p in Busy(t) <==> p in Busy(st) {
      InBusy(st, p);
      InBusy(t, p);
    }
  }

  lemma ReachNotBusy(img: Image, busy: set<int>, p: int)
    requires img.Valid()
    ensures Reach(img, busy, p) !! busy && forall x :: x in Reach(img, busy, p) ==> img.Has(x)
  {
    hide Below;
    forall x | x in Reach(img, busy, p) ensures x !in busy {
      var path :| Leads(img, busy, path, p, x);
      assert path[|path| - 1] == x;
    }
  }

  lemma EnterBusy(st: seq<Status>, p: int)
    requires 1 <= p <= |st|
    ensures Busy(SetStatus(st, p, Checking)) == Busy(st) + {p}
  {
    var t := SetStatus(st, p, Checking);
    forall q ensures q in Busy(t) <==> q in Busy(st) + {p} {
      InBusy(st, q);
      InBusy(t, q);
    }
  }

  /** Entering a page, settling what lies below and leaving it settles all. */
  lemma EnterSettleLeave(img: Image, st: seq<Status>, p: int, below: set<int>)
    requires img.Valid() && |st| == |img.pages| && img.Has(p) && p !in below
    ensures SetStatus(Settle(img, SetStatus(st, p, Checking), below), p, Settled(img, p)) == Settle(img, st, {p} + below)
  {
    hide Settled;
  }

  /**
   On any page graph, cyclic ones included: if every page that can be reached is silent, the
   walk reports nothing, and exactly those pages become checked, or damaged if they are.
   */
  lemma {:induction false} SilentWalk(img: Image, cfg: Config, b: Btree, st: seq<Status>, p: int)
    requires img.Valid() && |st| == |img.pages| && AllSilent(img, b.kind, Reach(img, Busy(st), p))
    ensures var v := Walk(img, cfg, b, st, p);
      v.Visit? && v.reports == [] && v.status == Settle(img, st, Reach(img, Busy(st), p))
      && (img.Has(p) && p !in Busy(st) ==> v.rc == if PageView(img, p).Broken? then DAMAGED else OK)
    decreases Free(st), 1, 0
  {
    hide PageView, Reach, ReachAll, Settle, Busy, AllSilent, WalkAll, Cells, SetStatus;
    InBusy(st, p);
    if !img.Has(p) || p in Busy(st) {
      NoReach(img, Busy(st), p);
      SettleNone(img, st);
    } else {
      var st1, below := SetStatus(st, p, Checking), ReachAll(img, Busy(st) + {p}, Below(img, p));
      EnterFree(st, p);
      EnterBusy(st, p);
      ReachSplit(img, Busy(st), p);
      SilentHere(img, b.kind, p, below);
      SilentWalkAll(img, cfg, b, st1, Below(img, p));
      AllNotBusy(img, Busy(st) + {p}, Below(img, p));
      EnterSettleLeave(img, st, p, below);
      SettledHere(img, st1, p);
    }
  }

  lemma SilentHere(img: Image, kind: Kind, p: int, below: set<int>)
    requires img.Valid() && img.Has(p) && AllSilent(img, kind, {p} + below)
    ensures Silent(img, kind, p) && AllSilent(img, kind, below)
  {
    hide Silent;
    assert p in {p} + below;
  }

  /** A page without children has nothing below it. */
  lemma SettledHere(img: Image, st: seq<Status>, p: int)
    requires img.Valid() && img.Has(p) && |st| == |img.pages|
    ensures !PageView(img, p).Interior? ==> Settle(img, st, ReachAll(img, Busy(st), Below(img, p))) == st
    ensures Settled(img, p) == Outcome(if PageView(img, p).Broken? then DAMAGED else OK)
  {
    hide PageView;
    if !PageView(img, p).Interior? {
      assert Below(img, p) == [];
      SettleNone(img, st);
    }
  }

  lemma {:induction false} AllNotBusy(img: Image, busy: set<int>, children: seq<int>)
    requires img.Valid()
    ensures ReachAll(img, busy, children) !! busy
    decreases |children|
  {
    hide Reach;
    if children != [] {
      ReachNotBusy(img, busy, children[0]);
      AllNotBusy(img, busy, children[1..]);
    }
  }

  lemma {:induction false} SilentWalkAll(img: Image, cfg: Config, b: Btree, st: seq<Status>, children: seq<int>)
    requires img.Valid() && |st| == |img.pages| && AllSilent(img, b.kind, ReachAll(img, Busy(st), children))
    ensures WalkAll(img, cfg, b, st, children) == Visit(Settle(img, st, ReachAll(img, Busy(st), children)), [], OK)
    decreases Free(st), 3, |children|
  {
    hide Walk, Reach, Settle, Busy, Silent, PageView;
    if children == [] {
      SettleNone(img, st);
    } else {
      var first, rest := Reach(img, Busy(st), children[0]), ReachAll(img, Busy(st), children[1..]);
      SilentWalk(img, cfg, b, st, children[0]);
      ReachNotBusy(img, Busy(st), children[0]);
      SettleBusy(img, st, first);
      var st1 := Settle(img, st, first);
      SameFree(st, st1);
      SilentWalkAll(img, cfg, b, st1, children[1..]);
      SettleTwice(img, st, first, rest);
    }
  }

  // ---- exactly when ----

  /** Nothing has been looked at. */
  function Blank(img: Image): (r: seq<Status>)
    ensures |r| == |img.pages|
  {
    seq(|img.pages|, _ => Unchecked)
  }

  /** The page is a table leaf whose first cell can be read. */
  predicate Speaks(img: Image, kind: Kind, p: int)
    requires img.Valid() && img.Has(p)
  {
    match PageView(img, p)
    case TableLeaf(cells) => kind != RepairWalk.Hidden && cells != [] && CellAt(img, Blank(img), p, cells[0]).Cell?
    case _ => false
  }

  ghost predicate NoneSpeaks(img: Image, kind: Kind, pages: set<int>)
    requires img.Valid()
  {
    forall p :: p in pages && img.Has(p) ==> !Speaks(img, kind, p)
  }

  /** Statuses decide only whether a cell is lost, not whether it is bad. */
  lemma CellBlank(img: Image, st: seq<Status>, p: int, at: int)
    requires img.Valid() && img.Has(p) && |st| == |img.pages| && !CellAt(img, st, p, at).LostCell?
    ensures CellAt(img, st, p, at).Cell? <==> CellAt(img, Blank(img), p, at).Cell?
  {
    hide Varint32At, Fetch, Decode, MarkChain;
  }

  /**
   On any page graph: a walk that ends, of a b-tree whose rows lead nowhere, reports no row
   exactly if no page that can be reached is a table leaf whose first cell can be read.
   */
  lemma {:induction false} SilentExactly(img: Image, cfg: Config, b: Btree, st: seq<Status>, p: int)
    requires img.Valid() && |st| == |img.pages| && Ordinary(cfg, b) && Walk(img, cfg, b, st, p).Visit?
    ensures Walk(img, cfg, b, st, p).reports == [] <==> NoneSpeaks(img, b.kind, Reach(img, Busy(st), p))
    decreases Free(st), 1, 0
  {
    hide PageView, Reach, ReachAll, Busy, WalkAll, Cells, SetStatus, Speaks;
    InBusy(st, p);
    if !img.Has(p) || p in Busy(st) {
      NoReach(img, Busy(st), p);
    } else {
      var st1 := SetStatus(st, p, Checking);
      EnterFree(st, p);
      EnterBusy(st, p);
      ReachSplit(img, Busy(st), p);
      SpeaksHere(img, cfg, b, st1, p);
      if PageView(img, p).Interior? { SilentExactlyAll(img, cfg, b, st1, Below(img, p)); }
    }
  }

  /** A page without children speaks if it reports. */
  lemma SpeaksHere(img: Image, cfg: Config, b: Btree, st: seq<Status>, p: int)
    requires img.Valid() && |st| == |img.pages| && img.Has(p) && Ordinary(cfg, b)
    ensures PageView(img, p).Interior? ==> !Speaks(img, b.kind, p)
    ensures !PageView(img, p).Interior? ==> ReachAll(img, Busy(st), Below(img, p)) == {}
    ensures !PageView(img, p).Interior? && !PageView(img, p).TableLeaf? ==> !Speaks(img, b.kind, p)
    ensures PageView(img, p).TableLeaf? && b.kind == RepairWalk.Hidden ==> !Speaks(img, b.kind, p)
    ensures PageView(img, p).TableLeaf? && b.kind != RepairWalk.Hidden ==>
      var v := Cells(img, cfg, b, st, p, PageView(img, p).cells); v.Visit? ==> (v.reports == [] <==> !Speaks(img, b.kind, p))
  {
    hide PageView, CellAt, TableOf;
    if PageView(img, p).TableLeaf? {
      var cells := PageView(img, p).cells;
      if cells != [] && !CellAt(img, st, p, cells[0]).LostCell? { CellBlank(img, st, p, cells[0]); }
    }
  }

  lemma {:induction false} SilentExactlyAll(img: Image, cfg: Config, b: Btree, st: seq<Status>, children: seq<int>)
    requires img.Valid() && |st| == |img.pages| && Ordinary(cfg, b) && WalkAll(img, cfg, b, st, children).Visit?
    ensures WalkAll(img, cfg, b, st, children).reports == [] <==> NoneSpeaks(img, b.kind, ReachAll(img, Busy(st), children))
    decreases Free(st), 3, |children|
  {
    hide Walk, Reach, Busy, Speaks;
    if children != [] {
      SilentExactly(img, cfg, b, st, children[0]);
      var v := Walk(img, cfg, b, st, children[0]);
      SameFree(st, v.status);
      SameBusy(st, v.status);
      SilentExactlyAll(img, cfg, b, v.status, children[1..]);
    }
  }

  lemma SameBusy(a: seq<Status>, b: seq<Status>)
    requires SameChecking(a, b)
    ensures Busy(a) == Busy(b)
  {
  }
}
