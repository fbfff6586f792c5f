/**
 The walk as the C code runs it: a status array changed in place, a payload buffer
 filled piece by piece, and a call of onParseColumn for each row.  Each method is proved
 to do what the functions of RepairWalk say.
 */
module RepairParser {
  import opened Bytes
  import opened RepairInts
  import opened RepairValues
  import opened RepairRecord
  import opened RepairPayload
  import opened RepairWalk
  import opened RepairTree
  import opened RepairDatabase
  import opened RepairSweep

  // ---- chains, one page at a time ----

  lemma {:induction false} MarkMore(st: seq<Status>, pages: seq<int>, p: int)
    ensures MarkChain(st, pages + [p]) == SetStatus(MarkChain(st, pages), p, Checked)
    decreases |pages|
  {
    hide SetStatus;
    if pages == [] {
      assert (pages + [p])[1..] == [];
      assert MarkChain(SetStatus(st, p, Checked), []) == SetStatus(st, p, Checked);
    } else {
      assert (pages + [p])[1..] == pages[1..] + [p];
      MarkMore(SetStatus(st, pages[0], Checked), pages[1..], p);
    }
  }

  lemma {:induction false} FilledMore(img: Image, pages: seq<int>, p: int, left: nat)
    requires img.Valid() && (forall q :: q in pages ==> img.Has(q)) && img.Has(p)
    ensures forall q :: q in pages + [p] ==> img.Has(q)
    ensures var n := Piece(img, left - |Filled(img, pages, left)|);
      Filled(img, pages + [p], left) == Filled(img, pages, left) + Slice(img.Page(p), 4, n)
    decreases |pages|
  {
    hide Piece, Slice;
    if pages == [] {
      assert (pages + [p])[1..] == [];
      assert Filled(img, [], left - Piece(img, left)) == [];
    } else {
      var n := Piece(img, left);
      assert (pages + [p])[1..] == pages[1..] + [p];
      FilledMore(img, pages[1..], p, left - n);
      var rest := Filled(img, pages[1..], left - n);
      Bracket(Slice(img.Page(pages[0]), 4, n), rest, Slice(img.Page(p), 4, Piece(img, left - n - |rest|)));
    }
  }

  /** What is left of the chain after the pages in `done`. */
  ghost predicate Remains(img: Image, first: int, done: seq<int>, current: int)
    requires img.Valid()
  {
    && Follow(img, first, {}).Ends? && Follow(img, current, set p | p in done).Ends?
    && Follow(img, first, {}).pages == done + Follow(img, current, set p | p in done).pages
    && (forall p :: p in done ==> img.Has(p))
  }

  lemma RemainsMore(img: Image, first: int, done: seq<int>, current: int)
    requires img.Valid() && Remains(img, first, done, current) && img.Has(current)
    ensures current !in done && Remains(img, first, done + [current], Next(img, current))
  {
    hide Next, PageSet;
    var seen, more := (set p | p in done), (set p | p in done + [current]);
    assert more == seen + {current};
    var rest := Follow(img, Next(img, current), more);
    assert Follow(img, current, seen).Ends?;
    assert rest.Ends? && Follow(img, current, seen).pages == [current] + rest.pages;
    assert done + ([current] + rest.pages) == done + [current] + rest.pages;
  }

  lemma ShrinkSet(img: Image, done: seq<int>, current: int)
    requires img.Has(current) && current !in done
    ensures PageSet(img) - (set p | p in done + [current]) < PageSet(img) - (set p | p in done)
  {
    assert current in PageSet(img) - (set p | p in done);
  }

  class Parser {
    const img: Image
    const cfg: Config
    const pagesStatus: array<Status>
    /** The calls of the user's onParseColumn. */
    var reports: seq<Report>

    ghost predicate Valid()
      reads this
    {
      img.Valid() && pagesStatus.Length == |img.pages|
    }

    /** sqliterkOpen: nothing checked yet. */
    constructor (img: Image, cfg: Config)
      requires img.Valid()
      ensures Valid() && this.img == img && this.cfg == cfg && reports == [] && fresh(pagesStatus)
      ensures forall i :: 0 <= i < pagesStatus.Length ==> pagesStatus[i] == Unchecked
    {
      this.img := img;
      this.cfg := cfg;
      pagesStatus := new Status[|img.pages|](_ => Unchecked);
      reports := [];
    }

    /** sqliterkPagerSetStatus */
    method PutStatus(pageno: int, status: Status)
      requires Valid()
      modifies pagesStatus
      ensures pagesStatus[..] == SetStatus(old(pagesStatus[..]), pageno, status)
    {
      if !img.Has(pageno) { return; }
      pagesStatus[pageno - 1] := status;
    }

    /** sqliterkNotify_onBeginParsePage */
    method OnBeginParsePage(pageno: int) returns (rc: Rc)
      requires Valid()
      modifies pagesStatus
      ensures rc == if GetStatus(old(pagesStatus[..]), pageno) == Checking then MISUSE else OK
      ensures pagesStatus[..] == if rc == OK then SetStatus(old(pagesStatus[..]), pageno, Checking) else old(pagesStatus[..])
    {
      if img.Has(pageno) && pagesStatus[pageno - 1] == Checking { return MISUSE; }
      PutStatus(pageno, Checking);
      return OK;
    }

    /** sqliterkNotify_onEndParsePage */
    method OnEndParsePage(pageno: int, result: Rc)
      requires Valid()
      modifies pagesStatus
      ensures pagesStatus[..] == SetStatus(old(pagesStatus[..]), pageno, Outcome(result))
    {
      match result {
        case OK => PutStatus(pageno, Checked);
        case DAMAGED => PutStatus(pageno, Damaged);
        case _ => PutStatus(pageno, Invalid);
      }
    }

    /** The overflow loop of sqliterkBtreeParsePayload. */
    method ReadChain(first: int, payload: array<byte>, local: nat) returns (overflowPages: seq<int>, payloadPointer: nat)
      requires Valid() && local <= payload.Length && payload as object != pagesStatus as object
      requires Follow(img, first, {}).Ends?
      modifies payload, pagesStatus
      ensures overflowPages == Follow(img, first, {}).pages && forall p :: p in overflowPages ==> img.Has(p)
      ensures pagesStatus[..] == MarkChain(old(pagesStatus[..]), overflowPages)
      ensures payloadPointer <= payload.Length
      ensures payload[..payloadPointer] == old(payload[..local]) + Filled(img, overflowPages, payload.Length - local)
    {
      hide MarkChain, SetStatus, Follow, Filled, Next, Piece;
      ghost var st := pagesStatus[..];
      payloadPointer := local;
      overflowPages := [];
      var overflowPageno := first;
      StartChain(img, first, st, payload.Length - local);
      while img.Has(overflowPageno)
        invariant Remains(img, first, overflowPages, overflowPageno) && local <= payloadPointer <= payload.Length
        invariant pagesStatus[..] == MarkChain(st, overflowPages)
        invariant payload[..payloadPointer] == old(payload[..local]) + Filled(img, overflowPages, payload.Length - local)
        decreases PageSet(img) - (set p | p in overflowPages)
      {
        RemainsMore(img, first, overflowPages, overflowPageno);
        MarkMore(st, overflowPages, overflowPageno);
        FilledMore(img, overflowPages, overflowPageno, payload.Length - local);
        ShrinkSet(img, overflowPages, overflowPageno);
        overflowPages := overflowPages + [overflowPageno];
        payloadPointer := ReadOverflowPage(overflowPageno, payload, payloadPointer);
        overflowPageno := Next(img, overflowPageno);
      }
      EndChain(img, first, overflowPages, overflowPageno);
    }

    /** sqliterkBtreeParsePayload: the payload is fetched and decoded. */
    method ParsePayload(pageno: int, offset: int, payloadSize: int, rowid: int) returns (rc: Rc, row: Row)
      requires Valid() && img.Has(pageno)
      requires !DecodeCell(pagesStatus[..], rowid, Fetch(img, pageno, offset, payloadSize)).LostCell?
      modifies pagesStatus
      ensures CellDone(DecodeCell(old(pagesStatus[..]), rowid, Fetch(img, pageno, offset, payloadSize)), pagesStatus[..], row, rc)
    {
      hide MarkChain, Follow, Filled, Local, Signed, Decode;
      MarkNone(pagesStatus[..]);
      row := Row(rowid, [], []);
      if payloadSize <= 0 { return MISUSE, row; }
      var local := Local(payloadSize, img.usable);
      var page := img.Page(pageno);
      if offset + local > img.pagesize { return DAMAGED, row; }
      var payloadData := new byte[payloadSize](_ => 0);
      CopyInto(payloadData, 0, Slice(page, offset, local));
      var overflowPages: seq<int> := [];
      if local < payloadSize {
        ghost var payloadPointer;
        overflowPages, payloadPointer := ReadChain(Signed(Slice(page, offset + local, 4)), payloadData, local);
        assert payloadData[..payloadPointer] == payloadData[..];
      }
      ghost var fetched := Fetch(img, pageno, offset, payloadSize);
      assert payloadData[..] == fetched.bytes && overflowPages == fetched.pages;
      var values := new Values();
      var end := ParseRecord(payloadData[..], values);
      assert values.Contents() == Decode(fetched.bytes).values;
      if end.Failed? { return end.rc, row; }
      return OK, Row(rowid, values.Contents(), overflowPages);
    }

    /** sqliterkBtreeParse on a table: the rows of the tree below the root, left to right. */
    method ParseTable(b: Btree, ghost tree: Tree) returns (rc: Rc)
      requires Valid() && tree.pageno == b.root && Represents(img, tree) && Ordinary(cfg, b)
      requires NoneChecking(pagesStatus[..], Pages(tree))
      modifies this`reports, pagesStatus
      ensures rc == OK && reports == old(reports) + Reports(b.root, Rows(tree))
      ensures pagesStatus[..] == Marked(old(pagesStatus[..]), Pages(tree))
    {
      hide Walk, Represents, Pages, Rows, Marked, Ordinary;
      WalkReadsTree(img, cfg, b, pagesStatus[..], tree);
      rc := ParsePage(b, b.root);
    }

    /** sqliterkParsePage: only a page that has not been looked at is parsed. */
    method ParseRoot(pageno: int) returns (rc: Rc)
      requires Valid() && ParseOnce(img, cfg, pagesStatus[..], pageno).Visit?
      modifies this`reports, pagesStatus
      ensures Reported(ParseOnce(img, cfg, old(pagesStatus[..]), pageno), pagesStatus[..], old(reports), reports, rc)
    {
      hide Walk;
      if !img.Has(pageno) || pagesStatus[pageno - 1] != Unchecked { return OK; }
      if !Opens(img, pageno) { return DAMAGED; }
      rc := ParsePage(Btree(pageno, if pageno == 1 then Master else Plain), pageno);
    }

    /** sqliterkParse */
    method Parse()
      requires Valid() && Sweep(img, cfg, pagesStatus[..], 1).Visit?
      modifies this`reports, pagesStatus
      ensures Reported(Sweep(img, cfg, old(pagesStatus[..]), 1), pagesStatus[..], old(reports), reports, OK)
    {
      hide ParseOnce;
      ghost var visit := Sweep(img, cfg, pagesStatus[..], 1);
      ghost var got: seq<Report> := [];
      for i := 0 to |img.pages|
        invariant reports == old(reports) + got
        invariant Continues(visit, got, Sweep(img, cfg, pagesStatus[..], i + 1))
      {
        ghost var one := ParseOnce(img, cfg, pagesStatus[..], i + 1);
        var _ := ParseRoot(i + 1);
        MoreReports(old(reports), visit, got, one.reports, Sweep(img, cfg, pagesStatus[..], i + 2));
        got := got + one.reports;
      }
    }

    /**
     sqliterkParseMaster: if page 1 has not been looked at, the rows of the master table that
     are reached, and behind each those of its table; otherwise nothing.
     */
    method ParseMaster(ghost t: Schema) returns (rc: Rc)
      requires Valid() && cfg.recursive && HoldsDatabase(img, cfg, t)
      requires pagesStatus[0] == Unchecked ==> NoneChecking(pagesStatus[..], SchemaPages(img, Reached(t)))
      modifies this`reports, pagesStatus
      ensures rc == OK
      ensures old(pagesStatus[0]) == Unchecked ==>
        && reports == old(reports) + AllReports(EntriesOf(Reached(t)))
        && pagesStatus[..] == Marked(old(pagesStatus[..]), SchemaPages(img, Reached(t)))
      ensures old(pagesStatus[0]) != Unchecked ==> reports == old(reports) && pagesStatus[..] == old(pagesStatus[..])
    {
      hide Walk, HoldsDatabase, SchemaPages, AllReports, EntriesOf, Marked;
      RootIsOne(img, cfg, t);
      if pagesStatus[0] == Unchecked { WalkReadsDatabase(img, cfg, pagesStatus[..], t); }
      rc := ParseRoot(1);
    }

    /** sqliterkBtreeParsePage: a page and, through its children, all that lies below. */
    method ParsePage(b: Btree, pageno: int) returns (rc: Rc)
      requires Valid() && Walk(img, cfg, b, pagesStatus[..], pageno).Visit?
      modifies this`reports, pagesStatus
      ensures Reported(Walk(img, cfg, b, old(pagesStatus[..]), pageno), pagesStatus[..], old(reports), reports, rc)
      decreases Free(pagesStatus[..]), 1
    {
      hide PageView, Cells, WalkAll, SetStatus, Free;
      ghost var st := pagesStatus[..];
      if pageno > |img.pages| { return MISUSE; }
      rc := OnBeginParsePage(pageno);
      NotEntered(st, pageno);
      if rc != OK { return rc; }
      if !img.Has(pageno) {
        OnEndParsePage(pageno, MISUSE);
        return MISUSE;
      }
      EnterFree(st, pageno);
      ghost var st1 := pagesStatus[..];
      var view := ReadPage(pageno);
      match view {
        case Unreadable => assert false;
        case Broken => rc := DAMAGED;
        case IndexLeaf => rc := OK;
        case Interior(children) =>
          ParsePages(b, children, st1);
          rc := OK;
        case TableLeaf(cells) =>
          if b.kind != Hidden { rc := ParseCell(b, pageno, cells); }
      }
      OnEndParsePage(pageno, rc);
    }

    /** The recursive part: every child in turn, whatever the others returned. */
    method ParsePages(b: Btree, pagenos: seq<int>, ghost st: seq<Status>)
      requires Valid() && st == pagesStatus[..] && WalkAll(img, cfg, b, st, pagenos).Visit?
      modifies this`reports, pagesStatus
      ensures Reported(WalkAll(img, cfg, b, st, pagenos), pagesStatus[..], old(reports), reports, OK)
      decreases Free(pagesStatus[..]), 3
    {
      hide Walk;
      ghost var visit := WalkAll(img, cfg, b, st, pagenos);
      ghost var got: seq<Report> := [];
      assert pagenos[0..] == pagenos;
      for i := 0 to |pagenos|
        invariant reports == old(reports) + got && SameChecking(st, pagesStatus[..])
        invariant Continues(visit, got, WalkAll(img, cfg, b, pagesStatus[..], pagenos[i..]))
      {
        ghost var now, rest := pagesStatus[..], pagenos[i..];
        ghost var one := Walk(img, cfg, b, now, pagenos[i]);
        assert rest[0] == pagenos[i] && rest[1..] == pagenos[i + 1..];
        SameFree(st, now);
        var _ := ParsePage(b, pagenos[i]);
        MoreReports(old(reports), visit, got, one.reports, WalkAll(img, cfg, b, pagesStatus[..], rest[1..]));
        got := got + one.reports;
      }
    }

    /** sqliterkNotify_onParseColumn: the row is reported, and a row of the master table is followed. */
    method OnParseColumn(b: Btree, row: Row)
      requires Valid() && Recurse(img, cfg, b, pagesStatus[..], row).Visit?
      modifies this`reports, pagesStatus
      ensures pagesStatus[..] == Recurse(img, cfg, b, old(pagesStatus[..]), row).status
      ensures reports == old(reports) + ([Report(b.root, row)] + Recurse(img, cfg, b, old(pagesStatus[..]), row).reports)
      decreases Free(pagesStatus[..]), 2
    {
      hide Walk, TableOf;
      ghost var visit := Recurse(img, cfg, b, pagesStatus[..], row);
      reports := reports + [Report(b.root, row)];
      if b.kind == Master && cfg.recursive {
        var sub := TableOf(img, cfg, row);
        if sub.Some? { var _ := ParsePage(sub.value, sub.value.root); }
      }
      assert old(reports) + [Report(b.root, row)] + visit.reports == old(reports) + ([Report(b.root, row)] + visit.reports);
    }

    /** The header, the cell pointers and the child pointers of a page. */
    method ReadPage(pageno: int) returns (view: View)
      requires img.Valid() && img.Has(pageno)
      ensures view == PageView(img, pageno)
    {
      hide Signed, Ints;
      var page, h := img.Page(pageno), HeaderOffset(pageno);
      var kind := Int8(page[h]);
      if kind !in {INTERIOR_INDEX, INTERIOR_TABLE, LEAF_INDEX, LEAF_TABLE} { return Broken; }
      var offsetCellPointerArray := if kind == INTERIOR_TABLE then 12 else 8;
      var cellsCount := ParseInt64(page, 3 + h, 2);
      if cellsCount.value <= 0 || cellsCount.value * 2 + offsetCellPointerArray > img.pagesize { return Broken; }
      var cellPointerArray := ParseInts(page, PointerOffsets(h + offsetCellPointerArray, cellsCount.value), 2);
      if !cellPointerArray.Done? { return Unreadable; }
      match kind {
        case 13 => view := TableLeaf(cellPointerArray.value);
        case 10 => view := IndexLeaf;
        case _ =>
          var hasRightMostPageno := kind == INTERIOR_TABLE;
          var at := cellPointerArray.value;
          if hasRightMostPageno { at := at + [8]; }
          var pagenos := ParseInts(page, at, 4);
          view := if pagenos.Done? then Interior(pagenos.value) else Unreadable;
      }
    }

    /** A run of sqliterkParseInt at the given places. */
    static method ParseInts(page: seq<byte>, at: seq<int>, width: int) returns (r: Result<seq<int>>)
      ensures r == Ints(page, at, width)
    {
      hide IntAt;
      var out: seq<int> := [];
      assert at[0..] == at;
      AllInts(out, Ints(page, at, width));
      for i := 0 to |at|
        invariant Ints(page, at, width) == Prepended(out, Ints(page, at[i..], width))
      {
        assert at[i..][1..] == at[i + 1..];
        var v := ParseInt64(page, at[i], width);
        match v {
          case Failed(rc) => return Failed(rc);
          case Undefined => return Undefined;
          case Done(n) =>
            OneInt(out, n, Ints(page, at[i + 1..], width));
            out := out + [n];
        }
      }
      assert at[|at|..] == [] && out + [] == out;
      r := Done(out);
    }

    /** sqliterkBtreeParseCell: the rows of a leaf page, up to the first bad cell. */
    method ParseCell(b: Btree, pageno: int, cellPointerArray: seq<int>) returns (rc: Rc)
      requires Valid() && img.Has(pageno) && Cells(img, cfg, b, pagesStatus[..], pageno, cellPointerArray).Visit?
      modifies this`reports, pagesStatus
      ensures Reported(Cells(img, cfg, b, old(pagesStatus[..]), pageno, cellPointerArray),
                       pagesStatus[..], old(reports), reports, rc)
      decreases Free(pagesStatus[..]), 4
    {
      hide CellAt, Recurse;
      ghost var st0 := pagesStatus[..];
      ghost var visit := Cells(img, cfg, b, st0, pageno, cellPointerArray);
      ghost var got: seq<Report> := [];
      assert cellPointerArray[0..] == cellPointerArray;
      for i := 0 to |cellPointerArray|
        invariant reports == old(reports) + got && SameChecking(st0, pagesStatus[..])
        invariant Continues(visit, got, Cells(img, cfg, b, pagesStatus[..], pageno, cellPointerArray[i..]))
      {
        ghost var st, rest := pagesStatus[..], cellPointerArray[i..];
        ghost var cell := CellAt(img, st, pageno, rest[0]);
        assert rest[0] == cellPointerArray[i] && rest[1..] == cellPointerArray[i + 1..];
        var row;
        rc, row := ReadCell(pageno, cellPointerArray[i]);
        if rc != OK { return; }
        CellSame(img, st, pageno, rest[0]);
        SameFree(st0, cell.status);
        ghost var sub := Recurse(img, cfg, b, cell.status, row);
        OnParseColumn(b, row);
        MoreReports(old(reports), visit, got, [Report(b.root, row)] + sub.reports,
                    Cells(img, cfg, b, pagesStatus[..], pageno, rest[1..]));
        got := got + ([Report(b.root, row)] + sub.reports);
      }
      return OK;
    }

    /** One cell: payload size, row id, payload. */
    method ReadCell(pageno: int, at: int) returns (rc: Rc, row: Row)
      requires Valid() && img.Has(pageno) && !CellAt(img, pagesStatus[..], pageno, at).LostCell?
      modifies pagesStatus
      ensures CellDone(CellAt(img, old(pagesStatus[..]), pageno, at), pagesStatus[..], row, rc)
    {
      hide Varint32At, Fetch, DecodeCell, MarkChain;
      row := Row(0, [], []);
      var page, offset := img.Page(pageno), at;
      var size := ReadVarint32(page, offset);
      if !size.Done? { return size.rc, row; }
      offset := offset + size.value.0;
      var rowid := ReadVarint32(page, offset);
      if !rowid.Done? { return rowid.rc, row; }
      offset := offset + rowid.value.0;
      rc, row := ParsePayload(pageno, offset, size.value.1, rowid.value.1);
    }

    /** One page of the chain: both notifications, then its piece of the payload. */
    method ReadOverflowPage(pageno: int, payload: array<byte>, payloadPointer: nat) returns (pointer: nat)
      requires Valid() && img.Has(pageno) && payloadPointer <= payload.Length
      requires payload as object != pagesStatus as object
      modifies payload, pagesStatus
      ensures pagesStatus[..] == SetStatus(old(pagesStatus[..]), pageno, Checked)
      ensures pointer == payloadPointer + Piece(img, payload.Length - payloadPointer)
      ensures payload[..pointer] ==
        old(payload[..payloadPointer]) + Slice(img.Page(pageno), 4, Piece(img, payload.Length - payloadPointer))
    {
      hide SetStatus;
      BeginAndEnd(pagesStatus[..], pageno);
      var _ := OnBeginParsePage(pageno);
      OnEndParsePage(pageno, OK);
      var overflowSize := payload.Length - payloadPointer;
      var maxSize := img.usable - 4;
      if overflowSize > maxSize { overflowSize := maxSize; }
      var data := Slice(img.Page(pageno), 4, overflowSize);
      CopyInto(payload, payloadPointer, data);
      pointer := payloadPointer + overflowSize;
    }

    /** memcpy */
    static method CopyInto(target: array<byte>, at: nat, data: seq<byte>)
      requires at + |data| <= target.Length
      modifies target
      ensures target[..at + |data|] == old(target[..at]) + data
    {
      forall i | 0 <= i < |data| { target[at + i] := data[i]; }
    }
  }

  lemma MarkNone(st: seq<Status>)
    ensures MarkChain(st, []) == st
  {
  }

  /** What a call leaves behind, told by the visit it made. */
  ghost predicate Reported(v: Visit, status: seq<Status>, before: seq<Report>, after: seq<Report>, rc: Rc) {
    v.Visit? && v.status == status && after == before + v.reports && v.rc == rc
  }

  /** The whole visit is the reports so far and the rest. */
  ghost predicate Continues(whole: Visit, got: seq<Report>, rest: Visit) {
    whole.Visit? && rest.Visit? && whole == Visit(rest.status, got + rest.reports, rest.rc)
  }

  function Prepended(a: seq<int>, r: Result<seq<int>>): Result<seq<int>> {
    match r case Done(b) => Done(a + b) case _ => r
  }

  lemma AllInts(a: seq<int>, r: Result<seq<int>>)
    requires a == []
    ensures Prepended(a, r) == r
  {
    if r.Done? { assert a + r.value == r.value; }
  }

  lemma OneInt(a: seq<int>, n: int, r: Result<seq<int>>)
    ensures Prepended(a, Prepended([n], r)) == Prepended(a + [n], r)
  {
    if r.Done? { assert a + ([n] + r.value) == a + [n] + r.value; }
  }

  /** A page that is not entered keeps its status, and so do all the others. */
  lemma NotEntered(st: seq<Status>, pageno: int)
    ensures !(1 <= pageno <= |st|) ==> forall s :: SetStatus(st, pageno, s) == st
    ensures 1 <= pageno <= |st| ==> GetStatus(st, pageno) == st[pageno - 1]
  {
  }

  lemma MoreReports(before: seq<Report>, whole: Visit, got: seq<Report>, more: seq<Report>, rest: Visit)
    requires rest.Visit? && Continues(whole, got, Visit(rest.status, more + rest.reports, rest.rc))
    ensures Continues(whole, got + more, rest) && before + got + more == before + (got + more)
  {
    assert got + (more + rest.reports) == got + more + rest.reports;
  }

  /** What a call leaves behind, told by the cell it read. */
  ghost predicate CellDone(c: Cell, status: seq<Status>, row: Row, rc: Rc) {
    match c
    case Cell(st, r) => status == st && row == r && rc == OK
    case BadCell(st, e) => status == st && rc == e
    case LostCell => false
  }

  lemma StartChain(img: Image, first: int, st: seq<Status>, left: nat)
    requires img.Valid() && Follow(img, first, {}).Ends?
    ensures Remains(img, first, [], first) && MarkChain(st, []) == st && Filled(img, [], left) == []
  {
    var none: seq<int> := [];
    assert (set p | p in none) == {};
  }

  lemma EndChain(img: Image, first: int, done: seq<int>, current: int)
    requires img.Valid() && Remains(img, first, done, current) && !img.Has(current)
    ensures done == Follow(img, first, {}).pages
  {
  }

  lemma BeginAndEnd(st: seq<Status>, p: int)
    ensures SetStatus(SetStatus(st, p, Checking), p, Checked) == SetStatus(st, p, Checked)
  {
  }
}
