/** Small files: what the predicates about files mean is met, and where the reader fails. */
module RepairExamples {
  import opened Bytes
  import opened RepairInts
  import opened RepairValues
  import opened RepairRecord
  import opened RepairRecordFormat
  import opened RepairPayload
  import opened RepairWalk
  import opened RepairTree
  import opened RepairReach
  import opened RepairIndex
  import opened RepairDatabase

  // ---- pages of 512 bytes ----

  function File(pages: seq<seq<byte>>): Image { Image(pages, 512, 512) }

  function Zeros(n: nat): (r: seq<byte>)
    ensures |r| == n
  {
    seq(n, _ => 0)
  }

  /** A page that is zero but for a few bytes. */
  function Sparse(at: map<int, byte>): (r: seq<byte>)
    ensures |r| == 512 && forall i :: 0 <= i < 512 ==> r[i] == if i in at then at[i] else 0
  {
    seq(512, i => if i in at then at[i] else 0)
  }

  lemma Two(page: seq<byte>, at: nat)
    requires at + 2 <= |page|
    ensures IntIs(page, at, 2, Int8(page[at]) * 256 + page[at + 1])
  {
    SignedParts(Slice(page, at, 2));
  }

  lemma Four(page: seq<byte>, at: nat)
    requires at + 4 <= |page|
    ensures IntIs(page, at, 4, Int8(page[at]) * 16777216 + (page[at + 1] as int) * 65536 + (page[at + 2] as int) * 256 + page[at + 3])
  {
    SignedParts(Slice(page, at, 4));
  }

  // ---- a table leaf with one row ----

  /** A row whose record is short, so that a page has room for it. */
  ghost predicate Short(row: Row, payload: seq<byte>) {
    IsRecord(payload, row.values) && 0 < |payload| <= 300 && IsInt64(row.rowid) && row.overflow == []
  }

  lemma VarintSize(v: nat)
    requires v < TWO_64
    ensures 1 <= |EncodeVarint(v)| <= 9
  {
    if v < TWO_56 { ShortSize(v); }
  }

  function CellBytes(rowid: int, payload: seq<byte>): (r: seq<byte>)
    requires IsInt64(rowid) && |payload| <= 300
    ensures |payload| < |r| <= 318
  {
    VarintSize(|payload|);
    VarintSize(Unsigned(rowid));
    EncodeVarint(|payload|) + EncodeVarint(Unsigned(rowid)) + payload
  }

  /** A table leaf with a single cell at its end. */
  function OneCell(cell: seq<byte>): (r: seq<byte>)
    requires 0 < |cell| <= 318
    ensures |r| == 512
  {
    var at := 512 - |cell|;
    [13, 0, 0, 0, 1, 0, 0, 0, at / 256, at % 256] + Zeros(502 - |cell|) + cell
  }

  /** A cell that lies somewhere on a page is stored there. */
  lemma CellThere(img: Image, p: int, at: nat, row: Row, payload: seq<byte>)
    requires img.Valid() && img.pagesize == img.usable == 512 && img.Has(p) && Short(row, payload)
    requires at + |CellBytes(row.rowid, payload)| == 512 && img.Page(p)[at..] == CellBytes(row.rowid, payload)
    ensures CellStored(img, p, at, row)
  {
    hide IsRecord, EncodeVarint, Unsigned;
    var size, rowid, page := EncodeVarint(|payload|), EncodeVarint(Unsigned(row.rowid)), img.Page(p);
    SuffixSlice(page, at, size + rowid, payload);
    assert payload[..|payload|] == payload;
    StoredLocal(img, p, at + |size| + |rowid|, payload, []);
    assert CellOf(img, p, at, row, payload);
  }

  lemma SuffixSlice(page: seq<byte>, at: nat, a: seq<byte>, b: seq<byte>)
    requires at <= |page| && page[at..] == a + b
    ensures Within(page, at, |a|) && Slice(page, at, |a|) == a
    ensures Within(page, at + |a|, |b|) && Slice(page, at + |a|, |b|) == b
  {
    assert |page| == at + |a| + |b|;
    forall i | 0 <= i < |a| ensures page[at + i] == a[i] { assert page[at..][i] == (a + b)[i]; }
    forall i | 0 <= i < |b| ensures page[at + |a| + i] == b[i] { assert page[at..][|a| + i] == (a + b)[|a| + i]; }
  }

  lemma OneCellParts(cell: seq<byte>)
    requires 0 < |cell| <= 318
    ensures var at, page := 512 - |cell|, OneCell(cell);
      page[0] == 13 && page[at..] == cell && IntIs(page, 3, 2, 1) && IntIs(page, 8, 2, at)
  {
    var page := OneCell(cell);
    Two(page, 3);
    Two(page, 8);
  }

  /** Every such row is represented by a page. */
  lemma OneRow(img: Image, p: int, row: Row, payload: seq<byte>)
    requires img.Valid() && img.pagesize == img.usable == 512 && img.Has(p) && p != 1 && Short(row, payload) && Readable(row)
    requires img.Page(p) == OneCell(CellBytes(row.rowid, payload))
    ensures Represents(img, Leaf(p, [row])) && LeafPage(img, p, [row], [512 - |CellBytes(row.rowid, payload)|])
  {
    hide OneCell, CellBytes, CellStored, Readable, IsRecord;
    var cell := CellBytes(row.rowid, payload);
    OneCellParts(cell);
    CellThere(img, p, 512 - |cell|, row, payload);
    assert LeafPage(img, p, [row], [512 - |cell|]);
    NoOverflow(row);
  }

  lemma NoOverflow(row: Row)
    requires row.overflow == []
    ensures OverflowPages([row]) == {}
  {
    assert [row][1..] == [];
  }

  /** The record of a single 0. */
  lemma ZeroRecord()
    ensures IsRecord([2, 8], [Integer(0)])
  {
    var p: seq<byte> := [2, 8];
    assert Varint32At(p, 0) == Done((1, 2)) && Varint32At(p, 1) == Done((1, 8));
    var types: seq<int> := [8];
    assert SerialTypes(p, 2, 2) == Done([]) && types == [8] + [];
    assert SerialTypes(p, 1, 2) == Done(types);
    assert BodyLength([8]) == 0 + BodyLength([]);
    assert [8][1..] == [] && ValuesOf([], []) == [];
    assert ValuesOf([8], p[2..]) == [Integer(0)];
    assert TilesAs(p, 2, 1, 2, [8], [Integer(0)]);
  }

  // ---- row ids ----

  /** A row id of 2^31 is reported as -2^31. */
  lemma RowidExample()
    ensures var row := Row(TWO_31, [Integer(0)], []);
      var img := File([Zeros(512), OneCell(CellBytes(TWO_31, [2, 8]))]);
      && Represents(img, Leaf(2, [row]))
      && Reports(2, Rows(Leaf(2, [row]))) == [Report(2, Row(-TWO_31, [Integer(0)], []))]
  {
    hide OneCell, CellBytes, IsRecord, EncodeVarint;
    var row := Row(TWO_31, [Integer(0)], []);
    ZeroRecord();
    var img := File([Zeros(512), OneCell(CellBytes(TWO_31, [2, 8]))]);
    OneRow(img, 2, row, [2, 8]);
  }

  // ---- an index whose walk reports the rows of a table ----

  /** An interior index page: two cells with children 4 and 5, right-most child 20; byte 23 is unused space. */
  function IndexInner(unused: byte): (r: seq<byte>)
    ensures |r| == 512
  {
    Sparse(map[0 := 2, 4 := 2, 11 := 20, 12 := 1, 13 := 0xF4, 14 := 1, 15 := 0xFA, 23 := unused, 503 := 4, 509 := 5])
  }

  function IndexLeafBytes(): (r: seq<byte>)
    ensures |r| == 512
  {
    Sparse(map[0 := 10, 4 := 1])
  }

  function IndexFile(first: seq<byte>, unused: byte, table: seq<byte>): Image {
    File([first, IndexInner(unused), table] + seq(17, _ => IndexLeafBytes()))
  }

  lemma LeafHolds(img: Image, p: int)
    requires img.Valid() && img.pagesize == 512 && img.Has(p) && p != 1 && img.Page(p) == IndexLeafBytes()
    ensures HoldsIndex(img, IndexTree(p, []))
  {
    Two(img.Page(p), 3);
    Two(img.Page(p), 8);
    assert Roots([]) == [];
    assert IndexPage(img, p, [], [0]);
  }

  lemma InnerBytes(unused: byte)
    ensures var r := IndexInner(unused);
      && r[0] == 2 && r[1] == 0 && r[2] == 0 && r[3] == 0 && r[4] == 2
      && r[8] == 0 && r[9] == 0 && r[10] == 0 && r[11] == 20
      && r[12] == 1 && r[13] == 0xF4 && r[14] == 1 && r[15] == 0xFA
      && r[20] == 0 && r[21] == 0 && r[22] == 0 && r[23] == unused
  {
  }

  lemma InnerCells(unused: byte)
    ensures var r := IndexInner(unused);
      && r[500] == 0 && r[501] == 0 && r[502] == 0 && r[503] == 4
      && r[506] == 0 && r[507] == 0 && r[508] == 0 && r[509] == 5
  {
  }

  lemma InnerPage(img: Image, unused: byte)
    requires img.Valid() && img.pagesize == 512 && img.Has(2) && img.Page(2) == IndexInner(unused)
    ensures IndexPage(img, 2, [4, 5, 20], [500, 506])
  {
    hide IndexInner, Signed;
    var page := img.Page(2);
    InnerBytes(unused);
    InnerCells(unused);
    Two(page, 3);
    Two(page, 12);
    Two(page, 14);
    Four(page, 500);
    Four(page, 506);
    Four(page, 8);
  }

  lemma InnerStrays(img: Image, unused: byte)
    requires img.Valid() && img.pagesize == 512 && img.Has(2) && img.Page(2) == IndexInner(unused)
    ensures Strays(img, 2, 2) == Done([0x200_0000, unused])
  {
    hide IndexInner, Signed;
    var page := img.Page(2);
    InnerBytes(unused);
    Two(page, 8);
    Two(page, 10);
    Four(page, 0);
    Four(page, 20);
    assert StrayOffsets(page, 2) == [0, 20];
    IntsRead(page, [0, 20], 4, [0x200_0000, unused as int]);
  }

  function IndexExample(): IndexTree { IndexTree(2, [IndexTree(4, []), IndexTree(5, []), IndexTree(20, [])]) }

  lemma InnerHolds(img: Image, unused: byte)
    requires img.Valid() && img.pagesize == 512 && |img.pages| == 20 && img.Page(2) == IndexInner(unused)
    requires img.Page(4) == img.Page(5) == img.Page(20) == IndexLeafBytes()
    ensures HoldsIndex(img, IndexExample())
    ensures PageView(img, 2) == Interior([0x200_0000, unused as int] + [])
  {
    hide IndexInner, IndexLeafBytes, IndexPage, PageView, Strays;
    LeafHolds(img, 4);
    LeafHolds(img, 5);
    LeafHolds(img, 20);
    InnerPage(img, unused);
    InnerStrays(img, unused);
    assert Roots(IndexExample().kids) == [4, 5, 20];
    IndexView(img, 2, [4, 5, 20], [500, 506]);
    assert [4, 5, 20][..0] == [];
  }

  lemma FileParts(first: seq<byte>, unused: byte, table: seq<byte>)
    requires |first| == |table| == 512
    ensures var img := IndexFile(first, unused, table);
      && img.Valid() && img.pagesize == img.usable == 512 && |img.pages| == 20
      && img.Page(1) == first && img.Page(2) == IndexInner(unused) && img.Page(3) == table && img.Page(4) == img.Page(5) == img.Page(20) == IndexLeafBytes()
  {
    hide IndexInner, IndexLeafBytes;
  }

  /**
   A file with an index of four pages and a table of one row: the walk over the index
   reports the row as the index's and comes to none of its leaves.
   */
  lemma StrayExample(cfg: Config, row: Row, payload: seq<byte>)
    requires Short(row, payload) && Readable(row)
    ensures var img := IndexFile(Zeros(512), 3, OneCell(CellBytes(row.rowid, payload)));
      && img.Valid() && Represents(img, Leaf(3, [row])) && HoldsIndex(img, IndexExample())
      && Walk(img, cfg, Btree(2, Plain), Blank(img), 2).Visit?
      && Walk(img, cfg, Btree(2, Plain), Blank(img), 2).reports == [Report(2, Seen(row))]
  {
    hide OneCell, CellBytes, IsRecord, Represents, HoldsIndex, Readable, Seen, IndexFile, IndexInner, IndexLeafBytes, PageView, Walk, Busy;
    var table := OneCell(CellBytes(row.rowid, payload));
    var img := IndexFile(Zeros(512), 3, table);
    FileParts(Zeros(512), 3, table);
    OneRow(img, 3, row, payload);
    InnerHolds(img, 3);
    NoOverflow(row);
    BlankFree(img);
    StrayTable(img, cfg, 2, Blank(img), 0x200_0000, [], Leaf(3, [row]));
  }

  lemma BlankFree(img: Image)
    ensures Busy(Blank(img)) == {}
  {
  }

  // ---- databases ----

  /** Page 1 as a table leaf with a single cell at its end. */
  function FirstOneCell(cell: seq<byte>): (r: seq<byte>)
    requires 0 < |cell| <= 318
    ensures |r| == 512
  {
    var at := 512 - |cell|;
    Zeros(8) + [0x6f, 0x72, 0x6d, 0x61] + Zeros(88)
    + ([13, 0, 0, 0, 1, 0, 0, 0, at / 256, at % 256] + Zeros(402 - |cell|) + cell)
  }

  lemma FirstOneCellParts(cell: seq<byte>)
    requires 0 < |cell| <= 318
    ensures var at, page := 512 - |cell|, FirstOneCell(cell);
      && page[8..12] == [0x6f, 0x72, 0x6d, 0x61] && page[100] == 13 && page[at..] == cell
      && IntIs(page, 103, 2, 1) && IntIs(page, 108, 2, at)
  {
    hide Signed;
    var page := FirstOneCell(cell);
    Two(page, 103);
    Two(page, 108);
  }

  /** A schema of one entry is represented by a page 1. */
  lemma OneEntry(img: Image, cfg: Config, e: Entry, payload: seq<byte>)
    requires img.Valid() && img.pagesize == img.usable == 512 && 1 <= |img.pages| < 1000
    requires Short(e.row, payload) && Readable(e.row) && img.Page(1) == FirstOneCell(CellBytes(e.row.rowid, payload))
    requires EntryOk(img, cfg, e) && 1 !in Touched(img, e)
    ensures HoldsDatabase(img, cfg, Entries(1, [e]))
  {
    hide FirstOneCell, CellBytes, CellStored, Readable, IsRecord, EntryOk, Touched, IntIs;
    var cell := CellBytes(e.row.rowid, payload);
    FirstOneCellParts(cell);
    CellThere(img, 1, 512 - |cell|, e.row, payload);
    assert RowsOf([e]) == [e.row];
    assert SchemaPage(img, RowsOf([e]), [512 - |cell|]);
    assert [e][1..] == [] && AllTouched(img, [e]) == {} + Touched(img, e) + {};
  }

  /** Type "index", name "t", table name "t" and root 2. */
  function IndexValues(): seq<Value> { [Text([0x69, 0x6e, 0x64, 0x65, 0x78]), Text([0x74]), Text([0x74]), Integer(2)] }

  lemma OneByte(v: nat)
    requires v < 128
    ensures |EncodeVarint(v)| == 1
  {
  }

  lemma IndexRecord()
    ensures AllStorable(IndexValues()) && |Header(IndexValues())| == 4
    ensures 0 < |EncodeRecord(IndexValues())| <= 300 && IsRecord(EncodeRecord(IndexValues()), IndexValues())
  {
    hide EncodeVarint, IsRecord, Decode, LengthSize;
    var vs := IndexValues();
    OneByte(23);
    OneByte(15);
    OneByte(1);
    var (v1, v2, v3) := (vs[1..], vs[1..][1..], vs[1..][1..][1..]);
    assert SerialOf(vs[0]) == 23 && SerialOf(vs[1]) == 15 && SerialOf(vs[2]) == 15 && SerialOf(vs[3]) == 1;
    assert v3[1..] == [] && |Header(v3)| == 1 && |Body(v3)| == 1;
    assert |Header(v2)| == 2 && |Body(v2)| == 2;
    assert |Header(v1)| == 3 && |Body(v1)| == 3;
    assert |Header(vs)| == 4 && |Body(vs)| == 8;
    VarintSize(4 + LengthSize(4, 1));
    RecordRoundTrip(vs);
    DecodeExactly(EncodeRecord(vs), vs);
  }

  function IndexEntry(): Entry { Entry(Row(1, IndexValues(), []), Some(Index(IndexExample()))) }

  function IndexImage(): (r: Image)
    ensures r.Valid() && |r.pages| == 20
  {
    IndexRecord();
    FileParts(FirstOneCell(CellBytes(1, EncodeRecord(IndexValues()))), 0, Zeros(512));
    IndexFile(FirstOneCell(CellBytes(1, EncodeRecord(IndexValues()))), 0, Zeros(512))
  }

  /**
   A database with an index of more than one page: the walk reports its schema entry, and of
   the index only the root becomes checked, as its three leaves are all missed.
   */
  lemma IndexDatabase(cfg: Config)
    requires cfg.recursive
    ensures var img := IndexImage();
      var v := Walk(img, cfg, Btree(1, Master), Blank(img), 1);
      && img.Valid() && HoldsDatabase(img, cfg, Entries(1, [IndexEntry()]))
      && v.Visit? && v.reports == [Report(1, Seen(IndexEntry().row))] && v.status == Marked(Blank(img), {1, 2})
  {
    hide IndexImage, HoldsDatabase, Walk, Touched, EntryOk, AllReports, SchemaPages, Marked, Seen;
    var img := IndexImage();
    var e := IndexEntry();
    IndexHolds(cfg);
    var t := Entries(1, [e]);
    ExamplePages(img);
    BlankFree(img);
    BlankNone(img, SchemaPages(img, t));
    WalkReadsDatabase(img, cfg, Blank(img), t);
    ExampleReports();
  }

  lemma IndexHolds(cfg: Config)
    ensures var img := IndexImage();
      img.Valid() && HoldsDatabase(img, cfg, Entries(1, [IndexEntry()])) && Touched(img, IndexEntry()) == {2}
  {
    hide FirstOneCell, CellBytes, IsRecord, EncodeRecord, HoldsDatabase, IndexFile, IndexInner, IndexLeafBytes, Touched, EntryOk,
         Readable;
    IndexRecord();
    var payload := EncodeRecord(IndexValues());
    var first := FirstOneCell(CellBytes(1, payload));
    var img := IndexImage();
    FileParts(first, 0, Zeros(512));
    IndexEntryOk(img, cfg);
    SmallRowid(IndexEntry().row);
    OneEntry(img, cfg, IndexEntry(), payload);
  }

  lemma SmallRowid(row: Row)
    requires row.rowid == 1
    ensures Readable(row)
  {
    ReadAsExactly(1);
  }

  lemma BlankNone(img: Image, pages: set<int>)
    ensures NoneChecking(Blank(img), pages)
  {
  }

  lemma ExampleReports()
    ensures AllReports(EntriesOf(Entries(1, [IndexEntry()]))) == [Report(1, Seen(IndexEntry().row))]
  {
    var e := IndexEntry();
    assert [e][1..] == [];
    assert EntryReports(e) == [Report(1, Seen(e.row))] + [];
  }

  lemma ExamplePages(img: Image)
    requires img.Valid() && Touched(img, IndexEntry()) == {2}
    ensures SchemaPages(img, Entries(1, [IndexEntry()])) == {1, 2}
  {
    hide Touched;
    var e := IndexEntry();
    assert [e][1..] == [] && AllTouched(img, [e]) == {} + {2} + {};
  }

  /** The index of the example is quiet, and all but its root is missed. */
  lemma IndexEntryOk(img: Image, cfg: Config)
    requires img.Valid() && img.pagesize == 512 && |img.pages| == 20 && img.Page(2) == IndexInner(0)
    requires img.Page(4) == img.Page(5) == img.Page(20) == IndexLeafBytes()
    ensures EntryOk(img, cfg, IndexEntry()) && Touched(img, IndexEntry()) == {2}
  {
    hide IndexInner, IndexLeafBytes, HoldsIndex, Quiet, Reach, PageView, Strays, SeenPages, StraysIn, KindOf, AllIndexPages;
    var t := IndexExample();
    InnerHolds(img, 0);
    ExampleStrays(img);
    MoreStrays(img, t, AllIndexPages([t]));
    IndexesQuiet(img, [t], Plain, 0);
    ReachIsSeen(img, t);
    RootOnly();
    NamedPlain();
  }

  lemma ExampleStrays(img: Image)
    requires img.Valid() && img.pagesize == 512 && |img.pages| == 20 && img.Page(2) == IndexInner(0)
    ensures StraysIn(img, IndexExample(), {})
  {
    hide IndexInner, Strays;
    InnerStrays(img, 0);
  }

  lemma NamedPlain()
    ensures KindOf(2, [0x74]) == Plain
  {
  }

  lemma RootOnly()
    ensures SeenPages(IndexExample()) == {2}
  {
    SeenIs(IndexExample());
  }

  lemma MoreStrays(img: Image, t: IndexTree, area: set<int>)
    requires img.Valid() && StraysIn(img, t, {})
    ensures StraysIn(img, t, area)
    decreases t
  {
    hide Strays;
    forall i | 0 <= i < |t.kids| ensures StraysIn(img, t.kids[i], area) { MoreStrays(img, t.kids[i], area); }
  }

  // ---- a schema of two pages ----

  /** An interior page 1 with the children 2 and, at byte 108, 3. */
  function FirstInner(): (r: seq<byte>)
    ensures |r| == 512
  {
    Sparse(map[8 := 0x6f, 9 := 0x72, 10 := 0x6d, 11 := 0x61, 100 := 5, 104 := 1, 111 := 3, 112 := 1, 113 := 0xF4, 503 := 2])
  }

  lemma FirstInnerPage(img: Image)
    requires img.Valid() && img.pagesize == 512 && |img.pages| == 3 && img.Page(1) == FirstInner()
    ensures FirstPage(img, [500], [2, 3]) && HasMagic(img)
  {
    hide Signed, FirstInner;
    var page := img.Page(1);
    FirstInnerBytes();
    FirstInnerCell();
    Two(page, 103);
    Two(page, 112);
    Four(page, 500);
    Four(page, 108);
    Magic(page);
  }

  lemma Magic(page: seq<byte>)
    requires |page| == 512 && page[8] == 0x6f && page[9] == 0x72 && page[10] == 0x6d && page[11] == 0x61
    ensures page[8..12] == [0x6f, 0x72, 0x6d, 0x61]
  {
  }

  lemma FirstInnerBytes()
    ensures var r := FirstInner(); r[8] == 0x6f && r[9] == 0x72 && r[10] == 0x6d && r[11] == 0x61 && r[100] == 5
    ensures var r := FirstInner(); r[103] == 0 && r[104] == 1
  {
  }

  lemma FirstInnerCell()
    ensures var r := FirstInner();
      && r[108] == 0 && r[109] == 0 && r[110] == 0 && r[111] == 3 && r[112] == 1 && r[113] == 0xF4
      && r[500] == 0 && r[501] == 0 && r[502] == 0 && r[503] == 2
  {
  }

  /** A row that names no b-tree. */
  function LooseEntry(): Entry { Entry(Row(1, [Integer(0)], []), None) }

  lemma LooseEntryOk(img: Image, cfg: Config)
    requires img.Valid()
    ensures EntryOk(img, cfg, LooseEntry()) && Touched(img, LooseEntry()) == {}
    ensures AllTouched(img, [LooseEntry()]) == {} && RowsOf([LooseEntry()]) == [LooseEntry().row]
  {
    assert [LooseEntry()][1..] == [];
  }

  function SplitSchema(): Schema { Inner(1, [Entries(2, [LooseEntry()]), Entries(3, [LooseEntry()])]) }

  lemma SplitReports()
    ensures AllReports(EntriesOf(SplitSchema())) == [Report(1, Seen(LooseEntry().row)), Report(1, Seen(LooseEntry().row))]
    ensures AllReports(EntriesOf(Reached(SplitSchema()))) == [Report(1, Seen(LooseEntry().row))]
  {
    hide Seen;
    var e := LooseEntry();
    var kids := SplitSchema().kids;
    assert EntryReports(e) == [Report(1, Seen(e.row))] + [];
    assert kids[1..] == [Entries(3, [e])] && kids[1..][1..] == [];
    assert AllEntries(kids) == [e] + ([e] + []);
    assert [e, e][1..] == [e] && [e][1..] == [];
    assert kids[..1] == [Entries(2, [e])] && kids[..1][1..] == [];
    assert AllEntries(kids[..1]) == [e] + [];
  }

  function SplitImage(): (r: Image)
    ensures r.Valid() && |r.pages| == 3
  {
    var leaf := OneCell(CellBytes(1, [2, 8]));
    File([FirstInner(), leaf, leaf])
  }

  lemma SplitImageHolds(cfg: Config)
    ensures SplitImage().Valid() && HoldsDatabase(SplitImage(), cfg, SplitSchema())
  {
    hide OneCell, CellBytes, FirstInner, IsRecord, HoldsDatabase, LeafPage, FirstPage, HasMagic, Readable, Represents;
    var img := SplitImage();
    ZeroRecord();
    SmallRowid(LooseEntry().row);
    FirstInnerPage(img);
    OneRow(img, 2, LooseEntry().row, [2, 8]);
    OneRow(img, 3, LooseEntry().row, [2, 8]);
    SplitHolds(img, cfg);
  }

  /** A database whose schema takes two leaves: of its two rows the walk reports the first. */
  lemma SplitExample(cfg: Config)
    requires cfg.recursive
    ensures var img := SplitImage();
      var v := Walk(img, cfg, Btree(1, Master), Blank(img), 1);
      && img.Valid() && HoldsDatabase(img, cfg, SplitSchema()) && v.Visit?
      && v.reports == [Report(1, Seen(LooseEntry().row))] && |AllReports(EntriesOf(SplitSchema()))| == 2
  {
    hide SplitImage, Walk, HoldsDatabase, AllReports, SchemaPages, Seen;
    var img, t := SplitImage(), SplitSchema();
    SplitImageHolds(cfg);
    BlankNone(img, SchemaPages(img, Reached(t)));
    WalkReadsDatabase(img, cfg, Blank(img), t);
    SplitReports();
  }

  lemma SplitHolds(img: Image, cfg: Config)
    requires img.Valid() && |img.pages| == 3 && FirstPage(img, [500], [2, 3]) && HasMagic(img)
    requires exists pointers :: LeafPage(img, 2, [LooseEntry().row], pointers)
    requires exists pointers :: LeafPage(img, 3, [LooseEntry().row], pointers)
    ensures HoldsDatabase(img, cfg, SplitSchema())
  {
    hide LeafPage, FirstPage, HasMagic, EntryOk, AllTouched;
    LooseEntryOk(img, cfg);
    var kids := SplitSchema().kids;
    assert Numbers(kids) == [2, 3];
    assert kids[1..] == [kids[1]] && kids[1..][1..] == [];
    assert SchemaPages(img, kids[0]) == {2} + {} && SchemaPages(img, kids[1]) == {3} + {};
    hide SchemaPages;
    assert AllSchemaPages(img, kids[1..][1..]) == {};
    assert AllSchemaPages(img, kids[1..]) == SchemaPages(img, kids[1..][0]) + {};
    assert AllSchemaPages(img, kids) == SchemaPages(img, kids[0]) + AllSchemaPages(img, kids[1..]);
  }
}
