/**
 From the dumps to the file and back: what a recovery executes of a file that one full and
 any number of incremental backups have made.
 */
module Recovery {
  import opened Bytes
  import opened DumpFormat
  import opened DumpReader
  import opened DumpRoundTrip
  import opened DumpExactness
  import Format = SectionFormat
  import Files = SectionFiles

  /** Deflate puts out one whole stream, which inflate turns back into its input. */
  ghost predicate Inverse(z: Files.Inflate, deflate: seq<byte> -> seq<byte>) {
    forall d: seq<byte> :: Files.Stream(z, deflate(d)) && z.output(deflate(d)) == d
  }

  /** mm_recover_run: the dump of each section in turn, up to the first that fails. */
  function RunSections(z: Files.Inflate, ok: Oracle, fatal: bool, db: Db, ss: seq<Format.Section>): (Ret, Db)
    decreases |ss|
  {
    if ss == [] then (OK, db)
    else
      var (ret, d) := Run(ok, fatal, Start(z.output(ss[0].body), db));
      if ret == OK then RunSections(z, ok, fatal, d, ss[1..]) else (ret, d)
  }

  /** The section of each dump, with its flags. */
  function SectionsOf(deflate: seq<byte> -> seq<byte>, flags: seq<nat>, dumps: seq<seq<Item>>): (r: seq<Format.Section>)
    requires |flags| == |dumps|
    ensures |r| == |dumps|
  {
    seq(|dumps|, i requires 0 <= i < |dumps| => Format.Section(flags[i], deflate(Encode(dumps[i]))))
  }

  /** All items of all dumps, in order. */
  function AllItems(dumps: seq<seq<Item>>): seq<Item> {
    if dumps == [] then [] else dumps[0] + AllItems(dumps[1..])
  }

  lemma {:induction false} RunItemsAppend(ok: Oracle, fatal: bool, db: Db, a: seq<Item>, b: seq<Item>)
    ensures var (ret, d) := RunItems(ok, fatal, db, a);
      RunItems(ok, fatal, db, a + b) == if ret == OK then RunItems(ok, fatal, d, b) else (ret, d)
    decreases |a|
  {
    hide RunItem;
    if a == [] {
      assert a + b == b;
    } else {
      assert (a + b)[1..] == a[1..] + b && (a + b)[0] == a[0];
      var r := RunItem(ok, fatal, db, a[0]);
      if r.Go? { RunItemsAppend(ok, fatal, r.db, a[1..], b); }
    }
  }

  lemma {:induction false} SectionsRun(
    z: Files.Inflate, deflate: seq<byte> -> seq<byte>, ok: Oracle, fatal: bool, db: Db, flags: seq<nat>, dumps: seq<seq<Item>>)
    requires |flags| == |dumps| && Inverse(z, deflate) && forall d :: d in dumps ==> SmallItems(d)
    ensures RunSections(z, ok, fatal, db, SectionsOf(deflate, flags, dumps)) == RunItems(ok, fatal, db, AllItems(dumps))
    decreases |dumps|
  {
    hide Run, RunItems, Encode, SmallItems;
    if dumps == [] {
      NoItems(ok, fatal, db);
    } else {
      var ss := SectionsOf(deflate, flags, dumps);
      assert ss[1..] == SectionsOf(deflate, flags[1..], dumps[1..]);
      assert z.output(deflate(Encode(dumps[0]))) == Encode(dumps[0]);
      RoundTrip(ok, fatal, db, dumps[0]);
      var (ret, d) := RunItems(ok, fatal, db, dumps[0]);
      RunItemsAppend(ok, fatal, db, dumps[0], AllItems(dumps[1..]));
      if ret == OK { SectionsRun(z, deflate, ok, fatal, d, flags[1..], dumps[1..]); }
    }
  }

  lemma NoItems(ok: Oracle, fatal: bool, db: Db)
    ensures RunItems(ok, fatal, db, []) == (OK, db)
  {
  }

  /**
   The file of one full and any number of incremental backups, with data below 65536 bytes
   each, is recovered by exactly the calls that running all their items in order would make,
   however SQLite behaves.
   */
  lemma FileRecovers(
    z: Files.Inflate, deflate: seq<byte> -> seq<byte>, ks: Format.Keystream,
    ok: Oracle, fatal: bool, db: Db, flags: seq<nat>, dumps: seq<seq<Item>>)
    requires |flags| == |dumps| && Inverse(z, deflate) && forall d :: d in dumps ==> SmallItems(d)
    requires forall s :: s in SectionsOf(deflate, flags, dumps) ==> Format.Fits(s)
    ensures var file := Format.EncodeFile(ks, SectionsOf(deflate, flags, dumps)); var found := Files.Read(z, ks, file[8..]);
      && Files.HasHeader(file) && found.Some?
      && RunSections(z, ok, fatal, db, found.value) == RunItems(ok, fatal, db, AllItems(dumps))
  {
    hide Run, RunItems, Files.Read, Format.EncodeFile, SmallItems, AllItems, Files.Stream;
    var ss := SectionsOf(deflate, flags, dumps);
    forall s | s in ss ensures Files.Stream(z, s.body) {
      var i :| 0 <= i < |ss| && ss[i] == s;
      assert s.body == deflate(Encode(dumps[i]));
    }
    Files.FileRoundTrip(z, ks, ss);
    SectionsRun(z, deflate, ok, fatal, db, flags, dumps);
  }
}
