/**
 Writing and reading backup files.  The writer encrypts what deflate puts out, 8192 bytes
 at a time, behind a placeholder that it overwrites at the end; the reader decrypts
 what it hands to inflate, 4096 bytes at a time.
 */
module SectionFiles {
  import opened Bytes
  import opened SectionFormat

  const OUTPUT_BUFFER_SIZE := 8192
  const IN_BUF := 4096

  predicate Incremental(flags: nat) { flags / 16 % 2 == 1 }

  predicate HasHeader(data: seq<byte>) { |data| >= 8 && data[..8] == Header() }

  class Backup {
    const ks: Keystream
    const flags: nat
    const secPos: nat
    var data: seq<byte>
    var pos: nat
    var rc4: nat
    var secSize: nat

    constructor (data: seq<byte>, ks: Keystream, flags: nat)
      ensures this.data == data && this.ks == ks && this.flags == flags && Ready()
    {
      this.ks := ks;
      this.flags := flags;
      this.data := data;
      pos := |data|;
      secPos := |data| % TWO_32;
      rc4 := 0;
      secSize := 0;
    }

    /** As mm_backup_init leaves the context: at the end of the file, the cipher unused. */
    ghost predicate Ready()
      reads this
    {
      pos == |data| && secPos == |data| % TWO_32 && rc4 == 0
    }

    /**
     mm_backup_init: a new file with its header, or one to append to, whose header must be
     right; without a key the section says that it is not encrypted.
     */
    static method Init(existing: seq<byte>, ks: Keystream, hasKey: bool, flags: nat) returns (ctx: Backup?)
      ensures ctx == null <==> flags / 16 % 2 == 1 && !HasHeader(existing)
      ensures ctx != null ==>
        && fresh(ctx) && ctx.Ready() && ctx.ks == ks
        && ctx.flags == (if !hasKey && flags % 2 == 0 then flags + 1 else flags)
        && ctx.data == if flags / 16 % 2 == 1 then existing else Header()
    {
      var all := flags;
      if !hasKey && Ciphered(flags) { all := flags + 1; }
      if Incremental(flags) {
        if |existing| < 8 || existing[..6] != MAGIC || existing[6..8] != [VERSION, 0] {
          assert |existing| >= 8 ==> existing[..8] == existing[..6] + existing[6..8];
          assert |existing| >= 8 ==> existing[..8][..6] == existing[..6] && existing[..8][6..] == existing[6..8];
          return null;
        }
        assert existing[..8] == existing[..6] + existing[6..8];
        ctx := new Backup(existing, ks, all);
      } else {
        ctx := new Backup(Header(), ks, all);
      }
    }

    /** fwrite of a structure, over what is there or beyond the end. */
    method Put(bytes: seq<byte>)
      requires pos <= |data|
      modifies this`data, this`pos
      ensures pos == old(pos) + |bytes|
      ensures data == old(data)[..old(pos)] + bytes + if pos <= |old(data)| then old(data)[pos..] else []
    {
      var end := pos + |bytes|;
      data := data[..pos] + bytes + if end <= |data| then data[end..] else [];
      pos := end;
    }

    /** fwrite of bytes at the end of the file: it may stop early, with or without an error. */
    method Fwrite(bytes: seq<byte>) returns (n: nat, error: bool)
      requires pos == |data|
      modifies this`data, this`pos
      ensures n <= |bytes| && data == old(data) + bytes[..n] && pos == |data|
      ensures bytes != [] && !error ==> n > 0
    {
      error := *;
      n :| n <= |bytes| && (bytes != [] && !error ==> n > 0);
      data := data + bytes[..n];
      pos := pos + n;
    }

    /** What the writer does with one buffer of compressed bytes. */
    method WriteOut(outBuf: seq<byte>) returns (ok: bool)
      requires pos == |data|
      modifies this`data, this`pos, this`rc4, this`secSize
      ensures pos == |data|
      ensures ok ==> data == old(data) + (if Ciphered(flags) then Crypt(ks, old(rc4), outBuf) else outBuf)
      ensures ok && flags % 2 == 0 ==> Enciphered(ks, old(rc4), outBuf, data[|old(data)|..])
      ensures ok && flags % 2 == 1 ==> data == old(data) + outBuf
      ensures ok ==> rc4 == old(rc4) + |outBuf| && secSize == Wrapped(old(secSize) + |outBuf|)
    {
      hide Wrapped, Crypt, Enciphered;
      CryptEnciphers(ks, rc4, outBuf);
      var out := outBuf;
      if Ciphered(flags) { out := Crypt(ks, rc4, outBuf); }
      rc4 := rc4 + |outBuf|;
      secSize := Wrapped(secSize);
      var p := 0;
      while p < |out|
        invariant 0 <= p <= |out| && data == old(data) + out[..p] && pos == |data|
        invariant rc4 == old(rc4) + |outBuf| && secSize == Wrapped(old(secSize) + p)
        decreases |out| - p
      {
        var ret, error := Fwrite(out[p..]);
        if ret == 0 && error { return false; }
        WrappedMore(old(secSize) + p, ret);
        assert out[..p] + out[p..][..ret] == out[..p + ret];
        p := p + ret;
        secSize := Wrapped(secSize + ret);
      }
      assert out[..p] == out && data[|old(data)|..] == out;
      return true;
    }

    /** The placeholder and the part of the body that is written. */
    ghost predicate Written(start: seq<byte>, body: seq<byte>)
      reads this
    {
      && pos == |data| && rc4 == |body| && secSize == |body| % TWO_32
      && data == start + SectionHeader(flags, 0) + Sealed(ks, flags, body)
    }

    method WriteChunk(chunk: seq<byte>, ghost start: seq<byte>, ghost body: seq<byte>) returns (ok: bool)
      requires Written(start, body)
      modifies this`data, this`pos, this`rc4, this`secSize
      ensures ok ==> Written(start, body + chunk)
    {
      hide SectionHeader, Sealed;
      ok := WriteOut(chunk);
      SealedMore(ks, flags, body, chunk);
      Bracket(start + SectionHeader(flags, 0), Sealed(ks, flags, body), Piece(ks, flags, |body|, chunk));
    }

    /** mm_backup_run's part: placeholder, body, and the section header in its place. */
    method Run(chunks: seq<seq<byte>>) returns (ok: bool)
      requires Ready() && forall c :: c in chunks ==> |c| <= OUTPUT_BUFFER_SIZE
      modifies this
      ensures ok && |old(data)| < TWO_32 && |Flatten(chunks)| < TWO_32 ==>
        data == old(data) + EncodeSection(ks, Section(flags, Flatten(chunks)))
      ensures ok && |old(data)| < TWO_32 && |Flatten(chunks)| < TWO_32 && flags % 2 == 0 ==>
        |old(data)| + 8 <= |data| && Enciphered(ks, 0, Flatten(chunks), data[|old(data)| + 8..])
    {
      hide SectionHeader, Sealed, Flatten, Enciphered, EncodeSections;
      ghost var start := data;
      secSize := 0;
      Put(SectionHeader(flags, 0));
      ghost var body: seq<byte> := [];
      Empty(ks, flags, chunks, data);
      for i := 0 to |chunks|
        invariant body == Flatten(chunks[..i]) && Written(start, body)
      {
        ok := WriteChunk(chunks[i], start, body);
        if !ok { return; }
        FlattenMore(chunks, i);
        body := body + chunks[i];
      }
      assert chunks[..|chunks|] == chunks;
      assert secPos <= |start|;
      pos := secPos;
      Put(SectionHeader(flags, secSize));
      ok := true;
      if |start| < TWO_32 && |body| < TWO_32 {
        Replaced(start, SectionHeader(flags, 0), Sealed(ks, flags, body), SectionHeader(flags, |body|));
        SealedEnciphers(ks, flags, body);
        Behind(start, SectionHeader(flags, |body|), Sealed(ks, flags, body));
      }
    }
  }

  function Piece(ks: Keystream, flags: nat, at: nat, data: seq<byte>): seq<byte> {
    if Ciphered(flags) then Crypt(ks, at, data) else data
  }

  /** A uint32_t counter. */
  function Wrapped(n: nat): nat { n % TWO_32 }

  lemma WrappedMore(a: nat, n: nat)
    ensures Wrapped(Wrapped(a) + n) == Wrapped(a + n)
  {
  }

  lemma Empty(ks: Keystream, flags: nat, chunks: seq<seq<byte>>, data: seq<byte>)
    ensures Flatten(chunks[..0]) == [] && Sealed(ks, flags, []) == [] && data + [] == data
  {
  }

  lemma FlattenMore(chunks: seq<seq<byte>>, i: nat)
    requires i < |chunks|
    ensures Flatten(chunks[..i + 1]) == Flatten(chunks[..i]) + chunks[i]
  {
    assert chunks[..i + 1] == chunks[..i] + [chunks[i]];
    FlattenAppend(chunks[..i], [chunks[i]]);
    assert Flatten([chunks[i]]) == chunks[i] + Flatten([]);
  }

  lemma SealedMore(ks: Keystream, flags: nat, a: seq<byte>, b: seq<byte>)
    ensures Sealed(ks, flags, a + b) == Sealed(ks, flags, a) + Piece(ks, flags, |a|, b)
  {
    CryptAppend(ks, 0, a, b);
  }

  lemma Replaced(a: seq<byte>, b: seq<byte>, c: seq<byte>, d: seq<byte>)
    requires |b| == |d|
    ensures (a + b + c)[..|a|] + d + (a + b + c)[|a| + |d|..] == a + (d + c)
  {
    assert (a + b + c)[..|a|] == a && (a + b + c)[|a| + |d|..] == c;
    Bracket(a, d, c);
  }

  lemma SealedEnciphers(ks: Keystream, flags: nat, body: seq<byte>)
    ensures flags % 2 == 0 ==> Enciphered(ks, 0, body, Sealed(ks, flags, body))
  {
    CryptEnciphers(ks, 0, body);
  }

  lemma Behind(a: seq<byte>, b: seq<byte>, c: seq<byte>)
    ensures (a + (b + c))[|a| + |b|..] == c
  {
  }

  /** The file after one more backup: one more section. */
  lemma BackupAppends(ks: Keystream, ss: seq<Section>, s: Section)
    ensures EncodeFile(ks, ss) + EncodeSection(ks, s) == EncodeFile(ks, ss + [s])
  {
    hide EncodeSection, Header;
    SectionsAppend(ks, ss, s);
    Bracket(Header(), EncodeSections(ks, ss), EncodeSection(ks, s));
  }

  // ---- reading up to the end of each deflate stream ----

  /**
   What is known of inflate: which bytes are a whole deflate stream, what it puts out for a
   stream, and whether the end is reported together with a full output buffer.
   */
  datatype Inflate = Inflate(complete: seq<byte> -> bool, output: seq<byte> -> seq<byte>, late: seq<byte> -> bool)

  /** inflate comes to the end of its stream within these bytes. */
  predicate Ends(z: Inflate, clear: seq<byte>) { exists n :: 0 <= n <= |clear| && z.complete(clear[..n]) }

  /** A deflate stream and nothing behind it. */
  predicate Stream(z: Inflate, body: seq<byte>) {
    z.complete(body) && forall n :: 0 <= n < |body| ==> !z.complete(body[..n])
  }

  /** Where the next piece ends. */
  function Further(k: nat, size: nat): (r: nat)
    requires k <= size
    ensures k <= r <= size && (k < size ==> k < r)
    ensures r == k + 4096 || (r == size && size <= k + 4096)
  {
    if k + IN_BUF <= size then k + IN_BUF else size
  }

  /**
   How many bytes of a body are read, 4096 at a time, until its stream ends; one piece more
   if all input is used up when the end is reported late.
   */
  function Consumed(z: Inflate, ks: Keystream, flags: nat, body: seq<byte>, k: nat): (r: Option<nat>)
    requires k <= |body|
    ensures r.Some? ==> k <= r.value <= |body|
    decreases |body| - k
  {
    var clear := Sealed(ks, flags, body[..k]);
    if Ends(z, clear) then Some(if Stream(z, clear) && z.late(clear) then Further(k, |body|) else k)
    else if k == |body| then None
    else Consumed(z, ks, flags, body, Further(k, |body|))
  }

  /** Reading on, or stopping: one step of the above. */
  lemma ConsumedStep(z: Inflate, ks: Keystream, flags: nat, body: seq<byte>, k: nat, next: nat)
    requires k < |body| && !Ends(z, Sealed(ks, flags, body[..k]))
    requires next == Further(k, |body|)
    ensures Consumed(z, ks, flags, body, k) == Consumed(z, ks, flags, body, next)
  {
    hide Ends, Sealed, Stream;
  }

  lemma ConsumedAt(z: Inflate, ks: Keystream, flags: nat, body: seq<byte>, k: nat)
    requires k <= |body|
    ensures var clear := Sealed(ks, flags, body[..k]);
      Ends(z, clear) ==>
        Consumed(z, ks, flags, body, k) == Some(if Stream(z, clear) && z.late(clear) then Further(k, |body|) else k)
    ensures !Ends(z, Sealed(ks, flags, body[..k])) && k == |body| ==> Consumed(z, ks, flags, body, k) == None
  {
    hide Ends, Sealed, Stream;
  }

  lemma SliceOfSlice(s: seq<byte>, i: nat, j: nat, k: nat, n: nat)
    requires i <= j <= |s| && k <= n <= j - i
    ensures s[i..j][k..n] == s[i + k..i + n]
  {
    forall t | 0 <= t < n - k ensures s[i..j][k..n][t] == s[i + k..i + n][t] { }
  }

  /** What has been decrypted, with the next piece of the body. */
  lemma PieceOfBody(ks: Keystream, flags: nat, data: seq<byte>, start: nat, body: seq<byte>, k: nat, next: nat)
    requires start + |body| <= |data| && body == data[start..start + |body|] && k <= next <= |body|
    ensures Sealed(ks, flags, body[..k]) + Piece(ks, flags, k, data[start + k..start + next]) == Sealed(ks, flags, body[..next])
  {
    hide Sealed, Piece;
    SliceOfSlice(data, start, start + |body|, k, next);
    assert body[..k] + body[k..next] == body[..next];
    SealedMore(ks, flags, body[..k], body[k..next]);
  }

  /** The bytes of the body that are there. */
  function BodyAt(data: seq<byte>, size: nat): seq<byte>
    requires |data| >= 8
  {
    if 8 + size <= |data| then data[8..8 + size] else data[8..]
  }

  /** The section loop: each section ends with its stream, and the next header is read there. */
  function Read(z: Inflate, ks: Keystream, data: seq<byte>): Option<seq<Section>>
    decreases |data|
  {
    if |data| < 8 then Some([])
    else
      var flags, body := WordAt(data[..4]), BodyAt(data, WordAt(data[4..8]));
      match Consumed(z, ks, flags, body, 0)
      case None => None
      case Some(k) =>
        match Read(z, ks, data[8 + k..])
        case None => None
        case Some(rest) => Some([Section(flags, Sealed(ks, flags, body[..k]))] + rest)
  }

  lemma SealedPrefix(ks: Keystream, flags: nat, body: seq<byte>, k: nat)
    requires k <= |body|
    ensures Sealed(ks, flags, body[..k]) == Sealed(ks, flags, body)[..k]
  {
  }

  /** A body that is one stream is read to its end. */
  lemma {:induction false} StreamConsumed(z: Inflate, ks: Keystream, flags: nat, body: seq<byte>, k: nat)
    requires k <= |body| && Stream(z, Sealed(ks, flags, body))
    ensures Consumed(z, ks, flags, body, k) == Some(|body|)
    decreases |body| - k
  {
    hide Sealed;
    SealedPrefix(ks, flags, body, k);
    var clear := Sealed(ks, flags, body);
    if k < |body| {
      assert forall n :: 0 <= n <= k ==> clear[..k][..n] == clear[..n];
      StreamConsumed(z, ks, flags, body, Further(k, |body|));
    } else {
      assert body[..k] == body && clear[..|clear|] == clear;
    }
  }

  /** Where the bodies are whole streams the reader finds exactly the sections of the format. */
  lemma {:induction false} ReadStreams(z: Inflate, ks: Keystream, data: seq<byte>, ss: seq<Section>)
    requires Sections(ks, data) == Some(ss) && forall s :: s in ss ==> Stream(z, s.body)
    ensures Read(z, ks, data) == Some(ss)
    decreases |data|
  {
    hide Sealed, WordAt, Stream, Consumed;
    if |data| >= 8 {
      var flags, size := WordAt(data[..4]), WordAt(data[4..8]);
      var body := data[8..8 + size];
      assert Sealed(ks, flags, body) == ss[0].body && Sections(ks, data[8 + size..]) == Some(ss[1..]);
      StreamConsumed(z, ks, flags, body, 0);
      assert body[..|body|] == body;
      ReadStreams(z, ks, data[8 + size..], ss[1..]);
      assert ss == [ss[0]] + ss[1..];
    }
  }

  /**
   After a full backup and any number of incremental ones, whose bodies are whole deflate
   streams, the reader finds all their sections.
   */
  lemma FileRoundTrip(z: Inflate, ks: Keystream, ss: seq<Section>)
    requires forall s :: s in ss ==> Fits(s) && Stream(z, s.body)
    ensures HasHeader(EncodeFile(ks, ss)) && Read(z, ks, EncodeFile(ks, ss)[8..]) == Some(ss)
  {
    hide Sections, EncodeSections, Read, Stream;
    SectionsRoundTrip(ks, ss, []);
    var rest := EncodeSections(ks, ss);
    assert (Header() + rest)[8..] == rest && (Header() + rest)[..8] == Header() && rest + [] == rest;
    ReadStreams(z, ks, rest, ss);
  }

  class Recover {
    const ks: Keystream
    const z: Inflate
    const data: seq<byte>
    var pos: nat
    var flags: nat
    var secSize: nat
    var rc4: nat
    /** What inflate has been given of the current section. */
    var fed: seq<byte>
    var found: seq<Section>

    constructor (data: seq<byte>, ks: Keystream, z: Inflate)
      ensures this.data == data && this.ks == ks && this.z == z && pos == 0 && found == []
    {
      this.data, this.ks, this.z := data, ks, z;
      pos, flags, secSize, rc4 := 0, 0, 0, 0;
      fed, found := [], [];
    }

    /** fread */
    method Fread(size: nat) returns (bytes: seq<byte>)
      requires pos <= |data|
      modifies this`pos
      ensures pos == if old(pos) + size <= |data| then old(pos) + size else |data|
      ensures bytes == data[old(pos)..pos]
    {
      var end := if pos + size <= |data| then pos + size else |data|;
      bytes := data[pos..end];
      pos := end;
    }

    /** read_header: the magic, and version 1 or 2. */
    method ReadHeader() returns (ok: bool)
      requires pos == 0
      modifies this`pos
      ensures ok <==> |data| >= 8 && data[..6] == MAGIC && (data[6..8] == [1, 0] || data[6..8] == [2, 0])
      ensures ok ==> pos == 8
      ensures pos <= |data|
    {
      var header := Fread(8);
      if |header| < 8 { return false; }
      assert header[..6] == data[..6] && header[6..] == data[6..8];
      ok := header[..6] == MAGIC && (header[6..] == [1, 0] || header[6..] == [2, 0]);
    }

    /** The input side of dump_read_stream: at most 4096 more bytes, and never past the body. */
    method FillInput() returns (ok: bool)
      requires pos <= |data| && secSize > 0
      modifies this`pos, this`rc4, this`secSize, this`fed
      ensures var size := if old(secSize) > 4096 then 4096 else old(secSize);
        pos == if old(pos) + size <= |data| then old(pos) + size else |data|
      ensures secSize == old(secSize) - (pos - old(pos)) && rc4 == old(rc4) + (pos - old(pos))
      ensures fed == old(fed) + Piece(ks, flags, old(rc4), data[old(pos)..pos])
      ensures flags % 2 == 0 ==> Enciphered(ks, old(rc4), data[old(pos)..pos], fed[|old(fed)|..])
      ensures ok == (pos > old(pos)) && (ok || pos == |data|)
    {
      var ret := if secSize > IN_BUF then IN_BUF else secSize;
      var bytes := Fread(ret);
      ok := |bytes| > 0;
      var clear := Piece(ks, flags, rc4, bytes);
      CryptEnciphers(ks, rc4, bytes);
      fed := fed + clear;
      rc4 := rc4 + |bytes|;
      secSize := secSize - |bytes|;
    }

    /** The body of the current section, as far as the file goes. */
    ghost function Body(): seq<byte>
      requires pos <= |data|
      reads this`pos, this`secSize
    {
      if pos + secSize <= |data| then data[pos..pos + secSize] else data[pos..]
    }

    /** What has been read of a body that starts here. */
    ghost predicate InBody(start: nat, body: seq<byte>)
      reads this`pos, this`rc4, this`secSize, this`fed, this`flags
    {
      && rc4 <= |body| && pos == start + rc4 && start + |body| <= |data| && body == data[start..start + |body|]
      && |body| == (if start + rc4 + secSize <= |data| then rc4 + secSize else |data| - start)
      && fed == Sealed(ks, flags, body[..rc4])
    }

    /** The next piece of the body. */
    method ReadPiece(ghost start: nat, ghost body: seq<byte>) returns (ok: bool)
      requires InBody(start, body) && secSize > 0
      modifies this`pos, this`rc4, this`secSize, this`fed
      ensures InBody(start, body) && rc4 == Further(old(rc4), |body|) && ok == (rc4 > old(rc4))
      ensures secSize == old(secSize) - (rc4 - old(rc4))
    {
      hide Sealed, Piece;
      ghost var k := rc4;
      ok := FillInput();
      PieceOfBody(ks, flags, data, start, body, k, rc4);
    }

    /** One section: its body goes to inflate, decrypted, until the stream ends; without an end it fails. */
    method ReadSection() returns (ok: bool)
      requires pos <= |data|
      modifies this`pos, this`rc4, this`secSize, this`fed
      ensures old(pos) <= pos <= |data|
      ensures var r := Consumed(z, ks, flags, old(Body()), 0);
        (ok <==> r.Some?) && (ok ==> pos == old(pos) + r.value && fed == Sealed(ks, flags, data[old(pos)..pos]))
    {
      hide Sealed, Piece, Consumed, Ends, Stream, Further;
      rc4, fed := 0, [];
      ghost var start, body := pos, Body();
      Empty(ks, flags, [], []);
      assert body[..0] == [];
      while !Ends(z, fed)
        invariant InBody(start, body)
        invariant Consumed(z, ks, flags, body, 0) == Consumed(z, ks, flags, body, rc4)
        decreases secSize
      {
        ConsumedAt(z, ks, flags, body, rc4);
        if secSize == 0 { return false; }
        ghost var k := rc4;
        ok := ReadPiece(start, body);
        if !ok {
          NoFurther(k, |body|);
          return false;
        }
        ConsumedStep(z, ks, flags, body, k, rc4);
      }
      ConsumedAt(z, ks, flags, body, rc4);
      if secSize > 0 && Stream(z, fed) && z.late(fed) {
        var _ := ReadPiece(start, body);
      } else {
        NothingLeft(secSize, rc4, |body|);
      }
      SliceOfSlice(data, start, start + |body|, 0, rc4);
      return true;
    }

    /** mm_recover_run's loop over the sections. */
    method Run() returns (ok: bool)
      requires pos == 8 && pos <= |data| && found == []
      modifies this
      ensures ok <==> Read(z, ks, data[8..]).Some?
      ensures ok ==> found == Read(z, ks, data[8..]).value
    {
      hide Sealed, Read, Consumed, WordAt, BodyAt;
      Found(Read(z, ks, data[8..]));
      while true
        invariant 8 <= pos <= |data|
        invariant Follows(Read(z, ks, data[8..]), found, Read(z, ks, data[pos..]))
        decreases |data| - pos
      {
        ghost var at := pos;
        var section := Fread(8);
        SectionStep(z, ks, data[at..]);
        if |section| < 8 { return true; }
        flags, secSize := WordAt(section[..4]), WordAt(section[4..]);
        SlicesOf(data, at, secSize);
        ok := ReadSection();
        if !ok { return false; }
        SliceAt(data, at, pos - at);
        BodySlice(data, at, WordAt(section[4..]), pos - at - 8);
        OneMore(Read(z, ks, data[8..]), found, Section(flags, fed), Read(z, ks, data[pos..]));
        found := found + [Section(flags, fed)];
      }
    }
  }

  lemma NoFurther(k: nat, size: nat)
    requires k <= size && Further(k, size) == k
    ensures k == size
  {
  }

  lemma NothingLeft(left: nat, k: nat, size: nat)
    requires k <= size <= k + left
    ensures left == 0 ==> Further(k, size) == k
  {
  }

  /** The whole result is what has been found and what the rest of the file gives. */
  predicate Follows(whole: Option<seq<Section>>, found: seq<Section>, rest: Option<seq<Section>>) {
    match rest
    case None => whole == None
    case Some(more) => whole == Some(found + more)
  }

  lemma Found(s: Option<seq<Section>>)
    ensures Follows(s, [], s)
  {
    if s.Some? { assert [] + s.value == s.value; }
  }

  lemma OneMore(whole: Option<seq<Section>>, found: seq<Section>, s: Section, rest: Option<seq<Section>>)
    requires Follows(whole, found, match rest case None => None case Some(more) => Some([s] + more))
    ensures Follows(whole, found + [s], rest)
  {
    if rest.Some? { assert found + ([s] + rest.value) == found + [s] + rest.value; }
  }

  lemma SectionStep(z: Inflate, ks: Keystream, data: seq<byte>)
    ensures |data| < 8 ==> Read(z, ks, data) == Some([])
    ensures |data| >= 8 ==>
      var flags, body := WordAt(data[..4]), BodyAt(data, WordAt(data[4..8]));
      match Consumed(z, ks, flags, body, 0)
      case None => Read(z, ks, data) == None
      case Some(k) => Read(z, ks, data) == match Read(z, ks, data[8 + k..])
        case None => None
        case Some(rest) => Some([Section(flags, Sealed(ks, flags, body[..k]))] + rest)
  {
    hide Consumed, Sealed, WordAt, BodyAt;
  }

  lemma SlicesOf(data: seq<byte>, at: nat, size: nat)
    requires at + 8 <= |data|
    ensures data[at..at + 8][..4] == data[at..][..4] && data[at..at + 8][4..] == data[at..][4..8]
    ensures BodyAt(data[at..], size) == if at + 8 + size <= |data| then data[at + 8..at + 8 + size] else data[at + 8..]
  {
  }

  lemma BodySlice(data: seq<byte>, at: nat, size: nat, n: nat)
    requires at + 8 <= |data| && n <= |BodyAt(data[at..], size)|
    ensures data[at + 8..at + 8 + n] == BodyAt(data[at..], size)[..n]
  {
  }

  lemma SliceAt(data: seq<byte>, at: nat, k: nat)
    requires at + k <= |data|
    ensures data[at..][k..] == data[at + k..]
  {
  }
}
