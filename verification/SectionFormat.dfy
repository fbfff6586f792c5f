/**
 A backup file: a header, then one section for the full backup and one for each
 incremental one.  A section's body is the compressed dump under a stream cipher that
 starts anew for each section.
 */
module SectionFormat {
  import opened Bytes

  const MAGIC: seq<byte> := [0x00, 0x64, 0x42, 0x62, 0x41, 0x6b]
  const VERSION := 2
  const TWO_32 := 0x1_0000_0000

  /** The bytes that RC4 produces under a key, by position. */
  type Keystream = nat -> byte

  /** Exclusive or of the low n bits. */
  function XorBits(a: nat, b: nat, n: nat): nat {
    if n == 0 then 0 else (a + b) % 2 + 2 * XorBits(a / 2, b / 2, n - 1)
  }

  lemma {:induction false} XorBitsBound(a: nat, b: nat, n: nat)
    ensures XorBits(a, b, n) < Pow2(n)
  {
    if n > 0 { XorBitsBound(a / 2, b / 2, n - 1); }
  }

  function Pow2(n: nat): nat { if n == 0 then 1 else 2 * Pow2(n - 1) }

  lemma Pow2Of8()
    ensures Pow2(8) == 256
  {
    assert Pow2(4) == 2 * Pow2(3) && Pow2(3) == 2 * Pow2(2);
    assert Pow2(8) == 2 * Pow2(7) && Pow2(7) == 2 * Pow2(6) && Pow2(6) == 2 * Pow2(5) && Pow2(5) == 2 * Pow2(4);
  }

  lemma LowBit(a: nat, b: nat, x: nat)
    ensures var r := (a + b) % 2 + 2 * x; r / 2 == x && (r + b) % 2 == a % 2
  {
    var c := (a + b) % 2;
    assert (c + 2 * x) / 2 == x;
    assert c == a + b - 2 * ((a + b) / 2);
    var m := x + b - (a + b) / 2;
    assert c + 2 * x + b == a + 2 * m;
    assert (a + 2 * m) % 2 == a % 2;
  }

  lemma {:induction false} XorBitsTwice(a: nat, b: nat, n: nat)
    requires a < Pow2(n)
    ensures XorBits(XorBits(a, b, n), b, n) == a
  {
    if n > 0 {
      XorBitsTwice(a / 2, b / 2, n - 1);
      LowBit(a, b, XorBits(a / 2, b / 2, n - 1));
    }
  }

  function Xor(a: byte, b: byte): byte {
    XorBitsBound(a, b, 8);
    Pow2Of8();
    XorBits(a, b, 8)
  }

  lemma XorTwice(a: byte, b: byte)
    ensures Xor(Xor(a, b), b) == a
  {
    Pow2Of8();
    XorBitsTwice(a, b, 8);
  }

  /** RC4 over data that starts at a position of the stream. */
  function Crypt(ks: Keystream, at: nat, data: seq<byte>): (r: seq<byte>)
    ensures |r| == |data|
  {
    seq(|data|, i requires 0 <= i < |data| => Xor(data[i], ks(at + i)))
  }

  lemma CryptAppend(ks: Keystream, at: nat, a: seq<byte>, b: seq<byte>)
    ensures Crypt(ks, at, a + b) == Crypt(ks, at, a) + Crypt(ks, at + |a|, b)
  {
  }

  /** The same stream decrypts. */
  lemma CryptTwice(ks: Keystream, at: nat, data: seq<byte>)
    ensures Crypt(ks, at, Crypt(ks, at, data)) == data
  {
    forall i | 0 <= i < |data| ensures Crypt(ks, at, Crypt(ks, at, data))[i] == data[i] {
      XorTwice(data[i], ks(at + i));
    }
  }

  /** Bit j of a number. */
  function Bit(a: nat, j: nat): bool { if j == 0 then a % 2 == 1 else Bit(a / 2, j - 1) }

  lemma {:induction false} XorBitsBit(a: nat, b: nat, n: nat, j: nat)
    requires j < n
    ensures Bit(XorBits(a, b, n), j) != Bit(a, j) <==> Bit(b, j)
    decreases n
  {
    var x := XorBits(a / 2, b / 2, n - 1);
    LowBit(a, b, x);
    if j > 0 {
      assert XorBits(a, b, n) / 2 == x;
      XorBitsBit(a / 2, b / 2, n - 1, j - 1);
    }
  }

  lemma {:induction false} XorBitsZero(b: nat, n: nat)
    requires b < Pow2(n)
    ensures XorBits(0, b, n) == b
  {
    if n > 0 { XorBitsZero(b / 2, n - 1); }
  }

  /** The bytes differ from the clear ones exactly in the bits that the stream has set from `at` on. */
  ghost predicate Enciphered(ks: Keystream, at: nat, clear: seq<byte>, cipher: seq<byte>) {
    && |cipher| == |clear|
    && forall i, j :: 0 <= i < |clear| && 0 <= j < 8 ==> (Bit(cipher[i], j) != Bit(clear[i], j) <==> Bit(ks(at + i), j))
  }

  lemma CryptEnciphers(ks: Keystream, at: nat, data: seq<byte>)
    ensures Enciphered(ks, at, data, Crypt(ks, at, data))
  {
    hide XorBits, Bit;
    forall i, j | 0 <= i < |data| && 0 <= j < 8
      ensures Bit(Crypt(ks, at, data)[i], j) != Bit(data[i], j) <==> Bit(ks(at + i), j)
    {
      XorBitsBit(data[i], ks(at + i), 8, j);
    }
  }

  /** Zeros are encrypted to the bytes of the stream. */
  lemma CryptZeros(ks: Keystream, at: nat, n: nat)
    ensures var r := Crypt(ks, at, seq(n, _ => 0)); |r| == n && forall i :: 0 <= i < n ==> r[i] == ks(at + i)
  {
    Pow2Of8();
    var r := Crypt(ks, at, seq(n, _ => 0));
    forall i | 0 <= i < n ensures r[i] == ks(at + i) { XorBitsZero(ks(at + i), 8); }
  }

  /** A little-endian uint32_t. */
  function Word(n: nat): (r: seq<byte>)
    ensures |r| == 4
  {
    var (n1, n2, n3) := (n / 256, n / 256 / 256, n / 256 / 256 / 256);
    [n % 256, n1 % 256, n2 % 256, n3 % 256]
  }

  function WordAt(bs: seq<byte>): nat
    requires |bs| == 4
  {
    (bs[0] as int) + 256 * ((bs[1] as int) + 256 * ((bs[2] as int) + 256 * (bs[3] as int)))
  }

  lemma WordRoundTrip(n: nat)
    requires n < TWO_32
    ensures WordAt(Word(n)) == n
  {
  }

  lemma WordBytes(bs: seq<byte>)
    requires |bs| == 4
    ensures WordAt(bs) < TWO_32 && Word(WordAt(bs)) == bs
  {
    var (b0, b1, b2, b3) := (bs[0] as int, bs[1] as int, bs[2] as int, bs[3] as int);
    var n2 := b2 + 256 * b3;
    var n1 := b1 + 256 * n2;
    LowByte(b2, b3);
    LowByte(b1, n2);
    LowByte(b0, n1);
    assert b3 % 256 == b3;
  }

  lemma LowByte(b: int, n: nat)
    requires 0 <= b < 256
    ensures (b + 256 * n) % 256 == b && (b + 256 * n) / 256 == n
  {
  }

  /** Flags, and the compressed dump in the clear. */
  datatype Section = Section(flags: nat, body: seq<byte>)

  /** MMBAK_FLAG_NO_CIPHER is bit 0. */
  predicate Ciphered(flags: nat) { flags % 2 == 0 }

  predicate Fits(s: Section) { s.flags < TWO_32 && |s.body| < TWO_32 }

  function Sealed(ks: Keystream, flags: nat, body: seq<byte>): (r: seq<byte>)
    ensures |r| == |body|
  {
    if Ciphered(flags) then Crypt(ks, 0, body) else body
  }

  /** mm_backup_section */
  function SectionHeader(flags: nat, size: nat): (r: seq<byte>)
    ensures |r| == 8
  {
    Word(flags) + Word(size)
  }

  function EncodeSection(ks: Keystream, s: Section): (r: seq<byte>)
    ensures |r| == 8 + |s.body|
  {
    SectionHeader(s.flags, |s.body|) + Sealed(ks, s.flags, s.body)
  }

  function EncodeSections(ks: Keystream, ss: seq<Section>): seq<byte> {
    if ss == [] then [] else EncodeSection(ks, ss[0]) + EncodeSections(ks, ss[1..])
  }

  /** mm_backup_header */
  function Header(): (r: seq<byte>)
    ensures |r| == 8
  {
    MAGIC + [VERSION, 0]
  }

  function EncodeFile(ks: Keystream, ss: seq<Section>): seq<byte> { Header() + EncodeSections(ks, ss) }

  // ---- reading ----

  datatype Option<T> = None | Some(value: T)

  /** The section loop: whole sections while a whole section header can be read. */
  function Sections(ks: Keystream, data: seq<byte>): Option<seq<Section>>
    decreases |data|
  {
    if |data| < 8 then Some([])
    else
      var flags, size := WordAt(data[..4]), WordAt(data[4..8]);
      if |data| < 8 + size then None
      else
        match Sections(ks, data[8 + size..])
        case None => None
        case Some(rest) => Some([Section(flags, Sealed(ks, flags, data[8..8 + size]))] + rest)
  }

  lemma SealedTwice(ks: Keystream, flags: nat, body: seq<byte>)
    ensures Sealed(ks, flags, Sealed(ks, flags, body)) == body
  {
    if Ciphered(flags) { CryptTwice(ks, 0, body); }
  }

  lemma Front(a: seq<byte>, b: seq<byte>, c: seq<byte>, d: seq<byte>)
    requires |a| == 4 && |b| == 4
    ensures var s := a + b + c + d; s[..4] == a && s[4..8] == b && s[8..8 + |c|] == c && s[8 + |c|..] == d
  {
  }

  /** Sections are found in order, each at the end of the one before, with nothing read beyond it. */
  lemma {:induction false} SectionsRoundTrip(ks: Keystream, ss: seq<Section>, tail: seq<byte>)
    requires (forall s :: s in ss ==> Fits(s)) && |tail| < 8
    ensures Sections(ks, EncodeSections(ks, ss) + tail) == Some(ss)
    decreases |ss|
  {
    hide Word, WordAt, Sealed;
    if ss == [] {
      assert [] + tail == tail;
    } else {
      var s := ss[0];
      var rest := EncodeSections(ks, ss[1..]) + tail;
      assert EncodeSections(ks, ss) == EncodeSection(ks, s) + EncodeSections(ks, ss[1..]);
      assert Fits(s);
      Bracket(EncodeSection(ks, s), EncodeSections(ks, ss[1..]), tail);
      Front(Word(s.flags), Word(|s.body|), Sealed(ks, s.flags, s.body), rest);
      WordRoundTrip(s.flags);
      WordRoundTrip(|s.body|);
      SealedTwice(ks, s.flags, s.body);
      SectionsRoundTrip(ks, ss[1..], tail);
      assert ss == [ss[0]] + ss[1..];
    }
  }

  /** Whatever is accepted is the encoding of the sections found, up to a last partial header. */
  lemma {:induction false} SectionsOnly(ks: Keystream, data: seq<byte>) returns (tail: seq<byte>)
    requires Sections(ks, data).Some?
    ensures |tail| < 8 && data == EncodeSections(ks, Sections(ks, data).value) + tail
    ensures forall s :: s in Sections(ks, data).value ==> Fits(s)
    decreases |data|
  {
    hide Word, WordAt, Sealed;
    if |data| < 8 {
      tail := data;
      assert [] + tail == tail;
    } else {
      var flags, size := WordAt(data[..4]), WordAt(data[4..8]);
      var body, rest := data[8..8 + size], data[8 + size..];
      tail := SectionsOnly(ks, rest);
      WordBytes(data[..4]);
      WordBytes(data[4..8]);
      SealedTwice(ks, flags, body);
      var s := Section(flags, Sealed(ks, flags, body));
      var found := Sections(ks, rest).value;
      assert ([s] + found)[1..] == found;
      assert EncodeSection(ks, s) == data[..4] + data[4..8] + body;
      Bracket(EncodeSection(ks, s), EncodeSections(ks, found), tail);
      assert data == data[..4] + data[4..8] + body + rest;
    }
  }

  /** The reader finds these sections exactly in the files that encode them. */
  lemma SectionsExactly(ks: Keystream, data: seq<byte>, ss: seq<Section>)
    ensures Sections(ks, data) == Some(ss) <==>
      (forall s :: s in ss ==> Fits(s)) && exists tail :: Extends(data, EncodeSections(ks, ss), tail) && |tail| < 8
  {
    hide Sections, EncodeSections, Fits;
    if Sections(ks, data) == Some(ss) {
      var tail := SectionsOnly(ks, data);
      assert Extends(data, EncodeSections(ks, ss), tail);
    }
    if (forall s :: s in ss ==> Fits(s)) && exists tail :: Extends(data, EncodeSections(ks, ss), tail) && |tail| < 8 {
      var tail :| Extends(data, EncodeSections(ks, ss), tail) && |tail| < 8;
      SectionsRoundTrip(ks, ss, tail);
    }
  }

  predicate Extends(data: seq<byte>, front: seq<byte>, tail: seq<byte>) { data == front + tail }

  lemma {:induction false} SectionsAppend(ks: Keystream, a: seq<Section>, s: Section)
    ensures EncodeSections(ks, a + [s]) == EncodeSections(ks, a) + EncodeSection(ks, s)
    decreases |a|
  {
    hide EncodeSection;
    if a == [] {
      assert (a + [s])[1..] == [];
      assert EncodeSections(ks, []) == [];
    } else {
      assert (a + [s])[1..] == a[1..] + [s];
      SectionsAppend(ks, a[1..], s);
      Bracket(EncodeSection(ks, a[0]), EncodeSections(ks, a[1..]), EncodeSection(ks, s));
    }
  }

  // ---- a file ----

  const ONES: Keystream := _ => 0xff

  /** With all bits of the stream set 1 becomes 0xfe, unless the flags say that there is no cipher. */
  lemma FileExample()
    ensures EncodeFile(ONES, [Section(0x0210, [1]), Section(0x0011, [1, 2])])
            == [0x00, 0x64, 0x42, 0x62, 0x41, 0x6b, 2, 0,
                0x10, 0x02, 0, 0, 1, 0, 0, 0, 0xfe,
                0x11, 0x00, 0, 0, 2, 0, 0, 0, 1, 2]
  {
    hide EncodeSection;
    var a, b := Section(0x0210, [1]), Section(0x0011, [1, 2]);
    CipheredExample();
    ClearExample();
    assert [a, b][1..] == [b] && [b][1..] == [];
    assert EncodeSections(ONES, [b]) == EncodeSection(ONES, b) + EncodeSections(ONES, []);
    assert EncodeSections(ONES, [a, b]) == EncodeSection(ONES, a) + EncodeSections(ONES, [b]);
  }

  lemma CipheredExample()
    ensures EncodeSection(ONES, Section(0x0210, [1])) == [0x10, 0x02, 0, 0, 1, 0, 0, 0, 0xfe]
  {
    hide Crypt;
    CryptOne();
  }

  lemma ClearExample()
    ensures EncodeSection(ONES, Section(0x0011, [1, 2])) == [0x11, 0x00, 0, 0, 2, 0, 0, 0, 1, 2]
  {
  }

  lemma CryptOne()
    ensures Crypt(ONES, 0, [1]) == [0xfe]
  {
    hide XorBits;
    assert XorBits(1, 0xff, 8) == 0xfe by { XorOne(); }
  }

  lemma XorOne()
    ensures XorBits(1, 0xff, 8) == 0xfe
  {
    assert XorBits(0, 0x7f, 7) == 0x7f by { XorNone(); }
  }

  lemma XorNone()
    ensures XorBits(0, 0x7f, 7) == 0x7f
  {
    assert Pow2(7) == 128 by {
      assert Pow2(3) == 8 && Pow2(5) == 4 * Pow2(3) && Pow2(7) == 4 * Pow2(5);
    }
    XorBitsZero(0x7f, 7);
  }
}
