/** The 512-byte ustar header: the writer's struct, filled in field by field, and a reader for it. */
module UstarHeader {
  import opened Bytes
  import opened Wrappers
  import Octal

  type uint32 = x: int | 0 <= x < 0x1_0000_0000
  type off_t = x: int | 0 <= x < 0x8000_0000_0000_0000
  type time_t = x: int | -0x8000_0000_0000_0000 <= x < 0x8000_0000_0000_0000

  /** What lstat says about a file, with the names its owner and group resolve to (empty when they do not). */
  datatype Stat = Stat(mode: nat, uid: uint32, gid: uint32, size: off_t, mtime: time_t, uname: cstring, gname: cstring)

  /** One archive member: what a header says about it and the bytes that follow. */
  datatype Entry = Entry(name: cstring, mode: nat, uid: nat, gid: nat, size: nat, mtime: int,
                         typeflag: byte, uname: cstring, gname: cstring, content: seq<byte>)

  const REGULAR: byte := 48    // '0'
  const DIRECTORY: byte := 53  // '5'
  const SLASH: byte := 47
  const SPACE: byte := 32

  /** The member a path stands for. A directory has no size of its own in an archive. */
  function Describe(name: cstring, st: Stat, typeflag: byte, content: seq<byte>): Entry {
    Entry(name, st.mode % 4096, st.uid, st.gid, if typeflag == DIRECTORY then 0 else st.size, st.mtime,
          typeflag, st.uname, st.gname, content)
  }

  // ----- the writer -----

  const WIDTHS: seq<nat> := [100, 8, 8, 8, 12, 12, 8, 1, 100, 6, 2, 32, 32, 8, 8, 155, 12]

  const OFFSETS: seq<nat> := [0, 100, 108, 116, 124, 136, 148, 156, 157, 257, 263, 265, 297, 329, 337, 345, 500, 512]

  datatype PosixHeader = PosixHeader(
    name: seq<byte>, mode: seq<byte>, uid: seq<byte>, gid: seq<byte>, size: seq<byte>, mtime: seq<byte>,
    chksum: seq<byte>, typeflag: byte, linkname: seq<byte>, magic: seq<byte>, version: seq<byte>,
    uname: seq<byte>, gname: seq<byte>, devmajor: seq<byte>, devminor: seq<byte>, prefix: seq<byte>, padding: seq<byte>)
  {
    function Fields(): seq<seq<byte>> {
      [name, mode, uid, gid, size, mtime, chksum, [typeflag], linkname, magic, version,
       uname, gname, devmajor, devminor, prefix, padding]
    }

    function Bytes(): seq<byte> { Pack(Fields()) }
  }

  const ZEROED := PosixHeader(
    Zeros(100), Zeros(8), Zeros(8), Zeros(8), Zeros(12), Zeros(12), Zeros(8), 0, Zeros(100), Zeros(6), Zeros(2),
    Zeros(32), Zeros(32), Zeros(8), Zeros(8), Zeros(155), Zeros(12))

  const MAGIC: seq<byte> := [117, 115, 116, 97, 114, 0]  // "ustar" and its terminator
  const VERSION: seq<byte> := [48, 48]
  const BLANKS: seq<byte> := [32, 32, 32, 32, 32, 32, 32, 32]

  /** The name field: at most 99 of the last 100 bytes of a long name are kept. */
  function NameField(name: cstring): (f: seq<byte>)
    requires |name| <= 255
    ensures |f| == 100
  {
    if |name| <= 100 then StrNCpy(Zeros(100), name, 99)
    else StrNCpy(Zeros(100), name[|name| - 100..], 99)
  }

  /** The prefix field: what precedes the byte before the last 100 bytes of a long name. */
  function PrefixField(name: cstring): (f: seq<byte>)
    requires |name| <= 255
    ensures |f| == 155
  {
    if |name| <= 100 then Zeros(155) else StrNCpy(Zeros(155), name, |name| - 101)
  }

  /** st_mtime as the unsigned 64-bit number that is printed. */
  function Unsigned64(t: int): nat { t % 0x1_0000_0000_0000_0000 }

  /** The header of an entry while its checksum field still holds spaces. */
  function Unsummed(e: Entry): PosixHeader
    requires |e.name| <= 255
  {
    PosixHeader(NameField(e.name),
                SnPrintF(Zeros(8), Octal.Print(e.mode, 7)),
                SnPrintF(Zeros(8), Octal.Print(e.uid, 7)),
                SnPrintF(Zeros(8), Octal.Print(e.gid, 7)),
                SnPrintF(Zeros(12), Octal.Print(e.size, 11)),
                SnPrintF(Zeros(12), Octal.Print(Unsigned64(e.mtime), 11)),
                BLANKS, e.typeflag, Zeros(100), MAGIC, VERSION,
                StrNCpy(Zeros(32), e.uname, 31), StrNCpy(Zeros(32), e.gname, 31),
                Zeros(8), Zeros(8), PrefixField(e.name), Zeros(12))
  }

  function ChecksumField(sum: nat): (f: seq<byte>)
    ensures |f| == 8
  {
    SnPrintF(BLANKS, Octal.Print(sum, 6) + [SPACE])
  }

  function HeaderOf(e: Entry): PosixHeader
    requires |e.name| <= 255
  {
    var h := Unsummed(e);
    h.(chksum := ChecksumField(Sum(h.Bytes())))
  }

  /** calculate_checksum: the sum of the bytes of a block, in 32 unsigned bits. */
  method CalculateChecksum(block: seq<byte>) returns (sum: uint32)
    requires |block| <= 512
    ensures sum == Sum(block)
  {
    sum := 0;
    for i := 0 to |block|
      invariant sum == Sum(block[..i])
      invariant sum <= 255 * i
    {
      assert block[..i + 1][..i] == block[..i];
      sum := sum + block[i];
    }
    assert block[..|block|] == block;
  }

  /** The struct is filled in the order of the source; a name over 255 bytes is refused. */
  method FillHeader(name: cstring, st: Stat, typeflag: byte) returns (hdr: Option<PosixHeader>)
    ensures hdr.None? <==> |name| > 255
    ensures hdr.Some? ==> hdr.value == HeaderOf(Describe(name, st, typeflag, []))
    ensures hdr.Some? ==> Says(hdr.value.Bytes(), name, st, typeflag)
  {
    hide Says;
    var h := ZEROED;
    if |name| <= 100 {
      h := h.(name := StrNCpy(h.name, name, 99));
      h := h.(name := h.name[99 := 0]);
      assert h.name == NameField(name);
    } else if |name| <= 255 {
      var prefixLen := |name| - 100 - 1;
      h := h.(prefix := StrNCpy(h.prefix, name, prefixLen));
      h := h.(prefix := h.prefix[prefixLen := 0]);
      h := h.(name := StrNCpy(h.name, name[prefixLen + 1..], 99));
      h := h.(name := h.name[99 := 0]);
      assert h.name == NameField(name);
      assert h.prefix == PrefixField(name);
    } else {
      return None;
    }
    h := h.(mode := SnPrintF(h.mode, Octal.Print(st.mode % 4096, 7)));
    h := h.(uid := SnPrintF(h.uid, Octal.Print(st.uid, 7)));
    h := h.(gid := SnPrintF(h.gid, Octal.Print(st.gid, 7)));
    h := h.(size := SnPrintF(h.size, Octal.Print(if typeflag == DIRECTORY then 0 else st.size, 11)));
    h := h.(mtime := SnPrintF(h.mtime, Octal.Print(Unsigned64(st.mtime), 11)));
    h := h.(typeflag := typeflag, magic := MAGIC, version := VERSION);
    h := h.(uname := StrNCpy(h.uname, st.uname, 31));
    h := h.(gname := StrNCpy(h.gname, st.gname, 31));
    h := h.(chksum := BLANKS);
    assert h == Unsummed(Describe(name, st, typeflag, []));
    HeaderFits(h);
    var csum := CalculateChecksum(h.Bytes());
    h := h.(chksum := SnPrintF(h.chksum, Octal.Print(csum, 6) + [SPACE]));
    hdr := Some(h);
    HeaderSays(name, st, typeflag, []);
  }

  // ----- a reader -----

  /** The checksum a reader computes: the 512 bytes with the eight of the checksum field read as spaces. */
  function ExpectedChecksum(block: seq<byte>): nat
    requires |block| == 512
  {
    Sum(block[..148] + BLANKS + block[156..])
  }

  /** The path of a header: prefix and name joined by a slash when there is a prefix. */
  function PathOf(prefix: cstring, name: cstring): cstring {
    if prefix == [] then name else prefix + [SLASH] + name
  }

  /** The block seen as the struct. */
  function Overlay(block: seq<byte>): PosixHeader
    requires |block| == 512
  {
    TotalWidth();
    OfFields(Unpack(WIDTHS, block))
  }

  function OfFields(f: seq<seq<byte>>): PosixHeader
    requires Fits(f, WIDTHS)
  {
    PosixHeader(f[0], f[1], f[2], f[3], f[4], f[5], f[6], f[7][0], f[8], f[9],
                f[10], f[11], f[12], f[13], f[14], f[15], f[16])
  }

  /** Read a header given the checksum it should have; None unless magic, version, checksum and all numbers
      are right. */
  function ReadStruct(h: PosixHeader, sum: nat): Option<Entry> {
    var mode, uid, gid, size, mtime :=
      Octal.Read(h.mode), Octal.Read(h.uid), Octal.Read(h.gid), Octal.Read(h.size), Octal.Read(h.mtime);
    if h.magic == MAGIC && h.version == VERSION && Octal.Read(h.chksum) == Some(sum)
       && mode.Some? && uid.Some? && gid.Some? && size.Some? && mtime.Some?
    then
      Some(Entry(PathOf(CutNul(h.prefix), CutNul(h.name)), mode.value, uid.value, gid.value, size.value, mtime.value,
                 h.typeflag, CutNul(h.uname), CutNul(h.gname), []))
    else
      None
  }

  function ReadHeader(block: seq<byte>): Option<Entry>
    requires |block| == 512
  {
    ReadStruct(Overlay(block), ExpectedChecksum(block))
  }

  // ----- what the reader finds in a written header -----

  lemma TotalPrefix(k: nat)
    requires k <= 17
    ensures Total(WIDTHS[..k]) == OFFSETS[k]
  {
    TotalSplit(WIDTHS, k);
    TotalWidth();
    TotalFrom(k);
  }

  lemma HeaderFits(h: PosixHeader)
    requires |h.name| == 100 && |h.mode| == 8 && |h.uid| == 8 && |h.gid| == 8 && |h.size| == 12 && |h.mtime| == 12
    requires |h.chksum| == 8 && |h.linkname| == 100 && |h.magic| == 6 && |h.version| == 2
    requires |h.uname| == 32 && |h.gname| == 32 && |h.devmajor| == 8 && |h.devminor| == 8
    requires |h.prefix| == 155 && |h.padding| == 12
    ensures Fits(h.Fields(), WIDTHS) && |h.Bytes()| == 512
  {
    UnpackPack(WIDTHS, h.Fields());
    TotalWidth();
  }

  lemma OffsetStep(k: nat)
    requires k < 17
    ensures OFFSETS[k] + WIDTHS[k] == OFFSETS[k + 1]
  {
  }

  /** OFFSETS[k] is where the k-th member of the struct starts. */
  lemma {:induction false} TotalFrom(k: nat)
    requires k <= 17
    ensures Total(WIDTHS[k..]) == 512 - OFFSETS[k]
    decreases 17 - k
  {
    if k >= 17 {
    } else {
      TotalFrom(k + 1);
      assert WIDTHS[k..][1..] == WIDTHS[k + 1..];
      OffsetStep(k);
    }
  }

  lemma TotalWidth()
    ensures Total(WIDTHS) == 512
  {
    TotalFrom(0);
    assert WIDTHS[0..] == WIDTHS;
  }

  /** The number a reader finds in a field of w+1 bytes. */
  function StoredNumber(v: nat, w: nat): (n: nat)
    requires w >= 1
    ensures n < Octal.Pow8(w)
    ensures n == v <==> v < Octal.Pow8(w)
  {
    Octal.FieldReadsBack(v, w);
    Octal.Read(SnPrintF(Zeros(w + 1), Octal.Print(v, w))).value
  }

  /** The path a reader finds. */
  function StoredName(name: cstring): cstring
    requires |name| <= 255
  {
    PathOf(CutNul(PrefixField(name)), CutNul(NameField(name)))
  }

  /** A name survives the header exactly when it has at most 99 bytes. The longest name that fits the name
      field alone loses its last byte, and the split of a longer name drops the byte between its parts. */
  lemma NameReadsBack(name: cstring)
    requires |name| <= 255
    ensures StoredName(name) == name <==> |name| <= 99
  {
    hide CutNul;
    if |name| <= 101 {
      var kept: cstring := if |name| <= 99 then name else if |name| == 100 then name[..99] else name[1..][..99];
      FieldCut(kept, 100, |kept|);
      FieldCut([], 155, 0);
      assert NameField(name) == kept + Zeros(100 - |kept|);
      assert PrefixField(name) == [] + Zeros(155);
    } else {
      var prefix: cstring, kept: cstring := name[..|name| - 101], name[|name| - 100..][..99];
      FieldCut(prefix, 155, |name| - 101);
      FieldCut(kept, 100, 99);
      assert PrefixField(name) == prefix + Zeros(155 - |prefix|);
      assert NameField(name) == kept + Zeros(1);
    }
  }

  lemma FieldCut(s: cstring, width: nat, len: nat)
    requires |s| == len <= width
    ensures CutNul(s + Zeros(width - len)) == s
  {
    CutNulAt(s, Zeros(width - len));
  }

  /** A user or group name survives exactly when it has at most 31 bytes. */
  lemma OwnerReadsBack(s: cstring)
    ensures CutNul(StrNCpy(Zeros(32), s, 31)) == s <==> |s| <= 31
  {
    var kept: cstring := Take(s, 31);
    assert StrNCpy(Zeros(32), s, 31) == kept + Zeros(32 - |kept|);
    FieldCut(kept, 32, |kept|);
  }

  /** The entry a reader finds in the header written for e. */
  function Stored(e: Entry): (s: Entry)
    requires |e.name| <= 255
    ensures s.content == []
  {
    Entry(StoredName(e.name), StoredNumber(e.mode, 7), StoredNumber(e.uid, 7), StoredNumber(e.gid, 7),
          StoredNumber(e.size, 11), StoredNumber(Unsigned64(e.mtime), 11), e.typeflag,
          CutNul(StrNCpy(Zeros(32), e.uname, 31)), CutNul(StrNCpy(Zeros(32), e.gname, 31)), [])
  }

  /** The checksum field decodes to the sum it was printed from: the sum of a block has six octal digits. */
  lemma ChecksumReadsBack(block: seq<byte>)
    requires |block| == 512
    ensures Sum(block) < Octal.Pow8(6)
    ensures Octal.Read(ChecksumField(Sum(block))) == Some(Sum(block))
  {
    hide Sum, Octal.Value, Octal.Pow8;
    var sum := Sum(block);
    SumBound(block);
    SixDigits();
    Octal.DigitCount(sum, 6);
    var digits := Octal.Print(sum, 6);
    assert ChecksumField(sum) == digits + [SPACE, 0];
    Octal.LeadingDigitsStop(digits, [SPACE, 0]);
    Octal.ValueOfDigits(sum);
    Octal.ValueLeftPad(6 - |Octal.Digits(sum)|, Octal.Digits(sum));
    assert seq(0, _ => 48) + Octal.Digits(sum) == Octal.Digits(sum);
  }

  lemma SixDigits()
    ensures Octal.Pow8(6) == 262144
  {
  }

  lemma Blocks(e: Entry)
    requires |e.name| <= 255
    ensures Fits(Unsummed(e).Fields(), WIDTHS) && Fits(HeaderOf(e).Fields(), WIDTHS)
    ensures |Unsummed(e).Bytes()| == |HeaderOf(e).Bytes()| == 512
    ensures HeaderOf(e).Fields()[6 := BLANKS] == Unsummed(e).Fields()
  {
    HeaderFits(Unsummed(e));
    HeaderFits(HeaderOf(e));
  }

  lemma ChecksumOffset()
    ensures Total(WIDTHS[..6]) == 148 && WIDTHS[6] == 8
  {
    TotalPrefix(6);
  }

  /** The sum a reader expects is the sum the writer took before it filled the checksum in. */
  lemma ExpectedSum(fields: seq<seq<byte>>)
    requires Fits(fields, WIDTHS) && |Pack(fields)| == 512
    ensures ExpectedChecksum(Pack(fields)) == Sum(Pack(fields[6 := BLANKS]))
  {
    PackUpdate(fields, WIDTHS, 6, BLANKS);
    ChecksumOffset();
  }

  /** Every written header is a valid one: its checksum is the sum the reader computes. */
  lemma ChecksumAgrees(e: Entry)
    requires |e.name| <= 255
    ensures |HeaderOf(e).Bytes()| == 512
    ensures Octal.Read(HeaderOf(e).chksum) == Some(ExpectedChecksum(HeaderOf(e).Bytes()))
  {
    Blocks(e);
    ExpectedSum(HeaderOf(e).Fields());
    ChecksumReadsBack(Unsummed(e).Bytes());
  }

  lemma OverlayOfBytes(h: PosixHeader)
    requires Fits(h.Fields(), WIDTHS) && |h.Bytes()| == 512
    ensures Overlay(h.Bytes()) == h
  {
    UnpackPack(WIDTHS, h.Fields());
  }

  lemma HeaderReads(e: Entry)
    requires |e.name| <= 255
    ensures |HeaderOf(e).Bytes()| == 512
    ensures ReadHeader(HeaderOf(e).Bytes()) == Some(Stored(e))
  {
    Blocks(e);
    OverlayOfBytes(HeaderOf(e));
    ChecksumAgrees(e);
    StructReads(e, ExpectedChecksum(HeaderOf(e).Bytes()));
  }

  lemma StructReads(e: Entry, sum: nat)
    requires |e.name| <= 255
    requires Octal.Read(HeaderOf(e).chksum) == Some(sum)
    ensures ReadStruct(HeaderOf(e), sum) == Some(Stored(e))
  {
    hide Octal.Read, Octal.Print, SnPrintF, CutNul, StrNCpy, ChecksumField, PrefixField, NameField;
    Octal.FieldReadsBack(e.mode, 7);
    Octal.FieldReadsBack(e.uid, 7);
    Octal.FieldReadsBack(e.gid, 7);
    Octal.FieldReadsBack(e.size, 11);
    Octal.FieldReadsBack(Unsigned64(e.mtime), 11);
  }

  /** What a ustar header written by this code can carry. */
  predicate HeaderCarries(e: Entry) {
    && |e.name| <= 99
    && e.mode < Octal.Pow8(7) && e.uid < Octal.Pow8(7) && e.gid < Octal.Pow8(7)
    && e.size < Octal.Pow8(11) && 0 <= e.mtime < Octal.Pow8(11)
    && |e.uname| <= 31 && |e.gname| <= 31
  }

  lemma EightToTheEleventh()
    ensures Octal.Pow8(11) == 8589934592
  {
  }

  lemma TimeReadsBack(t: int)
    ensures StoredNumber(Unsigned64(t), 11) == t <==> 0 <= t < Octal.Pow8(11)
  {
    hide StoredNumber;
    EightToTheEleventh();
  }

  /** A header is read back as it was meant exactly when the entry is within those bounds. */
  lemma HeaderRoundTrip(e: Entry)
    requires |e.name| <= 255
    ensures |HeaderOf(e).Bytes()| == 512
    ensures ReadHeader(HeaderOf(e).Bytes()) == Some(e.(content := [])) <==> HeaderCarries(e)
  {
    hide StoredName, StoredNumber, ReadHeader, HeaderOf, StrNCpy, CutNul;
    HeaderReads(e);
    NameReadsBack(e.name);
    OwnerReadsBack(e.uname);
    OwnerReadsBack(e.gname);
    TimeReadsBack(e.mtime);
  }

  // ----- where everything is in a written block -----

  lemma PackedField(fields: seq<seq<byte>>, k: nat)
    requires Fits(fields, WIDTHS) && k < 17 && |Pack(fields)| == 512
    ensures OFFSETS[k] + WIDTHS[k] <= 512
    ensures Pack(fields)[OFFSETS[k]..OFFSETS[k] + WIDTHS[k]] == fields[k]
  {
    PackSplit(fields, k);
    assert Fits(fields[..k], WIDTHS[..k]);
    UnpackPack(WIDTHS[..k], fields[..k]);
    TotalPrefix(k);
  }

  /** What a block says of a path: byte for byte, each part of the stat at its place, as far as it fits there. */
  predicate Says(block: seq<byte>, name: cstring, st: Stat, typeflag: byte) {
    && |block| == 512
    && (|name| <= 99 ==> CutNul(block[0..100]) == name && CutNul(block[345..500]) == [])
    && Octal.Read(block[100..108]) == Some(st.mode % 4096)
    && (st.uid < 2097152 ==> Octal.Read(block[108..116]) == Some(st.uid))
    && (st.gid < 2097152 ==> Octal.Read(block[116..124]) == Some(st.gid))
    && (typeflag == 53 ==> Octal.Read(block[124..136]) == Some(0))
    && (typeflag != 53 && st.size < 8589934592 ==> Octal.Read(block[124..136]) == Some(st.size))
    && (0 <= st.mtime < 8589934592 ==> Octal.Read(block[136..148]) == Some(st.mtime))
    && Octal.Read(block[148..156]) == Some(Sum(block[..148]) + 256 + Sum(block[156..]))
    && block[156] == typeflag
    && block[157..257] == Zeros(100)
    && block[257..265] == [117, 115, 116, 97, 114, 0, 48, 48]
    && (|st.uname| <= 31 ==> CutNul(block[265..297]) == st.uname)
    && (|st.gname| <= 31 ==> CutNul(block[297..329]) == st.gname)
    && block[329..345] == Zeros(16) && block[500..512] == Zeros(12)
  }

  lemma SevenDigits()
    ensures Octal.Pow8(7) == 2097152 && Octal.Pow8(11) == 8589934592
  {
  }

  /** The header written for a path says just that. */
  lemma HeaderSays(name: cstring, st: Stat, typeflag: byte, content: seq<byte>)
    requires |name| <= 255
    ensures Says(HeaderOf(Describe(name, st, typeflag, content)).Bytes(), name, st, typeflag)
  {
    hide HeaderOf, Octal.Read, CutNul, Sum, Zeros, Octal.Pow8, Pack;
    var e := Describe(name, st, typeflag, content);
    var block := HeaderOf(e).Bytes();
    Blocks(e);
    NumbersAt(e);
    NamesAt(e);
    RestAt(e);
    SevenDigits();
    ChecksumAt(e);
  }

  lemma NumbersAt(e: Entry)
    requires |e.name| <= 255
    ensures var block := HeaderOf(e).Bytes();
            && |block| == 512
            && (e.mode < Octal.Pow8(7) ==> Octal.Read(block[100..108]) == Some(e.mode))
            && (e.uid < Octal.Pow8(7) ==> Octal.Read(block[108..116]) == Some(e.uid))
            && (e.gid < Octal.Pow8(7) ==> Octal.Read(block[116..124]) == Some(e.gid))
            && (e.size < Octal.Pow8(11) ==> Octal.Read(block[124..136]) == Some(e.size))
            && (0 <= e.mtime < Octal.Pow8(11) ==> Octal.Read(block[136..148]) == Some(e.mtime))
  {
    hide Octal.Read, Octal.Print, SnPrintF, ChecksumField, PrefixField, NameField, StrNCpy, Pack;
    var h := HeaderOf(e);
    Blocks(e);
    PackedField(h.Fields(), 1);
    PackedField(h.Fields(), 2);
    PackedField(h.Fields(), 3);
    PackedField(h.Fields(), 4);
    PackedField(h.Fields(), 5);
    Octal.FieldReadsBack(e.mode, 7);
    Octal.FieldReadsBack(e.uid, 7);
    Octal.FieldReadsBack(e.gid, 7);
    Octal.FieldReadsBack(e.size, 11);
    Octal.FieldReadsBack(Unsigned64(e.mtime), 11);
    SevenDigits();
  }

  lemma NamesAt(e: Entry)
    requires |e.name| <= 255
    ensures var block := HeaderOf(e).Bytes();
            && |block| == 512
            && (|e.name| <= 99 ==> CutNul(block[0..100]) == e.name && CutNul(block[345..500]) == [])
            && (|e.uname| <= 31 ==> CutNul(block[265..297]) == e.uname)
            && (|e.gname| <= 31 ==> CutNul(block[297..329]) == e.gname)
  {
    hide Octal.Print, SnPrintF, ChecksumField, CutNul, Pack, StrNCpy, NameField, PrefixField;
    var h := HeaderOf(e);
    Blocks(e);
    PackedField(h.Fields(), 0);
    PackedField(h.Fields(), 11);
    PackedField(h.Fields(), 12);
    PackedField(h.Fields(), 15);
    OwnerReadsBack(e.uname);
    OwnerReadsBack(e.gname);
    if |e.name| <= 99 {
      ShortName(e.name);
    }
  }

  lemma ShortName(name: cstring)
    requires |name| <= 99
    ensures CutNul(NameField(name)) == name && CutNul(PrefixField(name)) == []
  {
    hide CutNul;
    FieldCut(name, 100, |name|);
    FieldCut([], 155, 0);
    assert NameField(name) == name + Zeros(100 - |name|);
    assert PrefixField(name) == [] + Zeros(155);
  }

  lemma RestAt(e: Entry)
    requires |e.name| <= 255
    ensures var block := HeaderOf(e).Bytes();
            && |block| == 512 && block[156] == e.typeflag
            && block[157..257] == Zeros(100) && block[257..265] == [117, 115, 116, 97, 114, 0, 48, 48]
            && block[329..345] == Zeros(16) && block[500..512] == Zeros(12)
  {
    hide Octal.Print, SnPrintF, ChecksumField, Pack, StrNCpy, NameField, PrefixField;
    var h := HeaderOf(e);
    var block := h.Bytes();
    Blocks(e);
    PackedField(h.Fields(), 7);
    PackedField(h.Fields(), 8);
    PackedField(h.Fields(), 9);
    PackedField(h.Fields(), 10);
    PackedField(h.Fields(), 13);
    PackedField(h.Fields(), 14);
    PackedField(h.Fields(), 16);
    assert block[156..157][0] == e.typeflag;
    assert block[257..265] == block[257..263] + block[263..265];
    assert block[329..345] == block[329..337] + block[337..345] == Zeros(16);
  }

  lemma ChecksumAt(e: Entry)
    requires |e.name| <= 255
    ensures var block := HeaderOf(e).Bytes();
            |block| == 512 && Octal.Read(block[148..156]) == Some(Sum(block[..148]) + 256 + Sum(block[156..]))
  {
    hide Octal.Read, Octal.Print, SnPrintF, ChecksumField, Pack, StrNCpy, NameField, PrefixField, Sum;
    var h := HeaderOf(e);
    var block := h.Bytes();
    Blocks(e);
    PackedField(h.Fields(), 6);
    ChecksumAgrees(e);
    ExpectedIs(block);
  }

  lemma EightBlanks()
    ensures Sum(BLANKS) == 256
  {
    assert BLANKS == [32, 32, 32, 32] + [32, 32, 32, 32];
    assert [32, 32, 32, 32][..3] == [32, 32, 32] && [32, 32, 32][..2] == [32, 32];
    assert [32, 32][..1] == [32] && [32][..0] == [];
    SumConcat([32, 32, 32, 32], [32, 32, 32, 32]);
    assert Sum([32, 32, 32, 32]) == 128;
  }

  /** A reader takes no block for a header unless magic and version are right, every number can be read, and the
      checksum is the sum of the bytes with its own eight as blanks. */
  lemma ReaderIsStrict(block: seq<byte>)
    requires |block| == 512
    ensures ReadHeader(block).Some? <==>
              && block[257..265] == [117, 115, 116, 97, 114, 0, 48, 48]
              && Octal.Read(block[148..156]) == Some(Sum(block[..148]) + 256 + Sum(block[156..]))
              && Octal.Read(block[100..108]).Some? && Octal.Read(block[108..116]).Some?
              && Octal.Read(block[116..124]).Some? && Octal.Read(block[124..136]).Some?
              && Octal.Read(block[136..148]).Some?
  {
    hide Octal.Read, Pack, Sum, Unpack, ExpectedChecksum, Overlay, CutNul;
    OverlayAt(block);
    ExpectedIs(block);
    MagicAndVersion(block);
  }

  lemma OverlayAt(block: seq<byte>)
    requires |block| == 512
    ensures var h := Overlay(block);
            && h.mode == block[100..108] && h.uid == block[108..116] && h.gid == block[116..124]
            && h.size == block[124..136] && h.mtime == block[136..148] && h.chksum == block[148..156]
            && h.magic == block[257..263] && h.version == block[263..265]
  {
    hide Unpack, Total;
    UnpackedAt(block, 1, 100, 8);
    UnpackedAt(block, 2, 108, 8);
    UnpackedAt(block, 3, 116, 8);
    UnpackedAt(block, 4, 124, 12);
    UnpackedAt(block, 5, 136, 12);
    UnpackedAt(block, 6, 148, 8);
    UnpackedAt(block, 9, 257, 6);
    UnpackedAt(block, 10, 263, 2);
  }

  lemma UnpackedAt(block: seq<byte>, k: nat, from: nat, width: nat)
    requires |block| == 512 && k < 17 && OFFSETS[k] == from && WIDTHS[k] == width
    ensures Total(WIDTHS) == 512 && from + width <= 512 && Unpack(WIDTHS, block)[k] == block[from..from + width]
  {
    hide Unpack, Total;
    TotalWidth();
    UnpackAt(WIDTHS, block, k);
    TotalPrefix(k);
  }

  lemma ExpectedIs(block: seq<byte>)
    requires |block| == 512
    ensures ExpectedChecksum(block) == Sum(block[..148]) + 256 + Sum(block[156..])
  {
    hide Sum;
    SumConcat(block[..148] + BLANKS, block[156..]);
    SumConcat(block[..148], BLANKS);
    EightBlanks();
  }

  lemma MagicAndVersion(block: seq<byte>)
    requires |block| == 512
    ensures block[257..265] == [117, 115, 116, 97, 114, 0, 48, 48] <==>
              block[257..263] == MAGIC && block[263..265] == VERSION
  {
    var b := block[257..265];
    assert b == block[257..263] + block[263..265];
    assert b[..6] == block[257..263] && b[6..] == block[263..265];
  }
}
