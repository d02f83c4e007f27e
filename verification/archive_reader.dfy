/** A ustar reader, and what it makes of the archives the writer produces. */
module ArchiveReader {
  import opened Bytes
  import opened Sequences
  import opened Wrappers
  import opened UstarHeader
  import opened Archive

  // ----- the reader -----

  /** One member and what follows it: a valid header, the bytes it announces, the padding. */
  function ReadMember(s: seq<byte>): (r: Option<(Entry, seq<byte>)>)
    ensures r.Some? ==> |r.value.1| < |s|
  {
    if |s| < 512 then None
    else
      var h := ReadHeader(s[..512]);
      if h.None? || |s| < 512 + h.value.size + Pad(h.value.size) then None
      else
        var size := h.value.size;
        Some((h.value.(content := s[512..512 + size]), s[512 + size + Pad(size)..]))
  }

  /** Members up to two zero blocks. */
  function ReadArchive(s: seq<byte>): Option<seq<Entry>>
    decreases |s|
  {
    if |s| >= 1024 && s[..1024] == Zeros(1024) then Some([])
    else
      var first := ReadMember(s);
      if first.None? then None
      else
        var others := ReadArchive(first.value.1);
        if others.None? then None else Some([first.value.0] + others.value)
  }

  // ----- what is there to archive -----

  /** The directories and regular files below a directory, in pre-order; prefix ends in a slash or is empty. */
  function Listing(prefix: cstring, children: seq<Child>): seq<Entry>
    decreases children, 0
  {
    if children == [] then []
    else
      var last := children[|children| - 1];
      Listing(prefix, children[..|children| - 1]) + NodeListing(prefix + last.name, last.node)
  }

  function NodeListing(path: cstring, node: Node): seq<Entry>
    decreases node, 0
  {
    match node
    case Directory(st, below, _) => [Describe(path + [SLASH], st, DIRECTORY, [])] + Listing(path + [SLASH], below)
    case Regular(st, content, _) => [Describe(path, st, REGULAR, content)]
    case Other => []
    case Vanished => []
  }

  /** The whole tree: the contents of a directory, or a single file under its own name. */
  function RootListing(sourceDir: cstring, root: Node): seq<Entry> {
    match root
    case Directory(_, children, _) => Listing([], children)
    case Regular(st, content, _) => [Describe(Basename(sourceDir), st, REGULAR, content)]
    case _ => []
  }

  /** Every directory could be opened. */
  predicate AllOpen(node: Node) {
    node.Directory? ==> node.opens && AllChildrenOpen(node.children)
  }

  predicate AllChildrenOpen(children: seq<Child>) {
    forall c :: c in children ==> AllOpen(c.node)
  }

  /** A file system guarantees that names are not empty ... */
  predicate Named(node: Node) {
    node.Directory? ==> AllNamed(node.children)
  }

  predicate AllNamed(children: seq<Child>) {
    forall c :: c in children ==> c.name != [] && Named(c.node)
  }

  /** ... and that no path is both a directory and a file. */
  predicate PathsDiffer(es: seq<Entry>) {
    forall d, f :: d in es && f in es && d.typeflag == DIRECTORY && f.typeflag == REGULAR ==> d.name != f.name + [SLASH]
  }

  /** An entry the format as written can carry: header fields in bounds, and as many bytes read as lstat said. */
  predicate Representable(e: Entry) {
    HeaderCarries(e) && |e.content| == e.size
  }

  // ----- what is put into the archive -----

  /** An entry with its contents, or a bare header: the one a directory that does not open leaves behind. */
  datatype Record = Record(entry: Entry, bare: bool)

  function RecordBytes(r: Record): seq<byte> {
    if r.bare then HeaderBytes(r.entry) else Encode(r.entry)
  }

  function Records(prefix: cstring, children: seq<Child>): seq<Record>
    decreases children, 0
  {
    if children == [] then []
    else
      var last := children[|children| - 1];
      Records(prefix, children[..|children| - 1]) + NodeRecords(prefix + last.name, last.node)
  }

  /** What the inside of a directory leaves: its members, or the stray header that names it as a file. */
  function InsideRecords(rel: cstring, dir: Node): seq<Record>
    requires dir.Directory?
    decreases dir, 0
  {
    if dir.opens then Records(PrefixOf(rel), dir.children) else [Stray(rel, dir.st)]
  }

  function Stray(path: cstring, st: Stat): Record { Record(Describe(path, st, REGULAR, []), true) }

  function NodeRecords(path: cstring, node: Node): seq<Record>
    decreases node, 1
  {
    match node
    case Directory(st, _, _) => [Record(Describe(path + [SLASH], st, DIRECTORY, []), false)] + InsideRecords(path, node)
    case Regular(st, content, _) => [Record(Describe(path, st, REGULAR, content), false)]
    case Other => []
    case Vanished => []
  }

  function RootRecords(sourceDir: cstring, root: Node): seq<Record> {
    match root
    case Directory(_, _, _) => InsideRecords([], root)
    case Regular(st, content, _) => [Record(Describe(Basename(sourceDir), st, REGULAR, content), false)]
    case _ => []
  }

  function Entries(rs: seq<Record>): (es: seq<Entry>)
    ensures |es| == |rs| && forall i :: 0 <= i < |rs| ==> es[i] == rs[i].entry
  {
    Map((r: Record) => r.entry, rs)
  }

  function EncodeAll(rs: seq<Record>): seq<byte> {
    if rs == [] then [] else RecordBytes(rs[0]) + EncodeAll(rs[1..])
  }

  // ----- the writer emits the records of the tree -----

  lemma {:induction false} EncodeAllConcat(a: seq<Record>, b: seq<Record>)
    ensures EncodeAll(a + b) == EncodeAll(a) + EncodeAll(b)
  {
    if a == [] {
      assert a + b == b;
    } else {
      assert (a + b)[1..] == a[1..] + b;
      EncodeAllConcat(a[1..], b);
      Assoc(RecordBytes(a[0]), EncodeAll(a[1..]), EncodeAll(b));
    }
  }

  lemma EncodeOne(r: Record)
    ensures EncodeAll([r]) == RecordBytes(r)
  {
    assert [r][1..] == [];
    assert EncodeAll([r]) == RecordBytes(r) + [];
  }

  lemma DirectoryEncoding(e: Entry)
    requires e.size == 0 && e.content == []
    ensures Encode(e) == HeaderBytes(e)
  {
    assert e.content + Zeros(Pad(e.size)) == [];
  }

  /** What the paths below a directory begin with. */
  function PrefixOf(rel: cstring): cstring {
    if rel == [] then [] else rel + [SLASH]
  }

  lemma {:induction false} ChildrenEncodeRecords(rel: cstring, children: seq<Child>)
    requires AllNamed(children)
    ensures ChildrenBytes(rel, children) == EncodeAll(Records(PrefixOf(rel), children))
    decreases children, 0
  {
    hide Encode, RecordBytes;
    if children == [] {
    } else {
      var init, last := children[..|children| - 1], children[|children| - 1];
      ChildrenEncodeRecords(rel, init);
      var path := PathTo(rel, last.name);
      assert path == PrefixOf(rel) + last.name;
      NodeEncodesRecords(path, last.node);
      EncodeAllConcat(Records(PrefixOf(rel), init), NodeRecords(path, last.node));
    }
  }

  lemma {:induction false} InsideEncodesRecords(rel: cstring, dir: Node)
    requires dir.Directory? && Named(dir)
    ensures DirectoryBytes(rel, dir) == EncodeAll(InsideRecords(rel, dir))
    decreases dir, 0
  {
    hide Describe;
    if dir.opens {
      ChildrenEncodeRecords(rel, dir.children);
    } else {
      EncodeOne(Stray(rel, dir.st));
    }
  }

  lemma {:induction false} NodeEncodesRecords(path: cstring, node: Node)
    requires path != [] && Named(node)
    ensures NodeBytes(path, node) == EncodeAll(NodeRecords(path, node))
    decreases node, 1
  {
    hide HeaderBytes, DirectoryBytes, InsideRecords;
    match node
    case Directory(st, _, _) =>
      var e := Describe(path + [SLASH], st, DIRECTORY, []);
      InsideEncodesRecords(path, node);
      EncodeAllConcat([Record(e, false)], InsideRecords(path, node));
      EncodeOne(Record(e, false));
      DirectoryEncoding(e);
    case Regular(st, content, _) =>
      EncodeOne(Record(Describe(path, st, REGULAR, content), false));
    case Other =>
    case Vanished =>
  }

  /** The stream of a whole archive, before its trailer. */
  lemma RootEncodesRecords(sourceDir: cstring, root: Node)
    requires Named(root)
    ensures RootBytes(sourceDir, root) == EncodeAll(RootRecords(sourceDir, root))
  {
    match root
    case Directory(_, _, _) => InsideEncodesRecords([], root);
    case Regular(st, content, _) => EncodeOne(Record(Describe(Basename(sourceDir), st, REGULAR, content), false));
    case _ =>
  }

  /** Names that fit a header; bare headers are without contents. */
  predicate WellFormed(rs: seq<Record>) {
    forall r :: r in rs ==> |r.entry.name| <= 255 && (r.bare ==> r.entry.content == [])
  }

  /** The records of an archivable tree are well formed. */
  lemma {:induction false} ChildrenWellFormed(rootLen: nat, rel: cstring, children: seq<Child>)
    requires AllNamed(children) && ChildrenArchivable(rootLen, rel, children)
    ensures WellFormed(Records(PrefixOf(rel), children))
    decreases children, 0
  {
    if children == [] {
    } else {
      var last := children[|children| - 1];
      var path := PathTo(rel, last.name);
      assert path == PrefixOf(rel) + last.name;
      ChildrenWellFormed(rootLen, rel, children[..|children| - 1]);
      NodeWellFormed(rootLen, path, last.node);
    }
  }

  lemma {:induction false} InsideWellFormed(rootLen: nat, rel: cstring, dir: Node)
    requires dir.Directory? && Named(dir) && Archivable(rootLen, rel, dir)
    ensures WellFormed(InsideRecords(rel, dir))
    decreases dir, 0
  {
    if dir.opens {
      ChildrenWellFormed(rootLen, rel, dir.children);
    }
  }

  lemma {:induction false} NodeWellFormed(rootLen: nat, path: cstring, node: Node)
    requires path != [] && Named(node) && NodeArchivable(rootLen, path, node)
    ensures WellFormed(NodeRecords(path, node))
    decreases node, 1
  {
    if node.Directory? {
      InsideWellFormed(rootLen, path, node);
    }
  }

  lemma RootWellFormed(sourceDir: cstring, root: Node)
    requires Named(root) && RootArchivable(sourceDir, root)
    ensures WellFormed(RootRecords(sourceDir, root))
  {
    if root.Directory? {
      InsideWellFormed(|sourceDir|, [], root);
    }
  }

  // ----- reading one member -----

  lemma HeaderIsNotZero(e: Entry)
    requires |e.name| <= 255
    ensures |HeaderBytes(e)| == 512 && HeaderBytes(e)[257] != 0
  {
    Blocks(e);
    MagicByte(HeaderOf(e).Fields());
  }

  lemma MagicByte(fields: seq<seq<byte>>)
    requires Fits(fields, WIDTHS) && fields[9] == MAGIC && |Pack(fields)| == 512
    ensures Pack(fields)[257] == 117
  {
    PackUpdate(fields, WIDTHS, 9, MAGIC);
    MagicOffset();
    assert fields[9 := MAGIC] == fields;
  }

  lemma MagicOffset()
    ensures Total(WIDTHS[..9]) == 257 && WIDTHS[9] == 6
  {
    TotalPrefix(9);
  }

  /** A valid header in front of any bytes, read as a member. */
  lemma MemberAfterBlock(block: seq<byte>, h: Entry, tail: seq<byte>)
    requires |block| == 512 && ReadHeader(block) == Some(h)
    ensures ReadMember(block + tail) ==
            if |tail| < h.size + Pad(h.size) then None
            else Some((h.(content := tail[..h.size]), tail[h.size + Pad(h.size)..]))
  {
    var s := block + tail;
    assert s[..512] == block;
    if |tail| >= h.size + Pad(h.size) {
      assert s[512..512 + h.size] == tail[..h.size];
      assert s[512 + h.size + Pad(h.size)..] == tail[h.size + Pad(h.size)..];
    }
  }

  lemma MemberAfterHeader(e: Entry, tail: seq<byte>)
    requires |e.name| <= 255
    ensures var h := Stored(e);
            ReadMember(HeaderBytes(e) + tail) ==
            if |tail| < h.size + Pad(h.size) then None
            else Some((h.(content := tail[..h.size]), tail[h.size + Pad(h.size)..]))
  {
    hide Stored, ReadHeader, ReadMember;
    HeaderReads(e);
    MemberAfterBlock(HeaderBytes(e), Stored(e), tail);
  }

  /** A member is read back, and the reader stands at the next one, exactly when its entry is representable. */
  lemma MemberReadsBack(e: Entry, rest: seq<byte>)
    requires |e.name| <= 255
    ensures Representable(e) ==> ReadMember(Encode(e) + rest) == Some((e, rest))
    ensures !Representable(e) ==>
              var r := ReadMember(Encode(e) + rest); r.None? || r.value.0 != e
  {
    hide HeaderBytes, Stored, HeaderCarries, ReadMember;
    var tail := e.content + Zeros(Pad(e.size)) + rest;
    assert Encode(e) + rest == HeaderBytes(e) + tail;
    MemberAfterHeader(e, tail);
    StoredIff(e);
    if Representable(e) {
      assert tail[..e.size] == e.content;
      assert tail[e.size + Pad(e.size)..] == rest;
    } else {
      var h := Stored(e);
      assert forall c :: h.(content := c) == e ==> h == e.(content := []);
    }
  }

  // ----- reading an archive -----

  /** A block whose 258th byte is not zero does not begin the trailer. */
  lemma NotTheTrailer(m: seq<byte>, rest: seq<byte>)
    requires |m| >= 512 && m[257] != 0
    ensures !(|m + rest| >= 1024 && (m + rest)[..1024] == Zeros(1024))
  {
    if |m + rest| >= 1024 {
      assert (m + rest)[..1024][257] == m[257] != Zeros(1024)[257];
    }
  }

  lemma EncodeStarts(e: Entry)
    requires |e.name| <= 255
    ensures |Encode(e)| >= 512 && Encode(e)[257] != 0
    ensures |e.content| == e.size ==> |Encode(e)| == MemberLength(e)
  {
    hide HeaderBytes;
    HeaderIsNotZero(e);
  }

  /** One step of the reader at the start of a member. */
  lemma ReadStep(m: seq<byte>, rest: seq<byte>, e: Entry)
    requires |m| >= 512 && m[257] != 0
    ensures ReadMember(m + rest) == Some((e, rest)) ==>
              ReadArchive(m + rest) == match ReadArchive(rest) case None => None case Some(es) => Some([e] + es)
    ensures (ReadMember(m + rest).None? || ReadMember(m + rest).value.0 != e) ==>
              forall es :: ReadArchive(m + rest) != Some([e] + es)
  {
    hide ReadHeader;
    NotTheTrailer(m, rest);
    forall es | ReadArchive(m + rest) == Some([e] + es)
      ensures ReadMember(m + rest).Some? && ReadMember(m + rest).value.0 == e
    {
      assert ([e] + es)[0] == e;
    }
  }

  lemma BareHeader(e: Entry, rest: seq<byte>)
    requires |e.name| <= 255 && e.content == []
    ensures ReadMember(HeaderBytes(e) + rest) == Some((e, rest)) <==> HeaderCarries(e) && e.size == 0
    ensures !(HeaderCarries(e) && e.size == 0) ==>
              var m := ReadMember(HeaderBytes(e) + rest); m.None? || m.value.0 != e
  {
    hide HeaderBytes, Stored, HeaderCarries, ReadMember;
    MemberAfterHeader(e, rest);
    StoredIff(e);
    var h := Stored(e);
    if |rest| >= h.size + Pad(h.size) {
      assert |rest[h.size + Pad(h.size)..]| == |rest| - h.size - Pad(h.size);
      assert h.(content := rest[..h.size]) == e ==> h == e;
      if h.size == 0 {
        assert rest[..0] == [] && rest[0..] == rest;
      }
    }
  }

  lemma StoredIff(e: Entry)
    requires |e.name| <= 255
    ensures Stored(e) == e.(content := []) <==> HeaderCarries(e)
  {
    HeaderReads(e);
    HeaderRoundTrip(e);
  }

  lemma EntriesHead(rs: seq<Record>)
    requires rs != []
    ensures Entries(rs) == [rs[0].entry] + Entries(rs[1..])
  {
  }

  lemma SameTail(e: Entry, read: Option<seq<Entry>>, es: seq<Entry>)
    ensures (match read case None => None case Some(xs) => Some([e] + xs)) == Some([e] + es) <==> read == Some(es)
  {
    if read.Some? {
      assert ([e] + read.value)[1..] == read.value && ([e] + es)[1..] == es;
    }
  }

  lemma RecordStarts(r: Record)
    requires |r.entry.name| <= 255
    ensures |RecordBytes(r)| >= 512 && RecordBytes(r)[257] != 0
  {
    hide Encode, HeaderBytes;
    EncodeStarts(r.entry);
    HeaderIsNotZero(r.entry);
  }

  /** A record is read back, and the reader stands at the next one, exactly when its entry is representable. */
  lemma RecordReadsBack(r: Record, rest: seq<byte>)
    requires WellFormed([r])
    ensures Representable(r.entry) ==> ReadMember(RecordBytes(r) + rest) == Some((r.entry, rest))
    ensures !Representable(r.entry) ==>
              var m := ReadMember(RecordBytes(r) + rest); m.None? || m.value.0 != r.entry
  {
    hide Encode, HeaderBytes, ReadMember, HeaderCarries;
    assert r in [r];
    if r.bare {
      BareHeader(r.entry, rest);
    } else {
      MemberReadsBack(r.entry, rest);
    }
  }

  /** A list of records and the trailer read back as the entries of the records exactly when all are representable. */
  lemma {:induction false} EncodingReadsBack(rs: seq<Record>)
    requires WellFormed(rs)
    ensures ReadArchive(EncodeAll(rs) + Zeros(1024)) == Some(Entries(rs))
            <==> forall r :: r in rs ==> Representable(r.entry)
  {
    hide RecordBytes, ReadMember, Representable, Entries;
    if rs == [] {
      assert EncodeAll(rs) + Zeros(1024) == Zeros(1024) == Zeros(1024)[..1024];
      assert Entries(rs) == [];
    } else {
      var r, rest := rs[0], EncodeAll(rs[1..]) + Zeros(1024);
      Assoc(RecordBytes(r), EncodeAll(rs[1..]), Zeros(1024));
      RecordStarts(r);
      RecordReadsBack(r, rest);
      ReadStep(RecordBytes(r), rest, r.entry);
      EncodingReadsBack(rs[1..]);
      assert Entries(rs) == [r.entry] + Entries(rs[1..]) by { EntriesHead(rs); }
      SameTail(r.entry, ReadArchive(rest), Entries(rs[1..]));
      assert forall x :: x in rs <==> x == r || x in rs[1..];
    }
  }

  /** What a reader makes of an archive, of whatever tree: it finds the records, stray headers among them, if and only
      if all of them are representable. */
  lemma ArchiveContents(sourceDir: cstring, root: Node)
    requires RootArchivable(sourceDir, root) && Named(root)
    ensures ReadArchive(RootBytes(sourceDir, root) + Zeros(1024)) == Some(Entries(RootRecords(sourceDir, root)))
            <==> forall r :: r in RootRecords(sourceDir, root) ==> Representable(r.entry)
  {
    RootEncodesRecords(sourceDir, root);
    RootWellFormed(sourceDir, root);
    EncodingReadsBack(RootRecords(sourceDir, root));
  }

  // ----- trees with directories that do not open -----

  lemma {:induction false} OpenRecords(prefix: cstring, children: seq<Child>)
    requires AllNamed(children) && AllChildrenOpen(children)
    ensures Entries(Records(prefix, children)) == Listing(prefix, children)
    decreases children, 0
  {
    hide Entries, NodeRecords, NodeListing;
    if children == [] {
      assert Entries([]) == [];
    } else {
      var last := children[|children| - 1];
      OpenRecords(prefix, children[..|children| - 1]);
      OpenNodeRecords(prefix + last.name, last.node);
      EntriesConcat(Records(prefix, children[..|children| - 1]), NodeRecords(prefix + last.name, last.node));
    }
  }

  lemma EntriesConcat(a: seq<Record>, b: seq<Record>)
    ensures Entries(a + b) == Entries(a) + Entries(b)
  {
  }

  lemma {:induction false} OpenNodeRecords(path: cstring, node: Node)
    requires path != [] && Named(node) && AllOpen(node)
    ensures Entries(NodeRecords(path, node)) == NodeListing(path, node)
    decreases node, 0
  {
    if node.Directory? {
      var header := Record(Describe(path + [SLASH], node.st, DIRECTORY, []), false);
      OpenRecords(path + [SLASH], node.children);
      EntriesConcat([header], Records(path + [SLASH], node.children));
      assert Entries([header]) == [header.entry];
    }
  }

  /** Where the first directory is that does not open: its stray header comes right behind its own, and the listing
      goes on with something else. */
  datatype Break = Break(before: seq<Record>, path: cstring, st: Stat, after: seq<Record>, listed: seq<Entry>)

  predicate BreaksAt(rs: seq<Record>, es: seq<Entry>, b: Break) {
    && rs == b.before + [Stray(b.path, b.st)] + b.after
    && es == Entries(b.before) + b.listed
    && b.before != []
    && b.before[|b.before| - 1] == Record(Describe(b.path + [SLASH], b.st, DIRECTORY, []), false)
  }

  function Widened(pre: seq<Record>, b: Break, post: seq<Record>, more: seq<Entry>): Break {
    Break(pre + b.before, b.path, b.st, b.after + post, b.listed + more)
  }

  /** A break in one part of a list is a break in the list. */
  lemma BreakWithin(pre: seq<Record>, rs: seq<Record>, es: seq<Entry>, b: Break, post: seq<Record>, more: seq<Entry>)
    requires BreaksAt(rs, es, b)
    ensures BreaksAt(pre + rs + post, Entries(pre) + es + more, Widened(pre, b, post, more))
  {
    assert Entries(pre + b.before) == Entries(pre) + Entries(b.before);
    assert pre + rs + post == (pre + b.before) + [Stray(b.path, b.st)] + (b.after + post);
    assert Entries(pre) + es + more == Entries(pre + b.before) + (b.listed + more);
  }

  lemma BreakBehind(pre: seq<Record>, rs: seq<Record>, es: seq<Entry>, b: Break)
    requires BreaksAt(rs, es, b)
    ensures BreaksAt(pre + rs, Entries(pre) + es, Widened(pre, b, [], []))
  {
    BreakWithin(pre, rs, es, b, [], []);
    assert pre + rs + [] == pre + rs && Entries(pre) + es + [] == Entries(pre) + es;
  }

  lemma BreakBefore(rs: seq<Record>, es: seq<Entry>, b: Break, post: seq<Record>, more: seq<Entry>)
    requires BreaksAt(rs, es, b)
    ensures BreaksAt(rs + post, es + more, Widened([], b, post, more))
  {
    BreakWithin([], rs, es, b, post, more);
    assert [] + rs + post == rs + post && Entries([]) + es + more == es + more;
  }

  lemma {:induction false} FirstBreak(prefix: cstring, children: seq<Child>) returns (b: Break)
    requires AllNamed(children) && !AllChildrenOpen(children)
    ensures BreaksAt(Records(prefix, children), Listing(prefix, children), b)
    decreases children, 0
  {
    hide BreaksAt, NodeRecords, NodeListing, Widened, AllOpen, Named, Entries;
    var init, last := children[..|children| - 1], children[|children| - 1];
    var path := prefix + last.name;
    assert children == init + [last];
    if AllChildrenOpen(init) {
      OpenRecords(prefix, init);
      b := NodeBreak(path, last.node);
      BreakBehind(Records(prefix, init), NodeRecords(path, last.node), NodeListing(path, last.node), b);
      b := Widened(Records(prefix, init), b, [], []);
    } else {
      b := FirstBreak(prefix, init);
      BreakBefore(Records(prefix, init), Listing(prefix, init), b,
                  NodeRecords(path, last.node), NodeListing(path, last.node));
      b := Widened([], b, NodeRecords(path, last.node), NodeListing(path, last.node));
    }
  }

  lemma {:induction false} NodeBreak(path: cstring, node: Node) returns (b: Break)
    requires path != [] && Named(node) && !AllOpen(node)
    ensures BreaksAt(NodeRecords(path, node), NodeListing(path, node), b)
    decreases node, 0
  {
    var header := Record(Describe(path + [SLASH], node.st, DIRECTORY, []), false);
    var below := Listing(path + [SLASH], node.children);
    assert Entries([header]) == [header.entry];
    if node.opens {
      b := FirstBreak(path + [SLASH], node.children);
      BreakBehind([header], Records(path + [SLASH], node.children), below, b);
      b := Widened([header], b, [], []);
    } else {
      b := Break([header], path, node.st, [], below);
    }
  }

  /** The header behind a break keeps the archive from being read as the listing. */
  lemma {:induction false} BreakShows(before: seq<Record>, path: cstring, st: Stat, rest: seq<byte>, listed: seq<Entry>)
    requires WellFormed(before) && |path| <= 255
    requires |path| <= 98 || (before != [] && before[|before| - 1].entry.name == path + [SLASH])
    requires forall f :: f in listed && f.typeflag == REGULAR ==> f.name != path
    ensures ReadArchive(EncodeAll(before) + (RecordBytes(Stray(path, st)) + rest)) != Some(Entries(before) + listed)
  {
    hide RecordBytes, ReadMember, Entries;
    if before == [] {
      var stray := Stray(path, st);
      var m := RecordBytes(stray);
      assert EncodeAll(before) + (m + rest) == m + rest && Entries(before) + listed == listed;
      RecordStarts(stray);
      StrayMember(path, st, rest);
      if listed == [] {
        NotTheTrailer(m, rest);
      } else {
        ReadStep(m, rest, listed[0]);
        assert listed == [listed[0]] + listed[1..];
      }
    } else {
      var r, behind := before[0], EncodeAll(before[1..]) + (RecordBytes(Stray(path, st)) + rest);
      Assoc(RecordBytes(r), EncodeAll(before[1..]), RecordBytes(Stray(path, st)) + rest);
      RecordStarts(r);
      RecordReadsBack(r, behind);
      ReadStep(RecordBytes(r), behind, r.entry);
      EntriesHead(before);
      assert Entries(before) + listed == [r.entry] + (Entries(before[1..]) + listed);
      if Representable(r.entry) {
        assert |before| == 1 ==> |path| <= 98;
        BreakShows(before[1..], path, st, rest, listed);
        SameTail(r.entry, ReadArchive(behind), Entries(before[1..]) + listed);
      }
    }
  }

  /** A reader takes the stray header for a file at the path of the directory. */
  lemma StrayMember(path: cstring, st: Stat, rest: seq<byte>)
    requires |path| <= 98
    ensures var m := ReadMember(RecordBytes(Stray(path, st)) + rest);
            m.Some? ==> m.value.0.name == path && m.value.0.typeflag == REGULAR
  {
    var e := Describe(path, st, REGULAR, []);
    MemberAfterHeader(e, rest);
    NameReadsBack(path);
  }

  lemma DifferingPaths(es: seq<Entry>, dir: Entry, path: cstring, listed: seq<Entry>)
    requires PathsDiffer(es) && dir in es && dir.typeflag == DIRECTORY && dir.name == path + [SLASH]
    requires forall f :: f in listed ==> f in es
    ensures forall f :: f in listed && f.typeflag == REGULAR ==> f.name != path
  {
  }

  lemma {:induction false} ListingNamed(prefix: cstring, children: seq<Child>)
    requires AllNamed(children)
    ensures forall e :: e in Listing(prefix, children) ==> e.name != []
    decreases children, 0
  {
    if children == [] {
    } else {
      var last := children[|children| - 1];
      ListingNamed(prefix, children[..|children| - 1]);
      if last.node.Directory? {
        ListingNamed(prefix + last.name + [SLASH], last.node.children);
      }
    }
  }

  lemma EncodeAround(before: seq<Record>, r: Record, after: seq<Record>, tail: seq<byte>)
    ensures EncodeAll(before + [r] + after) + tail == EncodeAll(before) + (RecordBytes(r) + (EncodeAll(after) + tail))
  {
    hide RecordBytes;
    EncodeAllConcat(before + [r], after);
    EncodeAllConcat(before, [r]);
    EncodeOne(r);
    ThreeParts(EncodeAll(before), RecordBytes(r), EncodeAll(after), tail);
  }

  lemma BreakSpoils(rs: seq<Record>, es: seq<Entry>, b: Break)
    requires WellFormed(rs) && BreaksAt(rs, es, b) && PathsDiffer(es)
    ensures ReadArchive(EncodeAll(rs) + Zeros(1024)) != Some(es)
  {
    hide ReadArchive, Describe, RecordBytes, PathsDiffer, EncodeAll, Stray;
    var stray, dir := Stray(b.path, b.st), b.before[|b.before| - 1];
    assert stray in rs && forall r :: r in b.before ==> r in rs;
    EncodeAround(b.before, stray, b.after, Zeros(1024));
    assert Entries(b.before)[|b.before| - 1] == dir.entry;
    DirectoryName(b.path, b.st);
    DifferingPaths(es, dir.entry, b.path, b.listed);
    BreakShows(b.before, b.path, b.st, EncodeAll(b.after) + Zeros(1024), b.listed);
  }

  /** A tree with a directory that does not open never reads back. */
  lemma ClosedTree(sourceDir: cstring, root: Node)
    requires RootArchivable(sourceDir, root) && Named(root)
    requires !AllOpen(root) && PathsDiffer(RootListing(sourceDir, root))
    ensures ReadArchive(RootBytes(sourceDir, root) + Zeros(1024)) != Some(RootListing(sourceDir, root))
  {
    hide ReadArchive, Describe, RecordBytes, BreaksAt, PathsDiffer;
    RootEncodesRecords(sourceDir, root);
    RootWellFormed(sourceDir, root);
    if root.opens {
      var b := FirstBreak([], root.children);
      BreakSpoils(Records([], root.children), Listing([], root.children), b);
    } else {
      var stray, listing := Stray([], root.st), Listing([], root.children);
      EncodeOne(stray);
      ListingNamed([], root.children);
      assert EncodeAll([]) + (RecordBytes(stray) + Zeros(1024)) == RecordBytes(stray) + Zeros(1024);
      assert Entries([]) + listing == listing;
      BreakShows([], [], root.st, Zeros(1024), listing);
    }
  }

  lemma DirectoryName(path: cstring, st: Stat)
    ensures var e := Describe(path + [SLASH], st, DIRECTORY, []); e.name == path + [SLASH] && e.typeflag == DIRECTORY
    ensures Stray(path, st).entry.name == path
  {
  }

  lemma ThreeParts(a: seq<byte>, b: seq<byte>, c: seq<byte>, d: seq<byte>)
    ensures ((a + b) + c) + d == a + (b + (c + d))
  {
  }

  /** The round trip. When the archive of a tree is created, a reader recovers exactly the listing of the tree if and
      only if every directory could be opened and every entry is representable. */
  lemma ArchiveRoundTrip(sourceDir: cstring, root: Node)
    requires RootArchivable(sourceDir, root) && Named(root)
    ensures AllOpen(root) ==>
              (ReadArchive(RootBytes(sourceDir, root) + Zeros(1024)) == Some(RootListing(sourceDir, root))
               <==> forall e :: e in RootListing(sourceDir, root) ==> Representable(e))
    ensures !AllOpen(root) && PathsDiffer(RootListing(sourceDir, root)) ==>
              ReadArchive(RootBytes(sourceDir, root) + Zeros(1024)) != Some(RootListing(sourceDir, root))
  {
    hide ReadArchive, Representable, PathsDiffer;
    if AllOpen(root) {
      ArchiveContents(sourceDir, root);
      var rs := RootRecords(sourceDir, root);
      assert Entries(rs) == RootListing(sourceDir, root) by {
        if root.Directory? { OpenRecords([], root.children); }
      }
      assert forall r :: r in rs ==> r.entry in Entries(rs);
      assert forall e :: e in Entries(rs) ==> exists r :: r in rs && r.entry == e;
    } else if PathsDiffer(RootListing(sourceDir, root)) {
      ClosedTree(sourceDir, root);
    }
  }

  /** A directory of nonzero size that does not open breaks the archive: what a reader finds is not even the members
      that were written, for it takes what follows the stray header for the contents of a file. */
  lemma ClosedDirectoryBreaks(sourceDir: cstring, root: Node, r: Record)
    requires RootArchivable(sourceDir, root) && Named(root)
    requires r in RootRecords(sourceDir, root) && r.bare && r.entry.size != 0
    ensures ReadArchive(RootBytes(sourceDir, root) + Zeros(1024)) != Some(Entries(RootRecords(sourceDir, root)))
  {
    RootWellFormed(sourceDir, root);
    ArchiveContents(sourceDir, root);
  }

  /** A directory that does not open leaves a second header behind, that of a regular file with the directory's
      size and no contents. The reader keeps its place after it exactly when that size is zero (and the other
      fields are in bounds); the walk reports success all the same. */
  lemma ClosedDirectoryHeader(rel: cstring, dir: Node, rest: seq<byte>)
    requires dir.Directory? && !dir.opens && |rel| <= 255
    ensures var e := Describe(rel, dir.st, REGULAR, []);
            ReadMember(DirectoryBytes(rel, dir) + rest) == Some((e, rest)) <==> HeaderCarries(e) && dir.st.size == 0
  {
    BareHeader(Describe(rel, dir.st, REGULAR, []), rest);
  }

  // ----- the length of an archive -----

  /** 512 for the header, and the size rounded up to a block. */
  function MemberLength(e: Entry): nat { 512 + e.size + Pad(e.size) }

  /** A stray header is one block. */
  function RecordLength(r: Record): nat { if r.bare then 512 else MemberLength(r.entry) }

  function TotalLength(rs: seq<Record>): nat {
    if rs == [] then 0 else RecordLength(rs[0]) + TotalLength(rs[1..])
  }

  predicate SizesMatch(rs: seq<Record>) {
    forall r :: r in rs && !r.bare ==> |r.entry.content| == r.entry.size
  }

  lemma RecordSize(r: Record)
    requires |r.entry.name| <= 255 && (!r.bare ==> |r.entry.content| == r.entry.size)
    ensures |RecordBytes(r)| == RecordLength(r) && RecordLength(r) % 512 == 0
  {
    hide Encode, HeaderBytes;
    EncodeStarts(r.entry);
    HeaderIsNotZero(r.entry);
  }

  lemma {:induction false} EncodingLength(rs: seq<Record>)
    requires WellFormed(rs) && SizesMatch(rs)
    ensures |EncodeAll(rs)| == TotalLength(rs) && |EncodeAll(rs)| % 512 == 0
  {
    hide RecordBytes, RecordLength;
    if rs == [] {
    } else {
      assert rs[0] in rs;
      RecordSize(rs[0]);
      EncodingLength(rs[1..]);
      Blockwise(RecordLength(rs[0]), TotalLength(rs[1..]));
    }
  }

  lemma Blockwise(a: nat, b: nat)
    requires a % 512 == 0 && b % 512 == 0
    ensures (a + b) % 512 == 0
  {
  }

  /** The archive of a tree whose reads match its sizes is made of whole blocks, whatever the chunks of the reads: one
      per member and the blocks its size needs, one for each directory that did not open, and two. */
  lemma ArchiveLength(sourceDir: cstring, root: Node)
    requires RootArchivable(sourceDir, root) && Named(root) && SizesMatch(RootRecords(sourceDir, root))
    ensures |RootBytes(sourceDir, root)| == TotalLength(RootRecords(sourceDir, root))
    ensures |RootBytes(sourceDir, root)| % 512 == 0
  {
    RootEncodesRecords(sourceDir, root);
    RootWellFormed(sourceDir, root);
    EncodingLength(RootRecords(sourceDir, root));
  }
}
