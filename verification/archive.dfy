/** The archive writer: a recursive walk over a file tree that appends to a compressed stream. */
module Archive {
  import opened Bytes
  import opened Sequences
  import opened Wrappers
  import opened UstarHeader

  // ----- the file system, as the walk sees it -----

  /** A directory may refuse to open, a regular file may refuse to open or to be read to its end, and an entry
      may be gone by the time it is looked at. What a file's reads deliver need not be what lstat announced. */
  datatype Node =
    | Directory(st: Stat, children: seq<Child>, opens: bool)
    | Regular(st: Stat, content: seq<byte>, readable: bool)
    | Other
    | Vanished
  datatype Child = Child(name: cstring, node: Node)

  function PathTo(rel: cstring, name: cstring): cstring {
    if rel == [] then name else rel + [SLASH] + name
  }

  /** What follows the last slash of a path. */
  function Basename(path: cstring): (b: cstring)
    ensures SLASH !in b && exists k :: 0 <= k <= |path| && b == path[k..] && (k > 0 ==> path[k - 1] == SLASH)
  {
    if SLASH !in path then assert path == path[0..]; path
    else
      var b := Basename(path[1..]);
      assert forall k :: 0 <= k <= |path| - 1 ==> path[1..][k..] == path[k + 1..];
      b
  }

  // ----- the stream the walk produces -----

  function Pad(size: nat): nat { (512 - size % 512) % 512 }

  /** The padding is the least that ends a block. */
  lemma PadIsLeast(size: nat, n: nat)
    ensures (size + Pad(size)) % 512 == 0
    ensures (size + n) % 512 == 0 ==> Pad(size) <= n
  {
    var r := size % 512;
    assert (size + n) % 512 == (r + n) % 512;
    if n < Pad(size) {
      assert 0 < r && r + n < 512;
    }
  }

  function HeaderBytes(e: Entry): seq<byte> {
    if |e.name| <= 255 then HeaderOf(e).Bytes() else []
  }

  /** One member: header, contents, zeros up to the block boundary. */
  function Encode(e: Entry): seq<byte> {
    HeaderBytes(e) + (e.content + Zeros(Pad(e.size)))
  }

  /** What the walk of a directory appends. A directory that does not open is taken for a file. */
  function DirectoryBytes(rel: cstring, dir: Node): seq<byte>
    requires dir.Directory?
    decreases dir, 0
  {
    if dir.opens then ChildrenBytes(rel, dir.children)
    else HeaderBytes(Describe(rel, dir.st, REGULAR, []))
  }

  function ChildrenBytes(rel: cstring, children: seq<Child>): seq<byte>
    decreases children, 0
  {
    if children == [] then []
    else
      var last := children[|children| - 1];
      ChildrenBytes(rel, children[..|children| - 1]) + NodeBytes(PathTo(rel, last.name), last.node)
  }

  function NodeBytes(path: cstring, node: Node): seq<byte>
    decreases node, 1
  {
    match node
    case Directory(st, _, _) => HeaderBytes(Describe(path + [SLASH], st, DIRECTORY, [])) + DirectoryBytes(path, node)
    case Regular(st, content, _) => Encode(Describe(path, st, REGULAR, content))
    case Other => []
    case Vanished => []
  }

  /** When the walk reports success: no path too long for its buffers or for a header, no file lost. */
  predicate Archivable(rootLen: nat, rel: cstring, dir: Node)
    requires dir.Directory?
    decreases dir, 0
  {
    && rootLen + 1 + |rel| + 1 < 8192
    && if dir.opens then ChildrenArchivable(rootLen, rel, dir.children) else |rel| <= 255
  }

  predicate ChildrenArchivable(rootLen: nat, rel: cstring, children: seq<Child>)
    decreases children, 0
  {
    children == [] ||
    var last := children[|children| - 1];
    && ChildrenArchivable(rootLen, rel, children[..|children| - 1])
    && NodeArchivable(rootLen, PathTo(rel, last.name), last.node)
  }

  predicate NodeArchivable(rootLen: nat, path: cstring, node: Node)
    decreases node, 1
  {
    match node
    case Directory(_, _, _) => |path| + 1 <= 255 && Archivable(rootLen, path, node)
    case Regular(_, _, readable) => |path| <= 255 && readable
    case Other => true
    case Vanished => false
  }

  // ----- the writer -----

  /** The compressed output, as the bytes given to gzwrite so far. */
  class GzStream {
    var data: seq<byte>

    constructor ()
      ensures data == []
    {
      data := [];
    }

    method Write(bytes: seq<byte>)
      modifies this
      ensures data == old(data) + bytes
    {
      data := data + bytes;
    }
  }

  method WriteZeros(out: GzStream, size: nat)
    modifies out
    ensures out.data == old(out.data) + Zeros(size)
  {
    var left := size;
    while left > 0
      invariant 0 <= left <= size
      invariant out.data == old(out.data) + Zeros(size - left)
    {
      var chunk := if left > 512 then 512 else left;
      out.Write(Zeros(chunk));
      assert Zeros(size - left) + Zeros(chunk) == Zeros(size - (left - chunk));
      left := left - chunk;
    }
  }

  method WriteTarHeader(out: GzStream, name: cstring, st: Stat, typeflag: byte) returns (rc: int)
    modifies out
    ensures rc == (if |name| <= 255 then 0 else -1)
    ensures out.data == old(out.data) + HeaderBytes(Describe(name, st, typeflag, []))
    ensures rc == 0 ==> Says(out.data[|old(out.data)|..], name, st, typeflag)
  {
    hide Says;
    var hdr := FillHeader(name, st, typeflag);
    if hdr.None? {
      return -1;
    }
    out.Write(hdr.value.Bytes());
    assert out.data[|old(out.data)|..] == hdr.value.Bytes();
    rc := 0;
  }

  /** read(2): some bytes, at most max of them, and none only at the end of the file. */
  method ReadChunk(content: seq<byte>, pos: nat, max: nat) returns (n: nat)
    requires pos <= |content| && max > 0
    ensures n <= max && pos + n <= |content|
    ensures n == 0 <==> pos == |content|
  {
    if pos == |content| {
      n := 0;
    } else {
      assert 1 <= max && pos + 1 <= |content|;
      n :| 1 <= n <= max && pos + n <= |content|;
    }
  }

  /** The contents are copied in chunks of whatever size the reads return; the padding follows st_size. */
  method WriteFileContents(out: GzStream, st: Stat, content: seq<byte>, readable: bool) returns (rc: int)
    modifies out
    ensures rc == (if readable then 0 else -1)
    ensures readable ==> out.data == old(out.data) + (content + Zeros(Pad(st.size)))
    ensures old(out.data) <= out.data <= old(out.data) + (content + Zeros(Pad(st.size)))
  {
    var refused: bool := *;
    PrefixAfter(out.data, [], content + Zeros(Pad(st.size)));
    if !readable && refused {
      return -1;
    }
    var pos := 0;
    var r := ReadChunk(content, 0, 8192);
    while r > 0
      invariant 0 <= pos && 0 <= r && pos + r <= |content|
      invariant r == 0 <==> pos == |content|
      invariant out.data == old(out.data) + content[..pos]
      decreases |content| - pos
    {
      out.Write(content[pos..pos + r]);
      assert content[..pos] + content[pos..pos + r] == content[..pos + r];
      pos := pos + r;
      PrefixAfter(old(out.data), content[..pos], content + Zeros(Pad(st.size)));
      var failed: bool := *;
      if !readable && failed {
        return -1;
      }
      r := ReadChunk(content, pos, 8192);
    }
    assert content[..pos] == content;
    PrefixAfter(old(out.data), content, content + Zeros(Pad(st.size)));
    if !readable {
      return -1;
    }
    var pad := (512 - st.size % 512) % 512;
    if pad != 0 {
      WriteZeros(out, pad);
    } else {
      assert out.data == out.data + Zeros(0);
    }
    rc := 0;
  }

  method ArchivePathRecursive(out: GzStream, rootLen: nat, rel: cstring, dir: Node) returns (rc: int)
    requires dir.Directory?
    modifies out
    ensures rc == (if Archivable(rootLen, rel, dir) then 0 else -1)
    ensures rc == 0 ==> out.data == old(out.data) + DirectoryBytes(rel, dir)
    ensures old(out.data) <= out.data <= old(out.data) + DirectoryBytes(rel, dir)
    decreases dir, 0
  {
    if rootLen + 1 + |rel| + 1 >= 8192 {
      return -1;
    }
    if !dir.opens {
      rc := WriteTarHeader(out, rel, dir.st, REGULAR);
      return;
    }
    rc := ArchiveChildren(out, rootLen, rel, dir.children);
  }

  /** The walk's loop over the entries of an open directory. */
  method ArchiveChildren(out: GzStream, rootLen: nat, rel: cstring, children: seq<Child>) returns (rc: int)
    modifies out
    ensures rc == (if ChildrenArchivable(rootLen, rel, children) then 0 else -1)
    ensures rc == 0 ==> out.data == old(out.data) + ChildrenBytes(rel, children)
    ensures old(out.data) <= out.data <= old(out.data) + ChildrenBytes(rel, children)
    decreases children, 0
  {
    for i := 0 to |children|
      invariant ChildrenArchivable(rootLen, rel, children[..i])
      invariant out.data == old(out.data) + ChildrenBytes(rel, children[..i])
    {
      assert children[..i + 1][..i] == children[..i];
      rc := ArchiveChild(out, rootLen, PathTo(rel, children[i].name), children[i].node);
      if rc != 0 {
        if ChildrenArchivable(rootLen, rel, children) { ArchivablePrefix(rootLen, rel, children, i + 1); }
        ChildrenPrefix(rel, children, i + 1);
        Assoc(old(out.data), ChildrenBytes(rel, children[..i]),
              NodeBytes(PathTo(rel, children[i].name), children[i].node));
        PrefixAfter(old(out.data), ChildrenBytes(rel, children[..i + 1]), ChildrenBytes(rel, children));
        return -1;
      }
      Assoc(old(out.data), ChildrenBytes(rel, children[..i]),
            NodeBytes(PathTo(rel, children[i].name), children[i].node));
    }
    assert children[..|children|] == children;
    rc := 0;
  }

  /** The body of the walk's loop. */
  method ArchiveChild(out: GzStream, rootLen: nat, relname: cstring, node: Node) returns (rc: int)
    modifies out
    ensures rc == (if NodeArchivable(rootLen, relname, node) then 0 else -1)
    ensures rc == 0 ==> out.data == old(out.data) + NodeBytes(relname, node)
    ensures old(out.data) <= out.data <= old(out.data) + NodeBytes(relname, node)
    decreases node, 2
  {
    match node {
      case Vanished =>
        return -1;
      case Directory(st, _, _) =>
        rc := ArchiveSubdirectory(out, rootLen, relname, node);
      case Regular(st, content, readable) =>
        rc := ArchiveFile(out, relname, st, content, readable);
      case Other =>
        rc := 0;
    }
  }

  /** Header of a directory, its name ended by a slash, and the members below it. */
  method ArchiveSubdirectory(out: GzStream, rootLen: nat, relname: cstring, dir: Node) returns (rc: int)
    requires dir.Directory?
    modifies out
    ensures rc == (if |relname| + 1 <= 255 && Archivable(rootLen, relname, dir) then 0 else -1)
    ensures rc == 0 ==> out.data == old(out.data) + NodeBytes(relname, dir)
    ensures old(out.data) <= out.data <= old(out.data) + NodeBytes(relname, dir)
    decreases dir, 1
  {
    rc := WriteTarHeader(out, relname + [SLASH], dir.st, DIRECTORY);
    if rc != 0 { return; }
    rc := ArchivePathRecursive(out, rootLen, relname, dir);
    Assoc(old(out.data), HeaderBytes(Describe(relname + [SLASH], dir.st, DIRECTORY, [])), DirectoryBytes(relname, dir));
  }

  lemma PrefixAfter(a: seq<byte>, b: seq<byte>, c: seq<byte>)
    requires b <= c
    ensures a + b <= a + c
  {
  }

  /** The first children come first. */
  lemma {:induction false} ChildrenPrefix(rel: cstring, children: seq<Child>, n: nat)
    requires n <= |children|
    ensures ChildrenBytes(rel, children[..n]) <= ChildrenBytes(rel, children)
  {
    if n == |children| {
      assert children[..n] == children;
    } else {
      ChildrenPrefix(rel, children[..|children| - 1], n);
      assert children[..|children| - 1][..n] == children[..n];
    }
  }

  lemma {:induction false} ArchivablePrefix(rootLen: nat, rel: cstring, children: seq<Child>, n: nat)
    requires n <= |children| && ChildrenArchivable(rootLen, rel, children)
    ensures ChildrenArchivable(rootLen, rel, children[..n])
  {
    if n == |children| {
      assert children[..n] == children;
    } else {
      ArchivablePrefix(rootLen, rel, children[..|children| - 1], n);
      assert children[..|children| - 1][..n] == children[..n];
    }
  }

  /** Header and contents of a regular file. */
  method ArchiveFile(out: GzStream, name: cstring, st: Stat, content: seq<byte>, readable: bool) returns (rc: int)
    modifies out
    ensures rc == (if |name| <= 255 && readable then 0 else -1)
    ensures rc == 0 ==> out.data == old(out.data) + Encode(Describe(name, st, REGULAR, content))
    ensures old(out.data) <= out.data <= old(out.data) + Encode(Describe(name, st, REGULAR, content))
  {
    rc := WriteTarHeader(out, name, st, REGULAR);
    if rc != 0 { return; }
    rc := WriteFileContents(out, st, content, readable);
    HeaderIgnoresContent(Describe(name, st, REGULAR, content));
    Assoc(old(out.data), HeaderBytes(Describe(name, st, REGULAR, content)), content + Zeros(Pad(st.size)));
  }

  lemma HeaderIgnoresContent(e: Entry)
    ensures HeaderBytes(e) == HeaderBytes(e.(content := []))
  {
  }

  /** Two zero blocks end the archive. */
  method WriteTrailer(out: GzStream)
    modifies out
    ensures out.data == old(out.data) + Zeros(1024)
  {
    WriteZeros(out, 512);
    WriteZeros(out, 512);
    assert Zeros(512) + Zeros(512) == Zeros(1024);
  }

  /** What a whole archive holds before the two final blocks, when its creation succeeds. */
  function RootBytes(sourceDir: cstring, root: Node): seq<byte> {
    match root
    case Directory(_, _, _) => DirectoryBytes([], root)
    case Regular(st, content, _) => Encode(Describe(Basename(sourceDir), st, REGULAR, content))
    case _ => []
  }

  predicate RootArchivable(sourceDir: cstring, root: Node) {
    match root
    case Directory(_, _, _) => Archivable(|sourceDir|, [], root)
    case Regular(_, _, readable) => |Basename(sourceDir)| <= 255 && readable
    case _ => false
  }

  /** rrd_archive_create: names may be missing, the output may not open, and the finished file may turn out to be
      missing or empty, which is looked at whenever the root was one to archive. */
  method CreateArchive(out: GzStream, sourceDir: Option<cstring>, archiveName: Option<cstring>, root: Node,
                       gzOpens: bool, finished: bool)
    returns (rc: int)
    requires out.data == []
    modifies out
    ensures rc == if sourceDir.None? || archiveName.None? then -1
                  else if !gzOpens || !(root.Directory? || root.Regular?) then -2
                  else if !finished then -3
                  else if RootArchivable(sourceDir.value, root) then 0 else -2
    ensures rc == 0 ==> out.data == RootBytes(sourceDir.value, root) + Zeros(1024)
    ensures sourceDir.None? || !RootArchivable(sourceDir.value, root) ==>
              out.data <= (if sourceDir.None? then [] else RootBytes(sourceDir.value, root))
  {
    if sourceDir.None? || archiveName.None? {
      return -1;
    }
    if !gzOpens {
      return -2;
    }
    match root {
      case Vanished =>
        return -2;
      case Directory(_, _, _) =>
        rc := ArchivePathRecursive(out, |sourceDir.value|, [], root);
      case Regular(st, content, readable) =>
        rc := ArchiveFile(out, Basename(sourceDir.value), st, content, readable);
      case Other =>
        return -2;
    }
    assert out.data <= RootBytes(sourceDir.value, root);
    if rc == 0 {
      assert out.data == RootBytes(sourceDir.value, root);
      WriteTrailer(out);
    }
    if !finished {
      return -3;
    }
    rc := if rc == 0 then 0 else -2;
  }
}
