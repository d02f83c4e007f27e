/** What the archive of a tree is about, place by place: every node below the root has a place, the numbers of the
    children on the way to it. */
module TreePaths {
  import opened Archive
  import opened ArchiveReader
  import opened Bytes
  import opened UstarHeader
  import opened Wrappers

  type Place = seq<nat>

  /** The node at a place. */
  function NodeAt(children: seq<Child>, place: Place): Option<Node>
    decreases |place|
  {
    if place == [] || place[0] >= |children| then None
    else
      var node := children[place[0]].node;
      if |place| == 1 then Some(node)
      else if node.Directory? then NodeAt(node.children, place[1..])
      else None
  }

  /** The path to it: the names on the way, joined by slashes. */
  function PathAt(children: seq<Child>, place: Place): cstring
    requires NodeAt(children, place).Some?
    decreases |place|
  {
    var c := children[place[0]];
    if |place| == 1 then c.name else c.name + [47] + PathAt(c.node.children, place[1..])
  }

  /** Pre-order: a directory comes before what is below it, and a child with all below it before a later one. */
  predicate Before(a: Place, b: Place)
    decreases |a|
  {
    b != [] && (a == [] || a[0] < b[0] || (a[0] == b[0] && Before(a[1..], b[1..])))
  }

  predicate IsListed(node: Node) { node.Directory? || node.Regular? }

  /** An entry says of a node what lstat and the reads say. */
  predicate EntryFor(e: Entry, path: cstring, node: Node) {
    match node
    case Directory(st, _, _) =>
      e.name == path + [47] && e.typeflag == 53 && e.size == 0 && e.content == [] && SameStat(e, st)
    case Regular(st, content, _) =>
      e.name == path && e.typeflag == 48 && e.size == st.size && e.content == content && SameStat(e, st)
    case _ => false
  }

  predicate SameStat(e: Entry, st: Stat) {
    && e.mode == st.mode % 4096 && e.uid == st.uid && e.gid == st.gid && e.mtime == st.mtime
    && e.uname == st.uname && e.gname == st.gname
  }

  // ----- the listing, place by place -----

  function Below(i: nat, places: seq<Place>): (r: seq<Place>)
    ensures |r| == |places| && forall k :: 0 <= k < |r| ==> r[k] == [i] + places[k]
  {
    seq(|places|, k requires 0 <= k < |places| => [i] + places[k])
  }

  /** The places of the directories and regular files, in pre-order. */
  function Places(children: seq<Child>): seq<Place>
    decreases children
  {
    if children == [] then []
    else
      var i, node := |children| - 1, children[|children| - 1].node;
      Places(children[..i]) + NodePlaces(i, node)
  }

  function NodePlaces(i: nat, node: Node): seq<Place>
    decreases node
  {
    match node
    case Directory(_, below, _) => [[i]] + Below(i, Places(below))
    case Regular(_, _, _) => [[i]]
    case _ => []
  }

  lemma NodeAtInit(children: seq<Child>, n: nat, place: Place)
    requires n <= |children| && place != [] && place[0] < n
    ensures NodeAt(children[..n], place) == NodeAt(children, place)
    ensures NodeAt(children, place).Some? ==> PathAt(children[..n], place) == PathAt(children, place)
  {
  }

  lemma NodeAtBelow(children: seq<Child>, i: nat, place: Place)
    requires i < |children| && children[i].node.Directory? && place != []
    ensures NodeAt(children, [i] + place) == NodeAt(children[i].node.children, place)
    ensures NodeAt(children[i].node.children, place).Some? ==>
              PathAt(children, [i] + place) == children[i].name + [47] + PathAt(children[i].node.children, place)
  {
    assert ([i] + place)[1..] == place;
  }

  /** Every place listed is one of a directory or a regular file. */
  lemma {:induction false} PlacesAreListed(children: seq<Child>, k: nat)
    requires k < |Places(children)|
    ensures var place := Places(children)[k];
            && place != [] && place[0] < |children|
            && NodeAt(children, place).Some? && IsListed(NodeAt(children, place).value)
    decreases children
  {
    var i, node := |children| - 1, children[|children| - 1].node;
    var init := Places(children[..i]);
    var place := Places(children)[k];
    if k < |init| {
      PlacesAreListed(children[..i], k);
      NodeAtInit(children, i, place);
    } else if k > |init| {
      PlacesAreListed(node.children, k - |init| - 1);
      NodeAtBelow(children, i, Places(node.children)[k - |init| - 1]);
    }
  }

  /** And every directory and regular file is at a place listed. */
  lemma {:induction false} PlacesComplete(children: seq<Child>, place: Place)
    requires NodeAt(children, place).Some? && IsListed(NodeAt(children, place).value)
    ensures place in Places(children)
    decreases children
  {
    var i, node := |children| - 1, children[|children| - 1].node;
    if place[0] < i {
      NodeAtInit(children, i, place);
      PlacesComplete(children[..i], place);
    } else if |place| == 1 {
      assert place == [i];
    } else {
      assert place == [i] + place[1..];
      PlacesComplete(node.children, place[1..]);
      var k :| 0 <= k < |Places(node.children)| && Places(node.children)[k] == place[1..];
      assert Below(i, Places(node.children))[k] == place;
    }
  }

  lemma BeforeBelow(i: nat, a: Place, b: Place)
    ensures Before([i] + a, [i] + b) <==> Before(a, b)
  {
    assert ([i] + a)[1..] == a && ([i] + b)[1..] == b;
  }

  /** The places are in pre-order, so none is there twice. */
  lemma {:induction false} PlacesInOrder(children: seq<Child>, j: nat, k: nat)
    requires j < k < |Places(children)|
    ensures Before(Places(children)[j], Places(children)[k])
    decreases children
  {
    var i, node := |children| - 1, children[|children| - 1].node;
    var n := |Places(children[..i])|;
    if k < n {
      PlacesInOrder(children[..i], j, k);
    } else if j < n {
      PlacesAreListed(children[..i], j);
    } else if j == n {
      PlacesAreListed(node.children, k - n - 1);
      BeforeBelow(i, [], Places(node.children)[k - n - 1]);
    } else {
      PlacesInOrder(node.children, j - n - 1, k - n - 1);
      BeforeBelow(i, Places(node.children)[j - n - 1], Places(node.children)[k - n - 1]);
    }
  }

  /** Entries that say of each place, in order, what is there. */
  predicate ListsTree(es: seq<Entry>, prefix: cstring, children: seq<Child>) {
    && |es| == |Places(children)|
    && forall k :: 0 <= k < |es| ==>
         var place := Places(children)[k];
         && NodeAt(children, place).Some?
         && EntryFor(es[k], prefix + PathAt(children, place), NodeAt(children, place).value)
  }

  /** No two lists do. */
  lemma OneListing(es: seq<Entry>, fs: seq<Entry>, prefix: cstring, children: seq<Child>)
    requires ListsTree(es, prefix, children) && ListsTree(fs, prefix, children)
    ensures es == fs
  {
    forall k | 0 <= k < |es|
      ensures es[k] == fs[k]
    {
      assert Places(children)[k] == Places(children)[k];
    }
  }

  lemma {:induction false} ListingListsTree(prefix: cstring, children: seq<Child>)
    ensures ListsTree(Listing(prefix, children), prefix, children)
    decreases children
  {
    if children == [] {
    } else {
      var i, last := |children| - 1, children[|children| - 1];
      ListingListsTree(prefix, children[..i]);
      if last.node.Directory? {
        ListingListsTree(prefix + last.name + [47], last.node.children);
      }
      LastChildLists(prefix, children);
    }
  }

  lemma LastChildLists(prefix: cstring, children: seq<Child>)
    requires children != []
    requires ListsTree(Listing(prefix, children[..|children| - 1]), prefix, children[..|children| - 1])
    requires var last := children[|children| - 1];
             last.node.Directory? ==>
               ListsTree(Listing(prefix + last.name + [47], last.node.children),
                         prefix + last.name + [47], last.node.children)
    ensures ListsTree(Listing(prefix, children), prefix, children)
  {
    var es := Listing(prefix, children);
    ListingLength(prefix, children);
    forall k | 0 <= k < |es|
      ensures var place := Places(children)[k];
              && NodeAt(children, place).Some?
              && EntryFor(es[k], prefix + PathAt(children, place), NodeAt(children, place).value)
    {
      EntryOfLast(prefix, children, k);
    }
  }

  lemma EntryOfLast(prefix: cstring, children: seq<Child>, k: nat)
    requires children != [] && k < |Listing(prefix, children)| == |Places(children)|
    requires ListsTree(Listing(prefix, children[..|children| - 1]), prefix, children[..|children| - 1])
    requires var last := children[|children| - 1];
             last.node.Directory? ==>
               ListsTree(Listing(prefix + last.name + [47], last.node.children),
                         prefix + last.name + [47], last.node.children)
    ensures var place := Places(children)[k];
            && NodeAt(children, place).Some?
            && EntryFor(Listing(prefix, children)[k], prefix + PathAt(children, place), NodeAt(children, place).value)
  {
    hide EntryFor, PathAt, NodeAt, Places, Listing, NodePlaces, NodeListing, ListsTree;
    var i := |children| - 1;
    var n := |Places(children[..i])|;
    AsManyAsPlaces(Listing(prefix, children[..i]), prefix, children[..i]);
    if k < n {
      LastParts(prefix, children);
      EntryOfInit(prefix, children, k);
    } else if k == n {
      LastParts(prefix, children);
      FirstOfLast(prefix, children);
    } else {
      BelowLast(prefix, children, k, n);
      EntryBelowLast(prefix, children, k - n - 1);
    }
  }

  /** Behind the first of the last child comes what is below it. */
  lemma BelowLast(prefix: cstring, children: seq<Child>, k: nat, n: nat)
    requires children != [] && n < k < |Listing(prefix, children)| == |Places(children)|
    requires n == |Listing(prefix, children[..|children| - 1])| == |Places(children[..|children| - 1])|
    ensures children[|children| - 1].node.Directory?
    ensures var i, last := |children| - 1, children[|children| - 1];
            && var below := Listing(prefix + last.name + [47], last.node.children);
            && k - n - 1 < |below| && k - n - 1 < |Places(last.node.children)|
            && Listing(prefix, children)[k] == below[k - n - 1]
            && Places(children)[k] == [i] + Places(last.node.children)[k - n - 1]
  {
    LastParts(prefix, children);
    hide Places, Listing, NodePlaces, NodeListing;
    var i, last := |children| - 1, children[|children| - 1];
    var es, places := NodeListing(prefix + last.name, last.node), NodePlaces(i, last.node);
    assert Listing(prefix, children)[k] == es[k - n] && Places(children)[k] == places[k - n];
    assert es[k - n] == es[1..][k - n - 1] && places[k - n] == places[1..][k - n - 1];
  }

  lemma AsManyAsPlaces(es: seq<Entry>, prefix: cstring, children: seq<Child>)
    requires ListsTree(es, prefix, children)
    ensures |es| == |Places(children)|
  {
  }

  lemma ListingLength(prefix: cstring, children: seq<Child>)
    requires children != []
    requires ListsTree(Listing(prefix, children[..|children| - 1]), prefix, children[..|children| - 1])
    requires var last := children[|children| - 1];
             last.node.Directory? ==>
               ListsTree(Listing(prefix + last.name + [47], last.node.children),
                         prefix + last.name + [47], last.node.children)
    ensures |Listing(prefix, children)| == |Places(children)|
  {
    LastParts(prefix, children);
    hide Places, Listing, NodePlaces, NodeListing, ListsTree;
    var i, last := |children| - 1, children[|children| - 1];
    AsManyAsPlaces(Listing(prefix, children[..i]), prefix, children[..i]);
    if last.node.Directory? {
      AsManyAsPlaces(Listing(prefix + last.name + [47], last.node.children), prefix + last.name + [47],
                     last.node.children);
    }
  }

  /** Listing and places of the last child come last, and go together. */
  lemma LastParts(prefix: cstring, children: seq<Child>)
    requires children != []
    ensures var i, last := |children| - 1, children[|children| - 1];
            var es, places := NodeListing(prefix + last.name, last.node), NodePlaces(i, last.node);
            && Listing(prefix, children) == Listing(prefix, children[..i]) + es
            && Places(children) == Places(children[..i]) + places
            && (IsListed(last.node) ==> es != [] && places != [] && places[0] == [i])
            && (!IsListed(last.node) ==> es == [] && places == [])
            && (last.node.Regular? ==> |es| == |places| == 1)
            && (last.node.Directory? ==>
                  && es[1..] == Listing(prefix + last.name + [47], last.node.children)
                  && places[1..] == Below(i, Places(last.node.children)))
  {
  }

  lemma EntryOfInit(prefix: cstring, children: seq<Child>, k: nat)
    requires children != [] && k < |Listing(prefix, children[..|children| - 1])|
    requires ListsTree(Listing(prefix, children[..|children| - 1]), prefix, children[..|children| - 1])
    ensures |Listing(prefix, children[..|children| - 1])| == |Places(children[..|children| - 1])|
    ensures var place := Places(children[..|children| - 1])[k];
            && NodeAt(children, place).Some?
            && EntryFor(Listing(prefix, children[..|children| - 1])[k],
                        prefix + PathAt(children, place), NodeAt(children, place).value)
  {
    hide EntryFor, PathAt, NodeAt, Places, Listing;
    var i := |children| - 1;
    PlacesAreListed(children[..i], k);
    NodeAtInit(children, i, Places(children[..i])[k]);
  }

  lemma EntryBelowLast(prefix: cstring, children: seq<Child>, k: nat)
    requires children != [] && children[|children| - 1].node.Directory?
    requires var last := children[|children| - 1];
             && ListsTree(Listing(prefix + last.name + [47], last.node.children),
                          prefix + last.name + [47], last.node.children)
             && k < |Listing(prefix + last.name + [47], last.node.children)|
    ensures var i, last := |children| - 1, children[|children| - 1];
            && |Listing(prefix + last.name + [47], last.node.children)| == |Places(last.node.children)|
            && var place := [i] + Places(last.node.children)[k];
               && NodeAt(children, place).Some?
               && EntryFor(Listing(prefix + last.name + [47], last.node.children)[k],
                           prefix + PathAt(children, place), NodeAt(children, place).value)
  {
    hide EntryFor, PathAt, NodeAt, Places, Listing;
    var i, last := |children| - 1, children[|children| - 1];
    var below := last.node.children;
    var place := Places(below)[k];
    PlacesAreListed(below, k);
    NodeAtBelow(children, i, place);
    assert prefix + (last.name + [47] + PathAt(below, place)) == (prefix + last.name + [47]) + PathAt(below, place);
  }

  lemma FirstOfLast(prefix: cstring, children: seq<Child>)
    requires children != [] && IsListed(children[|children| - 1].node)
    ensures var i, last := |children| - 1, children[|children| - 1];
            && NodeAt(children, [i]) == Some(last.node) && PathAt(children, [i]) == last.name
            && NodeListing(prefix + last.name, last.node) != []
            && EntryFor(NodeListing(prefix + last.name, last.node)[0], prefix + last.name, last.node)
  {
  }

  // ----- the round trip, place by place -----

  /** What the format can carry of a node. */
  predicate FitsFormat(path: cstring, node: Node) {
    match node
    case Directory(st, _, _) => |path| <= 98 && StatFits(st)
    case Regular(st, content, _) => |path| <= 99 && StatFits(st) && st.size < 8589934592 && |content| == st.size
    case _ => true
  }

  predicate StatFits(st: Stat) {
    && st.uid < 2097152 && st.gid < 2097152 && 0 <= st.mtime < 8589934592
    && |st.uname| <= 31 && |st.gname| <= 31
  }

  ghost predicate TreeFits(children: seq<Child>) {
    forall place :: NodeAt(children, place).Some? ==> FitsFormat(PathAt(children, place), NodeAt(children, place).value)
  }

  lemma EntryFits(e: Entry, path: cstring, node: Node)
    requires EntryFor(e, path, node)
    ensures Representable(e) <==> FitsFormat(path, node)
  {
    SevenDigits();
  }

  /** When the archive of a directory is created and every directory below could be opened, a reader finds an entry for
      every directory and every regular file, in pre-order, with the fields lstat gave and the contents the reads gave,
      if and only if the format can carry each of them. */
  lemma TreeRecovered(sourceDir: cstring, root: Node)
    requires root.Directory? && RootArchivable(sourceDir, root) && Named(root) && AllOpen(root)
    ensures var read := ReadArchive(RootBytes(sourceDir, root) + Zeros(1024));
            (read.Some? && ListsTree(read.value, [], root.children)) <==> TreeFits(root.children)
  {
    hide ReadArchive, Representable, TreeFits, ListsTree, RootArchivable;
    var es := Listing([], root.children);
    ArchiveRoundTrip(sourceDir, root);
    ListingListsTree([], root.children);
    assert RootListing(sourceDir, root) == es;
    var read := ReadArchive(RootBytes(sourceDir, root) + Zeros(1024));
    if read.Some? && ListsTree(read.value, [], root.children) {
      OneListing(read.value, es, [], root.children);
    }
    assert (read.Some? && ListsTree(read.value, [], root.children)) <==> read == Some(es);
    AllFit(root.children);
  }

  lemma AllFit(children: seq<Child>)
    ensures (forall e :: e in Listing([], children) ==> Representable(e)) <==> TreeFits(children)
  {
    hide Representable;
    var es := Listing([], children);
    ListingListsTree([], children);
    forall k | 0 <= k < |es|
      ensures var place := Places(children)[k];
              Representable(es[k]) <==> FitsFormat(PathAt(children, place), NodeAt(children, place).value)
    {
      EntryFits(es[k], PathAt(children, Places(children)[k]), NodeAt(children, Places(children)[k]).value);
    }
    if forall e :: e in es ==> Representable(e) {
      forall place | NodeAt(children, place).Some?
        ensures FitsFormat(PathAt(children, place), NodeAt(children, place).value)
      {
        if IsListed(NodeAt(children, place).value) {
          PlacesComplete(children, place);
          var k :| 0 <= k < |Places(children)| && Places(children)[k] == place;
          assert es[k] in es;
        }
      }
    }
  }

  // ----- when the walk succeeds, place by place -----

  /** The walk gets to a place when every directory on the way opens. */
  predicate Reached(children: seq<Child>, place: Place)
    requires NodeAt(children, place).Some?
    decreases |place|
  {
    |place| == 1 || (children[place[0]].node.opens && Reached(children[place[0]].node.children, place[1..]))
  }

  /** What the walk wants of a node: not gone, a file readable to its end, and a path that fits a header and the
      buffers of the walk. */
  predicate Fine(rootLen: nat, path: cstring, node: Node) {
    match node
    case Directory(_, _, _) => |path| <= 254 && rootLen + |path| + 2 < 8192
    case Regular(_, _, readable) => |path| <= 255 && readable
    case Other => true
    case Vanished => false
  }

  ghost predicate AllFine(rootLen: nat, rel: cstring, children: seq<Child>) {
    forall place :: NodeAt(children, place).Some? && Reached(children, place) ==>
      Fine(rootLen, PrefixOf(rel) + PathAt(children, place), NodeAt(children, place).value)
  }

  lemma ReachedInit(children: seq<Child>, n: nat, place: Place)
    requires n <= |children| && place != [] && place[0] < n && NodeAt(children, place).Some?
    ensures NodeAt(children[..n], place).Some? && Reached(children[..n], place) == Reached(children, place)
  {
    NodeAtInit(children, n, place);
  }

  lemma {:induction false} ChildrenFine(rootLen: nat, rel: cstring, children: seq<Child>)
    requires AllNamed(children)
    ensures ChildrenArchivable(rootLen, rel, children) <==> AllFine(rootLen, rel, children)
    decreases children, 0
  {
    if children == [] {
    } else {
      var i, last := |children| - 1, children[|children| - 1];
      ChildrenFine(rootLen, rel, children[..i]);
      var path := PathTo(rel, last.name);
      assert path == PrefixOf(rel) + last.name;
      NodeFine(rootLen, path, last.node);
      SplitFine(rootLen, rel, children);
    }
  }

  /** All is fine at a node and, if it opens, below it. */
  ghost predicate FineFrom(rootLen: nat, path: cstring, node: Node) {
    Fine(rootLen, path, node) && (node.Directory? && node.opens ==> AllFine(rootLen, path, node.children))
  }

  lemma {:induction false} NodeFine(rootLen: nat, path: cstring, node: Node)
    requires path != [] && Named(node)
    ensures NodeArchivable(rootLen, path, node) <==> FineFrom(rootLen, path, node)
    decreases node, 0
  {
    hide AllFine;
    if node.Directory? && node.opens {
      ChildrenFine(rootLen, path, node.children);
    }
  }

  lemma SplitFine(rootLen: nat, rel: cstring, children: seq<Child>)
    requires children != [] && children[|children| - 1].name != []
    ensures var i, last := |children| - 1, children[|children| - 1];
            AllFine(rootLen, rel, children) <==>
              AllFine(rootLen, rel, children[..i]) && FineFrom(rootLen, PrefixOf(rel) + last.name, last.node)
  {
    var i, last := |children| - 1, children[|children| - 1];
    if AllFine(rootLen, rel, children) {
      InitFine(rootLen, rel, children);
      LastFine(rootLen, rel, children);
    }
    if AllFine(rootLen, rel, children[..i]) && FineFrom(rootLen, PrefixOf(rel) + last.name, last.node) {
      JoinFine(rootLen, rel, children);
    }
  }

  lemma InitFine(rootLen: nat, rel: cstring, children: seq<Child>)
    requires children != [] && AllFine(rootLen, rel, children)
    ensures AllFine(rootLen, rel, children[..|children| - 1])
  {
    var i := |children| - 1;
    forall place | NodeAt(children[..i], place).Some? && Reached(children[..i], place)
      ensures Fine(rootLen, PrefixOf(rel) + PathAt(children[..i], place), NodeAt(children[..i], place).value)
    {
      NodeAtInit(children, i, place);
      ReachedInit(children, i, place);
    }
  }

  lemma LastFine(rootLen: nat, rel: cstring, children: seq<Child>)
    requires children != [] && children[|children| - 1].name != [] && AllFine(rootLen, rel, children)
    ensures FineFrom(rootLen, PrefixOf(rel) + children[|children| - 1].name, children[|children| - 1].node)
  {
    var i, last := |children| - 1, children[|children| - 1];
    var path := PrefixOf(rel) + last.name;
    assert NodeAt(children, [i]) == Some(last.node) && Reached(children, [i]) && PathAt(children, [i]) == last.name;
    if last.node.Directory? && last.node.opens {
      forall place | NodeAt(last.node.children, place).Some? && Reached(last.node.children, place)
        ensures Fine(rootLen, PrefixOf(path) + PathAt(last.node.children, place),
                     NodeAt(last.node.children, place).value)
      {
        NodeAtBelow(children, i, place);
        assert ([i] + place)[1..] == place && Reached(children, [i] + place);
        assert PrefixOf(rel) + (last.name + [47] + PathAt(last.node.children, place))
               == PrefixOf(path) + PathAt(last.node.children, place);
      }
    }
  }

  lemma JoinFine(rootLen: nat, rel: cstring, children: seq<Child>)
    requires children != [] && children[|children| - 1].name != []
    requires AllFine(rootLen, rel, children[..|children| - 1])
    requires FineFrom(rootLen, PrefixOf(rel) + children[|children| - 1].name, children[|children| - 1].node)
    ensures AllFine(rootLen, rel, children)
  {
    var i, last := |children| - 1, children[|children| - 1];
    var path := PrefixOf(rel) + last.name;
    forall place | NodeAt(children, place).Some? && Reached(children, place)
      ensures Fine(rootLen, PrefixOf(rel) + PathAt(children, place), NodeAt(children, place).value)
    {
      if place[0] < i {
        NodeAtInit(children, i, place);
        ReachedInit(children, i, place);
      } else if |place| > 1 {
        assert PrefixOf(rel) + (last.name + [47] + PathAt(last.node.children, place[1..]))
               == PrefixOf(path) + PathAt(last.node.children, place[1..]);
      }
    }
  }

  /** Creating the archive of a directory succeeds exactly when everything the walk gets to is as it wants it, and the
      path of the root leaves room in its buffers. */
  lemma ArchivedWhen(sourceDir: cstring, root: Node)
    requires root.Directory? && Named(root)
    ensures RootArchivable(sourceDir, root) <==>
              |sourceDir| + 2 < 8192 && (root.opens ==> AllFine(|sourceDir|, [], root.children))
  {
    hide AllFine;
    if root.opens {
      ChildrenFine(|sourceDir|, [], root.children);
    }
  }

  // ----- a single file -----

  /** The archive of a single file holds it under what follows the last slash of its path. */
  lemma FileRecovered(dir: cstring, base: cstring, st: Stat, content: seq<byte>)
    requires 47 !in base && |base| <= 255
    ensures var file := Regular(st, content, true);
            var read := ReadArchive(RootBytes(dir + [47] + base, file) + Zeros(1024));
            && RootArchivable(dir + [47] + base, file)
            && ((read.Some? && |read.value| == 1 && EntryFor(read.value[0], base, file)) <==> FitsFormat(base, file))
  {
    hide ReadArchive, Representable, EntryFor, FitsFormat, RootBytes, Basename;
    var file := Regular(st, content, true);
    var path := dir + [47] + base;
    BasenameIs(dir, base);
    ArchiveRoundTrip(path, file);
    var e := Describe(base, st, REGULAR, content);
    assert RootListing(path, file) == [e];
    FileEntry(base, st, content);
    EntryFits(e, base, file);
    var read := ReadArchive(RootBytes(path, file) + Zeros(1024));
    if read.Some? && |read.value| == 1 && EntryFor(read.value[0], base, file) {
      OneEntry(read.value[0], e, base, file);
      assert read.value == [e];
    }
  }

  lemma FileEntry(base: cstring, st: Stat, content: seq<byte>)
    ensures EntryFor(Describe(base, st, REGULAR, content), base, Regular(st, content, true))
  {
  }

  lemma OneEntry(e: Entry, f: Entry, path: cstring, node: Node)
    requires EntryFor(e, path, node) && EntryFor(f, path, node)
    ensures e == f
  {
  }

  lemma {:induction false} BasenameIs(dir: cstring, base: cstring)
    requires 47 !in base
    ensures Basename(dir + [47] + base) == base && Basename(base) == base
    decreases |dir|
  {
    var path := dir + [47] + base;
    assert path[|dir|] == 47;
    if dir == [] {
      assert path[1..] == base;
    } else {
      assert path[1..] == dir[1..] + [47] + base;
      BasenameIs(dir[1..], base);
    }
  }
}
