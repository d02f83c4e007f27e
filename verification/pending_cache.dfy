/** The pending cache: a doubly linked list under a mutex, newest entry first. */
module PendingCache {
  import opened Sequences
  import opened Wrappers

  datatype Item = Item(mdata: string, issueString: string)

  /** The position of the newest item for a package. */
  function FirstMatch(items: seq<Item>, pkg: string): (r: Option<nat>)
    ensures r.Some? ==> r.value < |items| && items[r.value].mdata == pkg
                        && forall i :: 0 <= i < r.value ==> items[i].mdata != pkg
    ensures r.None? ==> forall i :: 0 <= i < |items| ==> items[i].mdata != pkg
  {
    if items == [] then None
    else if items[0].mdata == pkg then Some(0)
    else
      var r := FirstMatch(items[1..], pkg);
      if r.None? then None else Some(r.value + 1)
  }

  function Without<T>(s: seq<T>, k: nat): seq<T>
    requires k < |s|
  {
    s[..k] + s[k + 1..]
  }

  class Node {
    const item: Item
    var next: Node?
    var prev: Node?

    constructor (item: Item)
      ensures this.item == item && next == null && prev == null
    {
      this.item := item;
      next, prev := null, null;
    }
  }

  ghost function Items(nodes: seq<Node>): (items: seq<Item>)
    ensures |items| == |nodes| && forall i :: 0 <= i < |nodes| ==> items[i] == nodes[i].item
  {
    Map((n: Node) => n.item, nodes)
  }

  class Cache {
    var head: Node?
    ghost var nodes: seq<Node>

    /** The list starts at head, its links are mutual, it ends, and no node is on it twice. */
    ghost predicate Valid()
      reads this, nodes
    {
      && (nodes == [] ==> head == null)
      && (nodes != [] ==> head == nodes[0] && nodes[0].prev == null && nodes[|nodes| - 1].next == null)
      && (forall i {:trigger nodes[i].prev} :: 1 <= i < |nodes| ==> nodes[i].prev == nodes[i - 1])
      && (forall i {:trigger nodes[i].next} :: 0 <= i < |nodes| - 1 ==> nodes[i].next == nodes[i + 1])
      && (forall i, j :: 0 <= i < j < |nodes| ==> nodes[i] != nodes[j])
    }

    ghost function Contents(): seq<Item>
      reads this
    {
      Items(nodes)
    }

    constructor ()
      ensures Valid() && Contents() == []
    {
      head := null;
      nodes := [];
    }

    /** append_item, under the mutex. */
    method AppendItem(pkgData: string, issueTypeData: string)
      requires Valid()
      modifies this, nodes
      ensures Valid()
      ensures |nodes| > 0 && nodes == [nodes[0]] + old(nodes) && fresh(nodes[0])
      ensures Contents() == [Item(pkgData, issueTypeData)] + old(Contents())
    {
      var tmp := new Node(Item(pkgData, issueTypeData));
      if head != null {
        tmp.next := head;
        head.prev := tmp;
      }
      head := tmp;
      nodes := [tmp] + nodes;
    }

    /** findPresentInCache, under the mutex: the newest node for the package. */
    method FindPresentInCache(pkgData: string) returns (found: Node?)
      requires Valid()
      ensures found == match FirstMatch(Contents(), pkgData) case None => null case Some(k) => nodes[k]
    {
      var node := head;
      ghost var i := 0;
      while node != null
        invariant 0 <= i <= |nodes|
        invariant node == if i == |nodes| then null else nodes[i]
        invariant forall j :: 0 <= j < i ==> Contents()[j].mdata != pkgData
        decreases |nodes| - i
      {
        if node.item.mdata == pkgData {
          return node;
        }
        node := node.next;
        i := i + 1;
      }
      found := null;
    }

    /** remove_item, under the mutex; k is where the node is. */
    method RemoveItem(cache: Node?, ghost k: nat)
      requires Valid()
      requires cache != null ==> k < |nodes| && nodes[k] == cache
      modifies this, nodes
      ensures Valid()
      ensures nodes == if cache == null then old(nodes) else Without(old(nodes), k)
    {
      if cache == null {
        return;
      }
      if head == cache {
        head := cache.next;
        if cache.next != null {
          cache.next.prev := null;
        }
      } else {
        var next, prev := cache.next, cache.prev;
        if next != null {
          next.prev := prev;
        }
        if prev != null {
          prev.next := next;
        }
      }
      nodes := Without(nodes, k);
    }

    /** Any number of items, appended by another thread. */
    method AppendAll(items: seq<Item>) returns (ghost added: seq<Node>)
      requires Valid()
      modifies this, nodes
      ensures Valid() && fresh(added)
      ensures nodes == added + old(nodes) && Items(added) == Newest(items)
    {
      hide Valid;
      added := [];
      if items != [] {
        var last := items[|items| - 1];
        added := AppendAll(items[..|items| - 1]);
        AppendItem(last.mdata, last.issueString);
        added := [nodes[0]] + added;
        assert nodes == added + old(nodes);
      }
    }

    /** An install event looks its package up and removes what it found; between the two, another thread may
        append any number of items. Exactly the node that was found is removed, and it was the newest match. */
    method FindThenRemove(pkg: string, concurrent: seq<Item>) returns (found: bool)
      requires Valid()
      modifies this, nodes
      ensures Valid()
      ensures found == FirstMatch(old(Contents()), pkg).Some?
      ensures Contents() == Newest(concurrent) +
                            match FirstMatch(old(Contents()), pkg)
                            case None => old(Contents())
                            case Some(k) => Without(old(Contents()), k)
    {
      hide Valid, Items, Without, Newest;
      var cache := FindPresentInCache(pkg);
      ghost var k := match FirstMatch(Contents(), pkg) case None => 0 case Some(k) => k;
      ghost var was := nodes;
      ghost var added := AppendAll(concurrent);
      RemoveItem(cache, |added| + k);
      if cache != null {
        WithoutConcat(added, was, k);
        ItemsWithout(was, k);
        ItemsConcat(added, Without(was, k));
      } else {
        ItemsConcat(added, was);
      }
      found := cache != null;
    }
  }

  /** Items as they lie in the cache after being appended in order. */
  function Newest(items: seq<Item>): (r: seq<Item>)
    ensures |r| == |items|
  {
    if items == [] then [] else [items[|items| - 1]] + Newest(items[..|items| - 1])
  }

  lemma {:induction false} NewestReverses(items: seq<Item>, i: nat)
    requires i < |items|
    ensures Newest(items)[i] == items[|items| - 1 - i]
  {
    if i == 0 {
    } else {
      NewestReverses(items[..|items| - 1], i - 1);
    }
  }

  lemma ItemsConcat(a: seq<Node>, b: seq<Node>)
    ensures Items(a + b) == Items(a) + Items(b)
  {
  }

  lemma ItemsWithout(a: seq<Node>, k: nat)
    requires k < |a|
    ensures Items(Without(a, k)) == Without(Items(a), k)
  {
  }

  lemma WithoutConcat<T>(a: seq<T>, b: seq<T>, k: nat)
    requires k < |b|
    ensures Without(a + b, |a| + k) == a + Without(b, k)
  {
  }
}
