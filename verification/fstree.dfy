/** The filesystem the compiler walks, as an immutable tree. A file carries
    what opening and reading it all the way through yields; a directory
    carries what listing it yields. The root itself is reached by a `stat`
    that can fail, so a whole filesystem is a `Result<Node>`. */
module FsTree {
  import opened Common

  datatype Node =
    | File(name: string, data: Result<Bytes>)
    | Dir(name: string, listing: Listing)

  /** What listing a directory yields: every entry, or the entries read
      before listing failed together with the error. */
  datatype Listing = Listed(children: seq<Node>) | Failed(children: seq<Node>, err: Error)

  /** The order in which a walk sees a directory's entries. The hand-written
      walk of fs_pre116.go uses `Readdir(-1)` and keeps the order the
      directory reports; fs.go delegates to `fs.WalkDir`, whose `fs.ReadDir`
      sorts the entries by name. */
  datatype Lister = AsListed | SortedByName

  /** Byte-wise string order, as Go compares strings. Comparing code points
      gives the same order as comparing their UTF-8 encodings. */
  predicate NameLe(a: string, b: string)
    decreases |a|
  {
    |a| == 0 || (|b| > 0 && (a[0] < b[0] || (a[0] == b[0] && NameLe(a[1..], b[1..]))))
  }

  lemma {:induction false} NameLeTotal(a: string, b: string)
    ensures NameLe(a, b) || NameLe(b, a)
    decreases |a|
  {
    if |a| > 0 && |b| > 0 && a[0] == b[0] {
      NameLeTotal(a[1..], b[1..]);
    }
  }

  predicate SortedByNames(s: seq<Node>) {
    forall i :: 0 <= i < |s| - 1 ==> NameLe(s[i].name, s[i + 1].name)
  }

  /** Inserting one entry in front of the first entry it does not follow. */
  function Insert(x: Node, s: seq<Node>): seq<Node> {
    if |s| == 0 then [x]
    else if NameLe(x.name, s[0].name) then [x] + s
    else [s[0]] + Insert(x, s[1..])
  }

  /** Insertion sort by name, as `fs.ReadDir` sorts a directory's entries. */
  function SortByName(s: seq<Node>): seq<Node> {
    if |s| == 0 then [] else Insert(s[0], SortByName(s[1..]))
  }

  /** The entries in the order the walk visits them. */
  function Order(lister: Lister, kids: seq<Node>): seq<Node> {
    match lister
    case AsListed => kids
    case SortedByName => SortByName(kids)
  }

  /** Inserting into a sorted listing keeps it sorted, adds exactly the one
      entry, and puts either that entry or the old first entry first. */
  lemma {:induction false} InsertSorted(x: Node, s: seq<Node>)
    requires SortedByNames(s)
    ensures SortedByNames(Insert(x, s))
    ensures multiset(Insert(x, s)) == multiset(s) + multiset{x}
    ensures |Insert(x, s)| > 0 && (Insert(x, s)[0] == x || (|s| > 0 && Insert(x, s)[0] == s[0]))
    decreases |s|
  {
    if |s| > 0 && !NameLe(x.name, s[0].name) {
      NameLeTotal(x.name, s[0].name);
      var t := Insert(x, s[1..]);
      InsertSorted(x, s[1..]);
      assert s == [s[0]] + s[1..];
      assert Insert(x, s) == [s[0]] + t;
      assert SortedByNames([s[0]] + t) by {
        forall i | 0 <= i < |t| ensures NameLe(([s[0]] + t)[i].name, ([s[0]] + t)[i + 1].name) {
          if i == 0 {
            assert t[0] == x || t[0] == s[1];
          } else {
            assert ([s[0]] + t)[i] == t[i - 1];
          }
        }
      }
    }
  }

  /** Sorting yields a sorted permutation of the listing. */
  lemma {:induction false} SortByNameSorted(s: seq<Node>)
    ensures SortedByNames(SortByName(s))
    ensures multiset(SortByName(s)) == multiset(s)
    decreases |s|
  {
    if |s| > 0 {
      SortByNameSorted(s[1..]);
      InsertSorted(s[0], SortByName(s[1..]));
      assert s == [s[0]] + s[1..];
    }
  }

  /** Either way the walk visits exactly the entries of the listing, each as
      often as the listing holds it. */
  lemma OrderPermutes(lister: Lister, kids: seq<Node>)
    ensures multiset(Order(lister, kids)) == multiset(kids)
    ensures forall x :: x in Order(lister, kids) <==> x in kids
  {
    var r := Order(lister, kids);
    if lister.SortedByName? {
      SortByNameSorted(kids);
    }
    assert forall x :: x in r ==> x in multiset(r);
    assert forall x :: x in kids ==> x in multiset(kids);
  }

  /** Sorting a listing that is already in name order changes nothing, so
      both listers walk such a directory alike. */
  lemma {:induction false} SortSorted(s: seq<Node>)
    requires SortedByNames(s)
    ensures SortByName(s) == s
    decreases |s|
  {
    if |s| > 0 {
      SortSorted(s[1..]);
      assert s == [s[0]] + s[1..];
      if |s| > 1 {
        assert NameLe(s[0].name, s[1..][0].name);
      }
    }
  }

  lemma OrderSorted(lister: Lister, kids: seq<Node>)
    requires SortedByNames(kids)
    ensures Order(lister, kids) == kids
  {
    SortSorted(kids);
  }

  // ---------------------------------------------------------------------
  // The tree as the walk reads it.

  /** The tree as a walk that orders every listing it reads with `lister`
      sees it. A listing is a pure function of the immutable tree, so
      ordering each listing when the walk reads it and ordering all of them
      up front give the same walk. */
  function Arrange(lister: Lister, node: Node): Node
    decreases node, 1
  {
    match node
    case Dir(name, listing) =>
      Dir(name, listing.(children := Order(lister, ArrangeAll(lister, listing.children))))
    case _ => node
  }

  function ArrangeAll(lister: Lister, kids: seq<Node>): (r: seq<Node>)
    ensures |r| == |kids|
    decreases kids, 0
  {
    if |kids| == 0 then [] else [Arrange(lister, kids[0])] + ArrangeAll(lister, kids[1..])
  }

  /** Every listing of the tree, all the way down, is in name order. */
  predicate SortedTree(node: Node)
    decreases node
  {
    node.Dir? ==>
      && SortedByNames(node.listing.children)
      && forall k :: 0 <= k < |node.listing.children| ==> SortedTree(node.listing.children[k])
  }

  /** A walk that keeps the reported order sees the tree as it is. */
  lemma {:induction false} ArrangeAsListed(node: Node)
    ensures Arrange(AsListed, node) == node
    decreases node, 1
  {
    if node.Dir? {
      ArrangeAllAsListed(node.listing.children);
    }
  }

  lemma {:induction false} ArrangeAllAsListed(kids: seq<Node>)
    ensures ArrangeAll(AsListed, kids) == kids
    decreases kids, 0
  {
    if |kids| > 0 {
      ArrangeAsListed(kids[0]);
      ArrangeAllAsListed(kids[1..]);
      assert kids == [kids[0]] + kids[1..];
    }
  }

  /** On a tree that is sorted throughout, both listers see the tree as it is. */
  lemma {:induction false} ArrangeSorted(lister: Lister, node: Node)
    requires SortedTree(node)
    ensures Arrange(lister, node) == node
    decreases node, 1
  {
    if node.Dir? {
      var kids := node.listing.children;
      ArrangeAllSorted(lister, kids);
      OrderSorted(lister, kids);
    }
  }

  lemma {:induction false} ArrangeAllSorted(lister: Lister, kids: seq<Node>)
    requires forall k :: 0 <= k < |kids| ==> SortedTree(kids[k])
    ensures ArrangeAll(lister, kids) == kids
    decreases kids, 0
  {
    if |kids| > 0 {
      ArrangeSorted(lister, kids[0]);
      assert forall k :: 0 <= k < |kids| - 1 ==> kids[1..][k] == kids[k + 1];
      ArrangeAllSorted(lister, kids[1..]);
      assert kids == [kids[0]] + kids[1..];
    }
  }

  /** A directory of plain files is seen with its listing ordered, and
      nothing else changes. */
  lemma FlatArrange(lister: Lister, node: Node)
    requires node.Dir? && node.listing.Listed?
    requires forall k :: 0 <= k < |node.listing.children| ==> node.listing.children[k].File?
    ensures Arrange(lister, node) == Dir(node.name, Listed(Order(lister, node.listing.children)))
  {
    FilesArrangeAll(lister, node.listing.children);
  }

  lemma {:induction false} FilesArrangeAll(lister: Lister, kids: seq<Node>)
    requires forall k :: 0 <= k < |kids| ==> kids[k].File?
    ensures ArrangeAll(lister, kids) == kids
    decreases |kids|
  {
    if |kids| > 0 {
      assert forall k :: 0 <= k < |kids| - 1 ==> kids[1..][k] == kids[k + 1];
      FilesArrangeAll(lister, kids[1..]);
      assert kids == [kids[0]] + kids[1..];
    }
  }
}
