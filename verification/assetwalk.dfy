/** Compiling templates out of an `AssetFS`: the tree the walk reveals on
    it (`stat` and `readDir` of fs_pre116.go:164-180, which open "." and list
    it with `Readdir(-1)`), and what compilation makes of that tree. */
module AssetWalk {
  import opened Common
  import opened SlashPath
  import opened FilePath
  import opened FsTree
  import opened FsWalk
  import opened Compile
  import opened CompileFacts
  import opened AssetFs

  /** The root listing: `Open(".")` followed by `Readdir(-1)`. */
  function RootEntries(a: AssetFS): (ents: seq<FileInfo>)
    ensures |ents| == |a.names|
    ensures forall i :: 0 <= i < |ents| ==> ents[i].basename == a.names[i] && !ents[i].dir
  {
    CleanDot();
    ListRoot(a, ".", -1);
    ReadDir(Open(a, ".").value, -1).1.value
  }

  /** An asset as the walk meets it: a plain file whose content is what
      opening and reading its joined path yields. */
  function AssetFile(a: AssetFS, n: string): Node {
    File(n, ReadFile(a, Join(".", n)))
  }

  /** The tree behind an `AssetFS`: a root directory listing one plain file
      per entry of `RootEntries`, whose names are the asset names in order.
      `stat(".")` always succeeds on it, so the walk's root is
      `Success(AssetTree(a))`. */
  function AssetTree(a: AssetFS): (root: Node)
    ensures root.Dir? && root.listing.Listed? && |root.listing.children| == |a.names|
    ensures forall i :: 0 <= i < |a.names| ==> root.listing.children[i] == AssetFile(a, RootEntries(a)[i].basename)
  {
    Dir(".", Listed(seq(|a.names|, i requires 0 <= i < |a.names| => AssetFile(a, a.names[i]))))
  }

  /** The root lists one file per asset name and nothing else. */
  lemma AssetTreeEntries(a: AssetFS)
    ensures forall k :: k in AssetTree(a).listing.children <==> exists n :: n in a.names && k == AssetFile(a, n)
  {
    var kids := AssetTree(a).listing.children;
    forall k | k in kids ensures exists n :: n in a.names && k == AssetFile(a, n) {
      var i :| 0 <= i < |kids| && kids[i] == k;
      assert a.names[i] in a.names;
    }
    forall n | n in a.names ensures AssetFile(a, n) in kids {
      var i :| 0 <= i < |a.names| && a.names[i] == n;
      assert kids[i] == AssetFile(a, n);
    }
  }

  /** A directory whose entries are all files contributes one visit per
      entry, in listing order, named by joining the entry onto the path. */
  lemma {:induction false} FlatChildren(path: string, node: Node, i: nat)
    requires node.Dir? && node.listing.Listed?
    requires i <= |node.listing.children|
    requires forall j :: 0 <= j < |node.listing.children| ==> node.listing.children[j].File?
    ensures var kids := node.listing.children;
      && |PreOrderChildren(path, node, i)| == |kids| - i
      && forall j :: i <= j < |kids| ==>
           PreOrderChildren(path, node, i)[j - i] == Visit(Join(path, kids[j].name), Some(kids[j]), None)
    decreases |node.listing.children| - i
  {
    var kids := node.listing.children;
    if i < |kids| {
      FlatChildren(path, node, i + 1);
      var v := Visit(Join(path, kids[i].name), Some(kids[i]), None);
      var rest := PreOrderChildren(path, node, i + 1);
      assert PreOrder(Join(path, kids[i].name), kids[i]) == [v];
      assert PreOrderChildren(path, node, i) == [v] + rest;
      forall j | i < j < |kids|
        ensures PreOrderChildren(path, node, i)[j - i] == Visit(Join(path, kids[j].name), Some(kids[j]), None)
      {
        assert ([v] + rest)[j - i] == rest[j - (i + 1)];
      }
    }
  }

  /** A directory whose entries are all files is walked as itself, then
      one visit per entry in listing order. */
  lemma FlatPreOrder(node: Node)
    requires node.Dir? && node.listing.Listed?
    requires forall j :: 0 <= j < |node.listing.children| ==> node.listing.children[j].File?
    ensures var vs := PreOrder(".", node);
      var kids := node.listing.children;
      && |vs| == |kids| + 1
      && vs[0] == Visit(".", Some(node), None)
      && forall i :: 1 <= i < |vs| ==> vs[i] == Visit(Join(".", kids[i - 1].name), Some(kids[i - 1]), None)
  {
    FlatChildren(".", node, 0);
    assert PreOrder(".", node) == [Visit(".", Some(node), None)] + PreOrderChildren(".", node, 0);
  }

  /** A root directory whose entries are all files is walked as the root,
      then one visit per entry in the order the lister gives. */
  lemma FlatTrace(lister: Lister, root: Node)
    requires root.Dir? && root.listing.Listed?
    requires forall k :: k in root.listing.children ==> k.File?
    ensures var vs := Trace(lister, ".", Success(root));
      var kids := Order(lister, root.listing.children);
      && |vs| == |kids| + 1 == |root.listing.children| + 1
      && vs[0] == Visit(".", Some(Dir(root.name, Listed(kids))), None)
      && forall i :: 1 <= i < |vs| ==> vs[i] == Visit(Join(".", kids[i - 1].name), Some(kids[i - 1]), None)
  {
    var kids := Order(lister, root.listing.children);
    assert forall j :: 0 <= j < |root.listing.children| ==> root.listing.children[j] in root.listing.children;
    FlatArrange(lister, root);
    var seen := Dir(root.name, Listed(kids));
    assert Trace(lister, ".", Success(root)) == PreOrder(".", seen);
    OrderPermutes(lister, root.listing.children);
    assert |kids| == |root.listing.children| by {
      assert |multiset(kids)| == |multiset(root.listing.children)|;
    }
    assert forall j :: 0 <= j < |kids| ==> kids[j].File? by {
      assert forall j :: 0 <= j < |kids| ==> kids[j] in root.listing.children;
    }
    FlatPreOrder(seen);
  }

  /** The shape `FlatTrace` gives, for the tree of an `AssetFS`: the root
      first, then one visit per asset entry in the lister's order, under the
      entry's joined name. */
  lemma AssetTraceShape(lister: Lister, a: AssetFS)
    ensures var vs := Trace(lister, ".", Success(AssetTree(a)));
      var kids := Order(lister, AssetTree(a).listing.children);
      && |vs| == |kids| + 1 == |a.names| + 1
      && vs[0].path == "." && vs[0].node.Some? && vs[0].node.value.Dir?
      && forall i :: 1 <= i < |vs| ==> vs[i] == Visit(Join(".", kids[i - 1].name), Some(kids[i - 1]), None)
  {
    var root := AssetTree(a);
    AssetTreeEntries(a);
    assert forall k :: k in root.listing.children ==> k.File?;
    FlatTrace(lister, root);
  }

  /** Every visit after the root is an asset, under `Join(".", name)`. */
  lemma VisitsAreAssets(lister: Lister, a: AssetFS, i: nat)
    requires 1 <= i < |Trace(lister, ".", Success(AssetTree(a)))|
    ensures exists n :: (n in a.names &&
      Trace(lister, ".", Success(AssetTree(a)))[i] == Visit(Join(".", n), Some(AssetFile(a, n)), None))
  {
    AssetTraceShape(lister, a);
    var kids := Order(lister, AssetTree(a).listing.children);
    OrderPermutes(lister, AssetTree(a).listing.children);
    AssetTreeEntries(a);
    assert kids[i - 1] in AssetTree(a).listing.children;
    var n :| n in a.names && kids[i - 1] == AssetFile(a, n);
  }

  /** Every asset is visited, under `Join(".", name)`. */
  lemma AssetsAreVisited(lister: Lister, a: AssetFS, n: string)
    requires n in a.names
    ensures exists i :: (1 <= i < |Trace(lister, ".", Success(AssetTree(a)))| &&
      Trace(lister, ".", Success(AssetTree(a)))[i] == Visit(Join(".", n), Some(AssetFile(a, n)), None))
  {
    var vs := Trace(lister, ".", Success(AssetTree(a)));
    var f := AssetFile(a, n);
    AssetTraceShape(lister, a);
    var kids := Order(lister, AssetTree(a).listing.children);
    OrderPermutes(lister, AssetTree(a).listing.children);
    AssetTreeEntries(a);
    assert f in kids;
    var j :| 0 <= j < |kids| && kids[j] == f;
    assert vs[j + 1] == Visit(Join(".", f.name), Some(f), None);
  }

  /** An asset name the walk reaches unchanged: relative, not ".", and
      already in `path.Clean` form. */
  predicate CleanName(n: string) {
    n != "" && n[0] != '/' && n != "." && Clean(n) == n
  }

  /** A clean asset is visited under its own name with its own content. */
  lemma CleanAsset(a: AssetFS, n: string)
    requires n in a.names && CleanName(n)
    ensures Join(".", n) == n
    ensures AssetFile(a, n).data == a.asset(n)
  {
    JoinDot(n);
    ReadFileIsAsset(a, n);
  }

  predicate AllClean(a: AssetFS) {
    forall n :: n in a.names ==> CleanName(n)
  }

  /** A clean asset that is selected: the visit it gets, with the load the
      compiler performs on it. */
  lemma SelectedAsset<P(!new)>(plat: Platform, lister: Lister, opt: Options, parse: Parser<P>, a: AssetFS, n: string)
    requires n in a.names && CleanName(n) && Ext(plat, n) in opt.extensions
    ensures exists i :: (0 <= i < |Trace(lister, ".", Success(AssetTree(a)))| &&
      Selected(plat, opt, Trace(lister, ".", Success(AssetTree(a)))[i]) &&
      Trace(lister, ".", Success(AssetTree(a)))[i].path == n &&
      LoadVisit(plat, opt, parse, Trace(lister, ".", Success(AssetTree(a)))[i]) == Load(plat, opt, parse, n, a.asset(n)))
  {
    var vs := Trace(lister, ".", Success(AssetTree(a)));
    AssetsAreVisited(lister, a, n);
    var i :| 1 <= i < |vs| && vs[i] == Visit(Join(".", n), Some(AssetFile(a, n)), None);
    CleanAsset(a, n);
    assert vs[i].path == n && vs[i].node.value.data == a.asset(n);
    assert Selected(plat, opt, vs[i]);
    assert LoadVisit(plat, opt, parse, vs[i]) == Load(plat, opt, parse, n, a.asset(n));
  }

  /** A selected visit of a clean `AssetFS` is an asset, and loading it is
      loading that asset's bytes under its own name. */
  lemma SelectedVisit<P(!new)>(plat: Platform, lister: Lister, opt: Options, parse: Parser<P>, a: AssetFS, i: nat)
    requires AllClean(a)
    requires i < |Trace(lister, ".", Success(AssetTree(a)))|
    requires Selected(plat, opt, Trace(lister, ".", Success(AssetTree(a)))[i])
    ensures var v := Trace(lister, ".", Success(AssetTree(a)))[i];
      v.path in a.names && Ext(plat, v.path) in opt.extensions &&
      LoadVisit(plat, opt, parse, v) == Load(plat, opt, parse, v.path, a.asset(v.path))
  {
    AssetTraceShape(lister, a);
    assert i != 0;
    VisitsAreAssets(lister, a, i);
    var n :| n in a.names &&
      Trace(lister, ".", Success(AssetTree(a)))[i] == Visit(Join(".", n), Some(AssetFile(a, n)), None);
    CleanAsset(a, n);
  }

  /** Compiling an `AssetFS` whose names are clean succeeds exactly when
      every asset with a configured extension reads and parses. */
  lemma CompileAssetsSucceeds<P(!new)>(plat: Platform, lister: Lister, opt: Options, parse: Parser<P>, a: AssetFS)
    requires AllClean(a)
    ensures CompileFromFS(plat, lister, opt, parse, Success(AssetTree(a))).Success? <==>
      forall n :: n in a.names && Ext(plat, n) in opt.extensions ==> Load(plat, opt, parse, n, a.asset(n)).Success?
  {
    var vs := Trace(lister, ".", Success(AssetTree(a)));
    CompileCharacterization(plat, lister, opt, parse, Success(AssetTree(a)));
    if CompileFromFS(plat, lister, opt, parse, Success(AssetTree(a))).Success? {
      forall n | n in a.names && Ext(plat, n) in opt.extensions
        ensures Load(plat, opt, parse, n, a.asset(n)).Success?
      {
        SelectedAsset(plat, lister, opt, parse, a, n);
        var i :| 0 <= i < |vs| && Selected(plat, opt, vs[i]) && vs[i].path == n &&
                 LoadVisit(plat, opt, parse, vs[i]) == Load(plat, opt, parse, n, a.asset(n));
        NoFailuresMeansLoads(plat, opt, parse, vs, i);
      }
    } else if forall n :: n in a.names && Ext(plat, n) in opt.extensions ==> Load(plat, opt, parse, n, a.asset(n)).Success? {
      forall i | 0 <= i < |vs| && Selected(plat, opt, vs[i])
        ensures LoadVisit(plat, opt, parse, vs[i]).Success?
      {
        SelectedVisit(plat, lister, opt, parse, a, i);
      }
      AllLoadMeansNoFailures(plat, opt, parse, vs);
      assert false;
    }
  }

  /** Every loaded name is an asset with a configured extension. */
  lemma LoadedNamesAreAssets<P(!new)>(plat: Platform, lister: Lister, opt: Options, parse: Parser<P>, a: AssetFS)
    requires AllClean(a)
    ensures forall k :: k in Names(plat, opt, parse, Trace(lister, ".", Success(AssetTree(a)))) ==>
      k in (set n | n in a.names && Ext(plat, n) in opt.extensions :: TemplateName(plat, n))
  {
    var vs := Trace(lister, ".", Success(AssetTree(a)));
    var want := set n | n in a.names && Ext(plat, n) in opt.extensions :: TemplateName(plat, n);
    forall k | k in Names(plat, opt, parse, vs) ensures k in want {
      var i :| 0 <= i < |vs| && Loads(plat, opt, parse, vs[i]) && k == TemplateName(plat, vs[i].path);
      SelectedVisit(plat, lister, opt, parse, a, i);
    }
  }

  /** When nothing fails, every asset with a configured extension is loaded. */
  lemma AssetsAreLoadedNames<P(!new)>(plat: Platform, lister: Lister, opt: Options, parse: Parser<P>, a: AssetFS)
    requires Failures(plat, opt, parse, Trace(lister, ".", Success(AssetTree(a)))) == []
    ensures forall n :: n in a.names && CleanName(n) && Ext(plat, n) in opt.extensions ==>
      TemplateName(plat, n) in Names(plat, opt, parse, Trace(lister, ".", Success(AssetTree(a))))
  {
    var vs := Trace(lister, ".", Success(AssetTree(a)));
    forall n | n in a.names && CleanName(n) && Ext(plat, n) in opt.extensions
      ensures TemplateName(plat, n) in Names(plat, opt, parse, vs)
    {
      SelectedAsset(plat, lister, opt, parse, a, n);
      var i :| 0 <= i < |vs| && Selected(plat, opt, vs[i]) && vs[i].path == n &&
               LoadVisit(plat, opt, parse, vs[i]) == Load(plat, opt, parse, n, a.asset(n));
      NoFailuresMeansLoads(plat, opt, parse, vs, i);
      assert Loads(plat, opt, parse, vs[i]);
    }
  }

  /** After a successful compilation the templates are exactly the root
      template and the assets with a configured extension, each named by its
      name minus that extension. */
  lemma CompileAssetsNames<P(!new)>(plat: Platform, lister: Lister, opt: Options, parse: Parser<P>, a: AssetFS)
    requires AllClean(a)
    requires CompileFromFS(plat, lister, opt, parse, Success(AssetTree(a))).Success?
    ensures CompileFromFS(plat, lister, opt, parse, Success(AssetTree(a))).value.Keys ==
      (set n | n in a.names && Ext(plat, n) in opt.extensions :: TemplateName(plat, n)) + {RootDir}
  {
    CompileCharacterization(plat, lister, opt, parse, Success(AssetTree(a)));
    AssetLoadedNames(plat, lister, opt, parse, a);
  }

  /** When nothing fails, the loaded names are the stems of the selected assets. */
  lemma AssetLoadedNames<P(!new)>(plat: Platform, lister: Lister, opt: Options, parse: Parser<P>, a: AssetFS)
    requires AllClean(a)
    requires Failures(plat, opt, parse, Trace(lister, ".", Success(AssetTree(a)))) == []
    ensures Names(plat, opt, parse, Trace(lister, ".", Success(AssetTree(a)))) ==
      set n | n in a.names && Ext(plat, n) in opt.extensions :: TemplateName(plat, n)
  {
    var vs := Trace(lister, ".", Success(AssetTree(a)));
    LoadedNamesAreAssets(plat, lister, opt, parse, a);
    AssetsAreLoadedNames(plat, lister, opt, parse, a);
    var want := set n | n in a.names && Ext(plat, n) in opt.extensions :: TemplateName(plat, n);
    assert forall k :: k in want ==> k in Names(plat, opt, parse, vs);
  }
}
