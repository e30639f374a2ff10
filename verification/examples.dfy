/** Scenarios from the repository's tests (render_html_test.go), worked
    through the model: the template directory with a directory named like a
    template, and the two-asset `AssetFS`; and two files that yield the same
    template name. */
module Scenarios {
  import opened Common
  import opened SlashPath
  import opened FilePath
  import opened FsTree
  import opened FsWalk
  import opened Funcs
  import opened Compile
  import opened CompileFacts
  import opened AssetFs
  import opened AssetWalk

  /** Bytes of ASCII white space only: a body without actions or text. */
  predicate Blank(b: Bytes) {
    forall j :: 0 <= j < |b| ==> b[j] in {9, 10, 11, 12, 13, 32}
  }

  /** A parser that accepts every file; its parse tree is the file's bytes,
      empty when they are blank (it has no comments to see). */
  function AcceptAll(): Parser<Bytes> {
    Parser((d: Delims, f: FuncMap, b: Bytes) => Success(b), Blank)
  }

  const TmplOpts: Options := Options([".tmpl", ".html"], Delims("{{", "}}"), [])

  /** testdata/template-dir-test: a template at the top, one in a
      subdirectory, and one inside a directory whose own name ends in
      ".tmpl". Listings are given in name order. */
  function TemplateDir(b0: Bytes, b1: Bytes, b2: Bytes): Node {
    Dir(".", Listed([File("0.tmpl", Success(b0)),
                     Dir("dedicated.tmpl", Listed([File("notbad.tmpl", Success(b2))])),
                     Dir("subdir", Listed([File("1.tmpl", Success(b1))]))]))
  }

  lemma JoinTop(n: string)
    requires IsNormal(n)
    ensures Join(".", n) == n
  {
    JoinChild([], n);
  }

  lemma JoinUnder(d: string, n: string)
    requires IsNormal(d) && IsNormal(n)
    ensures Join(d, n) == d + "/" + n
  {
    JoinChild([d], n);
    assert RelPath([d]) == d;
    JoinElemsSnoc([d], n);
    assert [d] + [n] == [d, n];
  }

  /** A directory holding one file is visited, then the file. */
  lemma OneFileDir(path: string, d: Node)
    requires d.Dir? && d.listing.Listed? && |d.listing.children| == 1 && d.listing.children[0].File?
    ensures PreOrder(path, d) ==
      [Visit(path, Some(d), None),
       Visit(Join(path, d.listing.children[0].name), Some(d.listing.children[0]), None)]
  {
    var f := d.listing.children[0];
    assert PreOrderChildren(path, d, 0) == PreOrder(Join(path, f.name), f) + [];
  }

  lemma ChildStep(path: string, node: Node, i: nat)
    requires node.Dir? && node.listing.Listed?
    requires i < |node.listing.children|
    ensures var kids := node.listing.children;
      PreOrderChildren(path, node, i) == PreOrder(Join(path, kids[i].name), kids[i]) + PreOrderChildren(path, node, i + 1)
  {
  }

  lemma FileVisit(path: string, f: Node)
    requires f.File?
    ensures PreOrder(path, f) == [Visit(path, Some(f), None)]
  {
  }

  /** A root holding a file and two directories of one file each is walked
      in pre-order. */
  lemma FileAndTwoDirs(root: Node)
    requires root.Dir? && root.listing.Listed? && |root.listing.children| == 3
    requires root.listing.children[0].File?
    requires forall j :: 1 <= j < 3 ==>
      var d := root.listing.children[j];
      d.Dir? && d.listing.Listed? && |d.listing.children| == 1 && d.listing.children[0].File?
    ensures var kids := root.listing.children;
      var p1 := Join(".", kids[1].name);
      var p2 := Join(".", kids[2].name);
      PreOrder(".", root) ==
        [Visit(".", Some(root), None),
         Visit(Join(".", kids[0].name), Some(kids[0]), None),
         Visit(p1, Some(kids[1]), None),
         Visit(Join(p1, kids[1].listing.children[0].name), Some(kids[1].listing.children[0]), None),
         Visit(p2, Some(kids[2]), None),
         Visit(Join(p2, kids[2].listing.children[0].name), Some(kids[2].listing.children[0]), None)]
  {
    var kids := root.listing.children;
    var p0 := Join(".", kids[0].name);
    var p1 := Join(".", kids[1].name);
    var p2 := Join(".", kids[2].name);
    OneFileDir(p1, kids[1]);
    OneFileDir(p2, kids[2]);
    FileVisit(p0, kids[0]);
    var c0, c1, c2 := PreOrder(p0, kids[0]), PreOrder(p1, kids[1]), PreOrder(p2, kids[2]);
    ChildStep(".", root, 2);
    assert PreOrderChildren(".", root, 3) == [];
    assert PreOrderChildren(".", root, 2) == c2;
    ChildStep(".", root, 1);
    assert PreOrderChildren(".", root, 1) == c1 + c2;
    ChildStep(".", root, 0);
    assert PreOrderChildren(".", root, 0) == c0 + (c1 + c2);
    assert PreOrder(".", root) == [Visit(".", Some(root), None)] + (c0 + (c1 + c2));
  }

  /** The template directory is listed in name order all the way down, so
      both listers see it as it is. */
  lemma TemplateDirSorted(lister: Lister, b0: Bytes, b1: Bytes, b2: Bytes)
    ensures Arrange(lister, TemplateDir(b0, b1, b2)) == TemplateDir(b0, b1, b2)
  {
    var root := TemplateDir(b0, b1, b2);
    var kids := root.listing.children;
    assert NameLe(kids[0].name, kids[1].name) && NameLe(kids[1].name, kids[2].name);
    assert SortedByNames(kids);
    assert SortedTree(kids[0]);
    assert SortedByNames(kids[1].listing.children) && SortedTree(kids[1].listing.children[0]);
    assert SortedByNames(kids[2].listing.children) && SortedTree(kids[2].listing.children[0]);
    assert SortedTree(kids[1]) && SortedTree(kids[2]);
    assert SortedTree(root);
    ArrangeSorted(lister, root);
  }

  /** With real element names, the paths of that walk are the names joined
      by slashes. */
  lemma FileAndTwoDirsPaths(root: Node)
    requires root.Dir? && root.listing.Listed? && |root.listing.children| == 3
    requires root.listing.children[0].File?
    requires forall j :: 1 <= j < 3 ==>
      var d := root.listing.children[j];
      d.Dir? && d.listing.Listed? && |d.listing.children| == 1 && d.listing.children[0].File?
    requires forall j :: 0 <= j < 3 ==> IsNormal(root.listing.children[j].name)
    requires forall j :: 1 <= j < 3 ==> IsNormal(root.listing.children[j].listing.children[0].name)
    ensures var kids := root.listing.children;
      var vs := PreOrder(".", root);
      && |vs| == 6
      && vs[0].path == "." && vs[0].node == Some(root)
      && vs[1].path == kids[0].name && vs[1].node == Some(kids[0])
      && vs[2].path == kids[1].name && vs[2].node == Some(kids[1])
      && vs[3].path == kids[1].name + "/" + kids[1].listing.children[0].name
      && vs[3].node == Some(kids[1].listing.children[0])
      && vs[4].path == kids[2].name && vs[4].node == Some(kids[2])
      && vs[5].path == kids[2].name + "/" + kids[2].listing.children[0].name
      && vs[5].node == Some(kids[2].listing.children[0])
  {
    var kids := root.listing.children;
    FileAndTwoDirs(root);
    JoinTop(kids[0].name);
    JoinTop(kids[1].name);
    JoinTop(kids[2].name);
    JoinUnder(kids[1].name, kids[1].listing.children[0].name);
    JoinUnder(kids[2].name, kids[2].listing.children[0].name);
  }

  /** The template directory's entry names are real path elements. */
  lemma TemplateDirNamesNormal()
    ensures IsNormal("0.tmpl") && IsNormal("dedicated.tmpl") && IsNormal("subdir")
    ensures IsNormal("notbad.tmpl") && IsNormal("1.tmpl")
    ensures "dedicated.tmpl" + "/" + "notbad.tmpl" == "dedicated.tmpl/notbad.tmpl"
    ensures "subdir" + "/" + "1.tmpl" == "subdir/1.tmpl"
  {
  }

  /** The pre-order of the template directory, under slash-joined relative
      names. */
  lemma TemplateDirPreOrder(b0: Bytes, b1: Bytes, b2: Bytes)
    ensures var vs := PreOrder(".", TemplateDir(b0, b1, b2));
      && |vs| == 6
      && vs[0].path == "." && vs[1].path == "0.tmpl" && vs[2].path == "dedicated.tmpl"
      && vs[3].path == "dedicated.tmpl/notbad.tmpl" && vs[4].path == "subdir" && vs[5].path == "subdir/1.tmpl"
      && vs[0].node.Some? && vs[0].node.value.Dir?
      && vs[1].node == Some(File("0.tmpl", Success(b0)))
      && vs[2].node.Some? && vs[2].node.value.Dir?
      && vs[3].node == Some(File("notbad.tmpl", Success(b2)))
      && vs[4].node.Some? && vs[4].node.value.Dir?
      && vs[5].node == Some(File("1.tmpl", Success(b1)))
  {
    var root := TemplateDir(b0, b1, b2);
    var kids := root.listing.children;
    TemplateDirNamesNormal();
    FileAndTwoDirsPaths(root);
  }

  /** The walk visits the template directory in pre-order under
      slash-joined relative names, whichever lister reads the directories. */
  lemma TemplateDirTrace(lister: Lister, b0: Bytes, b1: Bytes, b2: Bytes)
    ensures Trace(lister, ".", Success(TemplateDir(b0, b1, b2))) == PreOrder(".", TemplateDir(b0, b1, b2))
  {
    TemplateDirSorted(lister, b0, b1, b2);
  }

  /** A path with the extension ".tmpl" or ".html" is selected by it and
      named by its stem. */
  lemma TmplStem(p: string, s: string, e: string)
    requires (e == ".tmpl" || e == ".html") && p == s + e
    ensures Ext(Unix, p) == e && TemplateName(Unix, p) == s
  {
    assert IsExtension(Unix, e);
    TemplateNameOfStem(s, e);
  }

  /** The names the three template files get. */
  lemma TemplateDirNames()
    ensures Ext(Unix, "0.tmpl") == ".tmpl" && TemplateName(Unix, "0.tmpl") == "0"
    ensures Ext(Unix, "dedicated.tmpl/notbad.tmpl") == ".tmpl"
    ensures TemplateName(Unix, "dedicated.tmpl/notbad.tmpl") == "dedicated.tmpl/notbad"
    ensures Ext(Unix, "subdir/1.tmpl") == ".tmpl" && TemplateName(Unix, "subdir/1.tmpl") == "subdir/1"
  {
    TmplStem("0.tmpl", "0", ".tmpl");
    TmplStem("dedicated.tmpl/notbad.tmpl", "dedicated.tmpl/notbad", ".tmpl");
    TmplStem("subdir/1.tmpl", "subdir/1", ".tmpl");
  }

  /** When no selected file fails, compilation succeeds with the root
      template and the names of the loaded files. */
  lemma CompileWhenAllLoad<P(!new)>(plat: Platform, lister: Lister, opt: Options, parse: Parser<P>,
                                    stat: Result<Node>, names: set<string>, keys: set<string>)
    requires Failures(plat, opt, parse, Trace(lister, ".", stat)) == []
    requires Names(plat, opt, parse, Trace(lister, ".", stat)) == names
    requires keys == names + {RootDir}
    ensures CompileFromFS(plat, lister, opt, parse, stat).Success?
    ensures CompileFromFS(plat, lister, opt, parse, stat).value.Keys == keys
  {
    CompileCharacterization(plat, lister, opt, parse, stat);
  }

  /** Six visits alternating directory and loadable selected file. */
  lemma AlternateSelection<P(!new)>(plat: Platform, opt: Options, parse: Parser<P>, vs: seq<Visit>)
    requires |vs| == 6
    requires vs[0].node.Some? && vs[0].node.value.Dir?
    requires vs[2].node.Some? && vs[2].node.value.Dir?
    requires vs[4].node.Some? && vs[4].node.value.Dir?
    requires Loads(plat, opt, parse, vs[1]) && Loads(plat, opt, parse, vs[3]) && Loads(plat, opt, parse, vs[5])
    ensures forall x :: 0 <= x < |vs| ==> (Selected(plat, opt, vs[x]) <==> x == 1 || x == 3 || x == 5)
    ensures forall x :: 0 <= x < |vs| && Selected(plat, opt, vs[x]) ==> LoadVisit(plat, opt, parse, vs[x]).Success?
  {
    forall x | 0 <= x < |vs| ensures Selected(plat, opt, vs[x]) <==> x == 1 || x == 3 || x == 5 {
      if x == 0 || x == 2 || x == 4 {
        assert !Selected(plat, opt, vs[x]);
      }
    }
  }

  /** When exactly three visits are selected and all of them load, the
      loaded names are those three visits' template names. */
  lemma NamesOfThree<P(!new)>(plat: Platform, opt: Options, parse: Parser<P>, vs: seq<Visit>, i: nat, j: nat, k: nat)
    requires i < |vs| && j < |vs| && k < |vs|
    requires forall x :: 0 <= x < |vs| ==> (Selected(plat, opt, vs[x]) <==> x == i || x == j || x == k)
    requires forall x :: 0 <= x < |vs| && Selected(plat, opt, vs[x]) ==> LoadVisit(plat, opt, parse, vs[x]).Success?
    ensures Names(plat, opt, parse, vs) ==
      {TemplateName(plat, vs[i].path), TemplateName(plat, vs[j].path), TemplateName(plat, vs[k].path)}
  {
    assert Selected(plat, opt, vs[i]) && Selected(plat, opt, vs[j]) && Selected(plat, opt, vs[k]);
  }

  /** On the template directory every selected file loads, and the loaded
      files are named "0", "dedicated.tmpl/notbad" and "subdir/1". */
  lemma TemplateDirLoads(lister: Lister, b0: Bytes, b1: Bytes, b2: Bytes)
    ensures var vs := Trace(lister, ".", Success(TemplateDir(b0, b1, b2)));
      && Failures(Unix, TmplOpts, AcceptAll(), vs) == []
      && Names(Unix, TmplOpts, AcceptAll(), vs) == {"0", "dedicated.tmpl/notbad", "subdir/1"}
  {
    var vs := Trace(lister, ".", Success(TemplateDir(b0, b1, b2)));
    var parse := AcceptAll();
    TemplateDirTrace(lister, b0, b1, b2);
    TemplateDirPreOrder(b0, b1, b2);
    TemplateDirNames();
    assert TmplOpts.extensions[0] in TmplOpts.extensions;
    assert Loads(Unix, TmplOpts, parse, vs[1]);
    assert Loads(Unix, TmplOpts, parse, vs[3]);
    assert Loads(Unix, TmplOpts, parse, vs[5]);
    AlternateSelection(Unix, TmplOpts, parse, vs);
    AllLoadMeansNoFailures(Unix, TmplOpts, parse, vs);
    NamesOfThree(Unix, TmplOpts, parse, vs, 1, 3, 5);
  }

  /** TestCompileTemplatesFromDir: compilation succeeds with exactly the
      templates "0", "subdir/1" and "dedicated.tmpl/notbad" besides the root
      template "."; the directory "dedicated.tmpl" yields no "dedicated"
      template. */
  lemma TemplateDirCompiles(lister: Lister, b0: Bytes, b1: Bytes, b2: Bytes)
    ensures var r := CompileFromFS(Unix, lister, TmplOpts, AcceptAll(), Success(TemplateDir(b0, b1, b2)));
      && r.Success?
      && r.value.Keys == {".", "0", "dedicated.tmpl/notbad", "subdir/1"}
      && "dedicated" !in r.value.Keys
  {
    TemplateDirCompileKeys(lister, b0, b1, b2);
    TemplateDirKeys();
  }

  /** The keys of the compiled template directory. */
  lemma TemplateDirCompileKeys(lister: Lister, b0: Bytes, b1: Bytes, b2: Bytes)
    ensures var r := CompileFromFS(Unix, lister, TmplOpts, AcceptAll(), Success(TemplateDir(b0, b1, b2)));
      && r.Success?
      && r.value.Keys == {".", "0", "dedicated.tmpl/notbad", "subdir/1"}
  {
    TemplateDirLoads(lister, b0, b1, b2);
    TemplateDirKeys();
    CompileWhenAllLoad(Unix, lister, TmplOpts, AcceptAll(), Success(TemplateDir(b0, b1, b2)),
                       {"0", "dedicated.tmpl/notbad", "subdir/1"}, {".", "0", "dedicated.tmpl/notbad", "subdir/1"});
  }

  /** The keys of the template directory's set, and that "dedicated" is not
      one of them. */
  lemma TemplateDirKeys()
    ensures {"0", "dedicated.tmpl/notbad", "subdir/1"} + {RootDir} == {".", "0", "dedicated.tmpl/notbad", "subdir/1"}
    ensures "dedicated" !in {".", "0", "dedicated.tmpl/notbad", "subdir/1"}
  {
  }

  /** The renderer-level view of the same test: after `CompileTemplates`
      looking up "dedicated" finds nothing, the three templates are found, and
      "." finds the root template as created. */
  lemma TemplateDirLookup(r: Renderer<Bytes>, lister: Lister, b0: Bytes, b1: Bytes, b2: Bytes)
    requires r.opt == TmplOpts
    ensures var (r', err) := CompileTemplates(r, Unix, lister, AcceptAll(), Success(TemplateDir(b0, b1, b2)));
      && err.None?
      && TemplateLookup(r', "0").Some? && TemplateLookup(r', "subdir/1").Some?
      && TemplateLookup(r', "dedicated.tmpl/notbad").Some?
      && TemplateLookup(r', "dedicated").None?
      && TemplateLookup(r', ".") == Some(RootTemplate(TmplOpts))
      && TemplateLookup(r', "0").value.tree == Some(b0)
      && TemplateLookup(r', "dedicated.tmpl/notbad").value.tree == Some(b2)
      && TemplateLookup(r', "subdir/1").value.tree == Some(b1)
  {
    var stat := Success(TemplateDir(b0, b1, b2));
    TemplateDirCompiles(lister, b0, b1, b2);
    TemplateDirLoads(lister, b0, b1, b2);
    RootTemplateKept(Unix, lister, TmplOpts, AcceptAll(), stat);
    CompileCharacterization(Unix, lister, TmplOpts, AcceptAll(), stat);
    TemplateDirLastLoads(lister, b0, b1, b2);
  }

  /** Each of the template directory's names comes from its own file. */
  lemma TemplateDirLastLoads(lister: Lister, b0: Bytes, b1: Bytes, b2: Bytes)
    ensures var vs := Trace(lister, ".", Success(TemplateDir(b0, b1, b2)));
      && LastLoad(Unix, TmplOpts, AcceptAll(), vs, "0").Some?
      && LastLoad(Unix, TmplOpts, AcceptAll(), vs, "0").value.tree == Some(b0)
      && LastLoad(Unix, TmplOpts, AcceptAll(), vs, "dedicated.tmpl/notbad").Some?
      && LastLoad(Unix, TmplOpts, AcceptAll(), vs, "dedicated.tmpl/notbad").value.tree == Some(b2)
      && LastLoad(Unix, TmplOpts, AcceptAll(), vs, "subdir/1").Some?
      && LastLoad(Unix, TmplOpts, AcceptAll(), vs, "subdir/1").value.tree == Some(b1)
  {
    var vs := Trace(lister, ".", Success(TemplateDir(b0, b1, b2)));
    var parse := AcceptAll();
    TemplateDirTrace(lister, b0, b1, b2);
    TemplateDirPreOrder(b0, b1, b2);
    TemplateDirNames();
    assert TmplOpts.extensions[0] in TmplOpts.extensions;
    assert Loads(Unix, TmplOpts, parse, vs[1]);
    assert Loads(Unix, TmplOpts, parse, vs[3]);
    assert Loads(Unix, TmplOpts, parse, vs[5]);
    AlternateSelection(Unix, TmplOpts, parse, vs);
    LastLoadOnly(Unix, TmplOpts, parse, vs, "0", 1);
    LastLoadOnly(Unix, TmplOpts, parse, vs, "dedicated.tmpl/notbad", 3);
    LastLoadOnly(Unix, TmplOpts, parse, vs, "subdir/1", 5);
  }

  /** Two files of one stem under both configured extensions, listed in
      name order: "a.html" is visited before "a.tmpl". */
  function TwoOfAName(h: Bytes, m: Bytes): Node {
    Dir(".", Listed([File("a.html", Success(h)), File("a.tmpl", Success(m))]))
  }

  /** That directory is listed in name order, so both listers see it as it
      is. */
  lemma TwoOfANameSorted(lister: Lister, h: Bytes, m: Bytes)
    ensures Arrange(lister, TwoOfAName(h, m)) == TwoOfAName(h, m)
  {
    var root := TwoOfAName(h, m);
    var kids := root.listing.children;
    assert NameLe(kids[0].name, kids[1].name);
    assert SortedByNames(kids) && SortedTree(kids[0]) && SortedTree(kids[1]);
    assert SortedTree(root);
    ArrangeSorted(lister, root);
  }

  /** The walk of that directory: the root, then the two files in order. */
  lemma TwoOfANameTrace(lister: Lister, h: Bytes, m: Bytes)
    ensures var vs := Trace(lister, ".", Success(TwoOfAName(h, m)));
      && |vs| == 3
      && vs[0].node.Some? && vs[0].node.value.Dir?
      && vs[1] == Visit("a.html", Some(File("a.html", Success(h))), None)
      && vs[2] == Visit("a.tmpl", Some(File("a.tmpl", Success(m))), None)
  {
    var root := TwoOfAName(h, m);
    var kids := root.listing.children;
    TwoOfANameSorted(lister, h, m);
    assert IsNormal(kids[0].name) && IsNormal(kids[1].name);
    JoinTop(kids[0].name);
    JoinTop(kids[1].name);
    ChildStep(".", root, 1);
    ChildStep(".", root, 0);
    FileVisit(kids[0].name, kids[0]);
    FileVisit(kids[1].name, kids[1]);
  }

  /** With the extensions ".tmpl" and ".html", both files are named "a". The
      one visited last, "a.tmpl", is the template compilation keeps, unless
      its body is blank: an empty tree does not replace "a.html"'s. */
  lemma LaterFileWins(lister: Lister, h: Bytes, m: Bytes)
    ensures var r := CompileFromFS(Unix, lister, TmplOpts, AcceptAll(), Success(TwoOfAName(h, m)));
      && r.Success?
      && r.value.Keys == {".", "a"}
      && r.value["a"].tree == if Blank(m) then Some(h) else Some(m)
  {
    var stat := Success(TwoOfAName(h, m));
    var vs := Trace(lister, ".", stat);
    TwoOfANameLoads(lister, h, m);
    CompileCharacterization(Unix, lister, TmplOpts, AcceptAll(), stat);
    assert Names(Unix, TmplOpts, AcceptAll(), vs) + {RootDir} == {".", "a"};
  }

  /** On that directory nothing fails, both files are named "a", and the
      name should end up with the last of them unless that one is blank. */
  lemma TwoOfANameLoads(lister: Lister, h: Bytes, m: Bytes)
    ensures var vs := Trace(lister, ".", Success(TwoOfAName(h, m)));
      && Failures(Unix, TmplOpts, AcceptAll(), vs) == []
      && Names(Unix, TmplOpts, AcceptAll(), vs) == {"a"}
      && LastLoad(Unix, TmplOpts, AcceptAll(), vs, "a").Some?
      && LastLoad(Unix, TmplOpts, AcceptAll(), vs, "a").value.tree == if Blank(m) then Some(h) else Some(m)
  {
    var vs := Trace(lister, ".", Success(TwoOfAName(h, m)));
    var parse := AcceptAll();
    TwoOfANameVisits(lister, h, m);
    AllLoadMeansNoFailures(Unix, TmplOpts, parse, vs);
    NamesOfTwoAlike(Unix, TmplOpts, parse, vs, "a");
    LastOfTwoAlike(Unix, TmplOpts, parse, vs, "a");
  }

  /** The root is not selected; both files load under "a", each with its own
      bytes as the tree, and "a.tmpl" fills exactly when it is not blank. */
  lemma TwoOfANameVisits(lister: Lister, h: Bytes, m: Bytes)
    ensures var vs := Trace(lister, ".", Success(TwoOfAName(h, m)));
      && |vs| == 3 && !Selected(Unix, TmplOpts, vs[0])
      && Loads(Unix, TmplOpts, AcceptAll(), vs[1]) && Loads(Unix, TmplOpts, AcceptAll(), vs[2])
      && TemplateName(Unix, vs[1].path) == "a" && TemplateName(Unix, vs[2].path) == "a"
      && LoadVisit(Unix, TmplOpts, AcceptAll(), vs[1]).value.tree == Some(h)
      && LoadVisit(Unix, TmplOpts, AcceptAll(), vs[2]).value.tree == Some(m)
      && (Fills(Unix, TmplOpts, AcceptAll(), vs[2]) <==> !Blank(m))
  {
    var vs := Trace(lister, ".", Success(TwoOfAName(h, m)));
    TwoOfANameTrace(lister, h, m);
    TmplStem(vs[1].path, "a", ".html");
    TmplStem(vs[2].path, "a", ".tmpl");
    assert TmplOpts.extensions[0] in TmplOpts.extensions && TmplOpts.extensions[1] in TmplOpts.extensions;
  }

  /** Of two loading visits of one name, the second is kept when its tree
      is not empty and the first otherwise. */
  lemma LastOfTwoAlike<P(!new)>(plat: Platform, opt: Options, parse: Parser<P>, vs: seq<Visit>, k: string)
    requires |vs| == 3 && !Selected(plat, opt, vs[0])
    requires Loads(plat, opt, parse, vs[1]) && Loads(plat, opt, parse, vs[2])
    requires TemplateName(plat, vs[1].path) == k && TemplateName(plat, vs[2].path) == k
    ensures Fills(plat, opt, parse, vs[2]) ==> LastLoad(plat, opt, parse, vs, k) == Some(LoadVisit(plat, opt, parse, vs[2]).value)
    ensures !Fills(plat, opt, parse, vs[2]) ==> LastLoad(plat, opt, parse, vs, k) == Some(LoadVisit(plat, opt, parse, vs[1]).value)
  {
    if Fills(plat, opt, parse, vs[2]) {
      LastLoadAt(plat, opt, parse, vs, k, 2);
    } else if Fills(plat, opt, parse, vs[1]) {
      LastLoadAt(plat, opt, parse, vs, k, 1);
    } else {
      LastLoadAllEmpty(plat, opt, parse, vs, k, 1);
    }
  }

  /** Three visits of which the last two load under the same name. */
  lemma NamesOfTwoAlike<P(!new)>(plat: Platform, opt: Options, parse: Parser<P>, vs: seq<Visit>, k: string)
    requires |vs| == 3 && !Selected(plat, opt, vs[0])
    requires Loads(plat, opt, parse, vs[1]) && Loads(plat, opt, parse, vs[2])
    requires TemplateName(plat, vs[1].path) == k && TemplateName(plat, vs[2].path) == k
    ensures Names(plat, opt, parse, vs) == {k}
  {
  }

  /** Two clean assets sharing one configured extension, both loadable,
      compile to the two stems besides the root template. */
  lemma TwoAssets<P(!new)>(lister: Lister, opt: Options, parse: Parser<P>, a: AssetFS, s1: string, s2: string, e: string)
    requires IsExtension(Unix, e) && e in opt.extensions
    requires a.names == [s1 + e, s2 + e]
    requires CleanName(s1 + e) && CleanName(s2 + e)
    requires Load(Unix, opt, parse, s1 + e, a.asset(s1 + e)).Success?
    requires Load(Unix, opt, parse, s2 + e, a.asset(s2 + e)).Success?
    ensures var r := CompileFromFS(Unix, lister, opt, parse, Success(AssetTree(a)));
      r.Success? && r.value.Keys == {RootDir, s1, s2}
  {
    TemplateNameOfStem(s1, e);
    TemplateNameOfStem(s2, e);
    assert AllClean(a);
    assert forall n :: n in a.names && Ext(Unix, n) in opt.extensions ==> Load(Unix, opt, parse, n, a.asset(n)).Success?;
    CompileAssetsSucceeds(Unix, lister, opt, parse, a);
    CompileAssetsNames(Unix, lister, opt, parse, a);
    TwoStems(opt, a.names, s1 + e, s2 + e, s1, s2, e);
  }

  /** The templates two selected names become. */
  lemma TwoStems(opt: Options, names: seq<string>, n1: string, n2: string, s1: string, s2: string, e: string)
    requires names == [n1, n2] && e in opt.extensions
    requires Ext(Unix, n1) == e && TemplateName(Unix, n1) == s1
    requires Ext(Unix, n2) == e && TemplateName(Unix, n2) == s2
    ensures (set n | n in names && Ext(Unix, n) in opt.extensions :: TemplateName(Unix, n)) == {s1, s2}
  {
    var want := set n | n in names && Ext(Unix, n) in opt.extensions :: TemplateName(Unix, n);
    assert s1 in want by {
      assert n1 in names;
    }
    assert s2 in want by {
      assert n2 in names;
    }
    forall k | k in want ensures k == s1 || k == s2 {
      var n :| n in names && Ext(Unix, n) in opt.extensions && k == TemplateName(Unix, n);
      assert n == n1 || n == n2;
    }
  }

  /** A single path element is a clean asset name. */
  lemma NormalIsClean(n: string)
    requires IsNormal(n)
    ensures CleanName(n)
  {
    CleanRelPath([n]);
    assert RelPath([n]) == n;
  }

  /** The accepting parser loads every readable file. */
  lemma AcceptAllLoads(plat: Platform, opt: Options, path: string, data: Result<Bytes>)
    requires data.Success?
    ensures Load(plat, opt, AcceptAll(), path, data).Success?
  {
  }

  /** The `AssetFS` of the HTML asset test: two assets, both readable. */
  lemma TwoAssetsCompile(lister: Lister, a: AssetFS)
    requires a.names == ["test.tmpl", "layout.tmpl"]
    requires a.asset("test.tmpl").Success? && a.asset("layout.tmpl").Success?
    ensures var r := CompileFromFS(Unix, lister, TmplOpts, AcceptAll(), Success(AssetTree(a)));
      r.Success? && r.value.Keys == {".", "test", "layout"}
  {
    var n1, n2, e := a.names[0], a.names[1], TmplOpts.extensions[0];
    assert n1 == "test" + e && n2 == "layout" + e && IsExtension(Unix, e);
    assert IsNormal(n1) && IsNormal(n2);
    NormalIsClean(n1);
    NormalIsClean(n2);
    AcceptAllLoads(Unix, TmplOpts, n1, a.asset(n1));
    AcceptAllLoads(Unix, TmplOpts, n2, a.asset(n2));
    TwoAssets(lister, TmplOpts, AcceptAll(), a, "test", "layout", e);
  }
}
