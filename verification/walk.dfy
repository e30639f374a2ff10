/** The recursive filesystem walk of fs_pre116.go (`walk` and `walkDir`).
    fs.go calls the standard `fs.WalkDir` instead, which makes the same
    callbacks in the same order with the same answers to nil, `SkipDir` and
    other errors as far as this model goes; the `SkipAll` answer of later
    standard libraries, and their turning a `SkipDir` from a listing-failure
    callback into success, are not modelled. The walk callback of the source
    is a function with side effects; here it is a pure function that threads
    a state `S` and answers with a `Signal` (nil, `SkipDir`, or another
    error). */
module FsWalk {
  import opened Common
  import opened FsTree
  import opened SlashPath

  /** What a walk callback returns: nil (`Continue`), `filepath.SkipDir`, or
      any other error, which stops the walk. */
  datatype Signal = Continue | SkipDir | Stop(err: Error)

  /** One call of the callback: the path, the entry (absent when `stat` of the
      root failed) and the error being reported, if any. */
  datatype Visit = Visit(path: string, node: Option<Node>, err: Option<Error>)

  type Callback<!S> = (S, Visit) -> (S, Signal)

  /** `walk`: stat the root; on failure hand the error to the callback,
      otherwise walk the root. A `SkipDir` reaching the top is success. The
      walk reads every listing in the order `lister` gives it, which is the
      tree `Arrange(lister, n)` read as listed. */
  function Walk<S>(lister: Lister, fn: Callback<S>, s: S, root: string, stat: Result<Node>): (r: (S, Signal))
    ensures !r.1.SkipDir?
  {
    var (s1, sig) :=
      match stat
      case Failure(e) => fn(s, Visit(root, None, Some(e)))
      case Success(n) => WalkDir(fn, s, root, Arrange(lister, n));
    (s1, if sig.SkipDir? then Continue else sig)
  }

  /** `walkDir`: call back on the entry itself; stop there for a file, an
      error, or a skipped directory (the skip then counts as success).
      Otherwise list the directory; a listing failure is reported through a
      second callback, and when that answers nil the entries read before the
      failure are still walked. The children are walked in order. A
      `SkipDir` can only escape from a file or from the listing-failure
      callback; it then ends the parent's loop over its siblings. */
  function WalkDir<S>(fn: Callback<S>, s: S, path: string, node: Node): (r: (S, Signal))
    ensures r.1.SkipDir? ==>
      || (node.File? && fn(s, Visit(path, Some(node), None)) == r)
      || (node.Dir? && node.listing.Failed? &&
          fn(s, Visit(path, Some(node), None)).1 == Continue &&
          fn(fn(s, Visit(path, Some(node), None)).0, Visit(path, Some(node), Some(node.listing.err))) == r)
    decreases node, 1
  {
    var (s1, sig) := fn(s, Visit(path, Some(node), None));
    if sig != Continue || node.File? then
      (s1, if sig.SkipDir? && node.Dir? then Continue else sig)
    else
      match node.listing
      case Failed(_, e) =>
        var (s2, sig2) := fn(s1, Visit(path, Some(node), Some(e)));
        if sig2 != Continue then (s2, sig2) else WalkChildren(fn, s2, path, node, 0)
      case Listed(_) =>
        WalkChildren(fn, s1, path, node, 0)
  }

  /** The loop over a directory's entries: each child is named
      `path.Join(parent, childName)`; a `SkipDir` from a child ends the loop
      successfully, any other error ends it with that error. */
  function WalkChildren<S>(fn: Callback<S>, s: S, path: string, node: Node, i: nat): (r: (S, Signal))
    requires node.Dir?
    requires i <= |node.listing.children|
    ensures !r.1.SkipDir?
    decreases node, 0, |node.listing.children| - i
  {
    if i == |node.listing.children| then (s, Continue)
    else
      var kid := node.listing.children[i];
      var (s1, sig) := WalkDir(fn, s, Join(path, kid.name), kid);
      if sig.Continue? then WalkChildren(fn, s1, path, node, i + 1)
      else if sig.SkipDir? then (s1, Continue)
      else (s1, sig)
  }

  // ---------------------------------------------------------------------
  // Reference definition: the visits of a walk nobody interrupts.

  /** Every callback of an uninterrupted walk of `node`, in order: the node
      before anything below it, then the listing failure if there is one,
      then the children one after the other; files are never expanded. */
  function PreOrder(path: string, node: Node): seq<Visit>
    decreases node, 1
  {
    [Visit(path, Some(node), None)] +
    match node
    case File(_, _) => []
    case Dir(_, Failed(_, e)) => [Visit(path, Some(node), Some(e))] + PreOrderChildren(path, node, 0)
    case Dir(_, Listed(_)) => PreOrderChildren(path, node, 0)
  }

  function PreOrderChildren(path: string, node: Node, i: nat): seq<Visit>
    requires node.Dir?
    requires i <= |node.listing.children|
    decreases node, 0, |node.listing.children| - i
  {
    if i == |node.listing.children| then []
    else
      var kid := node.listing.children[i];
      PreOrder(Join(path, kid.name), kid) + PreOrderChildren(path, node, i + 1)
  }

  /** An uninterrupted walk visits every entry a directory's listing
      yielded, whether the listing completed or failed part way. */
  lemma EntriesVisited(path: string, node: Node, j: nat)
    requires node.Dir? && j < |node.listing.children|
    ensures Visit(Join(path, node.listing.children[j].name), Some(node.listing.children[j]), None)
            in PreOrder(path, node)
  {
    EntriesVisitedFrom(path, node, 0, j);
  }

  lemma {:induction false} EntriesVisitedFrom(path: string, node: Node, i: nat, j: nat)
    requires node.Dir? && i <= j < |node.listing.children|
    ensures Visit(Join(path, node.listing.children[j].name), Some(node.listing.children[j]), None)
            in PreOrderChildren(path, node, i)
    decreases j - i
  {
    var kid := node.listing.children[i];
    var here := PreOrder(Join(path, kid.name), kid);
    assert PreOrderChildren(path, node, i) == here + PreOrderChildren(path, node, i + 1);
    if i == j {
      assert here[0] == Visit(Join(path, kid.name), Some(kid), None);
    } else {
      EntriesVisitedFrom(path, node, i + 1, j);
    }
  }

  /** The visits of a whole uninterrupted walk from `root`. */
  function Trace(lister: Lister, root: string, stat: Result<Node>): seq<Visit> {
    match stat
    case Failure(e) => [Visit(root, None, Some(e))]
    case Success(n) => PreOrder(root, Arrange(lister, n))
  }

  /** Feeding visits to a callback one by one, ignoring its answers. */
  function Replay<S>(fn: Callback<S>, s: S, vs: seq<Visit>): S
    decreases |vs|
  {
    if |vs| == 0 then s else Replay(fn, fn(s, vs[0]).0, vs[1..])
  }

  lemma {:induction false} ReplayConcat<S>(fn: Callback<S>, s: S, a: seq<Visit>, b: seq<Visit>)
    ensures Replay(fn, s, a + b) == Replay(fn, Replay(fn, s, a), b)
    decreases |a|
  {
    if |a| > 0 {
      assert (a + b)[0] == a[0];
      assert (a + b)[1..] == a[1..] + b;
      assert Replay(fn, s, a) == Replay(fn, fn(s, a[0]).0, a[1..]);
      ReplayConcat(fn, fn(s, a[0]).0, a[1..], b);
    } else {
      assert a + b == b;
    }
  }

  /** A callback that always answers nil. */
  ghost predicate NeverInterrupts<S(!new)>(fn: Callback<S>) {
    forall s, v :: fn(s, v).1 == Continue
  }

  /** With a callback that never interrupts, the walk makes exactly the
      callbacks of `PreOrder`, in that order, and succeeds. */
  lemma {:induction false} WalkDirIsPreOrder<S(!new)>(fn: Callback<S>, s: S, path: string, node: Node)
    requires NeverInterrupts(fn)
    ensures WalkDir(fn, s, path, node) == (Replay(fn, s, PreOrder(path, node)), Continue)
    decreases node, 1
  {
    var v := Visit(path, Some(node), None);
    var s1 := fn(s, v).0;
    assert fn(s, v).1 == Continue;
    var rest := PreOrder(path, node)[1..];
    assert PreOrder(path, node) == [v] + rest;
    assert Replay(fn, s, PreOrder(path, node)) == Replay(fn, s1, rest);
    match node
    case File(_, _) =>
      assert rest == [];
      assert WalkDir(fn, s, path, node) == (s1, Continue);
    case Dir(_, Failed(_, e)) =>
      var v2 := Visit(path, Some(node), Some(e));
      var s2 := fn(s1, v2).0;
      var kids := PreOrderChildren(path, node, 0);
      assert rest == [v2] + kids;
      assert fn(s1, v2).1 == Continue;
      WalkChildrenIsPreOrder(fn, s2, path, node, 0);
      assert WalkDir(fn, s, path, node) == WalkChildren(fn, s2, path, node, 0);
      assert rest[1..] == kids;
      assert Replay(fn, s1, rest) == Replay(fn, s2, kids);
    case Dir(_, Listed(_)) =>
      WalkChildrenIsPreOrder(fn, s1, path, node, 0);
  }

  lemma {:induction false} WalkChildrenIsPreOrder<S(!new)>(fn: Callback<S>, s: S, path: string, node: Node, i: nat)
    requires NeverInterrupts(fn)
    requires node.Dir?
    requires i <= |node.listing.children|
    ensures WalkChildren(fn, s, path, node, i) == (Replay(fn, s, PreOrderChildren(path, node, i)), Continue)
    decreases node, 0, |node.listing.children| - i
  {
    if i < |node.listing.children| {
      var kid := node.listing.children[i];
      var p := Join(path, kid.name);
      WalkDirIsPreOrder(fn, s, p, kid);
      var s1 := Replay(fn, s, PreOrder(p, kid));
      WalkChildrenIsPreOrder(fn, s1, path, node, i + 1);
      ReplayConcat(fn, s, PreOrder(p, kid), PreOrderChildren(path, node, i + 1));
    }
  }

  /** The whole walk with a callback that never interrupts replays `Trace`. */
  lemma WalkIsTrace<S(!new)>(lister: Lister, fn: Callback<S>, s: S, root: string, stat: Result<Node>)
    requires NeverInterrupts(fn)
    ensures Walk(lister, fn, s, root, stat) == (Replay(fn, s, Trace(lister, root, stat)), Continue)
  {
    match stat
    case Failure(e) =>
      assert Replay(fn, s, Trace(lister, root, stat)) == Replay(fn, fn(s, Visit(root, None, Some(e))).0, []);
    case Success(n) =>
      WalkDirIsPreOrder(fn, s, root, Arrange(lister, n));
  }

  // ---------------------------------------------------------------------
  // SkipDir: a callback that records every visit and answers SkipDir at a
  // chosen set of paths, against a reference definition of what it sees.

  function Recorder(skip: set<string>): Callback<seq<Visit>> {
    (s: seq<Visit>, v: Visit) => (s + [v], if v.path in skip then SkipDir else Continue)
  }

  /** The visits the recorder sees below `path`, and whether a SkipDir
      escapes to the parent. A skipped directory shows only itself and counts
      as success; a skipped file shows itself and makes its parent stop
      listing further siblings. */
  function Pruned(skip: set<string>, path: string, node: Node): (seq<Visit>, bool)
    decreases node, 1
  {
    var v := Visit(path, Some(node), None);
    if path in skip then ([v], node.File?)
    else
      match node
      case File(_, _) => ([v], false)
      case Dir(_, Failed(_, e)) => ([v, Visit(path, Some(node), Some(e))] + PrunedChildren(skip, path, node, 0), false)
      case Dir(_, Listed(_)) => ([v] + PrunedChildren(skip, path, node, 0), false)
  }

  function PrunedChildren(skip: set<string>, path: string, node: Node, i: nat): seq<Visit>
    requires node.Dir?
    requires i <= |node.listing.children|
    decreases node, 0, |node.listing.children| - i
  {
    if i == |node.listing.children| then []
    else
      var kid := node.listing.children[i];
      var (vs, escapes) := Pruned(skip, Join(path, kid.name), kid);
      if escapes then vs else vs + PrunedChildren(skip, path, node, i + 1)
  }

  /** `SkipDir` semantics of `walkDir`: with the recorder, the walk records
      exactly the visits of `Pruned`, and reports SkipDir to the parent
      exactly when `Pruned` says it escapes. */
  lemma {:induction false} WalkDirSkips(skip: set<string>, s: seq<Visit>, path: string, node: Node)
    ensures WalkDir(Recorder(skip), s, path, node) ==
            (s + Pruned(skip, path, node).0, if Pruned(skip, path, node).1 then SkipDir else Continue)
    decreases node, 1
  {
    var fn := Recorder(skip);
    var v := Visit(path, Some(node), None);
    assert fn(s, v) == (s + [v], if path in skip then SkipDir else Continue);
    if path !in skip {
      match node
      case File(_, _) =>
      case Dir(_, Failed(_, e)) =>
        FailedListingSkips(skip, s + [v], path, node);
        assert s + [v] + ([Visit(path, Some(node), Some(e))] + PrunedChildren(skip, path, node, 0)) ==
               s + ([v, Visit(path, Some(node), Some(e))] + PrunedChildren(skip, path, node, 0));
      case Dir(_, Listed(_)) =>
        WalkChildrenSkips(skip, s + [v], path, node, 0);
        AppendAssoc(s, [v], PrunedChildren(skip, path, node, 0));
    }
  }

  /** After the first callback on a directory whose listing failed: the
      failure is recorded, then the entries read before it are walked. */
  lemma {:induction false} FailedListingSkips(skip: set<string>, s: seq<Visit>, path: string, node: Node)
    requires path !in skip && node.Dir? && node.listing.Failed?
    ensures var v2 := Visit(path, Some(node), Some(node.listing.err));
      && Recorder(skip)(s, v2) == (s + [v2], Continue)
      && WalkChildren(Recorder(skip), s + [v2], path, node, 0) ==
         (s + ([v2] + PrunedChildren(skip, path, node, 0)), Continue)
    decreases node, 0, |node.listing.children| + 1
  {
    var v2 := Visit(path, Some(node), Some(node.listing.err));
    WalkChildrenSkips(skip, s + [v2], path, node, 0);
    AppendAssoc(s, [v2], PrunedChildren(skip, path, node, 0));
  }

  lemma {:induction false} WalkChildrenSkips(skip: set<string>, s: seq<Visit>, path: string, node: Node, i: nat)
    requires node.Dir?
    requires i <= |node.listing.children|
    ensures WalkChildren(Recorder(skip), s, path, node, i) == (s + PrunedChildren(skip, path, node, i), Continue)
    decreases node, 0, |node.listing.children| - i
  {
    if i == |node.listing.children| {
      assert s + [] == s;
    } else {
      var kid := node.listing.children[i];
      var p := Join(path, kid.name);
      WalkDirSkips(skip, s, p, kid);
      var vs := Pruned(skip, p, kid).0;
      if !Pruned(skip, p, kid).1 {
        WalkChildrenSkips(skip, s + vs, path, node, i + 1);
        AppendAssoc(s, vs, PrunedChildren(skip, path, node, i + 1));
      }
    }
  }

  /** At the top, an escaping SkipDir is success, and a failed `stat` of the
      root shows the callback one visit carrying the error and no entry. */
  function PrunedTrace(lister: Lister, skip: set<string>, root: string, stat: Result<Node>): seq<Visit> {
    if stat.Failure? then [Visit(root, None, Some(stat.error))]
    else Pruned(skip, root, Arrange(lister, stat.value)).0
  }

  lemma WalkSkips(lister: Lister, skip: set<string>, s: seq<Visit>, root: string, stat: Result<Node>)
    ensures Walk(lister, Recorder(skip), s, root, stat) == (s + PrunedTrace(lister, skip, root, stat), Continue)
  {
    if stat.Success? {
      WalkDirSkips(skip, s, root, Arrange(lister, stat.value));
    }
  }

  // ---------------------------------------------------------------------
  // Stopping: a callback that records every visit and answers an error at
  // the first visit meeting a condition, against a reference prefix.

  function Stopper(halt: Visit -> bool, e: Error): Callback<seq<Visit>> {
    (s: seq<Visit>, v: Visit) => (s + [v], if halt(v) then Stop(e) else Continue)
  }

  /** The visits up to and including the first one meeting `halt`, and
      whether there is one. */
  function UpTo(halt: Visit -> bool, vs: seq<Visit>): (r: (seq<Visit>, bool))
    ensures |r.0| <= |vs|
    decreases |vs|
  {
    if |vs| == 0 then ([], false)
    else if halt(vs[0]) then ([vs[0]], true)
    else ([vs[0]] + UpTo(halt, vs[1..]).0, UpTo(halt, vs[1..]).1)
  }

  /** `UpTo` is the prefix that ends at the first visit meeting `halt`, or
      all the visits when none does. */
  lemma {:induction false} UpToIsFirstPrefix(halt: Visit -> bool, vs: seq<Visit>)
    ensures var (pre, found) := UpTo(halt, vs);
      && pre == vs[..|pre|]
      && (found ==> |pre| > 0 && halt(pre[|pre| - 1]))
      && (!found ==> pre == vs)
      && forall j :: 0 <= j < |pre| && (j < |pre| - 1 || !found) ==> !halt(vs[j])
    decreases |vs|
  {
    if |vs| > 0 && !halt(vs[0]) {
      var rest := vs[1..];
      UpToIsFirstPrefix(halt, rest);
      var (pre, found) := UpTo(halt, rest);
      assert UpTo(halt, vs) == ([vs[0]] + pre, found);
      assert vs == [vs[0]] + rest;
      forall j | 0 <= j < 1 + |pre| && (j < |pre| || !found) ensures !halt(vs[j]) {
        if j > 0 {
          assert vs[j] == rest[j - 1];
        }
      }
    }
  }

  /** A single visit is its own prefix. */
  lemma UpToOne(halt: Visit -> bool, v: Visit)
    ensures UpTo(halt, [v]) == ([v], halt(v))
  {
    var vs := [v];
    assert vs[0] == v && vs[1..] == [];
    assert UpTo(halt, vs[1..]) == ([], false);
    if halt(v) {
      assert UpTo(halt, vs) == ([v], true);
    } else {
      assert UpTo(halt, vs) == ([v] + [], false);
      assert [v] + [] == [v];
    }
  }

  /** Stopping inside the first part of the visits ignores the rest;
      otherwise the rest is searched after all of the first part. */
  lemma {:induction false} UpToConcat(halt: Visit -> bool, a: seq<Visit>, b: seq<Visit>)
    ensures UpTo(halt, a + b) ==
      if UpTo(halt, a).1 then UpTo(halt, a) else (UpTo(halt, a).0 + UpTo(halt, b).0, UpTo(halt, b).1)
    decreases |a|
  {
    if |a| == 0 {
      assert a + b == b;
      assert UpTo(halt, a) == ([], false);
      assert [] + UpTo(halt, b).0 == UpTo(halt, b).0;
    } else {
      assert (a + b)[0] == a[0];
      assert (a + b)[1..] == a[1..] + b;
      UpToConcat(halt, a[1..], b);
      if !halt(a[0]) {
        var (p, found) := UpTo(halt, a[1..]);
        assert UpTo(halt, a) == ([a[0]] + p, found);
        assert UpTo(halt, a + b) == ([a[0]] + UpTo(halt, a[1..] + b).0, UpTo(halt, a[1..] + b).1);
        if !found {
          assert [a[0]] + p + UpTo(halt, b).0 == [a[0]] + (p + UpTo(halt, b).0);
        }
      }
    }
  }

  /** An error from the callback ends `walkDir` at once: the walk makes the
      callbacks of the pre-order up to and including the first one answered
      with the error, and returns that error. */
  lemma {:induction false} WalkDirStops(halt: Visit -> bool, e: Error, s: seq<Visit>, path: string, node: Node)
    ensures WalkDir(Stopper(halt, e), s, path, node) ==
      (s + UpTo(halt, PreOrder(path, node)).0, if UpTo(halt, PreOrder(path, node)).1 then Stop(e) else Continue)
    decreases node, 1
  {
    var fn := Stopper(halt, e);
    var v := Visit(path, Some(node), None);
    var rest := PreOrder(path, node)[1..];
    assert PreOrder(path, node) == [v] + rest;
    UpToConcat(halt, [v], rest);
    UpToOne(halt, v);
    if !halt(v) && node.File? {
      assert rest == [];
      assert UpTo(halt, rest) == ([], false);
      assert [v] + [] == [v];
    } else if !halt(v) && node.Dir? {
      if node.listing.Failed? {
        FailedDirStops(halt, e, s, path, node);
      } else {
        ListedDirStops(halt, e, s, path, node);
      }
    }
  }

  /** A directory whose listing succeeded and whose first callback answers
      nil. */
  lemma {:induction false} ListedDirStops(halt: Visit -> bool, e: Error, s: seq<Visit>, path: string, node: Node)
    requires node.Dir? && node.listing.Listed? && !halt(Visit(path, Some(node), None))
    ensures WalkDir(Stopper(halt, e), s, path, node) ==
      (s + ([Visit(path, Some(node), None)] + UpTo(halt, PreOrder(path, node)[1..]).0),
       if UpTo(halt, PreOrder(path, node)[1..]).1 then Stop(e) else Continue)
    decreases node, 0, |node.listing.children| + 2
  {
    var v := Visit(path, Some(node), None);
    var kids := PreOrderChildren(path, node, 0);
    assert PreOrder(path, node)[1..] == kids;
    WalkChildrenStops(halt, e, s + [v], path, node, 0);
    AppendAssoc(s, [v], UpTo(halt, kids).0);
  }

  /** A directory whose listing failed and whose first callback answers nil. */
  lemma {:induction false} FailedDirStops(halt: Visit -> bool, e: Error, s: seq<Visit>, path: string, node: Node)
    requires node.Dir? && node.listing.Failed? && !halt(Visit(path, Some(node), None))
    ensures WalkDir(Stopper(halt, e), s, path, node) ==
      (s + ([Visit(path, Some(node), None)] + UpTo(halt, PreOrder(path, node)[1..]).0),
       if UpTo(halt, PreOrder(path, node)[1..]).1 then Stop(e) else Continue)
    decreases node, 0, |node.listing.children| + 2
  {
    var fn := Stopper(halt, e);
    var v := Visit(path, Some(node), None);
    var v2 := Visit(path, Some(node), Some(node.listing.err));
    var kids := PreOrderChildren(path, node, 0);
    var up := UpTo(halt, [v2] + kids);
    assert PreOrder(path, node)[1..] == [v2] + kids;
    FailedListingStops(halt, e, s + [v], path, node);
    if halt(v2) {
      assert WalkDir(fn, s, path, node) == (s + [v] + [v2], Stop(e));
      AppendAssoc(s, [v], [v2]);
    } else {
      assert WalkDir(fn, s, path, node) == WalkChildren(fn, s + [v] + [v2], path, node, 0);
      AppendAssoc(s, [v], up.0);
    }
  }

  /** After the first callback on a directory whose listing failed: an error
      from the second callback ends the walk there, otherwise the entries
      read before the failure are walked. */
  lemma {:induction false} FailedListingStops(halt: Visit -> bool, e: Error, s: seq<Visit>, path: string, node: Node)
    requires node.Dir? && node.listing.Failed?
    ensures var v2 := Visit(path, Some(node), Some(node.listing.err));
      var up := UpTo(halt, [v2] + PreOrderChildren(path, node, 0));
      && Stopper(halt, e)(s, v2) == (s + [v2], if halt(v2) then Stop(e) else Continue)
      && (!halt(v2) ==> WalkChildren(Stopper(halt, e), s + [v2], path, node, 0) ==
                          (s + up.0, if up.1 then Stop(e) else Continue))
      && (halt(v2) ==> up == ([v2], true))
    decreases node, 0, |node.listing.children| + 1
  {
    var v2 := Visit(path, Some(node), Some(node.listing.err));
    var kids := PreOrderChildren(path, node, 0);
    UpToConcat(halt, [v2], kids);
    UpToOne(halt, v2);
    if !halt(v2) {
      WalkChildrenStops(halt, e, s + [v2], path, node, 0);
      AppendAssoc(s, [v2], UpTo(halt, kids).0);
    }
  }

  lemma {:induction false} WalkChildrenStops(halt: Visit -> bool, e: Error, s: seq<Visit>, path: string, node: Node, i: nat)
    requires node.Dir?
    requires i <= |node.listing.children|
    ensures WalkChildren(Stopper(halt, e), s, path, node, i) ==
      (s + UpTo(halt, PreOrderChildren(path, node, i)).0,
       if UpTo(halt, PreOrderChildren(path, node, i)).1 then Stop(e) else Continue)
    decreases node, 0, |node.listing.children| - i, 1
  {
    if i == |node.listing.children| {
      assert UpTo(halt, []) == ([], false);
      assert s + [] == s;
    } else {
      var kid := node.listing.children[i];
      var here := PreOrder(Join(path, kid.name), kid);
      ChildStops(halt, e, s, path, node, i);
      if !UpTo(halt, here).1 {
        LaterStops(halt, e, s, path, node, i);
      }
    }
  }

  /** The loop after an entry whose whole pre-order was called back with
      nil. */
  lemma {:induction false} LaterStops(halt: Visit -> bool, e: Error, s: seq<Visit>, path: string, node: Node, i: nat)
    requires node.Dir? && i < |node.listing.children|
    requires !UpTo(halt, PreOrder(Join(path, node.listing.children[i].name), node.listing.children[i])).1
    ensures var pre := UpTo(halt, PreOrder(Join(path, node.listing.children[i].name), node.listing.children[i])).0;
      var later := UpTo(halt, PreOrderChildren(path, node, i + 1));
      WalkChildren(Stopper(halt, e), s + pre, path, node, i + 1) ==
        (s + (pre + later.0), if later.1 then Stop(e) else Continue)
    decreases node, 0, |node.listing.children| - i, 0
  {
    var pre := UpTo(halt, PreOrder(Join(path, node.listing.children[i].name), node.listing.children[i])).0;
    var later := UpTo(halt, PreOrderChildren(path, node, i + 1));
    WalkChildrenStops(halt, e, s + pre, path, node, i + 1);
    AppendAssoc(s, pre, later.0);
  }

  lemma AppendAssoc<T>(a: seq<T>, b: seq<T>, c: seq<T>)
    ensures a + b + c == a + (b + c)
  {
  }

  /** One entry of the loop with that callback: an error inside the entry
      ends the loop there; otherwise the loop goes on after the entry's
      whole pre-order. */
  lemma {:induction false} ChildStops(halt: Visit -> bool, e: Error, s: seq<Visit>, path: string, node: Node, i: nat)
    requires node.Dir? && i < |node.listing.children|
    ensures var kid := node.listing.children[i];
      var here := UpTo(halt, PreOrder(Join(path, kid.name), kid));
      var later := PreOrderChildren(path, node, i + 1);
      && (here.1 ==> WalkChildren(Stopper(halt, e), s, path, node, i) == (s + here.0, Stop(e))
                     && UpTo(halt, PreOrderChildren(path, node, i)) == here)
      && (!here.1 ==> WalkChildren(Stopper(halt, e), s, path, node, i) ==
                        WalkChildren(Stopper(halt, e), s + here.0, path, node, i + 1)
                      && UpTo(halt, PreOrderChildren(path, node, i)) == (here.0 + UpTo(halt, later).0, UpTo(halt, later).1))
    decreases node, 0, |node.listing.children| - i, 0
  {
    var kid := node.listing.children[i];
    var p := Join(path, kid.name);
    WalkDirStops(halt, e, s, p, kid);
    ChildrenStep(Stopper(halt, e), s, path, node, i);
    UpToConcat(halt, PreOrder(p, kid), PreOrderChildren(path, node, i + 1));
  }

  /** One turn of the loop over the entries, for any callback: a child's
      nil goes on to the next entry and any other error ends the loop. */
  lemma ChildrenStep<S>(fn: Callback<S>, s: S, path: string, node: Node, i: nat)
    requires node.Dir? && i < |node.listing.children|
    ensures var kid := node.listing.children[i];
      var r := WalkDir(fn, s, Join(path, kid.name), kid);
      && PreOrderChildren(path, node, i) == PreOrder(Join(path, kid.name), kid) + PreOrderChildren(path, node, i + 1)
      && (r.1.Continue? ==> WalkChildren(fn, s, path, node, i) == WalkChildren(fn, r.0, path, node, i + 1))
      && (r.1.Stop? ==> WalkChildren(fn, s, path, node, i) == r)
  {
  }

  /** The whole walk with that callback: it makes the callbacks of `Trace`
      up to and including the first one answered with the error and returns
      the error, or makes all of them and succeeds. */
  lemma WalkStops(lister: Lister, halt: Visit -> bool, e: Error, s: seq<Visit>, root: string, stat: Result<Node>)
    ensures Walk(lister, Stopper(halt, e), s, root, stat) ==
      (s + UpTo(halt, Trace(lister, root, stat)).0, if UpTo(halt, Trace(lister, root, stat)).1 then Stop(e) else Continue)
  {
    match stat
    case Failure(err) =>
      var v := Visit(root, None, Some(err));
      UpToOne(halt, v);
    case Success(n) =>
      WalkDirStops(halt, e, s, root, Arrange(lister, n));
  }

  // ---------------------------------------------------------------------
  // Paths handed to the callback.

  /** Every entry below `node` has a name that is a real path element. */
  predicate WellNamed(node: Node)
    decreases node
  {
    node.Dir? ==>
      forall k :: 0 <= k < |node.listing.children| ==>
        IsNormal(node.listing.children[k].name) && WellNamed(node.listing.children[k])
  }

  /** `p` is the route `rs` extended by further element names. */
  ghost predicate ExtendsRoute(rs: seq<string>, p: string) {
    exists ext :: AllNormal(ext) && p == RelPath(rs + ext)
  }

  ghost predicate AllExtend(rs: seq<string>, vs: seq<Visit>) {
    forall j :: 0 <= j < |vs| ==> ExtendsRoute(rs, vs[j].path)
  }

  lemma AllExtendConcat(rs: seq<string>, a: seq<Visit>, b: seq<Visit>)
    requires AllExtend(rs, a) && AllExtend(rs, b)
    ensures AllExtend(rs, a + b)
  {
    forall j | 0 <= j < |a + b| ensures ExtendsRoute(rs, (a + b)[j].path) {
      if j < |a| {
        assert (a + b)[j] == a[j];
      } else {
        assert (a + b)[j] == b[j - |a|];
      }
    }
  }

  lemma AllExtendParent(rs: seq<string>, name: string, vs: seq<Visit>)
    requires IsNormal(name) && AllExtend(rs + [name], vs)
    ensures AllExtend(rs, vs)
  {
    forall j | 0 <= j < |vs| ensures ExtendsRoute(rs, vs[j].path) {
      var ext :| AllNormal(ext) && vs[j].path == RelPath(rs + [name] + ext);
      assert rs + [name] + ext == rs + ([name] + ext);
      assert AllNormal([name] + ext);
    }
  }

  /** Because children are named with `path.Join`, every path the walk hands
      out is its starting route followed by the names on the way down; from
      "." that is a relative path with no "./" prefix and no doubled or
      trailing slash. */
  lemma {:induction false} PreOrderPaths(rs: seq<string>, node: Node)
    requires AllNormal(rs) && WellNamed(node)
    ensures AllExtend(rs, PreOrder(RelPath(rs), node))
    decreases node, 1
  {
    var p := RelPath(rs);
    var v := Visit(p, Some(node), None);
    AtRoute(rs, [v]);
    if node.Dir? {
      var kids := PreOrderChildren(p, node, 0);
      PreOrderChildrenPaths(rs, node, 0);
      if node.listing.Failed? {
        var v2 := Visit(p, Some(node), Some(node.listing.err));
        AtRoute(rs, [v2]);
        AllExtendConcat(rs, [v2], kids);
        AllExtendConcat(rs, [v], [v2] + kids);
      } else {
        AllExtendConcat(rs, [v], kids);
      }
    }
  }

  /** Visits at the route's own path extend it by nothing. */
  lemma AtRoute(rs: seq<string>, vs: seq<Visit>)
    requires forall j :: 0 <= j < |vs| ==> vs[j].path == RelPath(rs)
    ensures AllExtend(rs, vs)
  {
    assert rs + [] == rs;
    assert AllNormal([]);
    assert ExtendsRoute(rs, RelPath(rs));
  }

  lemma {:induction false} PreOrderChildrenPaths(rs: seq<string>, node: Node, i: nat)
    requires AllNormal(rs) && WellNamed(node)
    requires node.Dir?
    requires i <= |node.listing.children|
    ensures AllExtend(rs, PreOrderChildren(RelPath(rs), node, i))
    decreases node, 0, |node.listing.children| - i
  {
    if i < |node.listing.children| {
      var kid := node.listing.children[i];
      assert IsNormal(kid.name) && WellNamed(kid);
      ChildPaths(rs, kid);
      PreOrderChildrenPaths(rs, node, i + 1);
      AllExtendConcat(rs, PreOrder(Join(RelPath(rs), kid.name), kid), PreOrderChildren(RelPath(rs), node, i + 1));
    }
  }

  /** The visits below one child extend the parent's route. */
  lemma {:induction false} ChildPaths(rs: seq<string>, kid: Node)
    requires AllNormal(rs) && IsNormal(kid.name) && WellNamed(kid)
    ensures AllExtend(rs, PreOrder(Join(RelPath(rs), kid.name), kid))
    decreases kid, 2
  {
    var rs' := rs + [kid.name];
    JoinChild(rs, kid.name);
    PreOrderPaths(rs', kid);
    AllExtendParent(rs, kid.name, PreOrder(RelPath(rs'), kid));
  }

  /** Ordering the listings renames nothing. */
  lemma {:induction false} ArrangeWellNamed(lister: Lister, node: Node)
    requires WellNamed(node)
    ensures WellNamed(Arrange(lister, node)) && Arrange(lister, node).name == node.name
    decreases node, 1
  {
    if node.Dir? {
      var kids := node.listing.children;
      var ak := ArrangeAll(lister, kids);
      ArrangeAllWellNamed(lister, kids);
      OrderPermutes(lister, ak);
      var ok := Order(lister, ak);
      forall k | 0 <= k < |ok| ensures IsNormal(ok[k].name) && WellNamed(ok[k]) {
        assert ok[k] in ak;
      }
    }
  }

  lemma {:induction false} ArrangeAllWellNamed(lister: Lister, kids: seq<Node>)
    requires forall k :: 0 <= k < |kids| ==> IsNormal(kids[k].name) && WellNamed(kids[k])
    ensures forall k :: 0 <= k < |kids| ==>
      IsNormal(ArrangeAll(lister, kids)[k].name) && WellNamed(ArrangeAll(lister, kids)[k])
    decreases kids, 0
  {
    if |kids| > 0 {
      ArrangeWellNamed(lister, kids[0]);
      assert forall k :: 0 <= k < |kids| - 1 ==> kids[1..][k] == kids[k + 1];
      ArrangeAllWellNamed(lister, kids[1..]);
    }
  }

  /** Every path a walk from "." hands to the callback, in either listing
      order, is "." or a clean relative path of real names. */
  lemma TracePaths(lister: Lister, root: Node)
    requires WellNamed(root)
    ensures AllExtend([], Trace(lister, ".", Success(root)))
  {
    ArrangeWellNamed(lister, root);
    assert RelPath([]) == ".";
    PreOrderPaths([], Arrange(lister, root));
  }

  /** A path that extends a route of real names is already clean. */
  lemma RoutePathIsClean(rs: seq<string>, p: string)
    requires AllNormal(rs) && ExtendsRoute(rs, p)
    ensures Clean(p) == p
  {
    var ext :| AllNormal(ext) && p == RelPath(rs + ext);
    assert AllNormal(rs + ext);
    CleanRelPath(rs + ext);
  }
}
