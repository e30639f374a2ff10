/** The slash-separated path helpers of Go's `path` package that the
    in-memory filesystem and the hand-written walk rely on: `path.Clean`
    (every `AssetFS.Open` cleans its argument first) and `path.Join` (the walk
    names a child `path.Join(parent, childName)`). These always use '/',
    whatever the platform. */
module SlashPath {

  /** The elements of `s` between slashes, empty ones included, so that
      `"/a//b"` splits into `["", "a", "", "b"]`. */
  function Split(s: string): (r: seq<string>)
    ensures |r| >= 1
  {
    if |s| == 0 then [""]
    else
      var rest := Split(s[1..]);
      if s[0] == '/' then [""] + rest
      else [[s[0]] + rest[0]] + rest[1..]
  }

  /** No element of a split holds a slash. */
  lemma {:induction false} SplitElems(s: string)
    ensures forall k :: 0 <= k < |Split(s)| ==> '/' !in Split(s)[k]
  {
    if |s| > 0 {
      SplitElems(s[1..]);
      var rest := Split(s[1..]);
      if s[0] != '/' {
        assert '/' !in [s[0]] + rest[0];
        assert forall k :: 1 <= k < |Split(s)| ==> Split(s)[k] == rest[k];
      } else {
        assert forall k :: 1 <= k < |Split(s)| ==> Split(s)[k] == rest[k - 1];
      }
    }
  }

  /** The elements glued back together with single slashes between them. */
  function JoinElems(xs: seq<string>): string {
    if |xs| == 0 then ""
    else if |xs| == 1 then xs[0]
    else xs[0] + "/" + JoinElems(xs[1..])
  }

  /** Splitting and re-joining gives back the string. */
  lemma {:induction false} JoinSplit(s: string)
    ensures JoinElems(Split(s)) == s
  {
    if |s| == 0 {
    } else {
      var rest := Split(s[1..]);
      JoinSplit(s[1..]);
      if s[0] == '/' {
        assert Split(s) == [""] + rest;
        assert ([""] + rest)[1..] == rest;
        assert s == [s[0]] + s[1..];
      } else {
        var r := Split(s);
        assert r == [[s[0]] + rest[0]] + rest[1..];
        if |rest| == 1 {
          assert s == [s[0]] + rest[0];
        } else {
          assert r[1..] == rest[1..];
          assert JoinElems(rest) == rest[0] + "/" + JoinElems(rest[1..]);
          assert s == [s[0]] + s[1..];
        }
      }
    }
  }

  /** A slash-free prefix is glued onto the first element. */
  lemma {:induction false} SplitPrefix(x: string, r: string)
    requires '/' !in x
    ensures Split(x + r) == [x + Split(r)[0]] + Split(r)[1..]
    decreases |x|
  {
    var R := Split(r);
    if |x| == 0 {
      assert x + r == r;
      assert x + R[0] == R[0];
      assert R == [R[0]] + R[1..];
    } else {
      var c, t := x[0], x[1..];
      assert c != '/';
      assert forall k :: 0 <= k < |t| ==> t[k] == x[k + 1];
      assert x + r == [c] + (t + r);
      SplitPrefix(t, r);
      var S := Split(t + r);
      SplitConsElem(c, t + r);
      assert Split(x + r) == [[c] + S[0]] + S[1..];
      assert S[0] == t + R[0] && S[1..] == R[1..];
      assert [c] + (t + R[0]) == x + R[0];
    }
  }

  /** Splitting at the slash after a slash-free element splits that element off. */
  lemma SplitAtSlash(a: string, b: string)
    requires '/' !in a
    ensures Split(a + "/" + b) == [a] + Split(b)
  {
    SplitPrefix(a, "/" + b);
    SplitCons('/', b);
    assert "/" + b == ['/'] + b;
    assert a + "/" + b == a + ("/" + b);
    assert a + "" == a;
  }

  /** One step of `Split`. */
  lemma SplitCons(c: char, t: string)
    ensures Split([c] + t) == if c == '/' then [""] + Split(t) else [[c] + Split(t)[0]] + Split(t)[1..]
  {
    assert ([c] + t)[0] == c;
    assert ([c] + t)[1..] == t;
  }

  lemma SplitConsElem(c: char, t: string)
    requires c != '/'
    ensures Split([c] + t) == [[c] + Split(t)[0]] + Split(t)[1..]
  {
    SplitCons(c, t);
  }

  /** A string without slashes is a single element. */
  lemma {:induction false} SplitNoSlash(x: string)
    requires '/' !in x
    ensures Split(x) == [x]
  {
    if |x| == 0 {
    } else {
      assert '/' !in x[1..] by {
        forall k | 0 <= k < |x[1..]| ensures x[1..][k] != '/' {
          assert x[1..][k] == x[k + 1];
        }
      }
      SplitNoSlash(x[1..]);
      assert [x[0]] + x[1..] == x;
    }
  }

  /** Joining slash-free elements and splitting again gives them back. */
  lemma {:induction false} SplitJoin(xs: seq<string>)
    requires |xs| >= 1
    requires forall k :: 0 <= k < |xs| ==> '/' !in xs[k]
    ensures Split(JoinElems(xs)) == xs
  {
    if |xs| == 1 {
      SplitNoSlash(xs[0]);
    } else {
      SplitJoin(xs[1..]);
      SplitAtSlash(xs[0], JoinElems(xs[1..]));
      assert [xs[0]] + xs[1..] == xs;
    }
  }

  /** An element that names a real child: not empty, not "." or "..", no slash. */
  predicate IsNormal(e: string) {
    e != "" && e != "." && e != ".." && '/' !in e
  }

  /** The element stacks `Clean` can produce: no empty or "." elements, every
      ".." ahead of every other element, and no ".." at all on a rooted path. */
  predicate Canonical(rs: seq<string>, rooted: bool) {
    && (forall k :: 0 <= k < |rs| ==> rs[k] != "" && rs[k] != "." && '/' !in rs[k])
    && (forall i, j :: 0 <= i < j < |rs| && rs[j] == ".." ==> rs[i] == "..")
    && (rooted ==> forall k :: 0 <= k < |rs| ==> rs[k] != "..")
  }

  /** One step of `path.Clean`'s element processing: drop empty and "."
      elements, let ".." cancel the element before it (or, on a rooted path,
      vanish at the root; on a relative path, stay when nothing is left to
      cancel), and keep every other element. */
  function Step(stack: seq<string>, e: string, rooted: bool): seq<string> {
    if e == "" || e == "." then stack
    else if e == ".." then
      if |stack| > 0 && stack[|stack| - 1] != ".." then stack[..|stack| - 1]
      else if rooted then stack
      else stack + [".."]
    else stack + [e]
  }

  function ResolveFrom(stack: seq<string>, es: seq<string>, rooted: bool): seq<string>
    decreases |es|
  {
    if |es| == 0 then stack
    else ResolveFrom(Step(stack, es[0], rooted), es[1..], rooted)
  }

  /** Processing slash-free elements keeps the stack canonical. */
  lemma {:induction false} ResolveFromCanonical(stack: seq<string>, es: seq<string>, rooted: bool)
    requires Canonical(stack, rooted)
    requires forall k :: 0 <= k < |es| ==> '/' !in es[k]
    ensures Canonical(ResolveFrom(stack, es, rooted), rooted)
    decreases |es|
  {
    if |es| > 0 {
      var next := Step(stack, es[0], rooted);
      assert Canonical(next, rooted);
      assert forall k :: 0 <= k < |es| - 1 ==> es[1..][k] == es[k + 1];
      ResolveFromCanonical(next, es[1..], rooted);
    }
  }

  /** `path.Clean`: the shortest path equivalent to `p` by purely lexical
      processing; "." for an empty result on a relative path, "/" on a rooted
      one. */
  function Clean(p: string): (r: string)
    ensures r != ""
  {
    if p == "" then "."
    else
      var rooted := p[0] == '/';
      var body := JoinElems(ResolveFrom([], Split(p), rooted));
      if rooted then "/" + body
      else if body == "" then "."
      else body
  }

  /** A canonical stack goes through `ResolveFrom` unchanged. */
  lemma {:induction false} ResolveCanonical(stack: seq<string>, es: seq<string>, rooted: bool)
    requires Canonical(stack + es, rooted)
    ensures Canonical(stack, rooted)
    ensures forall k :: 0 <= k < |es| ==> '/' !in es[k]
    ensures ResolveFrom(stack, es, rooted) == stack + es
    decreases |es|
  {
    assert forall k :: 0 <= k < |stack| ==> stack[k] == (stack + es)[k];
    assert forall k :: 0 <= k < |es| ==> es[k] == (stack + es)[|stack| + k];
    if |es| > 0 {
      var e := es[0];
      assert (stack + es)[|stack|] == e;
      if e == ".." {
        assert |stack| == 0 || stack[|stack| - 1] == "..";
      }
      assert Step(stack, e, rooted) == stack + [e];
      assert (stack + [e]) + es[1..] == stack + es;
      ResolveCanonical(stack + [e], es[1..], rooted);
    }
  }

  /** The first element of a joined canonical stack. */
  lemma JoinElemsHead(rs: seq<string>)
    requires |rs| >= 1 && rs[0] != ""
    ensures JoinElems(rs) != "" && JoinElems(rs)[0] == rs[0][0]
  {
    if |rs| > 1 {
      assert JoinElems(rs) == rs[0] + "/" + JoinElems(rs[1..]);
    }
  }

  /** `Clean` is idempotent: a cleaned path is already clean. */
  lemma CleanIdempotent(p: string)
    ensures Clean(Clean(p)) == Clean(p)
  {
    if p == "" {
      CleanDot();
    } else {
      var rooted := p[0] == '/';
      var rs := ResolveFrom([], Split(p), rooted);
      var body := JoinElems(rs);
      SplitElems(p);
      ResolveFromCanonical([], Split(p), rooted);
      if |rs| == 0 {
        if rooted {
          assert "/" == "" + "/" + "";
          SplitAtSlash("", "");
          assert Split("/") == ["", ""];
          assert ResolveFrom([], ["", ""], true) == ResolveFrom([], [""], true);
          assert ResolveFrom([], [""], true) == [];
        } else {
          CleanDot();
        }
      } else {
        SplitJoin(rs);
        JoinElemsHead(rs);
        assert [] + rs == rs;
        ResolveCanonical([], rs, rooted);
        if rooted {
          var c := "/" + body;
          assert c[1..] == body;
          assert Split(c) == [""] + rs;
          assert ResolveFrom([], Split(c), true) == ResolveFrom([], rs, true);
        } else {
          assert body[0] != '/';
        }
      }
    }
  }

  lemma CleanDot()
    ensures Split(".") == ["."]
    ensures Clean(".") == "."
  {
    SplitNoSlash(".");
    assert ResolveFrom([], ["."], false) == ResolveFrom([], [], false);
  }

  /** The relative path spelled by a sequence of child names, "." for none. */
  function RelPath(rs: seq<string>): string {
    if |rs| == 0 then "." else JoinElems(rs)
  }

  predicate AllNormal(rs: seq<string>) {
    forall k :: 0 <= k < |rs| ==> IsNormal(rs[k])
  }

  /** A relative path made of normal elements is already clean; in particular
      a plain file name such as `test.tmpl` is its own cleaned form. */
  lemma CleanRelPath(rs: seq<string>)
    requires AllNormal(rs)
    ensures Clean(RelPath(rs)) == RelPath(rs)
  {
    if |rs| == 0 {
      CleanDot();
    } else {
      SplitJoin(rs);
      JoinElemsHead(rs);
      assert [] + rs == rs;
      ResolveCanonical([], rs, false);
    }
  }

  /** `path.Join` of two elements: empty arguments are ignored and the joined
      result is cleaned; joining two empty strings gives "". */
  function Join(a: string, b: string): string {
    if a != "" then Clean(a + "/" + b)
    else if b != "" then Clean(b)
    else ""
  }

  /** Only two empty arguments join to the empty path. */
  lemma JoinEmpty(a: string, b: string)
    ensures Join(a, b) == "" <==> a == "" && b == ""
  {
  }

  /** Joining a relative name onto "." is cleaning the name: the leading
      "." element is dropped like any other. */
  lemma JoinDot(n: string)
    requires n != "" && n[0] != '/'
    ensures Join(".", n) == Clean(n)
  {
    var q := "." + "/" + n;
    SplitAtSlash(".", n);
    CleanDot();
    assert Split(q) == ["."] + Split(n);
    assert q[0] == '.';
    assert (["."] + Split(n))[1..] == Split(n);
    assert ResolveFrom([], Split(q), false) == ResolveFrom([], Split(n), false);
  }

  /** Naming a child by `Join(parent, name)` extends the route by one name:
      joining onto "." gives the bare name (no "./" prefix), and joining onto
      a longer relative path inserts exactly one slash. */
  lemma JoinChild(rs: seq<string>, n: string)
    requires AllNormal(rs) && IsNormal(n)
    ensures Join(RelPath(rs), n) == RelPath(rs + [n])
  {
    var p := RelPath(rs);
    assert AllNormal(rs + [n]) by {
      forall k | 0 <= k < |rs + [n]| ensures IsNormal((rs + [n])[k]) {
        if k < |rs| { assert (rs + [n])[k] == rs[k]; }
      }
    }
    CleanRelPath(rs + [n]);
    if |rs| == 0 {
      assert rs + [n] == [n];
      JoinDot(n);
    } else {
      JoinElemsSnoc(rs, n);
      assert p + "/" + n == RelPath(rs + [n]);
    }
  }

  lemma {:induction false} JoinElemsSnoc(rs: seq<string>, n: string)
    requires |rs| >= 1
    ensures JoinElems(rs + [n]) == JoinElems(rs) + "/" + n
  {
    if |rs| == 1 {
      assert rs + [n] == [rs[0], n];
      assert [rs[0], n][1..] == [n];
    } else {
      assert (rs + [n])[1..] == rs[1..] + [n];
      JoinElemsSnoc(rs[1..], n);
    }
  }
}
