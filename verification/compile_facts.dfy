/** What compilation promises, stated against independent definitions over
    the visits of the walk: which files become templates and under which
    names, which errors are reported, and how the renderer's set changes. */
module CompileFacts {
  import opened Common
  import opened FsTree
  import opened FsWalk
  import opened FilePath
  import opened Funcs
  import opened Compile

  // ---------------------------------------------------------------------
  // One file.

  /** The extension loop processes a file exactly once when its extension is
      configured (however often) and not at all otherwise: a repeated
      extension re-parses the file into the same template and cannot record a
      second error, because a failure leaves the loop. */
  lemma {:induction false} TryExtensionsOnce<P(!new)>(plat: Platform, opt: Options, parse: Parser<P>, path: string,
                                                data: Result<Bytes>, exts: seq<string>, st: State<P>)
    ensures TryExtensions(plat, opt, parse, path, data, exts, st) ==
            if Ext(plat, path) in exts then AddFile(plat, opt, parse, path, data, st) else st
    decreases |exts|
  {
    if |exts| > 0 {
      var e := Ext(plat, path);
      assert e in exts <==> e == exts[0] || e in exts[1..];
      if e != exts[0] {
        TryExtensionsOnce(plat, opt, parse, path, data, exts[1..], st);
      } else if Load(plat, opt, parse, path, data).Success? {
        TryExtensionsSettled(plat, opt, parse, path, data, exts[1..], AddFile(plat, opt, parse, path, data, st));
      }
    }
  }

  /** Once a loadable file's template is in the set, further matching
      extensions change nothing. */
  lemma {:induction false} TryExtensionsSettled<P(!new)>(plat: Platform, opt: Options, parse: Parser<P>, path: string,
                                                    data: Result<Bytes>, exts: seq<string>, st: State<P>)
    requires Load(plat, opt, parse, path, data).Success?
    requires AddFile(plat, opt, parse, path, data, st) == st
    ensures TryExtensions(plat, opt, parse, path, data, exts, st) == st
    decreases |exts|
  {
    if |exts| > 0 {
      TryExtensionsSettled(plat, opt, parse, path, data, exts[1..], st);
    }
  }

  /** A visit the compiler acts on: an existing file whose extension equals
      one of the configured extensions. Directories, and the missing entry of
      a failed root `stat`, are never selected. */
  predicate Selected(plat: Platform, opt: Options, v: Visit) {
    v.node.Some? && v.node.value.File? && Ext(plat, v.path) in opt.extensions
  }

  function LoadVisit<P(!new)>(plat: Platform, opt: Options, parse: Parser<P>, v: Visit): Result<Template<P>>
    requires v.node.Some? && v.node.value.File?
  {
    Load(plat, opt, parse, v.path, v.node.value.data)
  }

  /** The effect of one callback on the compiler's state. */
  lemma OnVisitStep<P(!new)>(plat: Platform, opt: Options, parse: Parser<P>, st: State<P>, v: Visit)
    ensures OnVisit(plat, opt, parse)(st, v).1 == Continue
    ensures OnVisit(plat, opt, parse)(st, v).0 ==
            if Selected(plat, opt, v) then AddFile(plat, opt, parse, v.path, v.node.value.data, st) else st
  {
    if v.node.Some? && v.node.value.File? {
      TryExtensionsOnce(plat, opt, parse, v.path, v.node.value.data, opt.extensions, st);
    }
  }

  lemma OnVisitNeverInterrupts<P(!new)>(plat: Platform, opt: Options, parse: Parser<P>)
    ensures NeverInterrupts(OnVisit(plat, opt, parse))
  {
    forall st: State<P>, v: Visit ensures OnVisit(plat, opt, parse)(st, v).1 == Continue {
      OnVisitStep(plat, opt, parse, st, v);
    }
  }

  // ---------------------------------------------------------------------
  // Reference definitions over a sequence of visits.

  /** The error a visit contributes: that of a selected file that fails to
      open, read or parse, and none otherwise. */
  function FailureOf<P(!new)>(plat: Platform, opt: Options, parse: Parser<P>, v: Visit): seq<Error> {
    if Selected(plat, opt, v) && LoadVisit(plat, opt, parse, v).Failure? then [LoadVisit(plat, opt, parse, v).error]
    else []
  }

  /** The errors of the selected files that fail to open, read or parse, in
      visit order. */
  function Failures<P(!new)>(plat: Platform, opt: Options, parse: Parser<P>, vs: seq<Visit>): seq<Error>
    decreases |vs|
  {
    if |vs| == 0 then [] else FailureOf(plat, opt, parse, vs[0]) + Failures(plat, opt, parse, vs[1..])
  }

  /** A selected file that loads: the visits that become templates. */
  predicate Loads<P(!new)>(plat: Platform, opt: Options, parse: Parser<P>, v: Visit) {
    Selected(plat, opt, v) && LoadVisit(plat, opt, parse, v).Success?
  }

  /** The names of the selected files that load successfully. */
  ghost function Names<P(!new)>(plat: Platform, opt: Options, parse: Parser<P>, vs: seq<Visit>): set<string> {
    set i | 0 <= i < |vs| && Loads(plat, opt, parse, vs[i]) :: TemplateName(plat, vs[i].path)
  }

  /** A loading visit whose parse tree is not empty: such a file always
      takes its name over. */
  predicate Fills<P(!new)>(plat: Platform, opt: Options, parse: Parser<P>, v: Visit) {
    Loads(plat, opt, parse, v) && !parse.empty(LoadVisit(plat, opt, parse, v).value.tree.value)
  }

  /** The template of the last visit named `k` that fills, if any. */
  function LastFull<P(!new)>(plat: Platform, opt: Options, parse: Parser<P>, vs: seq<Visit>, k: string): Option<Template<P>>
    decreases |vs|
  {
    if |vs| == 0 then None
    else if LastFull(plat, opt, parse, vs[1..], k).Some? then LastFull(plat, opt, parse, vs[1..], k)
    else if Fills(plat, opt, parse, vs[0]) && TemplateName(plat, vs[0].path) == k then
      Some(LoadVisit(plat, opt, parse, vs[0]).value)
    else None
  }

  /** The template of the first loading visit named `k`, if any. */
  function FirstLoad<P(!new)>(plat: Platform, opt: Options, parse: Parser<P>, vs: seq<Visit>, k: string): Option<Template<P>>
    decreases |vs|
  {
    if |vs| == 0 then None
    else if Loads(plat, opt, parse, vs[0]) && TemplateName(plat, vs[0].path) == k then
      Some(LoadVisit(plat, opt, parse, vs[0]).value)
    else FirstLoad(plat, opt, parse, vs[1..], k)
  }

  /** The template name `k` should end up with: that of the last loading
      file of that name whose tree is not empty, or, when every such tree is
      empty, that of the first, which no later empty tree replaces. */
  function LastLoad<P(!new)>(plat: Platform, opt: Options, parse: Parser<P>, vs: seq<Visit>, k: string): Option<Template<P>> {
    if LastFull(plat, opt, parse, vs, k).Some? then LastFull(plat, opt, parse, vs, k)
    else FirstLoad(plat, opt, parse, vs, k)
  }

  /** The set compilation should yield from the visits: the names of the
      loading files, each with the template `LastLoad` picks for it, and the
      root template under "." unless a file takes that name. */
  ghost function Expected<P(!new)>(plat: Platform, opt: Options, parse: Parser<P>, vs: seq<Visit>): TemplateSet<P> {
    map k | k in Names(plat, opt, parse, vs) + {RootDir} ::
      if LastLoad(plat, opt, parse, vs, k).Some? then LastLoad(plat, opt, parse, vs, k).value else RootTemplate(opt)
  }

  /** Every template sits under its own name and carries the configured
      delimiters and the configured helper functions, built-ins last; only
      the root template lacks a parse tree. */
  ghost predicate WellFormedSet<P(!new)>(opt: Options, m: TemplateSet<P>) {
    forall k :: k in m ==>
      && m[k].name == k && m[k].delims == opt.delims && m[k].funcs == EffectiveFuncs(opt.funcs)
      && (m[k].tree.None? ==> k == RootDir)
  }

  lemma NamesCons<P(!new)>(plat: Platform, opt: Options, parse: Parser<P>, vs: seq<Visit>)
    requires |vs| > 0
    ensures Names(plat, opt, parse, vs) ==
      (if Loads(plat, opt, parse, vs[0]) then {TemplateName(plat, vs[0].path)} else {}) +
      Names(plat, opt, parse, vs[1..])
  {
    NamesConsSub(plat, opt, parse, vs);
    NamesConsSup(plat, opt, parse, vs);
  }

  lemma NamesConsSub<P(!new)>(plat: Platform, opt: Options, parse: Parser<P>, vs: seq<Visit>)
    requires |vs| > 0
    ensures Names(plat, opt, parse, vs) <=
      (if Loads(plat, opt, parse, vs[0]) then {TemplateName(plat, vs[0].path)} else {}) +
      Names(plat, opt, parse, vs[1..])
  {
    var rest := vs[1..];
    forall k | k in Names(plat, opt, parse, vs)
      ensures (k == TemplateName(plat, vs[0].path) && Loads(plat, opt, parse, vs[0])) || k in Names(plat, opt, parse, rest)
    {
      var i :| 0 <= i < |vs| && Loads(plat, opt, parse, vs[i]) && k == TemplateName(plat, vs[i].path);
      if i > 0 {
        assert rest[i - 1] == vs[i];
      }
    }
  }

  lemma NamesConsSup<P(!new)>(plat: Platform, opt: Options, parse: Parser<P>, vs: seq<Visit>)
    requires |vs| > 0
    ensures Names(plat, opt, parse, vs) >=
      (if Loads(plat, opt, parse, vs[0]) then {TemplateName(plat, vs[0].path)} else {}) +
      Names(plat, opt, parse, vs[1..])
  {
    var rest := vs[1..];
    forall k | k in Names(plat, opt, parse, rest)
      ensures k in Names(plat, opt, parse, vs)
    {
      var i :| 0 <= i < |rest| && Loads(plat, opt, parse, rest[i]) && k == TemplateName(plat, rest[i].path);
      assert rest[i] == vs[i + 1];
    }
  }

  /** One callback: the errors grow by this visit's failure. */
  lemma StepErrs<P(!new)>(plat: Platform, opt: Options, parse: Parser<P>, st: State<P>, v: Visit)
    ensures OnVisit(plat, opt, parse)(st, v).0.errs == st.errs + FailureOf(plat, opt, parse, v)
  {
    OnVisitStep(plat, opt, parse, st, v);
    if !Selected(plat, opt, v) {
      assert st.errs + [] == st.errs;
    }
  }

  /** One callback: the set grows by this visit's name, and keeps every
      template well formed. */
  lemma StepKeys<P(!new)>(plat: Platform, opt: Options, parse: Parser<P>, st: State<P>, v: Visit)
    requires WellFormedSet(opt, st.built)
    ensures OnVisit(plat, opt, parse)(st, v).0.built.Keys ==
            st.built.Keys + (if Loads(plat, opt, parse, v) then {TemplateName(plat, v.path)} else {})
    ensures WellFormedSet(opt, OnVisit(plat, opt, parse)(st, v).0.built)
  {
    OnVisitStep(plat, opt, parse, st, v);
    if Loads(plat, opt, parse, v) {
      var t := LoadVisit(plat, opt, parse, v).value;
      assert OnVisit(plat, opt, parse)(st, v).0.built == Associate(parse, st.built, t);
      if !Refused(parse, st.built, t) {
        AddKeepsWellFormed(opt, st.built, t);
      }
    } else if Selected(plat, opt, v) {
      assert OnVisit(plat, opt, parse)(st, v).0.built == st.built;
    }
  }

  /** The set a walk starts from is well formed. */
  lemma RootSetWellFormed<P(!new)>(opt: Options)
    ensures WellFormedSet(opt, RootSet<P>(opt))
  {
    assert RootSet<P>(opt).Keys == {RootDir};
  }

  lemma AddKeepsWellFormed<P(!new)>(opt: Options, m: TemplateSet<P>, t: Template<P>)
    requires WellFormedSet(opt, m)
    requires t.delims == opt.delims && t.funcs == EffectiveFuncs(opt.funcs) && t.tree.Some?
    ensures WellFormedSet(opt, m[t.name := t])
  {
  }

  /** Replaying the compiler's callback over any visits: the errors grow by
      exactly the failures, the set grows by exactly the names of the files
      that load, and every template stays well formed. */
  lemma ReplayCompile<P(!new)>(plat: Platform, opt: Options, parse: Parser<P>, st: State<P>, vs: seq<Visit>)
    requires WellFormedSet(opt, st.built)
    ensures Replay(OnVisit(plat, opt, parse), st, vs).errs == st.errs + Failures(plat, opt, parse, vs)
    ensures Replay(OnVisit(plat, opt, parse), st, vs).built.Keys == st.built.Keys + Names(plat, opt, parse, vs)
    ensures WellFormedSet(opt, Replay(OnVisit(plat, opt, parse), st, vs).built)
  {
    ReplayErrs(plat, opt, parse, st, vs);
    ReplayKeys(plat, opt, parse, st, vs);
  }

  lemma {:induction false} ReplayErrs<P(!new)>(plat: Platform, opt: Options, parse: Parser<P>, st: State<P>, vs: seq<Visit>)
    ensures Replay(OnVisit(plat, opt, parse), st, vs).errs == st.errs + Failures(plat, opt, parse, vs)
    decreases |vs|
  {
    var fn := OnVisit(plat, opt, parse);
    if |vs| == 0 {
      assert st.errs + [] == st.errs;
    } else {
      var st1 := fn(st, vs[0]).0;
      StepErrs(plat, opt, parse, st, vs[0]);
      ReplayErrs(plat, opt, parse, st1, vs[1..]);
      var head, tail := FailureOf(plat, opt, parse, vs[0]), Failures(plat, opt, parse, vs[1..]);
      assert Replay(fn, st, vs).errs == st1.errs + tail;
      assert st.errs + head + tail == st.errs + (head + tail);
    }
  }

  lemma {:induction false} ReplayKeys<P(!new)>(plat: Platform, opt: Options, parse: Parser<P>, st: State<P>, vs: seq<Visit>)
    requires WellFormedSet(opt, st.built)
    ensures Replay(OnVisit(plat, opt, parse), st, vs).built.Keys == st.built.Keys + Names(plat, opt, parse, vs)
    ensures WellFormedSet(opt, Replay(OnVisit(plat, opt, parse), st, vs).built)
    decreases |vs|
  {
    var fn := OnVisit(plat, opt, parse);
    if |vs| > 0 {
      var st1 := fn(st, vs[0]).0;
      StepKeys(plat, opt, parse, st, vs[0]);
      ReplayKeys(plat, opt, parse, st1, vs[1..]);
      NamesCons(plat, opt, parse, vs);
      assert Replay(fn, st, vs) == Replay(fn, st1, vs[1..]);
    }
  }

  /** A name that no loading file takes keeps its template through the replay. */
  lemma {:induction false} ReplayKeeps<P(!new)>(plat: Platform, opt: Options, parse: Parser<P>, st: State<P>,
                                                vs: seq<Visit>, k: string)
    requires k in st.built && k !in Names(plat, opt, parse, vs)
    ensures k in Replay(OnVisit(plat, opt, parse), st, vs).built
    ensures Replay(OnVisit(plat, opt, parse), st, vs).built[k] == st.built[k]
    decreases |vs|
  {
    var fn := OnVisit(plat, opt, parse);
    if |vs| > 0 {
      var st1 := fn(st, vs[0]).0;
      NamesCons(plat, opt, parse, vs);
      OnVisitStep(plat, opt, parse, st, vs[0]);
      assert k in st1.built && st1.built[k] == st.built[k];
      ReplayKeeps(plat, opt, parse, st1, vs[1..], k);
      assert Replay(fn, st, vs) == Replay(fn, st1, vs[1..]);
    }
  }

  /** A name has a first loading file exactly when some loading file takes
      that name. */
  lemma {:induction false} FirstLoadNames<P(!new)>(plat: Platform, opt: Options, parse: Parser<P>, vs: seq<Visit>, k: string)
    ensures FirstLoad(plat, opt, parse, vs, k).Some? <==> k in Names(plat, opt, parse, vs)
    decreases |vs|
  {
    if |vs| > 0 {
      NamesCons(plat, opt, parse, vs);
      FirstLoadNames(plat, opt, parse, vs[1..], k);
    } else {
      assert Names(plat, opt, parse, vs) == {};
    }
  }

  /** A filling file of a name is a loading file of it. */
  lemma {:induction false} LastFullLoads<P(!new)>(plat: Platform, opt: Options, parse: Parser<P>, vs: seq<Visit>, k: string)
    ensures LastFull(plat, opt, parse, vs, k).Some? ==> FirstLoad(plat, opt, parse, vs, k).Some?
    decreases |vs|
  {
    if |vs| > 0 {
      LastFullLoads(plat, opt, parse, vs[1..], k);
    }
  }

  /** A name has a template to end up with exactly when some loading file
      takes that name. */
  lemma LastLoadNames<P(!new)>(plat: Platform, opt: Options, parse: Parser<P>, vs: seq<Visit>, k: string)
    ensures LastLoad(plat, opt, parse, vs, k).Some? <==> k in Names(plat, opt, parse, vs)
  {
    FirstLoadNames(plat, opt, parse, vs, k);
    LastFullLoads(plat, opt, parse, vs, k);
  }

  /** `LastFull` is the template of the filling visit named `k` after which
      no other visit named `k` fills. */
  lemma {:induction false} LastFullAt<P(!new)>(plat: Platform, opt: Options, parse: Parser<P>, vs: seq<Visit>, k: string, i: nat)
    requires i < |vs| && Fills(plat, opt, parse, vs[i]) && TemplateName(plat, vs[i].path) == k
    requires forall j :: i < j < |vs| && Fills(plat, opt, parse, vs[j]) ==> TemplateName(plat, vs[j].path) != k
    ensures LastFull(plat, opt, parse, vs, k) == Some(LoadVisit(plat, opt, parse, vs[i]).value)
    decreases i
  {
    var rest := vs[1..];
    forall j | (if i == 0 then 0 else i - 1) < j < |rest| && Fills(plat, opt, parse, rest[j])
      ensures TemplateName(plat, rest[j].path) != k
    {
      assert rest[j] == vs[j + 1];
    }
    if i == 0 {
      NoFillsNoLastFull(plat, opt, parse, rest, k);
    } else {
      assert rest[i - 1] == vs[i];
      LastFullAt(plat, opt, parse, rest, k, i - 1);
    }
  }

  /** Without a filling visit named `k` there is no `LastFull`. */
  lemma {:induction false} NoFillsNoLastFull<P(!new)>(plat: Platform, opt: Options, parse: Parser<P>, vs: seq<Visit>, k: string)
    requires forall j :: 0 <= j < |vs| && Fills(plat, opt, parse, vs[j]) ==> TemplateName(plat, vs[j].path) != k
    ensures LastFull(plat, opt, parse, vs, k).None?
    decreases |vs|
  {
    if |vs| > 0 {
      assert Fills(plat, opt, parse, vs[0]) ==> TemplateName(plat, vs[0].path) != k;
      forall j | 0 <= j < |vs| - 1 && Fills(plat, opt, parse, vs[1..][j])
        ensures TemplateName(plat, vs[1..][j].path) != k
      {
        assert vs[1..][j] == vs[j + 1];
      }
      NoFillsNoLastFull(plat, opt, parse, vs[1..], k);
    }
  }

  /** `FirstLoad` is the template of the loading visit named `k` before which
      no visit named `k` loads. */
  lemma {:induction false} FirstLoadAt<P(!new)>(plat: Platform, opt: Options, parse: Parser<P>, vs: seq<Visit>, k: string, i: nat)
    requires i < |vs| && Loads(plat, opt, parse, vs[i]) && TemplateName(plat, vs[i].path) == k
    requires forall j :: 0 <= j < i && Loads(plat, opt, parse, vs[j]) ==> TemplateName(plat, vs[j].path) != k
    ensures FirstLoad(plat, opt, parse, vs, k) == Some(LoadVisit(plat, opt, parse, vs[i]).value)
    decreases i
  {
    if i > 0 {
      var rest := vs[1..];
      assert rest[i - 1] == vs[i];
      assert !(Loads(plat, opt, parse, vs[0]) && TemplateName(plat, vs[0].path) == k);
      forall j | 0 <= j < i - 1 && Loads(plat, opt, parse, rest[j])
        ensures TemplateName(plat, rest[j].path) != k
      {
        assert rest[j] == vs[j + 1];
      }
      FirstLoadAt(plat, opt, parse, rest, k, i - 1);
    }
  }

  /** The template a name should end up with is that of its last filling
      file. */
  lemma LastLoadAt<P(!new)>(plat: Platform, opt: Options, parse: Parser<P>, vs: seq<Visit>, k: string, i: nat)
    requires i < |vs| && Fills(plat, opt, parse, vs[i]) && TemplateName(plat, vs[i].path) == k
    requires forall j :: i < j < |vs| && Fills(plat, opt, parse, vs[j]) ==> TemplateName(plat, vs[j].path) != k
    ensures LastLoad(plat, opt, parse, vs, k) == Some(LoadVisit(plat, opt, parse, vs[i]).value)
  {
    LastFullAt(plat, opt, parse, vs, k, i);
  }

  /** When every loading file of a name has an empty tree, the name should
      end up with the first of them. */
  lemma LastLoadAllEmpty<P(!new)>(plat: Platform, opt: Options, parse: Parser<P>, vs: seq<Visit>, k: string, i: nat)
    requires i < |vs| && Loads(plat, opt, parse, vs[i]) && TemplateName(plat, vs[i].path) == k
    requires forall j :: 0 <= j < i && Loads(plat, opt, parse, vs[j]) ==> TemplateName(plat, vs[j].path) != k
    requires forall j :: 0 <= j < |vs| && Fills(plat, opt, parse, vs[j]) ==> TemplateName(plat, vs[j].path) != k
    ensures LastLoad(plat, opt, parse, vs, k) == Some(LoadVisit(plat, opt, parse, vs[i]).value)
  {
    NoFillsNoLastFull(plat, opt, parse, vs, k);
    FirstLoadAt(plat, opt, parse, vs, k, i);
  }

  /** A name only one loading file takes ends up with that file's template,
      empty or not. */
  lemma LastLoadOnly<P(!new)>(plat: Platform, opt: Options, parse: Parser<P>, vs: seq<Visit>, k: string, i: nat)
    requires i < |vs| && Loads(plat, opt, parse, vs[i]) && TemplateName(plat, vs[i].path) == k
    requires forall j :: 0 <= j < |vs| && j != i && Loads(plat, opt, parse, vs[j]) ==> TemplateName(plat, vs[j].path) != k
    ensures LastLoad(plat, opt, parse, vs, k) == Some(LoadVisit(plat, opt, parse, vs[i]).value)
  {
    if Fills(plat, opt, parse, vs[i]) {
      LastLoadAt(plat, opt, parse, vs, k, i);
    } else {
      LastLoadAllEmpty(plat, opt, parse, vs, k, i);
    }
  }

  /** One callback changes the template of name `k` only when the visit
      loads under that name, and then by associating its template. */
  lemma StepAt<P(!new)>(plat: Platform, opt: Options, parse: Parser<P>, st: State<P>, v: Visit, k: string)
    ensures var b := OnVisit(plat, opt, parse)(st, v).0.built;
      && (Loads(plat, opt, parse, v) && TemplateName(plat, v.path) == k ==>
            b == Associate(parse, st.built, LoadVisit(plat, opt, parse, v).value))
      && (!(Loads(plat, opt, parse, v) && TemplateName(plat, v.path) == k) ==>
            (k in b <==> k in st.built) && (k in st.built ==> b[k] == st.built[k]))
  {
    OnVisitStep(plat, opt, parse, st, v);
  }

  /** A name holding a parsed template keeps it through visits none of which
      fills under that name. */
  lemma {:induction false} ReplayHolds<P(!new)>(plat: Platform, opt: Options, parse: Parser<P>, st: State<P>,
                                                vs: seq<Visit>, k: string)
    requires k in st.built && st.built[k].tree.Some? && LastFull(plat, opt, parse, vs, k).None?
    ensures k in Replay(OnVisit(plat, opt, parse), st, vs).built
    ensures Replay(OnVisit(plat, opt, parse), st, vs).built[k] == st.built[k]
    decreases |vs|
  {
    var fn := OnVisit(plat, opt, parse);
    if |vs| > 0 {
      var st1 := fn(st, vs[0]).0;
      StepAt(plat, opt, parse, st, vs[0], k);
      assert k in st1.built && st1.built[k] == st.built[k];
      ReplayHolds(plat, opt, parse, st1, vs[1..], k);
      assert Replay(fn, st, vs) == Replay(fn, st1, vs[1..]);
    }
  }

  /** A name some file fills ends up with the last such file's template. */
  lemma {:induction false} ReplayFull<P(!new)>(plat: Platform, opt: Options, parse: Parser<P>, st: State<P>,
                                               vs: seq<Visit>, k: string)
    requires LastFull(plat, opt, parse, vs, k).Some?
    ensures k in Replay(OnVisit(plat, opt, parse), st, vs).built
    ensures Replay(OnVisit(plat, opt, parse), st, vs).built[k] == LastFull(plat, opt, parse, vs, k).value
    decreases |vs|
  {
    var fn := OnVisit(plat, opt, parse);
    var st1 := fn(st, vs[0]).0;
    assert Replay(fn, st, vs) == Replay(fn, st1, vs[1..]);
    if LastFull(plat, opt, parse, vs[1..], k).Some? {
      ReplayFull(plat, opt, parse, st1, vs[1..], k);
    } else {
      StepAt(plat, opt, parse, st, vs[0], k);
      assert st1.built[k] == LastFull(plat, opt, parse, vs, k).value;
      ReplayHolds(plat, opt, parse, st1, vs[1..], k);
    }
  }

  /** A name no file fills, starting without a parsed template, ends up with
      the first loading file's template: the later ones are empty and
      refused. */
  lemma {:induction false} ReplayFirst<P(!new)>(plat: Platform, opt: Options, parse: Parser<P>, st: State<P>,
                                                vs: seq<Visit>, k: string)
    requires LastFull(plat, opt, parse, vs, k).None? && FirstLoad(plat, opt, parse, vs, k).Some?
    requires !(k in st.built && st.built[k].tree.Some?)
    ensures k in Replay(OnVisit(plat, opt, parse), st, vs).built
    ensures Replay(OnVisit(plat, opt, parse), st, vs).built[k] == FirstLoad(plat, opt, parse, vs, k).value
    decreases |vs|
  {
    var fn := OnVisit(plat, opt, parse);
    var st1 := fn(st, vs[0]).0;
    assert Replay(fn, st, vs) == Replay(fn, st1, vs[1..]);
    StepAt(plat, opt, parse, st, vs[0], k);
    if Loads(plat, opt, parse, vs[0]) && TemplateName(plat, vs[0].path) == k {
      assert st1.built[k] == FirstLoad(plat, opt, parse, vs, k).value;
      ReplayHolds(plat, opt, parse, st1, vs[1..], k);
    } else {
      ReplayFirst(plat, opt, parse, st1, vs[1..], k);
    }
  }

  /** Replaying the callback leaves every name some loading file takes
      holding the template it should end up with, the last filling file's;
      only when no file of that name fills and the name already held a
      parsed template is that template kept. */
  lemma ReplayLast<P(!new)>(plat: Platform, opt: Options, parse: Parser<P>, st: State<P>, vs: seq<Visit>, k: string)
    requires LastLoad(plat, opt, parse, vs, k).Some?
    ensures k in Replay(OnVisit(plat, opt, parse), st, vs).built
    ensures Replay(OnVisit(plat, opt, parse), st, vs).built[k] ==
      if LastFull(plat, opt, parse, vs, k).Some? || !(k in st.built && st.built[k].tree.Some?)
      then LastLoad(plat, opt, parse, vs, k).value else st.built[k]
  {
    if LastFull(plat, opt, parse, vs, k).Some? {
      ReplayFull(plat, opt, parse, st, vs, k);
    } else if k in st.built && st.built[k].tree.Some? {
      ReplayHolds(plat, opt, parse, st, vs, k);
    } else {
      ReplayFirst(plat, opt, parse, st, vs, k);
    }
  }

  /** Replaying the callback from the root template alone builds exactly
      the expected set. */
  lemma ReplayIsExpected<P(!new)>(plat: Platform, opt: Options, parse: Parser<P>, errs: seq<Error>, vs: seq<Visit>)
    ensures Replay(OnVisit(plat, opt, parse), State(RootSet(opt), errs), vs).built == Expected(plat, opt, parse, vs)
  {
    var m := Replay(OnVisit(plat, opt, parse), State(RootSet(opt), errs), vs).built;
    var x := Expected(plat, opt, parse, vs);
    var names := Names(plat, opt, parse, vs) + {RootDir};
    ReplayKeysFromRoot(plat, opt, parse, errs, vs);
    assert x.Keys == names;
    forall k | k in names ensures k in m && m[k] == x[k] {
      ReplayAt(plat, opt, parse, errs, vs, k);
    }
    MapExtensional(m, x);
  }

  /** Replaying from the root template alone: the set holds "." and the
      names of the loading files. */
  lemma ReplayKeysFromRoot<P(!new)>(plat: Platform, opt: Options, parse: Parser<P>, errs: seq<Error>, vs: seq<Visit>)
    ensures Replay(OnVisit(plat, opt, parse), State(RootSet(opt), errs), vs).built.Keys == Names(plat, opt, parse, vs) + {RootDir}
  {
    RootSetWellFormed<P>(opt);
    ReplayKeys(plat, opt, parse, State(RootSet(opt), errs), vs);
    assert RootSet<P>(opt).Keys == {RootDir};
  }

  lemma MapExtensional<K, V>(m: map<K, V>, x: map<K, V>)
    requires m.Keys == x.Keys
    requires forall k :: k in x ==> m[k] == x[k]
    ensures m == x
  {
  }

  /** One name of the set the replay builds, against the expected set. */
  lemma ReplayAt<P(!new)>(plat: Platform, opt: Options, parse: Parser<P>, errs: seq<Error>, vs: seq<Visit>, k: string)
    requires k in Names(plat, opt, parse, vs) + {RootDir}
    ensures k in Replay(OnVisit(plat, opt, parse), State(RootSet(opt), errs), vs).built
    ensures Replay(OnVisit(plat, opt, parse), State(RootSet(opt), errs), vs).built[k] ==
      if LastLoad(plat, opt, parse, vs, k).Some? then LastLoad(plat, opt, parse, vs, k).value else RootTemplate(opt)
  {
    var init: State<P> := State(RootSet(opt), errs);
    LastLoadNames(plat, opt, parse, vs, k);
    if LastLoad(plat, opt, parse, vs, k).Some? {
      ReplayLast(plat, opt, parse, init, vs, k);
    } else {
      ReplayKeeps(plat, opt, parse, init, vs, k);
    }
  }

  // ---------------------------------------------------------------------
  // The whole compilation.

  /** Compilation succeeds exactly when no selected file fails; it then
      yields a well-formed set holding exactly the root template's name "."
      and the names of the selected files, each name with the template of
      the last file of that name the walk visited whose tree is not empty,
      or of the first such file when all their trees are empty. Otherwise it
      fails with one aggregate error listing every failure in walk order. The walk's own error branch is never taken,
      because the callback always answers nil. */
  lemma CompileCharacterization<P(!new)>(plat: Platform, lister: Lister, opt: Options, parse: Parser<P>, stat: Result<Node>)
    ensures var vs := Trace(lister, ".", stat);
      && (CompileFromFS(plat, lister, opt, parse, stat).Success? <==> Failures(plat, opt, parse, vs) == [])
      && (CompileFromFS(plat, lister, opt, parse, stat).Failure? ==>
            CompileFromFS(plat, lister, opt, parse, stat).error == Aggregate(Failures(plat, opt, parse, vs)))
      && (CompileFromFS(plat, lister, opt, parse, stat).Success? ==>
            && CompileFromFS(plat, lister, opt, parse, stat).value.Keys == Names(plat, opt, parse, vs) + {RootDir}
            && WellFormedSet(opt, CompileFromFS(plat, lister, opt, parse, stat).value)
            && CompileFromFS(plat, lister, opt, parse, stat).value == Expected(plat, opt, parse, vs))
  {
    var vs := Trace(lister, ".", stat);
    var st := CompileIsReplay(plat, lister, opt, parse, stat);
    RootSetWellFormed<P>(opt);
    ReplayCompile(plat, opt, parse, State(RootSet(opt), []), vs);
    ReplayKeysFromRoot(plat, opt, parse, [], vs);
    ReplayIsExpected(plat, opt, parse, [], vs);
    assert st.errs == Failures(plat, opt, parse, vs);
  }

  /** Compilation is the replay of the uninterrupted walk's visits from the
      root template alone, judged by the errors it collected. */
  lemma CompileIsReplay<P(!new)>(plat: Platform, lister: Lister, opt: Options, parse: Parser<P>, stat: Result<Node>)
    returns (st: State<P>)
    ensures st == Replay(OnVisit(plat, opt, parse), State(RootSet(opt), []), Trace(lister, ".", stat))
    ensures CompileFromFS(plat, lister, opt, parse, stat) ==
      if |st.errs| > 0 then Failure(Aggregate(st.errs)) else Success(st.built)
  {
    var fn := OnVisit(plat, opt, parse);
    var init: State<P> := State(RootSet(opt), []);
    OnVisitNeverInterrupts(plat, opt, parse);
    WalkIsTrace(lister, fn, init, ".", stat);
    st := Replay(fn, init, Trace(lister, ".", stat));
  }

  /** Every template other than the root comes from a file, never from a
      directory: its name is the path of a selected file visited by the walk,
      minus that file's extension, and on Unix name and extension spell the
      path again. */
  lemma TemplatesComeFromFiles<P(!new)>(plat: Platform, lister: Lister, opt: Options, parse: Parser<P>,
                                        stat: Result<Node>, k: string)
    requires CompileFromFS(plat, lister, opt, parse, stat).Success?
    requires k in CompileFromFS(plat, lister, opt, parse, stat).value
    ensures var vs := Trace(lister, ".", stat);
      k == RootDir ||
      exists i :: 0 <= i < |vs| && vs[i].node.Some? && vs[i].node.value.File? &&
                  Ext(plat, vs[i].path) in opt.extensions &&
                  k == TemplateName(plat, vs[i].path) &&
                  (plat.Unix? ==> k + Ext(plat, vs[i].path) == vs[i].path)
  {
    var vs := Trace(lister, ".", stat);
    CompileCharacterization(plat, lister, opt, parse, stat);
    if k == RootDir {
      return;
    }
    assert k in Names(plat, opt, parse, vs);
    var i :| 0 <= i < |vs| && Loads(plat, opt, parse, vs[i]) && k == TemplateName(plat, vs[i].path);
    TemplateNameRoundTrip(plat, vs[i].path);
  }

  /** Conversely, after a successful compilation every selected file the
      walk visited is there under its name. */
  lemma SelectedFilesBecomeTemplates<P(!new)>(plat: Platform, lister: Lister, opt: Options, parse: Parser<P>,
                                              stat: Result<Node>, i: nat)
    requires CompileFromFS(plat, lister, opt, parse, stat).Success?
    requires i < |Trace(lister, ".", stat)| && Selected(plat, opt, Trace(lister, ".", stat)[i])
    ensures TemplateName(plat, Trace(lister, ".", stat)[i].path) in CompileFromFS(plat, lister, opt, parse, stat).value
  {
    var vs := Trace(lister, ".", stat);
    CompileCharacterization(plat, lister, opt, parse, stat);
    NoFailuresMeansLoads(plat, opt, parse, vs, i);
  }

  lemma {:induction false} NoFailuresMeansLoads<P(!new)>(plat: Platform, opt: Options, parse: Parser<P>, vs: seq<Visit>, i: nat)
    requires Failures(plat, opt, parse, vs) == []
    requires i < |vs| && Selected(plat, opt, vs[i])
    ensures LoadVisit(plat, opt, parse, vs[i]).Success?
    decreases i
  {
    if i > 0 {
      assert vs[1..][i - 1] == vs[i];
      NoFailuresMeansLoads(plat, opt, parse, vs[1..], i - 1);
    }
  }

  /** Conversely, when every selected visit loads, nothing fails. */
  lemma {:induction false} AllLoadMeansNoFailures<P(!new)>(plat: Platform, opt: Options, parse: Parser<P>, vs: seq<Visit>)
    requires forall i :: 0 <= i < |vs| && Selected(plat, opt, vs[i]) ==> LoadVisit(plat, opt, parse, vs[i]).Success?
    ensures Failures(plat, opt, parse, vs) == []
    decreases |vs|
  {
    if |vs| > 0 {
      assert forall i :: 0 <= i < |vs| - 1 ==> vs[1..][i] == vs[i + 1];
      AllLoadMeansNoFailures(plat, opt, parse, vs[1..]);
    }
  }

  /** The root template stays in the set as created unless a loading file is
      named after it (a file "..tmpl" under the extension ".tmpl" would be). */
  lemma RootTemplateKept<P(!new)>(plat: Platform, lister: Lister, opt: Options, parse: Parser<P>, stat: Result<Node>)
    requires CompileFromFS(plat, lister, opt, parse, stat).Success?
    requires RootDir !in Names(plat, opt, parse, Trace(lister, ".", stat))
    ensures RootDir in CompileFromFS(plat, lister, opt, parse, stat).value
    ensures CompileFromFS(plat, lister, opt, parse, stat).value[RootDir] == RootTemplate(opt)
  {
    var fn := OnVisit(plat, opt, parse);
    var init: State<P> := State(RootSet(opt), []);
    OnVisitNeverInterrupts(plat, opt, parse);
    WalkIsTrace(lister, fn, init, ".", stat);
    ReplayKeeps(plat, opt, parse, init, Trace(lister, ".", stat), RootDir);
  }

  /** A missing or unreadable root is not an error: the callback sees a nil
      entry, passes it over, and compilation yields the root template alone. */
  lemma MissingRootCompilesRootOnly<P(!new)>(plat: Platform, lister: Lister, opt: Options, parse: Parser<P>, e: Error)
    ensures CompileFromFS(plat, lister, opt, parse, Failure(e)) == Success(RootSet(opt))
  {
    var st: State<P> := State(RootSet(opt), []);
    assert OnVisit(plat, opt, parse)(st, Visit(".", None, Some(e))) == (st, Continue);
  }

  /** Callbacks built from options that differ only in the order or
      repetition of the extensions answer every call alike. */
  lemma OnVisitAgree<P(!new)>(plat: Platform, opt1: Options, opt2: Options, parse: Parser<P>)
    requires opt1.delims == opt2.delims && opt1.funcs == opt2.funcs
    requires forall x :: x in opt1.extensions <==> x in opt2.extensions
    ensures forall st, v :: OnVisit(plat, opt1, parse)(st, v) == OnVisit(plat, opt2, parse)(st, v)
  {
    forall st: State<P>, v: Visit ensures OnVisit(plat, opt1, parse)(st, v) == OnVisit(plat, opt2, parse)(st, v) {
      OnVisitAgreeAt(plat, opt1, opt2, parse, st, v);
    }
  }

  lemma OnVisitAgreeAt<P(!new)>(plat: Platform, opt1: Options, opt2: Options, parse: Parser<P>, st: State<P>, v: Visit)
    requires opt1.delims == opt2.delims && opt1.funcs == opt2.funcs
    requires forall x :: x in opt1.extensions <==> x in opt2.extensions
    ensures OnVisit(plat, opt1, parse)(st, v) == OnVisit(plat, opt2, parse)(st, v)
  {
    OnVisitStep(plat, opt1, parse, st, v);
    OnVisitStep(plat, opt2, parse, st, v);
    if Selected(plat, opt1, v) {
      var path, data := v.path, v.node.value.data;
      assert Load(plat, opt1, parse, path, data) == Load(plat, opt2, parse, path, data);
      assert AddFile(plat, opt1, parse, path, data, st) == AddFile(plat, opt2, parse, path, data, st);
    } else {
      assert !Selected(plat, opt2, v);
    }
  }

  /** Only the set of configured extensions matters, not their order or
      repetitions: at most one distinct extension can equal a file's. */
  lemma ExtensionOrderIrrelevant<P(!new)>(plat: Platform, lister: Lister, opt1: Options, opt2: Options,
                                    parse: Parser<P>, stat: Result<Node>)
    requires opt1.delims == opt2.delims && opt1.funcs == opt2.funcs
    requires forall x :: x in opt1.extensions <==> x in opt2.extensions
    ensures CompileFromFS(plat, lister, opt1, parse, stat) == CompileFromFS(plat, lister, opt2, parse, stat)
  {
    var f1 := OnVisit(plat, opt1, parse);
    var f2 := OnVisit(plat, opt2, parse);
    var init: State<P> := State(RootSet(opt1), []);
    assert RootSet<P>(opt1) == RootSet(opt2);
    OnVisitAgree(plat, opt1, opt2, parse);
    OnVisitNeverInterrupts(plat, opt1, parse);
    OnVisitNeverInterrupts(plat, opt2, parse);
    WalkIsTrace(lister, f1, init, ".", stat);
    WalkIsTrace(lister, f2, init, ".", stat);
    ReplayAgree(f1, f2, init, Trace(lister, ".", stat));
  }

  /** Two callbacks that agree on every call replay alike. */
  lemma {:induction false} ReplayAgree<S>(f1: Callback<S>, f2: Callback<S>, s: S, vs: seq<Visit>)
    requires forall st, v :: f1(st, v) == f2(st, v)
    ensures Replay(f1, s, vs) == Replay(f2, s, vs)
    decreases |vs|
  {
    if |vs| > 0 {
      assert f1(s, vs[0]) == f2(s, vs[0]);
      ReplayAgree(f1, f2, f1(s, vs[0]).0, vs[1..]);
    }
  }

  // ---------------------------------------------------------------------
  // Installing the result.

  /** All or nothing: a failed recompilation returns its error and leaves the
      renderer exactly as it was; a successful one replaces the whole set by
      the freshly built one, the root template and the loaded files, which
      does not depend on the set it replaces. */
  lemma CompileTemplatesAllOrNothing<P(!new)>(r: Renderer<P>, r2: Renderer<P>, plat: Platform, lister: Lister,
                                        parse: Parser<P>, stat: Result<Node>)
    requires r2.opt == r.opt
    ensures var (r', err) := CompileTemplates(r, plat, lister, parse, stat);
      && (err.Some? ==> r' == r && CompileFromFS(plat, lister, r.opt, parse, stat) == Failure(err.value))
      && (err.None? ==> r'.opt == r.opt &&
                         r'.templates.Keys == Names(plat, r.opt, parse, Trace(lister, ".", stat)) + {RootDir} &&
                         r'.templates == CompileTemplates(r2, plat, lister, parse, stat).0.templates)
  {
    CompileCharacterization(plat, lister, r.opt, parse, stat);
  }
}
