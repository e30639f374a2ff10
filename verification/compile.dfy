/** `compileTemplatesFromFS` (fs.go:23-115 and fs_pre116.go:25-117, the same
    logic) and the renderer state it replaces. The walk visits every entry;
    the callback ignores directories and missing entries, picks the files
    whose extension exactly equals a configured one, and parses each into a
    template named after its path minus the extension. The set starts out
    holding the root template that `template.New(".")` creates, and the
    templates parsed from files join it. Errors are collected per file; the
    new set is installed only when there are none. */
module Compile {
  import opened Common
  import opened FsTree
  import opened FsWalk
  import opened FilePath
  import opened Funcs

  datatype Delims = Delims(left: string, right: string)

  /** The part of the renderer's options compilation reads. */
  datatype Options = Options(extensions: seq<string>, delims: Delims, funcs: seq<FuncMap>)

  /** A template of the set: its name, the delimiters and helper functions it
      was parsed with, and the parse result `P` (opaque here), which only the
      root template lacks until a file of the same name replaces it. */
  datatype Template<P> = Template(name: string, delims: Delims, funcs: FuncMap, tree: Option<P>)

  /** Template parsing is the template library's business: given delimiters,
      functions and the file's bytes, `run` yields a parse tree or an error.
      `empty` says whether a tree is empty in the library's sense (a body of
      only white space and comments); such a tree never replaces an existing
      parsed template of the same name. */
  datatype Parser<!P> = Parser(run: (Delims, FuncMap, Bytes) -> Result<P>, empty: P -> bool)

  type TemplateSet<P> = map<string, Template<P>>

  /** The directory the walk starts from, which also names the root template. */
  const RootDir := "."

  /** The template `template.New(".")` creates before the walk and on which
      the delimiters are set (fs.go:24-26): it is never parsed. The helper
      functions of a template library set belong to the set as a whole, so
      the root is recorded with the same functions as every other template. */
  function RootTemplate<P>(opt: Options): Template<P> {
    Template(RootDir, opt.delims, EffectiveFuncs(opt.funcs), None)
  }

  /** The set a walk starts from: the root template alone. */
  function RootSet<P>(opt: Options): TemplateSet<P> {
    map[RootDir := RootTemplate(opt)]
  }

  /** The walk callback's accumulated state: the set built so far and the
      errors collected so far. */
  datatype State<P> = State(built: TemplateSet<P>, errs: seq<Error>)

  /** The template a file becomes, or the open/read/parse error it fails with. */
  function Load<P>(plat: Platform, opt: Options, parse: Parser<P>, path: string, data: Result<Bytes>): (r: Result<Template<P>>)
    ensures data.Failure? ==> r == Failure(data.error)
    ensures data.Success? && parse.run(opt.delims, EffectiveFuncs(opt.funcs), data.value).Success? ==> r.Success?
    ensures data.Success? && parse.run(opt.delims, EffectiveFuncs(opt.funcs), data.value).Failure? ==>
      r == Failure(parse.run(opt.delims, EffectiveFuncs(opt.funcs), data.value).error)
    ensures r.Success? ==> (data.Success? && parse.run(opt.delims, EffectiveFuncs(opt.funcs), data.value).Success? &&
      r.value == Template(TemplateName(plat, path), opt.delims, EffectiveFuncs(opt.funcs),
                          Some(parse.run(opt.delims, EffectiveFuncs(opt.funcs), data.value).value)))
  {
    match data
    case Failure(e) => Failure(e)
    case Success(bytes) =>
      var funcs := EffectiveFuncs(opt.funcs);
      match parse.run(opt.delims, funcs, bytes)
      case Failure(e) => Failure(e)
      case Success(t) => Success(Template(TemplateName(plat, path), opt.delims, funcs, Some(t)))
  }

  /** Whether a freshly parsed template is refused because its name already
      holds a parsed template and its own tree is empty. The root template
      of `template.New` has no tree and never refuses. */
  predicate Refused<P>(parse: Parser<P>, built: TemplateSet<P>, t: Template<P>) {
    t.name in built && built[t.name].tree.Some? && t.tree.Some? && parse.empty(t.tree.value)
  }

  /** A parsed template joins the set under its name (fs.go:69-76). Parsing
      into a template of the set installs the new tree, except that the
      library keeps an existing parsed template rather than replace it with
      an empty one; every other name is untouched. */
  function Associate<P>(parse: Parser<P>, built: TemplateSet<P>, t: Template<P>): (r: TemplateSet<P>)
    ensures r.Keys == built.Keys + {t.name}
    ensures forall k :: k in built && k != t.name ==> r[k] == built[k]
    ensures t.name in built && built[t.name].tree.Some? && t.tree.Some? && parse.empty(t.tree.value) ==>
      r[t.name] == built[t.name]
    ensures !(t.name in built && built[t.name].tree.Some?) || t.tree.None? || !parse.empty(t.tree.value) ==>
      r[t.name] == t
  {
    if Refused(parse, built, t) then built else built[t.name := t]
  }

  /** Processing one selected file once: record its error, or associate its
      template. */
  function AddFile<P>(plat: Platform, opt: Options, parse: Parser<P>, path: string, data: Result<Bytes>,
                      st: State<P>): (r: State<P>)
    ensures Load(plat, opt, parse, path, data).Failure? ==>
      r.built == st.built && r.errs == st.errs + [Load(plat, opt, parse, path, data).error]
    ensures Load(plat, opt, parse, path, data).Success? ==>
      r.errs == st.errs && r.built == Associate(parse, st.built, Load(plat, opt, parse, path, data).value)
  {
    match Load(plat, opt, parse, path, data)
    case Failure(e) => State(st.built, st.errs + [e])
    case Success(t) => State(Associate(parse, st.built, t), st.errs)
  }

  /** The source's loop over the configured extensions for one file
      (fs.go:41-77): each extension equal to the file's processes the file;
      a failure records its error and leaves the loop; a success does not
      leave it, so a repeated extension processes the file again. */
  function TryExtensions<P>(plat: Platform, opt: Options, parse: Parser<P>, path: string, data: Result<Bytes>,
                            exts: seq<string>, st: State<P>): State<P>
    decreases |exts|
  {
    if |exts| == 0 then st
    else if Ext(plat, path) != exts[0] then TryExtensions(plat, opt, parse, path, data, exts[1..], st)
    else
      match Load(plat, opt, parse, path, data)
      case Failure(e) => State(st.built, st.errs + [e])
      case Success(t) => TryExtensions(plat, opt, parse, path, data, exts[1..], State(Associate(parse, st.built, t), st.errs))
  }

  /** The walk callback (fs.go:30-80): nil or directory entries are passed
      over, the walk error argument is ignored, and nil is always returned. */
  function OnVisit<P>(plat: Platform, opt: Options, parse: Parser<P>): Callback<State<P>> {
    (st: State<P>, v: Visit) =>
      (if v.node.None? || v.node.value.Dir? then st
       else TryExtensions(plat, opt, parse, v.path, v.node.value.data, opt.extensions, st),
       Continue)
  }

  /** Compilation proper: walk from "." starting with the root template
      alone, then fail with the walk's error, or with one aggregate error when
      any file failed, or yield the set. */
  function CompileFromFS<P>(plat: Platform, lister: Lister, opt: Options, parse: Parser<P>,
                            stat: Result<Node>): Result<TemplateSet<P>> {
    var (st, sig) := Walk(lister, OnVisit(plat, opt, parse), State(RootSet(opt), []), RootDir, stat);
    if sig.Stop? then Failure(sig.err)
    else if |st.errs| > 0 then Failure(Aggregate(st.errs))
    else Success(st.built)
  }

  /** The renderer's compiled state. The lock that guards it is left out:
      replacing `templates` is one assignment. */
  datatype Renderer<P> = Renderer(opt: Options, templates: TemplateSet<P>)

  /** Recompiling: on error the renderer is left as it was and the error is
      returned; otherwise the new set replaces the old one wholesale
      (fs.go:81-89). */
  function CompileTemplates<P>(r: Renderer<P>, plat: Platform, lister: Lister, parse: Parser<P>,
                               stat: Result<Node>): (Renderer<P>, Option<Error>) {
    match CompileFromFS(plat, lister, r.opt, parse, stat)
    case Failure(e) => (r, Some(e))
    case Success(built) => (r.(templates := built), None)
  }

  function TemplateLookup<P>(r: Renderer<P>, name: string): Option<Template<P>> {
    if name in r.templates then Some(r.templates[name]) else None
  }
}
