# Template discovery in `render`, modelled in Dafny

`render` compiles its HTML templates by walking a filesystem from ".". It
passes over directories and picks every file whose `filepath.Ext` equals one
of the configured extensions. Each such file is opened, read and parsed into a
template named after its path minus the extension, in slash form. The set
they join starts out holding the root template "." that `template.New(".")`
creates, which is never parsed. When two files yield the same name (say
"a.html" and "a.tmpl" under the extensions ".tmpl" and ".html"), the one the
walk visits last replaces the other, unless its body is empty: `html/template`
keeps an existing parsed template rather than replace it with one whose parse
tree holds only white space and comments. Per-file failures are collected
while the walk goes on. If any were collected, compilation fails with one
aggregate error and the renderer keeps its old set; otherwise the new set
replaces the old one wholesale.

The repository implements this twice, with the same logic:
- `fs.go` (Go 1.16 and later) uses `fs.WalkDir`.
- `fs_pre116.go` uses its own `walk`/`walkDir`.

Both ship `AssetFS`, a flat in-memory filesystem built from two callbacks,
whose `Open` hands out `staticFile` handles with `Read`, `Seek`, `Close` and
a cursor-based directory pager.

The model, one module per file:

- `common.dfy` (`Common`): bytes, the error values, and `Option`/`Result`.
- `funcs.dfy` (`Funcs`): how helper-function bundles are installed on a template.
- `filepath.dfy` (`FilePath`): `filepath.Ext` and `filepath.ToSlash`, on Unix and Windows, and the template name.
- `slashpath.dfy` (`SlashPath`): `path.Clean` and `path.Join`.
- `fstree.dfy` (`FsTree`): the filesystem as an immutable tree, and the two listing orders.
  - The hand-written walk keeps the order `Readdir` reports.
  - `fs.WalkDir` sorts each listing by name.
  - `Arrange` applies the order to every listing up front. The tree is immutable, so this is the same as ordering each listing when it is read.
- `walk.dfy` (`FsWalk`): `walk` and `walkDir` with a pure callback that threads a state.
  - It is proved against a reference pre-order (`PreOrder`).
  - Its `SkipDir` behaviour is proved against a reference pruning (`Pruned`).
  - An error answered by the callback is proved to end the walk after the reference prefix of the visits up to it (`UpTo`).
- `compile.dfy` (`Compile`): the callback, the extension loop, compilation, and installing the result on the renderer.
- `compile_facts.dfy` (`CompileFacts`): what compilation yields, stated over the visits of the walk against a reference set (`Expected`).
- `assetfs.dfy` (`AssetFs`): `AssetFS.Open` and the `staticFile` operations.
  - `ReadDirLoop` is the pager as a loop.
  - `DirHandle` is a small class whose `entpos` moves.
- `assetwalk.dfy` (`AssetWalk`): the tree a walk reveals on an `AssetFS`, and what compiling it yields.
- `examples.dfy` (`Scenarios`): the two compilation tests of render_html_test.go, and two files of one name, worked through the model.

The model follows the code in two places where its behaviour differs from the
intent its comments and design suggest:
- The extension loop does not stop at the first match. A successful parse
  falls through, so an extension listed twice parses the file twice.
  `CompileFacts.TryExtensionsOnce` shows the set ends up the same.
- A walk error would abort compilation, but the callback always returns nil.
  Listing failures are therefore handed to the callback, which ignores them,
  and the `return err` branch is dead (`CompileFacts.OnVisitNeverInterrupts`).

Template parsing is a parameter (`Compile.Parser`): a function from
delimiters, helper functions and bytes to a parse tree or an error, together
with the library's test for an empty parse tree.

## Model

| member | source | states |
|---|---|---|
| Funcs.InstallAllLastWins | fs.go:62-64 | after installing the user bundles in list order, a name is bound iff some bundle defines it, and it is bound as in the last bundle that defines it |
| Funcs.EffectiveFuncsPrecedence | fs.go:62-67 | the built-in helpers, installed last, win every collision; every other name is bound exactly as the last user bundle binds it |
| FilePath.ExtShape | fs.go:39 | `Ext` returns a suffix of the path that is empty or a dot followed by non-separators |
| FilePath.ExtEmptyIff | fs.go:39 | `Ext` is empty exactly when the final path element has no dot |
| FilePath.ExtOfSuffix | fs.go:39-45 | a path written as any stem plus a well-formed extension has exactly that extension, so a file named with a configured extension is matched |
| FilePath.ToSlash | fs.go:59 | same length; each platform separator becomes '/', every other character is kept |
| FilePath.ToSlashIdempotent | fs.go:59 | converting twice is converting once, and the result holds no platform separator other than '/' |
| FilePath.ToSlashConcat | fs.go:59 | conversion distributes over concatenation |
| FilePath.ToSlashNoSeparator | fs.go:59 | a string without separators is unchanged |
| FilePath.TemplateNameRoundTrip | fs.go:58-59 | template name followed by the extension gives back the slash form of the path, and on Unix the path itself |
| FilePath.ToSlashSplit | fs.go:58-59 | stripping the extension before or after slash conversion gives the same name |
| FilePath.TemplateNameOfStem | fs.go:58-59 | on Unix, a stem plus a well-formed extension is named by the stem |
| SlashPath.Clean | fs.go:118 | `path.Clean` never returns the empty string |
| SlashPath.CleanIdempotent | fs.go:118 | a cleaned name is already clean, so `Open` cleans once and for all |
| SlashPath.JoinSplit | fs.go:118 | splitting a path at slashes and rejoining gives the path back |
| SlashPath.SplitJoin | fs.go:118 | joining slash-free elements and splitting again gives the elements back |
| SlashPath.CleanRelPath | fs_pre116.go:153 | a relative path of real names (no "", ".", ".." or slash) is already clean |
| SlashPath.JoinEmpty | fs_pre116.go:153 | `path.Join` yields "" only when both arguments are empty |
| SlashPath.JoinDot | fs_pre116.go:153 | joining a relative name onto "." is cleaning the name, so the leading "." disappears |
| SlashPath.JoinChild | fs_pre116.go:153 | joining a real name onto the path of a route gives the path of the extended route: no "./" prefix, exactly one slash |
| FsTree.InsertSorted | fs.go:30 | inserting into a name-sorted listing keeps it sorted and adds exactly that entry |
| FsTree.SortByNameSorted | fs.go:30 | sorting by name yields a name-sorted permutation of the listing |
| FsTree.OrderPermutes | fs.go:30 | either listing order is a permutation of the listing and has the same entries |
| FsTree.OrderSorted | fs.go:30 | on an already sorted listing both orders agree with the listing |
| FsTree.ArrangeAsListed | fs_pre116.go:143-152 | the hand-written walk sees the tree as the directories report it |
| FsTree.ArrangeSorted | fs.go:30 | on a tree sorted throughout, both walks see the tree as it is |
| FsTree.FlatArrange | fs.go:30 | a directory of plain files is seen with its listing ordered, and nothing else changes |
| FsWalk.Walk | fs_pre116.go:119-132 | a `SkipDir` never escapes the walk: at the top it becomes nil |
| FsWalk.WalkDir | fs_pre116.go:134-162 | a `SkipDir` reaches the parent only when a file's callback returns it, or, after a nil first callback on a directory whose listing failed, when the second callback returns it |
| FsWalk.WalkChildren | fs_pre116.go:152-161 | the loop over the entries never reports `SkipDir` to its caller |
| FsWalk.WalkDirIsPreOrder | fs_pre116.go:134-162 | with a callback that never interrupts, the walk of a node makes exactly the callbacks of the reference pre-order, in that order, and succeeds; after a listing failure is reported, the entries read before it are still walked |
| FsWalk.EntriesVisited | fs_pre116.go:143-161 | an uninterrupted walk visits every entry a listing yielded, whether the listing completed or failed part way |
| FsWalk.WalkChildrenIsPreOrder | fs_pre116.go:152-161 | the same for the loop over the entries from position i |
| FsWalk.WalkIsTrace | fs_pre116.go:119-132 | with a callback that never interrupts, the whole walk replays the trace; a failed root `stat` gives one callback with no entry and the error |
| FsWalk.WalkDirSkips | fs_pre116.go:134-141 | with a callback answering `SkipDir` at chosen paths, the walk records exactly the pruned visits; `SkipDir` escapes exactly when the reference says it does |
| FsWalk.WalkChildrenSkips | fs_pre116.go:152-160 | a `SkipDir` from a child ends the loop over its siblings successfully; any other answer continues it |
| FsWalk.WalkSkips | fs_pre116.go:127-129 | the whole walk with that callback records the pruned trace and succeeds |
| FsWalk.UpToIsFirstPrefix | fs_pre116.go:135-161 | the reference for an interrupted walk: the prefix of a visit sequence that ends at the first visit meeting the stopping condition, or the whole sequence when none does |
| FsWalk.WalkDirStops | fs_pre116.go:134-162 | with a callback that answers an error at the first visit meeting a condition, the walk of a node makes exactly the callbacks of the pre-order up to and including that visit and returns the error; if no visit meets it, it makes all of them and succeeds |
| FsWalk.FailedDirStops | fs_pre116.go:143-150 | the same for a directory whose listing failed: an error from the second callback returns at once, before any entry is walked |
| FsWalk.ListedDirStops | fs_pre116.go:134-161 | the same for a directory whose listing succeeded and whose first callback answers nil |
| FsWalk.WalkChildrenStops | fs_pre116.go:152-161 | an error other than `SkipDir` from a child ends the loop over the entries and is returned, after exactly the callbacks up to the one that gave it |
| FsWalk.ChildStops | fs_pre116.go:153-159 | one turn of the loop with that callback: an error inside the entry returns it; otherwise the loop goes on after the entry's whole pre-order |
| FsWalk.WalkStops | fs_pre116.go:119-132 | the whole walk with that callback: the callbacks made are the trace up to and including the first visit answered with the error, and the walk returns that error |
| FsWalk.PreOrderPaths | fs_pre116.go:153 | every path handed out below a route extends that route by real names |
| FsWalk.TracePaths | fs_pre116.go:153 | every path a walk from "." hands out, in either order, is "." or a route of real names |
| FsWalk.RoutePathIsClean | fs_pre116.go:153 | a path that extends a route of real names is clean |
| Compile.Load | fs.go:46-74 | an open or read failure is returned as is; readable bytes that fail to parse give the parser's error; readable bytes that parse give a template, and only then, carrying the stripped slash name, the delimiters, the effective helper functions and the parse tree |
| Compile.Associate | fs.go:69-76 | the parsed template's name joins the set and every other name is untouched; the name takes the new template, except that an existing parsed template is kept when the new tree is empty |
| Compile.AddFile | fs.go:46-76 | a failed file adds its error and leaves the set; a loaded file adds no error and is associated with the set |
| CompileFacts.TryExtensionsOnce | fs.go:41-77 | the extension loop processes a file exactly once when its extension is configured, however often it is listed, and not at all otherwise |
| CompileFacts.TryExtensionsSettled | fs.go:41-77 | after a successful parse, a repeated extension parses again into the same template and changes nothing |
| CompileFacts.OnVisitStep | fs.go:30-80 | the callback ignores nil and directory entries, runs the extension loop on files, and always answers nil |
| CompileFacts.OnVisitNeverInterrupts | fs.go:30-80 | the compile callback never interrupts the walk, so the `return err` branch cannot be taken |
| CompileFacts.StepErrs | fs.go:46-74 | one callback grows the errors by exactly that visit's failure |
| CompileFacts.StepKeys | fs.go:58-76 | one callback grows the set's names by exactly that visit's loaded name, and keeps every template well formed |
| CompileFacts.ReplayCompile | fs.go:30-80 | over any visits, errors are the failures in visit order and names are the loaded names |
| CompileFacts.ReplayErrs | fs.go:46-74 | over any visits the errors grow by exactly the failures, in visit order |
| CompileFacts.ReplayKeys | fs.go:58-76 | over any visits the names grow by exactly the loaded names |
| CompileFacts.ReplayKeeps | fs.go:58-76 | over any visits, a name that no loading file takes keeps its template unchanged |
| CompileFacts.CompileCharacterization | fs.go:23-89 | compilation succeeds iff no selected file fails; a failure aggregates all failures in visit order; a success holds exactly the root template "." and the loaded names, each template well formed, and only the root without a parse tree; the set is exactly the reference set, so every name holds the template of the last file of that name whose tree is not empty, or of the first file of that name when all their trees are empty |
| CompileFacts.FirstLoadNames | fs.go:58-76 | a name has a first loading file exactly when some selected file of that name loads |
| CompileFacts.LastLoadNames | fs.go:58-76 | a name has a reference template exactly when some selected file of that name loads |
| CompileFacts.LastFullAt | fs.go:69-76 | the last non-empty template of a name is that of the visit of that name with a non-empty tree after which no visit of that name has one |
| CompileFacts.FirstLoadAt | fs.go:58-76 | the first template of a name is that of the loading visit of that name before which no visit of that name loads |
| CompileFacts.LastLoadAt | fs.go:69-76 | the reference template for a name is that of its last loading visit with a non-empty tree |
| CompileFacts.LastLoadAllEmpty | fs.go:69-76 | when every loading file of a name has an empty tree, the reference template is the first one's |
| CompileFacts.LastLoadOnly | fs.go:58-76 | a name only one file loads under has that file's template as reference, empty or not |
| CompileFacts.StepAt | fs.go:58-76 | one callback associates the visit's template when the visit loads under the name, and otherwise leaves the name as it was |
| CompileFacts.ReplayHolds | fs.go:69-76 | a name holding a parsed template keeps it through any visits none of which loads a non-empty tree under that name |
| CompileFacts.ReplayFull | fs.go:58-76 | over any visits, a name some file loads a non-empty tree under ends up with the last such file's template, whatever it held before |
| CompileFacts.ReplayFirst | fs.go:69-76 | a name without a parsed template, whose loading files all have empty trees, ends up with the first of them; the later ones are refused |
| CompileFacts.ReplayLast | fs.go:58-76 | over any visits, each name some loading file takes ends up with its reference template: a later file of the same name replaces an earlier one unless its tree is empty; only when no tree of that name is non-empty and the name already held a parsed template is that kept |
| CompileFacts.ReplayAt | fs.go:24-76 | replaying from the root template alone, each name of the result holds its reference template (last non-empty, else first loading file's), and "." holds the root template when no file takes that name |
| CompileFacts.ReplayIsExpected | fs.go:24-76 | replaying the callback from the root template alone builds exactly the reference set |
| CompileFacts.TemplatesComeFromFiles | fs.go:24-45 | every template other than the root "." is named after a visited file, never a directory, whose extension is configured and which loaded |
| CompileFacts.RootTemplateKept | fs.go:24-26 | after a success the root template "." is in the set as `template.New(".")` created it, unless a loading file is named "." too |
| CompileFacts.SelectedFilesBecomeTemplates | fs.go:39-76 | after a success, every visited file with a configured extension is a template |
| CompileFacts.NoFailuresMeansLoads | fs.go:83-84 | with no failures, every selected visit loads |
| CompileFacts.AllLoadMeansNoFailures | fs.go:83-84 | when every selected visit loads, there are no failures |
| CompileFacts.MissingRootCompilesRootOnly | fs_pre116.go:119-124 | a root whose `stat` fails compiles successfully to the set holding only the root template "." |
| CompileFacts.OnVisitAgree | fs.go:41-45 | callbacks from options whose extensions hold the same members agree on every call |
| CompileFacts.ExtensionOrderIrrelevant | fs.go:41-45 | only the set of configured extensions matters, not their order or repetition |
| CompileFacts.CompileTemplatesAllOrNothing | fs.go:81-89 | a failed compilation returns its error and leaves the renderer unchanged; a success replaces the set wholesale with the root template and the loaded names, independent of the old set, and clears the error |
| AssetFs.Entries | fs.go:121-131 | one non-directory entry per asset name, in order |
| AssetFs.Open | fs.go:117-162 | opening cleans the name: "." is a directory listing every name as a plain file; a listed name yields its bytes or its `Asset` error; anything else is `ErrNotExist` |
| AssetFs.OpenCleans | fs.go:118 | opening a name and opening its cleaned form are the same |
| AssetFs.Close | fs.go:172-177 | closing fails with `ErrInvalid` exactly on the listing, which has no reader |
| AssetFs.Read | fs.go:179-184 | the listing fails with `ErrInvalid`; a reader at the end gives `io.EOF`; otherwise the next bytes up to the buffer size are returned and the offset advances by their count |
| AssetFs.Seek | fs.go:186-191 | the listing fails with `ErrInvalid`; a bad whence or negative target fails and leaves the handle; every other seek succeeds and moves the offset to start, current or end plus the offset |
| AssetFs.RewindRead | fs.go:179-191 | seeking to 0 and reading the whole length gives back the whole content, wherever the reader stood |
| AssetFs.Mode | fs.go:230-235 | the directory bit is set exactly for the listing; permission bits are 0755 for it and 0644 for an asset; no other bit is set |
| AssetFs.ReadDir | fs.go:195-214 | on a non-directory it gives `ErrInvalid`; otherwise it returns the next entries and moves only the cursor past them; `count <= 0` returns all the rest; `count > 0` returns 1..count entries, or `io.EOF` exactly when none remain |
| AssetFs.ReadDirLoop | fs_pre116.go:256-275 | the loop that appends one entry at a time computes exactly the pager's result |
| AssetFs.Wrap64 | fs.go:201 | 64-bit two's-complement wrap: in range, congruent, and the identity on in-range values |
| AssetFs.ReadDirAsWritten | fs.go:201-204 | the pager with 64-bit arithmetic agrees with the corrected pager whenever `entpos + count` does not overflow |
| AssetFs.ReadDirOverflow | fs.go:201-210 | with one entry unread, `ReadDir(MaxInt64)` as written reports `io.EOF`, where the corrected pager returns the entry |
| AssetFs.DrainCoversRest | fs_pre116.go:256-275 | paging to `io.EOF` returns every remaining entry once, in order, in pages of exactly k except the last, and no page is empty |
| AssetFs.ReadAllRest | fs.go:52 | reading to the end yields the bytes after the offset, whatever the chunk size; the listing cannot be read |
| AssetFs.ReadFileIsAsset | fs.go:46-56 | open-then-read gives the asset's own answer for a listed name, `ErrNotExist` for any other, and `ErrInvalid` for "." |
| AssetFs.ListRoot | fs_pre116.go:173-180 | one `Readdir(-1)` on "." returns every asset name in order as plain files; after it a paged call reports `io.EOF` and an unpaged one returns nothing |
| AssetWalk.RootEntries | fs_pre116.go:173-180 | the root listing has one plain-file entry per asset name, in order |
| AssetWalk.AssetTreeEntries | fs_pre116.go:186-194 | the tree behind an `AssetFS` lists exactly one file per asset name |
| AssetWalk.FlatChildren | fs_pre116.go:152-160 | a directory of plain files contributes one visit per entry, in listing order, under the joined name |
| AssetWalk.FlatTrace | fs_pre116.go:119-162 | a root of plain files is walked as the root, then one visit per entry in the lister's order |
| AssetWalk.VisitsAreAssets | fs_pre116.go:186-203 | every visit after the root is an asset, under `Join(".", name)` |
| AssetWalk.AssetsAreVisited | fs_pre116.go:186-203 | every asset is visited, under `Join(".", name)` |
| AssetWalk.CleanAsset | fs_pre116.go:183 | a clean asset name is visited as itself and reads its own bytes |
| AssetWalk.SelectedVisit | fs.go:39-56 | a selected visit of a clean `AssetFS` is an asset with a configured extension, loaded from its own bytes |
| AssetWalk.CompileAssetsSucceeds | fs.go:23-89 | compiling an `AssetFS` with clean names succeeds iff every asset with a configured extension reads and parses |
| AssetWalk.CompileAssetsNames | fs.go:23-89 | after a success the template names are exactly the root "." and the assets with a configured extension, minus that extension |
| Scenarios.TemplateDirTrace | render_html_test.go:415-435 | both walks see the test directory, which is sorted, in the same order |
| Scenarios.TemplateDirPreOrder | render_html_test.go:415-435 | the test directory is visited in pre-order as ".", "0.tmpl", "dedicated.tmpl", "dedicated.tmpl/notbad.tmpl", "subdir", "subdir/1.tmpl" |
| Scenarios.TemplateDirLoads | render_html_test.go:415-435 | no file of the test directory fails, and the loaded names are "0", "dedicated.tmpl/notbad" and "subdir/1" |
| Scenarios.TemplateDirCompiles | render_html_test.go:415-435 | compiling the test directory succeeds with exactly those three templates besides the root ".", and no "dedicated" |
| Scenarios.TemplateDirLookup | render_html_test.go:415-435 | after recompiling, the three templates are found, each holding the parse of its own file, "dedicated" is not, and "." finds the unparsed root template |
| Scenarios.TemplateDirLastLoads | render_html_test.go:415-435 | in the test directory, "0", "dedicated.tmpl/notbad" and "subdir/1" each come from their own file |
| Scenarios.LaterFileWins | fs.go:41-76 | with the extensions ".tmpl" and ".html", files "a.html" and "a.tmpl" are both named "a"; compilation keeps the set {".", "a"}, and "a" holds the parse of "a.tmpl", the file visited last, unless "a.tmpl" is blank, in which case it keeps that of "a.html" |
| Scenarios.TwoOfANameLoads | fs.go:41-76 | on that directory nothing fails, both files load under "a", and the reference template is "a.tmpl"'s unless that file is blank, then "a.html"'s |
| Scenarios.TwoOfANameVisits | fs.go:39-74 | the root of that directory is not selected; both files load under "a" with their own bytes, and "a.tmpl" has a non-empty tree exactly when it is not blank |
| Scenarios.LastOfTwoAlike | fs.go:69-76 | of two loading files of one name, the reference template is the second's when its tree is not empty and the first's otherwise |
| Scenarios.TwoAssetsCompile | render_html_test.go:377-413 | the two-asset `AssetFS` compiles to the templates "test" and "layout" besides the root "." |

## Left out

- The watcher goroutine (fs.go:91-112) is left out. Its point is concurrency, and its error is read before the goroutine can set it.
- The renderer's lock is left out. Installing the new set is one assignment here.
- `LocalFS` (`os.DirFS`, `http.Dir`), `embed.FS` and other real filesystems are not modelled; the walk runs over an in-memory tree instead. A file node carries what opening and reading it all the way through yields. A directory node carries the entries its listing yields and, when listing failed part way, the error as well.
- `html/template` is a parameter: parsing is an arbitrary function of delimiters, helper functions and bytes, and emptiness of a tree an arbitrary predicate. The scenarios use a parser whose tree is the bytes themselves, empty when they are all white space; comments are not recognised there. Execution, `{{define}}` sub-templates, and the bodies of the helper functions are out of scope; render.go is not part of this model.
- The HTTP renderer facade (`HTML`, `JSON`, `XML`, `Data`, content types, buffer pools) is out of scope.
- `fs.WalkDir` is the Go library's; it is modelled as the hand-written walk with each listing sorted by name. `fs.ReadDir` sorts, and the two walks agree otherwise on everything the compiler observes. The `SkipAll` answer of later Go releases, and their turning a `SkipDir` from the listing-failure callback into success, are not modelled; the compile callback gives neither answer.
- `html/template` keeps helper functions in the set as a whole, and the set holds none until a file reaches parsing. The model records the configured functions on every template, the root included; nothing reads them on the root, which has no parse tree.
- `Stat`, `Size`, `ModTime`, `Sys` and the forwarding methods of `staticDirEntry` are left out; they carry no logic.
- `bytes.Reader` and `io.ReadAll` are the library's. They are modelled by their observable behaviour: reads of at most the buffer size, and `io.EOF` at the end.
- AssetFs.Seek: offsets are unbounded integers, so the 64-bit overflow of `offset + position` is not modelled.
- AssetFs.Read: the buffer is given by its length only, and the bytes read are returned rather than copied into it.
- AssetFs.DirHandle.Next carries the pager on a mutable object. Its contract is stated with `old`, and `ReadDirLoop` states the same thing about values.
- The paths handed to the callback are built with `path.Join`, which is a model of the Go function for the two-argument case only.

## Findings

| source | as written | input that shows it | evidently intended | confidence | as-written member | corrected member |
|---|---|---|---|---|---|---|
| fs.go:201-204 (also fs_pre116.go:262-265) | `limit := s.entpos + count` wraps around in 64-bit `int`; the negative limit then passes the `limit > len` test, so nothing is returned | a listing of two entries with `entpos = 1`, then `ReadDir(math.MaxInt64)`: `io.EOF` is returned although one entry remains | a huge `count` returns all remaining entries, as any `count` of at least the remaining number does | medium, not executed | AssetFs.ReadDirAsWritten, AssetFs.ReadDirOverflow | AssetFs.ReadDir, AssetFs.DrainCoversRest |
