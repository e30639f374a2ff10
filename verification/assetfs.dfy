/** `AssetFS`, the filesystem built from two callbacks (fs_asset.go:4-9), and
    the `staticFile` handles its `Open` returns (fs.go:117-235,
    fs_pre116.go:182-299). The asset namespace is flat: "." lists every asset
    name as a plain file, a listed name opens that asset's bytes, and nothing
    else exists. A handle is a value here; the operations that move its
    cursor return the moved handle next to their result. */
module AssetFs {
  import opened Common
  import opened SlashPath

  /** `Asset` yields the bytes of a name or an error; `AssetNames()` is
      modelled by the list it returns. */
  datatype AssetFS = AssetFS(asset: string -> Result<Bytes>, names: seq<string>)

  /** `staticFileInfo`: size and modification time are left out. */
  datatype FileInfo = FileInfo(basename: string, dir: bool, ents: seq<FileInfo>)

  /** The state of a `bytes.Reader`: its content and its read offset, which
      may lie past the end after a seek. */
  datatype Reader = Reader(data: Bytes, off: int)

  /** `staticFile`: a reader for an asset (none for the listing), the file's
      info, and the directory cursor `entpos`. */
  datatype StaticFile = StaticFile(reader: Option<Reader>, info: FileInfo, entpos: int)

  /** What every handle satisfies from `Open` on: the cursor lies within the
      entries and a reader never stands before its start. */
  predicate Valid(f: StaticFile) {
    0 <= f.entpos <= |f.info.ents| && (f.reader.Some? ==> f.reader.value.off >= 0)
  }

  /** The entries of the synthesised root: one plain file per asset name. */
  function Entries(names: seq<string>): (r: seq<FileInfo>)
    ensures |r| == |names|
    ensures forall i :: 0 <= i < |names| ==> r[i] == FileInfo(names[i], false, [])
  {
    seq(|names|, i requires 0 <= i < |names| => FileInfo(names[i], false, []))
  }

  /** `AssetFS.Open` (fs.go:117-162, fs_pre116.go:182-225). */
  function Open(a: AssetFS, name: string): (r: Result<StaticFile>)
    ensures r.Success? ==> Valid(r.value) && r.value.entpos == 0 && (r.value.reader.None? <==> r.value.info.dir)
    ensures Clean(name) == "." ==>
      r.Success? && r.value.info.dir && |r.value.info.ents| == |a.names| &&
      forall i :: 0 <= i < |a.names| ==> r.value.info.ents[i].basename == a.names[i] && !r.value.info.ents[i].dir
    ensures Clean(name) != "." ==>
      (r.Success? <==> Clean(name) in a.names && a.asset(Clean(name)).Success?)
    ensures Clean(name) != "." && r.Success? ==>
      r.value.reader == Some(Reader(a.asset(Clean(name)).value, 0)) && r.value.info.basename == Clean(name)
    ensures Clean(name) != "." && Clean(name) in a.names && a.asset(Clean(name)).Failure? ==>
      r == Failure(a.asset(Clean(name)).error)
    ensures Clean(name) != "." && Clean(name) !in a.names ==> r == Failure(NotExist)
  {
    var n := Clean(name);
    if n == "." then
      Success(StaticFile(None, FileInfo(n, true, Entries(a.names)), 0))
    else if n in a.names then
      match a.asset(n)
      case Failure(e) => Failure(e)
      case Success(content) => Success(StaticFile(Some(Reader(content, 0)), FileInfo(n, false, []), 0))
    else
      Failure(NotExist)
  }

  /** Opening a name and opening its cleaned form are the same thing. */
  lemma OpenCleans(a: AssetFS, name: string)
    ensures Open(a, Clean(name)) == Open(a, name)
  {
    CleanIdempotent(name);
  }

  /** `staticFile.Close` (fs.go:172-177, fs_pre116.go:235-240): only a handle
      with a reader closes cleanly, so closing the listing reports
      `ErrInvalid`. */
  function Close(f: StaticFile): (r: Option<Error>)
    ensures r.None? <==> f.reader.Some?
    ensures r.Some? ==> r.value == Invalid
  {
    if f.reader.None? then Some(Invalid) else None
  }

  function Min(x: int, y: int): int {
    if x <= y then x else y
  }

  /** `staticFile.Read` (fs.go:179-184) with `bytes.Reader.Read` behind it.
      `room` is the length of the caller's buffer; a read at or past the end
      is `io.EOF` with nothing read. */
  function Read(f: StaticFile, room: nat): (r: (StaticFile, Result<Bytes>))
    requires Valid(f)
    ensures Valid(r.0)
    ensures f.reader.None? ==> r == (f, Failure(Invalid))
    ensures f.reader.Some? && f.reader.value.off >= |f.reader.value.data| ==> r == (f, Failure(EOF))
    ensures f.reader.Some? && f.reader.value.off < |f.reader.value.data| ==>
      var rd := f.reader.value;
      r.1.Success? && |r.1.value| == Min(room, |rd.data| - rd.off) &&
      r.1.value == rd.data[rd.off..rd.off + |r.1.value|] &&
      r.0 == f.(reader := Some(Reader(rd.data, rd.off + |r.1.value|)))
  {
    match f.reader
    case None => (f, Failure(Invalid))
    case Some(rd) =>
      if rd.off >= |rd.data| then (f, Failure(EOF))
      else
        var n := Min(room, |rd.data| - rd.off);
        (f.(reader := Some(Reader(rd.data, rd.off + n))), Success(rd.data[rd.off..rd.off + n]))
  }

  /** Where `bytes.Reader.Seek` counts from for whence 0, 1 and 2: the
      start, the current offset, the end. */
  function SeekBase(rd: Reader, whence: int): int {
    if whence == 0 then 0 else if whence == 1 then rd.off else |rd.data|
  }

  /** `staticFile.Seek` (fs.go:186-191) with `bytes.Reader.Seek` behind it:
      whence 0, 1 and 2 count from the start, the current offset and the end;
      any other whence and any negative target are errors that leave the
      handle as it was, and every other seek succeeds. */
  function Seek(f: StaticFile, offset: int, whence: int): (r: (StaticFile, Result<int>))
    requires Valid(f)
    ensures Valid(r.0)
    ensures f.reader.None? ==> r == (f, Failure(Invalid))
    ensures r.1.Failure? ==> r.0 == f
    ensures f.reader.Some? && whence !in {0, 1, 2} ==> r.1.Failure?
    ensures r.1.Success? ==>
      && f.reader.Some? && r.1.value >= 0
      && r.0 == f.(reader := Some(Reader(f.reader.value.data, r.1.value)))
      && r.1.value == offset + SeekBase(f.reader.value, whence)
    ensures f.reader.Some? && whence in {0, 1, 2} && offset + SeekBase(f.reader.value, whence) >= 0 ==>
      r.1 == Success(offset + SeekBase(f.reader.value, whence))
  {
    match f.reader
    case None => (f, Failure(Invalid))
    case Some(rd) =>
      if whence !in {0, 1, 2} then (f, Failure(Message("bytes.Reader.Seek: invalid whence")))
      else
        var abs := SeekBase(rd, whence) + offset;
        if abs < 0 then (f, Failure(Message("bytes.Reader.Seek: negative position")))
        else (f.(reader := Some(Reader(rd.data, abs))), Success(abs))
  }

  /** Seeking back to the start and reading everything again gives the
      whole content, wherever the reader stood. */
  lemma RewindRead(f: StaticFile)
    requires Valid(f) && f.reader.Some? && |f.reader.value.data| > 0
    ensures Seek(f, 0, 0).1 == Success(0)
    ensures Read(Seek(f, 0, 0).0, |f.reader.value.data|).1 == Success(f.reader.value.data)
  {
    assert f.reader.value.data[0..|f.reader.value.data|] == f.reader.value.data;
  }

  /** `fs.ModeDir`, the top bit of a 32-bit file mode. */
  const ModeDir: int := 0x8000_0000

  /** `staticFileInfo.Mode` (fs.go:230-235, fs_pre116.go:291-296): 0755 with
      the directory bit for the listing, 0644 for an asset; no other type or
      permission bit is set. */
  function Mode(fi: FileInfo): (m: int)
    ensures 0 <= m < 2 * ModeDir
    ensures fi.dir <==> m / ModeDir == 1
    ensures m % 0x200 == (if fi.dir then 0x1ED else 0x1A4)
    ensures m % ModeDir < 0x200
  {
    if fi.dir then ModeDir + 0x1ED else 0x1A4
  }

  /** `staticFile.ReadDir` (fs.go:195-214) and `Readdir` (fs_pre116.go:256-275),
      with the end of the page computed without overflow; see
      `ReadDirAsWritten` for the 64-bit arithmetic of the source. */
  function ReadDir(f: StaticFile, count: int): (r: (StaticFile, Result<seq<FileInfo>>))
    requires Valid(f)
    ensures Valid(r.0)
    ensures !f.info.dir ==> r == (f, Failure(Invalid))
    ensures f.info.dir ==> r.0 == f.(entpos := r.0.entpos) && f.entpos <= r.0.entpos
    ensures f.info.dir && r.1.Success? ==>
      r.0.entpos == f.entpos + |r.1.value| <= |f.info.ents| &&
      forall i :: 0 <= i < |r.1.value| ==> r.1.value[i] == f.info.ents[f.entpos + i]
    ensures f.info.dir && count <= 0 ==> r.1.Success? && r.0.entpos == |f.info.ents|
    ensures f.info.dir && count > 0 && r.1.Success? ==>
      0 < |r.1.value| <= count && (|r.1.value| == count || r.0.entpos == |f.info.ents|)
    ensures f.info.dir && count > 0 ==>
      (r.1.Failure? <==> f.entpos == |f.info.ents|) && (r.1.Failure? ==> r.1.error == EOF && r.0 == f)
  {
    if !f.info.dir then (f, Failure(Invalid))
    else
      var n := |f.info.ents|;
      var limit := if count <= 0 || f.entpos + count > n then n else f.entpos + count;
      var fis := f.info.ents[f.entpos..limit];
      if |fis| == 0 && count > 0 then (f.(entpos := limit), Failure(EOF))
      else (f.(entpos := limit), Success(fis))
  }

  /** The pager as the source writes it: a loop that appends one entry at a
      time while advancing the cursor. */
  method ReadDirLoop(f: StaticFile, count: int) returns (g: StaticFile, fis: seq<FileInfo>, err: Option<Error>)
    requires Valid(f)
    ensures Valid(g) && g.info == f.info && f.entpos <= g.entpos
    ensures err.None? ==> f.info.dir && fis == f.info.ents[f.entpos..g.entpos]
    ensures err.None? && count > 0 ==> 0 < |fis| <= count
    ensures (g, if err.Some? then Failure(err.value) else Success(fis)) == ReadDir(f, count)
  {
    if !f.info.dir {
      return f, [], Some(Invalid);
    }
    var n := |f.info.ents|;
    var limit := f.entpos + count;
    if count <= 0 || limit > n {
      limit := n;
    }
    var pos := f.entpos;
    fis := [];
    while pos < limit
      invariant f.entpos <= pos <= limit <= n
      invariant fis == f.info.ents[f.entpos..pos]
    {
      fis := fis + [f.info.ents[pos]];
      pos := pos + 1;
    }
    g := f.(entpos := pos);
    if |fis| == 0 && count > 0 {
      err := Some(EOF);
    } else {
      err := None;
    }
  }

  /** An open handle as a mutable object whose cursor moves. */
  class DirHandle {
    var file: StaticFile

    constructor (f: StaticFile)
      ensures file == f
    {
      file := f;
    }

    method Next(count: int) returns (fis: seq<FileInfo>, err: Option<Error>)
      requires Valid(file)
      modifies this
      ensures Valid(file)
      ensures (file, if err.Some? then Failure(err.value) else Success(fis)) == ReadDir(old(file), count)
    {
      file, fis, err := ReadDirLoop(file, count);
    }
  }

  const MinInt64: int := -0x8000_0000_0000_0000
  const MaxInt64: int := 0x7FFF_FFFF_FFFF_FFFF

  /** Two's-complement 64-bit wrap-around of Go's `int` addition. */
  function Wrap64(x: int): (r: int)
    ensures MinInt64 <= r <= MaxInt64
    ensures (r - x) % 0x1_0000_0000_0000_0000 == 0
    ensures MinInt64 <= x <= MaxInt64 ==> r == x
  {
    (x - MinInt64) % 0x1_0000_0000_0000_0000 + MinInt64
  }

  /** The pager with `limit := s.entpos + count` in 64-bit arithmetic, as
      written: a huge `count` makes the sum wrap to a negative limit, which
      passes the `limit > len` test, so nothing is returned. */
  function ReadDirAsWritten(f: StaticFile, count: int): (r: (StaticFile, Result<seq<FileInfo>>))
    requires Valid(f)
    requires MinInt64 <= count <= MaxInt64
    ensures !f.info.dir ==> r == (f, Failure(Invalid))
    ensures f.info.dir && MinInt64 <= f.entpos + count <= MaxInt64 ==> r == ReadDir(f, count)
  {
    if !f.info.dir then (f, Failure(Invalid))
    else
      var n := |f.info.ents|;
      var sum := Wrap64(f.entpos + count);
      var limit := if count <= 0 || sum > n then n else sum;
      var fis := if f.entpos < limit then f.info.ents[f.entpos..limit] else [];
      var pos := if f.entpos < limit then limit else f.entpos;
      if |fis| == 0 && count > 0 then (f.(entpos := pos), Failure(EOF))
      else (f.(entpos := pos), Success(fis))
  }

  /** The overflow: with one entry still unread, asking for `MaxInt64`
      entries reports `io.EOF`, where the corrected pager returns the entry. */
  lemma ReadDirOverflow()
    ensures var f := StaticFile(None, FileInfo(".", true, Entries(["a.tmpl", "b.tmpl"])), 1);
      && ReadDirAsWritten(f, MaxInt64) == (f, Failure(EOF))
      && ReadDir(f, MaxInt64) == (f.(entpos := 2), Success([FileInfo("b.tmpl", false, [])]))
  {
    var f := StaticFile(None, FileInfo(".", true, Entries(["a.tmpl", "b.tmpl"])), 1);
    assert Wrap64(1 + MaxInt64) == MinInt64;
    assert f.info.ents[1..2] == [FileInfo("b.tmpl", false, [])];
  }

  /** Reading a directory in pages of `k` until `io.EOF`. */
  function Drain(f: StaticFile, k: int): seq<seq<FileInfo>>
    requires Valid(f) && f.info.dir && k > 0
    decreases |f.info.ents| - f.entpos
  {
    var (g, r) := ReadDir(f, k);
    match r
    case Failure(_) => []
    case Success(page) => [page] + Drain(g, k)
  }

  function Flatten<T>(pages: seq<seq<T>>): seq<T> {
    if |pages| == 0 then [] else pages[0] + Flatten(pages[1..])
  }

  /** Paging visits every remaining entry exactly once, in order, in pages
      of exactly `k` except possibly the last, which is never empty. */
  lemma {:induction false} DrainCoversRest(f: StaticFile, k: int)
    requires Valid(f) && f.info.dir && k > 0
    ensures Flatten(Drain(f, k)) == f.info.ents[f.entpos..]
    ensures forall i :: 0 <= i < |Drain(f, k)| ==> 0 < |Drain(f, k)[i]| <= k
    ensures forall i :: 0 <= i < |Drain(f, k)| - 1 ==> |Drain(f, k)[i]| == k
    decreases |f.info.ents| - f.entpos
  {
    var (g, r) := ReadDir(f, k);
    if r.Success? {
      DrainCoversRest(g, k);
      var pages := Drain(f, k);
      assert pages == [r.value] + Drain(g, k);
      assert pages[1..] == Drain(g, k);
      assert f.info.ents[f.entpos..] == f.info.ents[f.entpos..g.entpos] + f.info.ents[g.entpos..];
      if |Drain(g, k)| > 0 {
        assert g.entpos < |g.info.ents|;
      }
    }
  }

  /** `io.ReadAll` on a handle, reading `chunk` bytes at a time: `io.EOF`
      ends it successfully, any other error is returned. */
  function ReadAll(f: StaticFile, chunk: nat): Result<Bytes>
    requires Valid(f) && chunk >= 1
    decreases if f.reader.Some? then |f.reader.value.data| - f.reader.value.off else 0
  {
    var (g, res) := Read(f, chunk);
    match res
    case Failure(e) => if e == EOF then Success([]) else Failure(e)
    case Success(bs) =>
      match ReadAll(g, chunk)
      case Failure(e) => Failure(e)
      case Success(rest) => Success(bs + rest)
  }

  /** Reading to the end yields what lies after the offset, whatever the
      chunk size; the listing cannot be read. */
  lemma {:induction false} ReadAllRest(f: StaticFile, chunk: nat)
    requires Valid(f) && chunk >= 1
    ensures f.reader.None? ==> ReadAll(f, chunk) == Failure(Invalid)
    ensures f.reader.Some? ==>
      ReadAll(f, chunk) == Success(f.reader.value.data[Min(f.reader.value.off, |f.reader.value.data|)..])
    decreases if f.reader.Some? then |f.reader.value.data| - f.reader.value.off else 0
  {
    if f.reader.Some? && f.reader.value.off < |f.reader.value.data| {
      var rd := f.reader.value;
      var (g, res) := Read(f, chunk);
      ReadAllRest(g, chunk);
      var n := |res.value|;
      assert g.reader.value == Reader(rd.data, rd.off + n);
      assert Min(rd.off + n, |rd.data|) == rd.off + n;
      assert ReadAll(f, chunk) == Success(res.value + rd.data[rd.off + n..]);
      assert rd.data[rd.off..] == rd.data[rd.off..rd.off + n] + rd.data[rd.off + n..];
    } else if f.reader.Some? {
      var rd := f.reader.value;
      assert Read(f, chunk).1 == Failure(EOF);
      assert rd.data[Min(rd.off, |rd.data|)..] == [];
    }
  }

  /** What the compiler gets for a path: open it, then read it all
      (`io.ReadAll` starts with a 512-byte buffer). */
  function ReadFile(a: AssetFS, path: string): Result<Bytes> {
    match Open(a, path)
    case Failure(e) => Failure(e)
    case Success(f) => ReadAll(f, 512)
  }

  /** Reading a file yields the asset's own answer for a listed name,
      `ErrNotExist` for any other name, and `ErrInvalid` for the listing. */
  lemma ReadFileIsAsset(a: AssetFS, path: string)
    ensures Clean(path) == "." ==> ReadFile(a, path) == Failure(Invalid)
    ensures Clean(path) != "." && Clean(path) in a.names ==> ReadFile(a, path) == a.asset(Clean(path))
    ensures Clean(path) != "." && Clean(path) !in a.names ==> ReadFile(a, path) == Failure(NotExist)
  {
    if Open(a, path).Success? {
      ReadAllRest(Open(a, path).value, 512);
    }
  }

  /** Listing the root: one `Readdir(-1)` returns every asset name, in
      order, as plain files; after it a paged call reports `io.EOF` and an
      unbounded one returns nothing. */
  lemma ListRoot(a: AssetFS, name: string, count: int)
    requires Clean(name) == "."
    ensures var f := Open(a, name).value;
      && ReadDir(f, -1).1.Success?
      && |ReadDir(f, -1).1.value| == |a.names|
      && (forall i :: 0 <= i < |a.names| ==>
            ReadDir(f, -1).1.value[i].basename == a.names[i] && !ReadDir(f, -1).1.value[i].dir)
      && (count > 0 ==> ReadDir(ReadDir(f, -1).0, count).1 == Failure(EOF))
      && (count <= 0 ==> ReadDir(ReadDir(f, -1).0, count).1 == Success([]))
  {
  }
}
