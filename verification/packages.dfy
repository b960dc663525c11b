/** The filesystem as the walk of buildtags.go sees it, and what reading
    one package directory yields: the packages its Go files import and the
    tags its `go_tags` file holds, or the first error met. */
module Packages {
  import opened Results
  import opened Strings
  import opened Imports
  import opened Tags

  /** One item of a directory listing (`ioutil.ReadDir`), together with
      what reading it would give: `content` is what `ioutil.ReadFile`
      returns (None when the read fails) and `imports` the import path
      literals the import-only parse reports in declaration order (None on
      a parse error). */
  datatype Entry = Entry(
    name: string,
    isDir: bool,
    content: Option<string>,
    imports: Option<seq<Literal>>)

  /** Package directory to its listing; a directory missing from the map
      cannot be listed. */
  type FileSystem = map<string, seq<Entry>>

  /** The source root that internal packages live under (resolved once at
      start-up) and the organisation namespace (the `-pkgs` flag). */
  datatype Config = Config(srcDir: string, basePkg: string)

  /** Names of Go source files end with this. */
  const GoSuffix: string := ".go"

  /** filepath.Join of a directory and a name, without path cleaning: the
      directory, one separator, and the name, each recoverable. */
  function JoinPath(dir: string, name: string): (path: string)
    ensures |path| == |dir| + 1 + |name|
    ensures HasPrefix(path, dir) && path[|dir|] == '/' && path[|dir| + 1..] == name
  {
    dir + "/" + name
  }

  /** pkgToPath: the directory of an internal package under the source root. */
  function PkgToPath(cfg: Config, pkg: string): (path: string)
    ensures HasPrefix(path, cfg.srcDir + "/")
    ensures path[|cfg.srcDir| + 1..] == pkg
  {
    var path := JoinPath(cfg.srcDir, pkg);
    assert path[..|cfg.srcDir| + 1] == cfg.srcDir + "/";
    path
  }

  /** Distinct packages live in distinct directories. */
  lemma PkgToPathInjective(cfg: Config, a: string, b: string)
    ensures PkgToPath(cfg, a) == PkgToPath(cfg, b) <==> a == b
  {
    var n := |cfg.srcDir| + 1;
    assert PkgToPath(cfg, a)[n..] == a;
    assert PkgToPath(cfg, b)[n..] == b;
  }

  /** A pending directory and the Go file whose import put it in the queue
      (empty for the starting directory); the latter only names the culprit
      in an error. */
  datatype ImportFile = ImportFile(file: string, srcFile: string)

  /** Why a run aborts. */
  datatype Error =
    | ReadDirError(dir: string, importedFrom: string)
    | ParseError(path: string)
    | ReadTagsError(path: string)

  /** What reading a directory (or one entry of it) contributes: the
      imports to enqueue and the normalised tags, both in listing order. */
  datatype DirScan = DirScan(found: seq<ImportFile>, tags: seq<string>)

  const NoScan: DirScan := DirScan([], [])

  /** A regular file whose imports are read. */
  predicate IsGoFile(e: Entry) {
    !e.isDir && HasSuffix(e.name, GoSuffix)
  }

  /** A regular file whose content is a tag. */
  predicate IsTagFile(e: Entry) {
    !e.isDir && e.name == TagFileName
  }

  /** The names "go_tags" and "*.go" never overlap, so the order of the two
      tests in the source does not matter. */
  lemma TagFileIsNotGoFile(e: Entry)
    ensures !(IsGoFile(e) && IsTagFile(e))
  {
    if IsTagFile(e) {
      assert e.name[|e.name| - 3..] == "ags";
    }
  }

  /** The queue items one entry contributes: the internal imports of a Go
      file that parsed, and nothing for any other entry. */
  function EntryImports(cfg: Config, dir: string, e: Entry): seq<ImportFile> {
    if IsGoFile(e) && e.imports.Some? then Enqueue(cfg, JoinPath(dir, e.name), e.imports.value) else []
  }

  /** The queue items of a listing: each entry's contribution in listing
      order. */
  function ListingImports(cfg: Config, dir: string, es: seq<Entry>): seq<ImportFile> {
    if |es| == 0 then [] else EntryImports(cfg, dir, es[0]) + ListingImports(cfg, dir, es[1..])
  }

  /** Adding an entry at the end of a listing adds its contribution at the
      end. */
  lemma {:induction false} ListingImportsSnoc(cfg: Config, dir: string, es: seq<Entry>, e: Entry)
    ensures ListingImports(cfg, dir, es + [e]) == ListingImports(cfg, dir, es) + EntryImports(cfg, dir, e)
  {
    if |es| == 0 {
      assert ListingImports(cfg, dir, [e][1..]) == [];
    } else {
      assert (es + [e])[1..] == es[1..] + [e];
      ListingImportsSnoc(cfg, dir, es[1..], e);
    }
  }

  /** An entry enqueues an item exactly when it is a Go file that parsed
      and the item is the directory of one of its internal imports, tagged
      with the file's path. */
  lemma EntryImportsMember(cfg: Config, dir: string, e: Entry, it: ImportFile)
    ensures it in EntryImports(cfg, dir, e) <==>
      IsGoFile(e) && e.imports.Some? &&
      exists p :: p in GetImports(e.imports.value, cfg.basePkg) && it == ImportFile(PkgToPath(cfg, p), JoinPath(dir, e.name))
  {
    if IsGoFile(e) && e.imports.Some? {
      var pkgs := GetImports(e.imports.value, cfg.basePkg);
      var items := EntryImports(cfg, dir, e);
      if it in items {
        var i :| 0 <= i < |items| && items[i] == it;
        assert pkgs[i] in pkgs;
      }
      if exists p :: p in pkgs && it == ImportFile(PkgToPath(cfg, p), JoinPath(dir, e.name)) {
        var p :| p in pkgs && it == ImportFile(PkgToPath(cfg, p), JoinPath(dir, e.name));
        var i :| 0 <= i < |pkgs| && pkgs[i] == p;
        assert items[i] == it;
      }
    }
  }

  /** A listing enqueues an item exactly when one of its entries does. */
  lemma {:induction false} ListingImportsMember(cfg: Config, dir: string, es: seq<Entry>, it: ImportFile)
    ensures it in ListingImports(cfg, dir, es) <==> exists e :: e in es && it in EntryImports(cfg, dir, e)
  {
    if |es| > 0 {
      ListingImportsMember(cfg, dir, es[1..], it);
      assert forall e :: e in es <==> e == es[0] || e in es[1..];
    }
  }

  /** The queue items for the internal imports of one parsed Go file. */
  function Enqueue(cfg: Config, path: string, lits: seq<Literal>): (items: seq<ImportFile>)
    ensures |items| == |GetImports(lits, cfg.basePkg)|
    ensures forall i :: 0 <= i < |items| ==>
      items[i] == ImportFile(PkgToPath(cfg, GetImports(lits, cfg.basePkg)[i]), path)
  {
    var pkgs := GetImports(lits, cfg.basePkg);
    seq(|pkgs|, i requires 0 <= i < |pkgs| => ImportFile(PkgToPath(cfg, pkgs[i]), path))
  }

  /** The body of the loop over one directory's entries, for one entry. */
  function ScanEntry(cfg: Config, dir: string, e: Entry): (r: Result<DirScan, Error>)
    ensures r.Failure? <==> (IsGoFile(e) && e.imports.None?) || (IsTagFile(e) && e.content.None?)
    ensures r.Failure? ==> r.error == (if IsGoFile(e) then ParseError(JoinPath(dir, e.name))
                                       else ReadTagsError(JoinPath(dir, e.name)))
    ensures r.Success? && IsGoFile(e) ==> r.value.found == Enqueue(cfg, JoinPath(dir, e.name), e.imports.value)
    ensures r.Success? && !IsGoFile(e) ==> r.value.found == []
    ensures r.Success? && r.value.tags != [] ==> IsTagFile(e) && r.value.tags == [Normalize(e.content.value)]
    ensures r.Success? && IsTagFile(e) ==> r.value.tags == [Normalize(e.content.value)]
  {
    if e.isDir then Success(NoScan)
    else
      var path := JoinPath(dir, e.name);
      if HasSuffix(e.name, GoSuffix) then
        match e.imports
        case None => Failure(ParseError(path))
        case Some(lits) => Success(DirScan(Enqueue(cfg, path, lits), []))
      else if e.name == TagFileName then
        match e.content
        case None => Failure(ReadTagsError(path))
        case Some(text) => Success(DirScan([], [Normalize(text)]))
      else Success(NoScan)
  }

  /** The loop over one directory's entries: contributions concatenated in
      listing order, or the error of the first entry that fails. */
  function ScanEntries(cfg: Config, dir: string, es: seq<Entry>): (r: Result<DirScan, Error>)
    ensures r.Success? <==> forall i :: 0 <= i < |es| ==> ScanEntry(cfg, dir, es[i]).Success?
    ensures r.Failure? ==> exists i :: 0 <= i < |es| && ScanEntry(cfg, dir, es[i]) == Failure(r.error)
                                && forall j :: 0 <= j < i ==> ScanEntry(cfg, dir, es[j]).Success?
    ensures r.Success? ==> forall t :: t in r.value.tags <==>
      exists e :: e in es && IsTagFile(e) && e.content.Some? && t == Normalize(e.content.value)
    decreases |es|
  {
    if |es| == 0 then Success(NoScan)
    else
      var init := es[..|es| - 1];
      var last := es[|es| - 1];
      assert es == init + [last];
      match ScanEntries(cfg, dir, init)
      case Failure(err) => Failure(err)
      case Success(before) =>
        match ScanEntry(cfg, dir, last)
        case Failure(err) => Failure(err)
        case Success(here) =>
          Success(DirScan(before.found + here.found, before.tags + here.tags))
  }

  /** A directory whose entries all succeed enqueues each entry's
      contribution, in listing order. */
  lemma {:induction false} ScanEntriesFound(cfg: Config, dir: string, es: seq<Entry>)
    requires ScanEntries(cfg, dir, es).Success?
    ensures ScanEntries(cfg, dir, es).value.found == ListingImports(cfg, dir, es)
    decreases |es|
  {
    if |es| > 0 {
      var init := es[..|es| - 1];
      var last := es[|es| - 1];
      assert es == init + [last];
      ScanEntriesFound(cfg, dir, init);
      ListingImportsSnoc(cfg, dir, init, last);
    }
  }

  /** Reading one dequeued directory: listing it, then scanning its entries. */
  function ReadPackage(fs: FileSystem, cfg: Config, item: ImportFile): (r: Result<DirScan, Error>)
    ensures item.file !in fs <==> r == Failure(ReadDirError(item.file, item.srcFile))
    ensures item.file in fs ==> r == ScanEntries(cfg, item.file, fs[item.file])
  {
    if item.file !in fs then Failure(ReadDirError(item.file, item.srcFile))
    else ScanEntries(cfg, item.file, fs[item.file])
  }
}
