/** Which error an aborted walk reports. The loop of buildtags.go's `main`
    panics on the first dequeued item whose directory was not read before
    and cannot be read, so the error is fixed by the discovery stream taken
    item by item: the start item, then every queue item each read
    directory enqueues, importing file included. */
module FirstFailure {
  import opened Results
  import opened Seqs
  import opened Imports
  import opened Packages
  import opened Walk

  /** Every queue item the directories `vs`, read in this order, enqueue. */
  function FoundAll(fs: FileSystem, cfg: Config, vs: seq<string>): seq<ImportFile>
    requires AllRead(fs, cfg, vs)
  {
    if |vs| == 0 then []
    else FoundAll(fs, cfg, vs[..|vs| - 1]) + Found(fs, cfg, vs[|vs| - 1])
  }

  /** The discovery stream as queue items. */
  function ItemStream(fs: FileSystem, cfg: Config, wdir: string, vs: seq<string>): seq<ImportFile>
    requires AllRead(fs, cfg, vs)
  {
    [ImportFile(wdir, "")] + FoundAll(fs, cfg, vs)
  }

  /** Reading one more directory appends what it enqueues. */
  lemma FoundAllSnoc(fs: FileSystem, cfg: Config, vs: seq<string>, d: string)
    requires AllRead(fs, cfg, vs) && DirOk(fs, cfg, d)
    ensures AllRead(fs, cfg, vs + [d])
    ensures FoundAll(fs, cfg, vs + [d]) == FoundAll(fs, cfg, vs) + Found(fs, cfg, d)
  {
    assert (vs + [d])[..|vs|] == vs;
  }

  /** The item stream names, item by item, the directories of the
      discovery stream the walk's order is stated with. */
  lemma {:induction false} FilesFoundAll(fs: FileSystem, cfg: Config, vs: seq<string>)
    requires AllRead(fs, cfg, vs)
    ensures Files(FoundAll(fs, cfg, vs)) == DepsAll(fs, cfg, vs)
    decreases |vs|
  {
    if |vs| > 0 {
      var init := vs[..|vs| - 1];
      assert AllRead(fs, cfg, init);
      FilesFoundAll(fs, cfg, init);
      FilesAppend(FoundAll(fs, cfg, init), Found(fs, cfg, vs[|vs| - 1]));
    }
  }

  /** The walk aborts on item `k` of the item stream of `visited` with
      `err`: the directories read so far are the first occurrences among
      the items before it (so every earlier item named a directory that
      was, or had already been, read without error), its own directory was
      not read before, and reading it fails with `err`. */
  ghost predicate FailsAt(fs: FileSystem, cfg: Config, wdir: string, visited: seq<string>, k: nat, err: Error) {
    && AllRead(fs, cfg, visited)
    && k < |ItemStream(fs, cfg, wdir, visited)|
    && visited == Dedup(Files(ItemStream(fs, cfg, wdir, visited)[..k]))
    && ItemStream(fs, cfg, wdir, visited)[k].file !in visited
    && ReadPackage(fs, cfg, ItemStream(fs, cfg, wdir, visited)[k]) == Failure(err)
  }

  /** The items dequeued so far followed by the queue are the item
      stream of the directories read. */
  ghost predicate ItemInv(fs: FileSystem, cfg: Config, wdir: string, st: State, taken: seq<ImportFile>) {
    && AllRead(fs, cfg, st.visited)
    && taken + st.queue == ItemStream(fs, cfg, wdir, st.visited)
  }

  lemma ItemInvStart(fs: FileSystem, cfg: Config, wdir: string)
    ensures ItemInv(fs, cfg, wdir, Start(wdir), [])
  {
  }

  /** Dequeuing an item and, for an untouched directory, appending what
      it enqueues keeps the item stream equation. */
  lemma StepKeepsItemInv(fs: FileSystem, cfg: Config, wdir: string, st: State, taken: seq<ImportFile>)
    requires ItemInv(fs, cfg, wdir, st, taken)
    requires |st.queue| > 0 && Step(fs, cfg, st).Success?
    ensures ItemInv(fs, cfg, wdir, Step(fs, cfg, st).value, taken + [st.queue[0]])
  {
    var h := st.queue[0];
    if h.file in st.touched {
      assert st.queue == [h] + st.queue[1..];
      assert (taken + [h]) + st.queue[1..] == taken + st.queue;
    } else {
      var scan := ReadPackage(fs, cfg, h).value;
      ReadPackageOk(fs, cfg, h, scan);
      ReadKeepsItems(fs, cfg, wdir, st, taken, scan);
    }
  }

  lemma ReadKeepsItems(fs: FileSystem, cfg: Config, wdir: string, st: State, taken: seq<ImportFile>, scan: DirScan)
    requires ItemInv(fs, cfg, wdir, st, taken)
    requires |st.queue| > 0 && DirOk(fs, cfg, st.queue[0].file) && Found(fs, cfg, st.queue[0].file) == scan.found
    ensures ItemInv(fs, cfg, wdir, AfterRead(st, scan), taken + [st.queue[0]])
  {
    var vs := st.visited;
    FoundAllSnoc(fs, cfg, vs, st.queue[0].file);
    QueueShift(taken, st.queue, [ImportFile(wdir, "")], FoundAll(fs, cfg, vs), scan.found);
  }

  /** The sequence step behind ReadKeepsItems: dequeuing the head and
      appending the same items to the queue and to the stream keeps the
      equation. */
  lemma QueueShift<T>(taken: seq<T>, queue: seq<T>, start: seq<T>, before: seq<T>, found: seq<T>)
    requires |queue| > 0 && taken + queue == start + before
    ensures (taken + [queue[0]]) + (queue[1..] + found) == start + (before + found)
  {
    assert queue == [queue[0]] + queue[1..];
    assert (taken + [queue[0]]) + (queue[1..] + found) == (taken + queue) + found;
  }

  /** The directories dequeued are those of the items dequeued. */
  lemma TakenFiles(consumed: seq<string>, taken: seq<ImportFile>, h: ImportFile)
    requires consumed == Files(taken)
    ensures consumed + [h.file] == Files(taken + [h])
  {
    FilesAppend(taken, [h]);
    assert Files([h]) == [h.file];
  }

  /** An aborted iteration fails on the item the stream holds at the
      number of items dequeued so far. */
  lemma FailureIsFirst(fs: FileSystem, cfg: Config, wdir: string, st: State, consumed: seq<string>, taken: seq<ImportFile>)
    requires Inv(fs, cfg, wdir, st, consumed) && ItemInv(fs, cfg, wdir, st, taken) && consumed == Files(taken)
    requires |st.queue| > 0 && Step(fs, cfg, st).Failure?
    ensures FailsAt(fs, cfg, wdir, st.visited, |taken|, Step(fs, cfg, st).error)
  {
    var s := ItemStream(fs, cfg, wdir, st.visited);
    assert s[..|taken|] == taken;
    assert s[|taken|] == st.queue[0];
  }

  // ---------------------------------------------------------------------
  // An example: one Go file importing two missing packages

  const ExampleCfg: Config := Config("S", "p")

  /** The working directory `W` holds `x.go`, which imports `p/a` and then
      `p/b`; neither package directory exists. */
  const ExampleFs: FileSystem :=
    map["W" := [Entry("x.go", false, None, Some(ExampleLits))]]

  /** The import literals of `x.go`. */
  const ExampleLits: seq<Literal> := ["\"p/a\"", "\"p/b\""]

  /** Both literals are in the namespace `p`, so both are kept, in order. */
  lemma ExampleImports()
    ensures GetImports(ExampleLits, "p") == ["p/a", "p/b"]
  {
    var lits := ExampleLits;
    assert lits[0][..2] == "\"p" && lits[1][..2] == "\"p";
    assert Unquote(lits[0]) == "p/a" && Unquote(lits[1]) == "p/b";
    GetImportsSingle(lits[0], "p");
    GetImportsSingle(lits[1], "p");
    GetImportsAppend([lits[0]], [lits[1]], "p");
    assert lits == [lits[0]] + [lits[1]];
  }

  /** `x.go` enqueues both missing directories, imported from `W/x.go`. */
  lemma ExampleEntry()
    ensures ScanEntry(ExampleCfg, "W", ExampleFs["W"][0])
         == Success(DirScan([ImportFile("S/p/a", "W/x.go"), ImportFile("S/p/b", "W/x.go")], []))
  {
    ExampleImports();
    var e := ExampleFs["W"][0];
    assert "x.go"[1..] == ".go";
    assert IsGoFile(e) && JoinPath("W", "x.go") == "W/x.go";
    assert PkgToPath(ExampleCfg, "p/a") == "S/p/a" && PkgToPath(ExampleCfg, "p/b") == "S/p/b";
    var items := Enqueue(ExampleCfg, "W/x.go", ExampleLits);
    assert items == [ImportFile("S/p/a", "W/x.go"), ImportFile("S/p/b", "W/x.go")];
  }

  /** What `W` enqueues: both missing directories, imported from `W/x.go`. */
  lemma ExampleFound()
    ensures DirOk(ExampleFs, ExampleCfg, "W")
    ensures Found(ExampleFs, ExampleCfg, "W") == [ImportFile("S/p/a", "W/x.go"), ImportFile("S/p/b", "W/x.go")]
  {
    ExampleEntry();
    var es := ExampleFs["W"];
    assert es[..0] == [] && es == es[..0] + [es[0]];
    assert ScanEntries(ExampleCfg, "W", es[..0]) == Success(NoScan);
  }

  /** A repetition-free sequence of one repeated value has at most one
      element. */
  lemma AllSameNoDup(v: seq<string>, x: string)
    requires NoDup(v) && forall i :: 0 <= i < |v| ==> v[i] == x
    ensures |v| <= 1
  {
    NoDupCard(v);
    var vals := set y | y in v;
    if x in vals {
      assert vals == {x};
    } else {
      assert vals == {};
    }
  }

  /** Only `W` can be read without error in the example. */
  lemma ExampleReads(visited: seq<string>)
    requires AllRead(ExampleFs, ExampleCfg, visited) && NoDup(visited)
    ensures visited == [] || visited == ["W"]
  {
    assert forall i :: 0 <= i < |visited| ==> visited[i] == "W";
    AllSameNoDup(visited, "W");
    if |visited| == 1 {
      assert visited == [visited[0]];
    }
  }

  /** With nothing read yet the only item is the start, whose read
      succeeds. */
  lemma ExampleNotEmpty(k: nat, err: Error)
    ensures !FailsAt(ExampleFs, ExampleCfg, "W", [], k, err)
  {
    ExampleFound();
    assert ItemStream(ExampleFs, ExampleCfg, "W", []) == [ImportFile("W", "")];
  }

  /** With `W` read, the item stream is the start, then `p/a` and `p/b`
      from `W/x.go`. */
  lemma ExampleStream()
    ensures AllRead(ExampleFs, ExampleCfg, ["W"])
    ensures ItemStream(ExampleFs, ExampleCfg, "W", ["W"])
         == [ImportFile("W", ""), ImportFile("S/p/a", "W/x.go"), ImportFile("S/p/b", "W/x.go")]
  {
    ExampleFound();
    assert AllRead(ExampleFs, ExampleCfg, ["W"]);
    assert FoundAll(ExampleFs, ExampleCfg, ["W"]) == FoundAll(ExampleFs, ExampleCfg, []) + Found(ExampleFs, ExampleCfg, "W");
  }

  /** Of the prefixes of that stream, only the one holding just the start
      deduplicates to `["W"]`. */
  lemma ExamplePrefixes()
    ensures AllRead(ExampleFs, ExampleCfg, ["W"])
    ensures var s := ItemStream(ExampleFs, ExampleCfg, "W", ["W"]);
      && |s| == 3 && s[1] == ImportFile("S/p/a", "W/x.go")
      && Dedup(Files(s[..0])) == [] && Dedup(Files(s[..1])) == ["W"]
      && "S/p/a" in Dedup(Files(s[..2])) && "S/p/a" in Dedup(Files(s[..3]))
  {
    ExampleStream();
    var s := ItemStream(ExampleFs, ExampleCfg, "W", ["W"]);
    assert Files(s[..0]) == [];
    assert Files(s[..1]) == ["W"];
    assert Dedup(["W"]) == ["W"] by {
      assert ["W"][..0] == [];
    }
    assert Files(s[..2])[1] == "S/p/a";
    assert Files(s[..3])[1] == "S/p/a";
  }

  /** With `W` read, the stream is the start, `p/a` and `p/b`, and only
      `p/a` comes right after the items already read. */
  lemma ExampleOnlyFirst(k: nat, err: Error)
    ensures FailsAt(ExampleFs, ExampleCfg, "W", ["W"], k, err) <==> k == 1 && err == ReadDirError("S/p/a", "W/x.go")
  {
    ExamplePrefixes();
    var s := ItemStream(ExampleFs, ExampleCfg, "W", ["W"]);
    if k == 1 {
      assert "S/p/a" !in ExampleFs;
      assert ReadPackage(ExampleFs, ExampleCfg, s[1]) == Failure(ReadDirError("S/p/a", "W/x.go"));
    } else if k == 0 {
      assert Dedup(Files(s[..k])) != ["W"];
    } else if k == 2 {
      assert Dedup(Files(s[..k])) != ["W"];
    }
  }

  /** The walk of the example can only abort on `p/a`, the first missing
      import in queue order, naming `W/x.go` as the importer; the error of
      `p/b` is not allowed. */
  lemma TwoMissingImports(visited: seq<string>, k: nat, err: Error)
    ensures FailsAt(ExampleFs, ExampleCfg, "W", visited, k, err)
        <==> visited == ["W"] && k == 1 && err == ReadDirError("S/p/a", "W/x.go")
  {
    ExampleNotEmpty(k, err);
    ExampleOnlyFirst(k, err);
    if FailsAt(ExampleFs, ExampleCfg, "W", visited, k, err) {
      ExampleReads(visited);
    }
  }
}
