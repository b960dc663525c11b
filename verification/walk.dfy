/** The breadth-first walk of buildtags.go's `main`: starting from the
    working directory, read each package directory once, enqueue the
    directories of its internal imports, and collect the distinct tags in
    discovery order; the output is their merge. */
module Walk {
  import opened Results
  import opened Seqs
  import opened Tags
  import opened Packages

  /** The directories of a sequence of queue items. */
  function Files(items: seq<ImportFile>): seq<string> {
    seq(|items|, i requires 0 <= i < |items| => items[i].file)
  }

  lemma FilesAppend(a: seq<ImportFile>, b: seq<ImportFile>)
    ensures Files(a + b) == Files(a) + Files(b)
  {
  }

  lemma FilesMember(items: seq<ImportFile>, it: ImportFile)
    requires it in items
    ensures it.file in Files(items)
  {
    var i :| 0 <= i < |items| && items[i] == it;
    assert Files(items)[i] == it.file;
  }

  /** Directory `d` can be listed and none of its files fails to read. */
  predicate DirOk(fs: FileSystem, cfg: Config, d: string) {
    d in fs && ScanEntries(cfg, d, fs[d]).Success?
  }

  /** The queue items a readable directory contributes. */
  function Found(fs: FileSystem, cfg: Config, d: string): seq<ImportFile>
    requires DirOk(fs, cfg, d)
  {
    ScanEntries(cfg, d, fs[d]).value.found
  }

  /** The package directories a readable directory imports, in listing
      order, repetitions kept. */
  function Deps(fs: FileSystem, cfg: Config, d: string): seq<string>
    requires DirOk(fs, cfg, d)
  {
    Files(Found(fs, cfg, d))
  }

  /** The normalised contents of a readable directory's `go_tags`
      entries, in listing order; a real directory has at most one, since
      its entry names are distinct. */
  function DirTags(fs: FileSystem, cfg: Config, d: string): seq<string>
    requires DirOk(fs, cfg, d)
  {
    ScanEntries(cfg, d, fs[d]).value.tags
  }

  predicate AllRead(fs: FileSystem, cfg: Config, vs: seq<string>) {
    forall i :: 0 <= i < |vs| ==> DirOk(fs, cfg, vs[i])
  }

  /** Everything the directories `vs`, read in this order, enqueue. */
  function DepsAll(fs: FileSystem, cfg: Config, vs: seq<string>): seq<string>
    requires AllRead(fs, cfg, vs)
  {
    if |vs| == 0 then []
    else DepsAll(fs, cfg, vs[..|vs| - 1]) + Deps(fs, cfg, vs[|vs| - 1])
  }

  /** Every tag the directories `vs`, read in this order, hold, before
      deduplication. */
  function TagsAll(fs: FileSystem, cfg: Config, vs: seq<string>): seq<string>
    requires AllRead(fs, cfg, vs)
  {
    if |vs| == 0 then []
    else TagsAll(fs, cfg, vs[..|vs| - 1]) + DirTags(fs, cfg, vs[|vs| - 1])
  }

  lemma AllSnoc(fs: FileSystem, cfg: Config, vs: seq<string>, d: string)
    requires AllRead(fs, cfg, vs) && DirOk(fs, cfg, d)
    ensures AllRead(fs, cfg, vs + [d])
    ensures DepsAll(fs, cfg, vs + [d]) == DepsAll(fs, cfg, vs) + Deps(fs, cfg, d)
    ensures TagsAll(fs, cfg, vs + [d]) == TagsAll(fs, cfg, vs) + DirTags(fs, cfg, d)
  {
    assert (vs + [d])[..|vs|] == vs;
  }

  // ---------------------------------------------------------------------
  // Reachability along imports

  /** Each directory of `c` is readable and imports the next one. */
  ghost predicate IsImportChain(fs: FileSystem, cfg: Config, c: seq<string>) {
    forall i :: 0 <= i < |c| - 1 ==> DirOk(fs, cfg, c[i]) && c[i + 1] in Deps(fs, cfg, c[i])
  }

  /** `d` is the working directory or is imported, through readable
      directories, from it. */
  ghost predicate Reachable(fs: FileSystem, cfg: Config, wdir: string, d: string) {
    exists c :: |c| > 0 && c[0] == wdir && c[|c| - 1] == d && IsImportChain(fs, cfg, c)
  }

  /** A queue item the walk can meet: the start, or an import found in a
      reachable readable directory. */
  ghost predicate Discovered(fs: FileSystem, cfg: Config, wdir: string, it: ImportFile) {
    || it == ImportFile(wdir, "")
    || exists d :: Reachable(fs, cfg, wdir, d) && DirOk(fs, cfg, d) && it in Found(fs, cfg, d)
  }

  /** Every visited directory but the first is imported by one visited
      before it. */
  ghost predicate DiscoveredEarlier(fs: FileSystem, cfg: Config, visited: seq<string>)
    requires AllRead(fs, cfg, visited)
  {
    forall k :: 0 < k < |visited| ==> ImportedBefore(fs, cfg, visited, k)
  }

  /** The `k`-th visited directory is imported by one visited before it. */
  ghost predicate ImportedBefore(fs: FileSystem, cfg: Config, visited: seq<string>, k: nat)
    requires AllRead(fs, cfg, visited) && k < |visited|
  {
    exists j :: 0 <= j < k && visited[k] in Deps(fs, cfg, visited[j])
  }

  /** `visited` is the breadth-first order from `wdir`: every directory
      read, and the sequence equals the first occurrences in the stream of
      the start followed by everything its own directories enqueue, in the
      order they enqueue it. */
  ghost predicate BreadthFirst(fs: FileSystem, cfg: Config, wdir: string, visited: seq<string>) {
    && AllRead(fs, cfg, visited)
    && visited == Dedup([wdir] + DepsAll(fs, cfg, visited))
  }

  // ---------------------------------------------------------------------
  // The loop

  /** The variables of the loop in `main`: the queue, `touched`, `tags`
      with `seentags`, and the directories read so far in reading order. */
  datatype State = State(queue: seq<ImportFile>, touched: set<string>, visited: seq<string>, coll: Collection)

  /** The state before the first iteration. */
  function Start(wdir: string): (st: State)
    ensures Files(st.queue) == [wdir] && st.queue[0].srcFile == ""
    ensures st.touched == {} && st.visited == []
    ensures Valid(st.coll) && st.coll.tags == []
  {
    State([ImportFile(wdir, "")], {}, [], Empty)
  }

  /** The state after reading the dequeued, untouched directory. */
  function AfterRead(st: State, scan: DirScan): State
    requires |st.queue| > 0
  {
    var item := st.queue[0];
    State(st.queue[1..] + scan.found, st.touched + {item.file}, st.visited + [item.file], AddAll(st.coll, scan.tags))
  }

  /** One iteration: dequeue; skip a touched directory; otherwise mark it,
      read it, enqueue its imports and record its tag. */
  function Step(fs: FileSystem, cfg: Config, st: State): (r: Result<State, Error>)
    requires |st.queue| > 0
    ensures st.queue[0].file in st.touched ==> r == Success(st.(queue := st.queue[1..]))
    ensures r.Success? ==> r.value.touched == st.touched + {st.queue[0].file}
    ensures r.Success? ==> st.visited <= r.value.visited && st.coll.tags <= r.value.coll.tags
    ensures r.Success? && Valid(st.coll) ==> Valid(r.value.coll)
    ensures r.Success? && st.queue[0].file !in st.touched ==> st.queue[0].file in fs
    ensures r.Failure? ==> st.queue[0].file !in st.touched && ReadPackage(fs, cfg, st.queue[0]) == Failure(r.error)
  {
    var item := st.queue[0];
    var rest := st.queue[1..];
    if item.file in st.touched then Success(st.(queue := rest))
    else
      match ReadPackage(fs, cfg, item)
      case Failure(err) => Failure(err)
      case Success(scan) => Success(AfterRead(st, scan))
  }

  /** The queue is the part of the discovery stream (the start, then what
      each read directory enqueues) that has not been dequeued yet. */
  ghost predicate StreamInv(fs: FileSystem, cfg: Config, wdir: string, st: State, consumed: seq<string>) {
    && AllRead(fs, cfg, st.visited)
    && consumed + Files(st.queue) == [wdir] + DepsAll(fs, cfg, st.visited)
  }

  /** A directory is read the first time it is dequeued and never again;
      `touched` is the set of directories read. */
  ghost predicate VisitInv(st: State, consumed: seq<string>) {
    && st.visited == Dedup(consumed)
    && (forall d :: d in st.touched <==> d in st.visited)
  }

  /** `tags` and `seentags` hold the first occurrences of the tags read. */
  ghost predicate TagInv(fs: FileSystem, cfg: Config, st: State) {
    && AllRead(fs, cfg, st.visited)
    && Valid(st.coll)
    && st.coll.tags == Dedup(TagsAll(fs, cfg, st.visited))
  }

  /** Every directory read, and every pending item, traces back to the
      start through directories read earlier. */
  ghost predicate OriginInv(fs: FileSystem, cfg: Config, wdir: string, st: State) {
    && AllRead(fs, cfg, st.visited)
    && (|st.visited| > 0 ==> st.visited[0] == wdir)
    && DiscoveredEarlier(fs, cfg, st.visited)
    && (forall q :: q in st.queue ==>
          q == ImportFile(wdir, "") || exists j :: 0 <= j < |st.visited| && q in Found(fs, cfg, st.visited[j]))
  }

  /** The loop invariant; `consumed` lists the directories dequeued so far. */
  ghost predicate Inv(fs: FileSystem, cfg: Config, wdir: string, st: State, consumed: seq<string>) {
    && StreamInv(fs, cfg, wdir, st, consumed)
    && VisitInv(st, consumed)
    && TagInv(fs, cfg, st)
    && OriginInv(fs, cfg, wdir, st)
  }

  lemma InvStart(fs: FileSystem, cfg: Config, wdir: string)
    ensures Inv(fs, cfg, wdir, Start(wdir), [])
  {
    assert Files(Start(wdir).queue) == [wdir];
  }

  lemma ReadKeepsStream(fs: FileSystem, cfg: Config, wdir: string, st: State, consumed: seq<string>, scan: DirScan)
    requires StreamInv(fs, cfg, wdir, st, consumed)
    requires |st.queue| > 0 && DirOk(fs, cfg, st.queue[0].file) && Found(fs, cfg, st.queue[0].file) == scan.found
    ensures StreamInv(fs, cfg, wdir, AfterRead(st, scan), consumed + [st.queue[0].file])
  {
    var h := st.queue[0];
    var rest := st.queue[1..];
    assert st.queue == [h] + rest;
    FilesAppend([h], rest);
    FilesAppend(rest, scan.found);
    AllSnoc(fs, cfg, st.visited, h.file);
    assert Files([h]) == [h.file];
    StreamShift(consumed, h.file, Files(rest), Files(scan.found), [wdir] + DepsAll(fs, cfg, st.visited));
  }

  /** The sequence step behind ReadKeepsStream: moving the head of the
      pending part to the consumed part and appending the same values to
      both sides keeps the equation. */
  lemma StreamShift<T>(consumed: seq<T>, h: T, rest: seq<T>, found: seq<T>, stream: seq<T>)
    requires consumed + ([h] + rest) == stream
    ensures (consumed + [h]) + (rest + found) == stream + found
  {
    assert (consumed + [h]) + (rest + found) == (consumed + ([h] + rest)) + found;
  }

  lemma ReadKeepsVisit(st: State, consumed: seq<string>, scan: DirScan)
    requires VisitInv(st, consumed)
    requires |st.queue| > 0 && st.queue[0].file !in st.touched
    ensures VisitInv(AfterRead(st, scan), consumed + [st.queue[0].file])
  {
    DedupSnoc(consumed, st.queue[0].file);
  }

  lemma ReadKeepsTags(fs: FileSystem, cfg: Config, st: State, scan: DirScan)
    requires TagInv(fs, cfg, st)
    requires |st.queue| > 0 && DirOk(fs, cfg, st.queue[0].file) && DirTags(fs, cfg, st.queue[0].file) == scan.tags
    ensures TagInv(fs, cfg, AfterRead(st, scan))
  {
    var h := st.queue[0];
    AllSnoc(fs, cfg, st.visited, h.file);
    AddAllExtendsDedup(st.coll, TagsAll(fs, cfg, st.visited), scan.tags);
  }

  lemma ReadKeepsEarlier(fs: FileSystem, cfg: Config, wdir: string, st: State, scan: DirScan)
    requires OriginInv(fs, cfg, wdir, st)
    requires |st.queue| > 0 && st.queue[0].file !in st.touched
    requires |st.visited| > 0 ==> wdir in st.touched
    requires DirOk(fs, cfg, st.queue[0].file)
    ensures AllRead(fs, cfg, st.visited + [st.queue[0].file])
    ensures DiscoveredEarlier(fs, cfg, st.visited + [st.queue[0].file])
    ensures (st.visited + [st.queue[0].file])[0] == wdir
  {
    var h := st.queue[0];
    var vs := st.visited;
    var vs' := vs + [h.file];
    AllSnoc(fs, cfg, vs, h.file);
    forall k | 0 < k < |vs'|
      ensures ImportedBefore(fs, cfg, vs', k)
    {
      if k < |vs| {
        assert ImportedBefore(fs, cfg, vs, k);
        var j :| 0 <= j < k && vs[k] in Deps(fs, cfg, vs[j]);
        assert vs'[j] == vs[j] && vs'[k] == vs[k];
      } else {
        assert h in st.queue && h.file != wdir;
        var j :| 0 <= j < |vs| && h in Found(fs, cfg, vs[j]);
        FilesMember(Found(fs, cfg, vs[j]), h);
        assert vs'[j] == vs[j] && vs'[k] == h.file;
      }
    }
    assert h in st.queue;
    if |vs| == 0 {
      assert h == ImportFile(wdir, "");
    }
  }

  lemma ReadKeepsQueueOrigin(fs: FileSystem, cfg: Config, wdir: string, st: State, scan: DirScan)
    requires OriginInv(fs, cfg, wdir, st)
    requires |st.queue| > 0
    requires DirOk(fs, cfg, st.queue[0].file) && Found(fs, cfg, st.queue[0].file) == scan.found
    ensures AllRead(fs, cfg, st.visited + [st.queue[0].file])
    ensures forall q :: q in st.queue[1..] + scan.found ==>
      q == ImportFile(wdir, "") || exists j :: 0 <= j < |st.visited| + 1 && q in Found(fs, cfg, (st.visited + [st.queue[0].file])[j])
  {
    var h := st.queue[0];
    var rest := st.queue[1..];
    var vs := st.visited;
    var vs' := vs + [h.file];
    AllSnoc(fs, cfg, vs, h.file);
    forall q | q in rest + scan.found
      ensures q == ImportFile(wdir, "") || exists j :: 0 <= j < |vs'| && q in Found(fs, cfg, vs'[j])
    {
      if q in rest {
        assert q in st.queue;
        if q != ImportFile(wdir, "") {
          var j :| 0 <= j < |vs| && q in Found(fs, cfg, vs[j]);
          assert vs'[j] == vs[j];
        }
      } else {
        assert q in scan.found;
        assert vs'[|vs|] == h.file;
      }
    }
  }

  lemma ReadKeepsOrigin(fs: FileSystem, cfg: Config, wdir: string, st: State, scan: DirScan)
    requires OriginInv(fs, cfg, wdir, st)
    requires |st.queue| > 0 && st.queue[0].file !in st.touched
    requires |st.visited| > 0 ==> wdir in st.touched
    requires DirOk(fs, cfg, st.queue[0].file) && Found(fs, cfg, st.queue[0].file) == scan.found
    ensures OriginInv(fs, cfg, wdir, AfterRead(st, scan))
  {
    ReadKeepsEarlier(fs, cfg, wdir, st, scan);
    ReadKeepsQueueOrigin(fs, cfg, wdir, st, scan);
  }

  /** A directory that was read successfully is readable, and what it
      contributed is what `Found` and `DirTags` say. */
  lemma ReadPackageOk(fs: FileSystem, cfg: Config, item: ImportFile, scan: DirScan)
    requires ReadPackage(fs, cfg, item) == Success(scan)
    ensures DirOk(fs, cfg, item.file)
    ensures Found(fs, cfg, item.file) == scan.found && DirTags(fs, cfg, item.file) == scan.tags
  {
  }

  lemma SkipKeepsStream(fs: FileSystem, cfg: Config, wdir: string, st: State, consumed: seq<string>)
    requires StreamInv(fs, cfg, wdir, st, consumed) && |st.queue| > 0
    ensures StreamInv(fs, cfg, wdir, st.(queue := st.queue[1..]), consumed + [st.queue[0].file])
  {
    var h := st.queue[0];
    assert st.queue == [h] + st.queue[1..];
    FilesAppend([h], st.queue[1..]);
    assert Files([h]) == [h.file];
  }

  lemma SkipKeepsVisit(st: State, consumed: seq<string>)
    requires VisitInv(st, consumed) && |st.queue| > 0 && st.queue[0].file in st.touched
    ensures VisitInv(st.(queue := st.queue[1..]), consumed + [st.queue[0].file])
  {
    DedupSnoc(consumed, st.queue[0].file);
  }

  lemma SkipKeepsOrigin(fs: FileSystem, cfg: Config, wdir: string, st: State)
    requires OriginInv(fs, cfg, wdir, st) && |st.queue| > 0
    ensures OriginInv(fs, cfg, wdir, st.(queue := st.queue[1..]))
  {
    forall q | q in st.queue[1..]
      ensures q in st.queue
    {
    }
  }

  lemma SkipKeepsInv(fs: FileSystem, cfg: Config, wdir: string, st: State, consumed: seq<string>)
    requires Inv(fs, cfg, wdir, st, consumed)
    requires |st.queue| > 0 && st.queue[0].file in st.touched
    ensures Inv(fs, cfg, wdir, st.(queue := st.queue[1..]), consumed + [st.queue[0].file])
  {
    SkipKeepsStream(fs, cfg, wdir, st, consumed);
    SkipKeepsVisit(st, consumed);
    SkipKeepsOrigin(fs, cfg, wdir, st);
  }

  lemma ReadKeepsInv(fs: FileSystem, cfg: Config, wdir: string, st: State, consumed: seq<string>, scan: DirScan)
    requires Inv(fs, cfg, wdir, st, consumed)
    requires |st.queue| > 0 && st.queue[0].file !in st.touched
    requires DirOk(fs, cfg, st.queue[0].file)
    requires Found(fs, cfg, st.queue[0].file) == scan.found && DirTags(fs, cfg, st.queue[0].file) == scan.tags
    ensures Inv(fs, cfg, wdir, AfterRead(st, scan), consumed + [st.queue[0].file])
  {
    ReadKeepsStream(fs, cfg, wdir, st, consumed, scan);
    ReadKeepsVisit(st, consumed, scan);
    ReadKeepsTags(fs, cfg, st, scan);
    if |st.visited| > 0 {
      assert st.visited[0] == wdir;
    }
    ReadKeepsOrigin(fs, cfg, wdir, st, scan);
  }

  /** Every iteration that does not abort keeps the invariant. */
  lemma StepKeepsInv(fs: FileSystem, cfg: Config, wdir: string, st: State, consumed: seq<string>)
    requires Inv(fs, cfg, wdir, st, consumed)
    requires |st.queue| > 0 && Step(fs, cfg, st).Success?
    ensures Inv(fs, cfg, wdir, Step(fs, cfg, st).value, consumed + [st.queue[0].file])
  {
    var h := st.queue[0];
    if h.file in st.touched {
      SkipKeepsInv(fs, cfg, wdir, st, consumed);
    } else {
      var scan := ReadPackage(fs, cfg, h).value;
      ReadPackageOk(fs, cfg, h, scan);
      ReadKeepsInv(fs, cfg, wdir, st, consumed, scan);
    }
  }

  /** Every directory read traces back to the start through import chains. */
  lemma {:induction false} VisitedAreReachable(fs: FileSystem, cfg: Config, wdir: string, visited: seq<string>, k: nat)
    requires AllRead(fs, cfg, visited) && DiscoveredEarlier(fs, cfg, visited)
    requires |visited| > 0 && visited[0] == wdir
    requires k < |visited|
    ensures Reachable(fs, cfg, wdir, visited[k])
    decreases k
  {
    if k == 0 {
      assert IsImportChain(fs, cfg, [wdir]);
    } else {
      assert ImportedBefore(fs, cfg, visited, k);
      var j :| 0 <= j < k && visited[k] in Deps(fs, cfg, visited[j]);
      VisitedAreReachable(fs, cfg, wdir, visited, j);
      ReachableStep(fs, cfg, wdir, visited[j], visited[k]);
    }
  }

  /** What a reachable readable directory imports is reachable. */
  lemma ReachableStep(fs: FileSystem, cfg: Config, wdir: string, d: string, e: string)
    requires Reachable(fs, cfg, wdir, d) && DirOk(fs, cfg, d) && e in Deps(fs, cfg, d)
    ensures Reachable(fs, cfg, wdir, e)
  {
    var c :| |c| > 0 && c[0] == wdir && c[|c| - 1] == d && IsImportChain(fs, cfg, c);
    ChainSnoc(fs, cfg, c, e);
    assert (c + [e])[0] == wdir && (c + [e])[|c|] == e;
  }

  /** A chain ending in a readable directory extends by any directory it
      imports. */
  lemma ChainSnoc(fs: FileSystem, cfg: Config, c: seq<string>, d: string)
    requires |c| > 0 && IsImportChain(fs, cfg, c)
    requires DirOk(fs, cfg, c[|c| - 1]) && d in Deps(fs, cfg, c[|c| - 1])
    ensures IsImportChain(fs, cfg, c + [d])
  {
    var c' := c + [d];
    forall i | 0 <= i < |c'| - 1
      ensures DirOk(fs, cfg, c'[i]) && c'[i + 1] in Deps(fs, cfg, c'[i])
    {
      if i < |c| - 1 {
        assert c'[i] == c[i] && c'[i + 1] == c[i + 1];
      }
    }
  }

  /** When an iteration aborts, the item it failed on was met by following
      imports from the start. */
  lemma FailureIsDiscovered(fs: FileSystem, cfg: Config, wdir: string, st: State, consumed: seq<string>)
    requires Inv(fs, cfg, wdir, st, consumed)
    requires |st.queue| > 0 && Step(fs, cfg, st).Failure?
    ensures exists it :: Discovered(fs, cfg, wdir, it) && ReadPackage(fs, cfg, it) == Failure(Step(fs, cfg, st).error)
  {
    var h := st.queue[0];
    assert h in st.queue;
    if h != ImportFile(wdir, "") {
      var j :| 0 <= j < |st.visited| && h in Found(fs, cfg, st.visited[j]);
      VisitedAreReachable(fs, cfg, wdir, st.visited, j);
      assert Discovered(fs, cfg, wdir, h);
    }
  }
}
