/** What the result of a successful walk means: every reachable package
    directory is read exactly once, starting with the working directory,
    and the tags are exactly those of the tag files found there, each once,
    in discovery order. */
module WalkFacts {
  import opened Seqs
  import opened Imports
  import opened Tags
  import opened Packages
  import opened Walk

  /** The walk starts at the working directory and reads no directory
      twice, however many imports lead to it (diamonds and cycles). */
  lemma VisitedOnce(fs: FileSystem, cfg: Config, wdir: string, visited: seq<string>)
    requires BreadthFirst(fs, cfg, wdir, visited)
    ensures NoDup(visited)
    ensures |visited| > 0 && visited[0] == wdir
  {
    DedupHead([wdir] + DepsAll(fs, cfg, visited));
  }

  /** What one read directory enqueues is part of what all of them do. */
  lemma {:induction false} DepsInDepsAll(fs: FileSystem, cfg: Config, vs: seq<string>, i: nat)
    requires AllRead(fs, cfg, vs) && i < |vs|
    ensures forall x :: x in Deps(fs, cfg, vs[i]) ==> x in DepsAll(fs, cfg, vs)
    decreases |vs|
  {
    var init := vs[..|vs| - 1];
    AllReadInit(fs, cfg, vs);
    if i < |vs| - 1 {
      DepsInDepsAll(fs, cfg, init, i);
      assert init[i] == vs[i];
    }
  }

  /** The visited directories are closed under imports. */
  lemma VisitedClosed(fs: FileSystem, cfg: Config, wdir: string, visited: seq<string>)
    requires BreadthFirst(fs, cfg, wdir, visited)
    ensures forall i, x :: 0 <= i < |visited| && x in Deps(fs, cfg, visited[i]) ==> x in visited
  {
    forall i, x | 0 <= i < |visited| && x in Deps(fs, cfg, visited[i])
      ensures x in visited
    {
      DepsInDepsAll(fs, cfg, visited, i);
      assert x in [wdir] + DepsAll(fs, cfg, visited);
    }
  }

  /** A successful walk has read every directory reachable from the start;
      so if any reachable directory cannot be listed or holds a file that
      cannot be parsed or read, the walk cannot succeed. */
  lemma ReachableAreVisited(fs: FileSystem, cfg: Config, wdir: string, visited: seq<string>, d: string)
    requires BreadthFirst(fs, cfg, wdir, visited)
    requires Reachable(fs, cfg, wdir, d)
    ensures d in visited && DirOk(fs, cfg, d)
  {
    VisitedOnce(fs, cfg, wdir, visited);
    VisitedClosed(fs, cfg, wdir, visited);
    var c :| |c| > 0 && c[0] == wdir && c[|c| - 1] == d && IsImportChain(fs, cfg, c);
    var n := 0;
    while n < |c| - 1
      invariant 0 <= n < |c|
      invariant c[n] in visited
    {
      var i :| 0 <= i < |visited| && visited[i] == c[n];
      assert c[n + 1] in Deps(fs, cfg, visited[i]);
      n := n + 1;
    }
  }

  /** The directories of a successful walk are exactly the reachable ones. */
  lemma VisitedAreExactlyReachable(fs: FileSystem, cfg: Config, wdir: string, visited: seq<string>)
    requires BreadthFirst(fs, cfg, wdir, visited) && DiscoveredEarlier(fs, cfg, visited)
    ensures forall d :: d in visited <==> Reachable(fs, cfg, wdir, d)
  {
    VisitedOnce(fs, cfg, wdir, visited);
    forall d
      ensures d in visited <==> Reachable(fs, cfg, wdir, d)
    {
      if d in visited {
        var k :| 0 <= k < |visited| && visited[k] == d;
        VisitedAreReachable(fs, cfg, wdir, visited, k);
      }
      if Reachable(fs, cfg, wdir, d) {
        ReachableAreVisited(fs, cfg, wdir, visited, d);
      }
    }
  }

  /** A readable directory enqueues, in listing order, what its entries
      contribute; so it depends on a directory exactly when one of its Go
      files imports an internal package living there. */
  lemma DepsAreImports(fs: FileSystem, cfg: Config, d: string, x: string)
    requires DirOk(fs, cfg, d)
    ensures Found(fs, cfg, d) == ListingImports(cfg, d, fs[d])
    ensures x in Deps(fs, cfg, d) <==>
      exists e, p :: e in fs[d] && IsGoFile(e) && e.imports.Some?
                     && p in GetImports(e.imports.value, cfg.basePkg) && x == PkgToPath(cfg, p)
  {
    ScanEntriesFound(cfg, d, fs[d]);
    var found := Found(fs, cfg, d);
    if x in Deps(fs, cfg, d) {
      var i :| 0 <= i < |found| && Files(found)[i] == x;
      ListingImportsMember(cfg, d, fs[d], found[i]);
      var e :| e in fs[d] && found[i] in EntryImports(cfg, d, e);
      EntryImportsMember(cfg, d, e, found[i]);
    }
    if exists e, p :: e in fs[d] && IsGoFile(e) && e.imports.Some?
                      && p in GetImports(e.imports.value, cfg.basePkg) && x == PkgToPath(cfg, p) {
      var e, p :| e in fs[d] && IsGoFile(e) && e.imports.Some?
                  && p in GetImports(e.imports.value, cfg.basePkg) && x == PkgToPath(cfg, p);
      var it := ImportFile(PkgToPath(cfg, p), JoinPath(d, e.name));
      EntryImportsMember(cfg, d, e, it);
      ListingImportsMember(cfg, d, fs[d], it);
      FilesMember(found, it);
    }
  }

  /** The tags a directory holds are the normalised contents of its tag
      files. */
  lemma DirTagsAreTagFiles(fs: FileSystem, cfg: Config, d: string)
    requires DirOk(fs, cfg, d)
    ensures forall t :: t in DirTags(fs, cfg, d) <==>
      exists e :: e in fs[d] && IsTagFile(e) && e.content.Some? && t == Normalize(e.content.value)
  {
  }

  /** Dropping the last directory keeps every remaining one readable. */
  lemma AllReadInit(fs: FileSystem, cfg: Config, vs: seq<string>)
    requires AllRead(fs, cfg, vs) && |vs| > 0
    ensures AllRead(fs, cfg, vs[..|vs| - 1])
  {
    var init := vs[..|vs| - 1];
    forall k | 0 <= k < |init|
      ensures DirOk(fs, cfg, init[k])
    {
      assert init[k] == vs[k];
    }
  }

  /** The tags of one directory read are part of the raw tag stream. */
  lemma {:induction false} TagsInTagsAll(fs: FileSystem, cfg: Config, vs: seq<string>, i: nat)
    requires AllRead(fs, cfg, vs) && i < |vs|
    ensures forall t :: t in DirTags(fs, cfg, vs[i]) ==> t in TagsAll(fs, cfg, vs)
    decreases |vs|
  {
    var init := vs[..|vs| - 1];
    AllReadInit(fs, cfg, vs);
    if i < |vs| - 1 {
      TagsInTagsAll(fs, cfg, init, i);
      assert init[i] == vs[i];
    }
  }

  /** Every tag of the raw stream comes from some directory read. */
  lemma {:induction false} TagsAllFrom(fs: FileSystem, cfg: Config, vs: seq<string>, t: string)
    requires AllRead(fs, cfg, vs) && t in TagsAll(fs, cfg, vs)
    ensures exists i :: 0 <= i < |vs| && t in DirTags(fs, cfg, vs[i])
    decreases |vs|
  {
    var init := vs[..|vs| - 1];
    var last := |vs| - 1;
    AllReadInit(fs, cfg, vs);
    var own := DirTags(fs, cfg, vs[last]);
    assert TagsAll(fs, cfg, vs) == TagsAll(fs, cfg, init) + own;
    if t in TagsAll(fs, cfg, init) {
      TagsAllFrom(fs, cfg, init, t);
      var i :| 0 <= i < |init| && t in DirTags(fs, cfg, init[i]);
      assert init[i] == vs[i];
    } else {
      assert t in own;
    }
  }

  /** The raw tag stream holds exactly the tags of the directories read. */
  lemma TagsAllMembers(fs: FileSystem, cfg: Config, vs: seq<string>)
    requires AllRead(fs, cfg, vs)
    ensures forall t :: t in TagsAll(fs, cfg, vs) <==> exists i :: 0 <= i < |vs| && t in DirTags(fs, cfg, vs[i])
  {
    forall t
      ensures t in TagsAll(fs, cfg, vs) <==> exists i :: 0 <= i < |vs| && t in DirTags(fs, cfg, vs[i])
    {
      if t in TagsAll(fs, cfg, vs) {
        TagsAllFrom(fs, cfg, vs, t);
      }
      if exists i :: 0 <= i < |vs| && t in DirTags(fs, cfg, vs[i]) {
        var i :| 0 <= i < |vs| && t in DirTags(fs, cfg, vs[i]);
        TagsInTagsAll(fs, cfg, vs, i);
      }
    }
  }

  /** The collected tags: each tag file of a read directory contributes
      its normalised content, every distinct tag appears once, and the
      order is that of first discovery. */
  lemma CollectedTags(fs: FileSystem, cfg: Config, visited: seq<string>)
    requires AllRead(fs, cfg, visited)
    ensures FirstOccurrences(TagsAll(fs, cfg, visited), Dedup(TagsAll(fs, cfg, visited)))
    ensures forall t :: t in Dedup(TagsAll(fs, cfg, visited)) <==>
      exists i, e :: 0 <= i < |visited| && e in fs[visited[i]] && IsTagFile(e) && e.content.Some?
                     && t == Normalize(e.content.value)
  {
    var raw := TagsAll(fs, cfg, visited);
    DedupIsFirstOccurrences(raw);
    TagsAllMembers(fs, cfg, visited);
    forall t
      ensures t in Dedup(raw) <==>
        exists i, e :: 0 <= i < |visited| && e in fs[visited[i]] && IsTagFile(e) && e.content.Some?
                       && t == Normalize(e.content.value)
    {
      assert t in Dedup(raw) <==> t in raw;
      if t in raw {
        var i :| 0 <= i < |visited| && t in DirTags(fs, cfg, visited[i]);
        DirTagsAreTagFiles(fs, cfg, visited[i]);
      }
      if exists i, e :: 0 <= i < |visited| && e in fs[visited[i]] && IsTagFile(e) && e.content.Some?
                        && t == Normalize(e.content.value) {
        var i, e :| 0 <= i < |visited| && e in fs[visited[i]] && IsTagFile(e) && e.content.Some?
                    && t == Normalize(e.content.value);
        DirTagsAreTagFiles(fs, cfg, visited[i]);
      }
    }
  }
}
