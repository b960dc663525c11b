/** The program of buildtags.go as a whole: the walk of `main`, and the run
    that merges what the walk collected. The contracts state what a run
    means in terms of import reachability and tag files alone. */
module BuildTags {
  import opened Results
  import opened Seqs
  import opened Tags
  import opened Packages
  import opened Walk
  import opened WalkFacts
  import opened FirstFailure

  /** What a successful walk returns: the directories in reading order and
      the distinct tags in discovery order. */
  datatype Walked = Walked(visited: seq<string>, tags: seq<string>)

  /** Every reachable directory was read, each once, starting at `wdir`,
      and every one of them can be listed and read without error. */
  ghost predicate ReadsExactlyReachable(fs: FileSystem, cfg: Config, wdir: string, visited: seq<string>) {
    && NoDup(visited)
    && |visited| > 0 && visited[0] == wdir
    && (forall d :: d in visited <==> Reachable(fs, cfg, wdir, d))
    && (forall d :: Reachable(fs, cfg, wdir, d) ==> DirOk(fs, cfg, d))
  }

  /** `tags` holds the normalised content of every tag file of the
      directories read, each distinct tag once, in order of first
      discovery. */
  ghost predicate TagsOfTagFiles(fs: FileSystem, cfg: Config, visited: seq<string>, tags: seq<string>)
    requires AllRead(fs, cfg, visited)
  {
    && FirstOccurrences(TagsAll(fs, cfg, visited), tags)
    && (forall t :: t in tags <==>
          exists i, e :: 0 <= i < |visited| && e in fs[visited[i]] && IsTagFile(e) && e.content.Some?
                         && t == Normalize(e.content.value))
  }

  /** The breadth-first order of a walk implies what it means. */
  lemma WalkMeaning(fs: FileSystem, cfg: Config, wdir: string, visited: seq<string>)
    requires BreadthFirst(fs, cfg, wdir, visited) && DiscoveredEarlier(fs, cfg, visited)
    ensures ReadsExactlyReachable(fs, cfg, wdir, visited)
    ensures TagsOfTagFiles(fs, cfg, visited, Dedup(TagsAll(fs, cfg, visited)))
  {
    VisitedOnce(fs, cfg, wdir, visited);
    VisitedAreExactlyReachable(fs, cfg, wdir, visited);
    forall d | Reachable(fs, cfg, wdir, d)
      ensures DirOk(fs, cfg, d)
    {
      ReachableAreVisited(fs, cfg, wdir, visited, d);
    }
    CollectedTags(fs, cfg, visited);
  }

  /** Each iteration that does not abort either reads a directory of the
      filesystem not read before, or leaves `touched` alone and shortens
      the queue. */
  lemma StepProgress(fs: FileSystem, cfg: Config, st: State)
    requires |st.queue| > 0 && Step(fs, cfg, st).Success?
    ensures var st' := Step(fs, cfg, st).value;
            || fs.Keys - st'.touched < fs.Keys - st.touched
            || (fs.Keys - st'.touched == fs.Keys - st.touched && |st'.queue| < |st.queue|)
  {
  }

  /** Once the queue is empty the invariant gives the walk's result. */
  lemma FinishedWalk(fs: FileSystem, cfg: Config, wdir: string, st: State, consumed: seq<string>)
    requires Inv(fs, cfg, wdir, st, consumed) && |st.queue| == 0
    ensures BreadthFirst(fs, cfg, wdir, st.visited) && DiscoveredEarlier(fs, cfg, st.visited)
    ensures st.coll.tags == Dedup(TagsAll(fs, cfg, st.visited))
  {
    assert Files(st.queue) == [];
    assert consumed == [wdir] + DepsAll(fs, cfg, st.visited);
  }

  /** The loop of `main` up to the merge. It terminates on every
      filesystem: each iteration reads a new directory of the filesystem or
      shortens the queue. */
  method CollectTags(fs: FileSystem, cfg: Config, wdir: string) returns (r: Result<Walked, Error>)
    ensures r.Success? ==> BreadthFirst(fs, cfg, wdir, r.value.visited) && DiscoveredEarlier(fs, cfg, r.value.visited)
    ensures r.Success? ==> r.value.tags == Dedup(TagsAll(fs, cfg, r.value.visited))
    ensures r.Success? ==> ReadsExactlyReachable(fs, cfg, wdir, r.value.visited)
    ensures r.Success? ==> TagsOfTagFiles(fs, cfg, r.value.visited, r.value.tags)
    ensures r.Failure? ==> exists it :: Discovered(fs, cfg, wdir, it) && ReadPackage(fs, cfg, it) == Failure(r.error)
    ensures r.Failure? ==> exists visited, k :: FailsAt(fs, cfg, wdir, visited, k, r.error)
  {
    var st := Start(wdir);
    ghost var consumed: seq<string> := [];
    ghost var taken: seq<ImportFile> := [];
    InvStart(fs, cfg, wdir);
    ItemInvStart(fs, cfg, wdir);
    while |st.queue| > 0
      invariant Inv(fs, cfg, wdir, st, consumed)
      invariant ItemInv(fs, cfg, wdir, st, taken) && consumed == Files(taken)
      decreases fs.Keys - st.touched, |st.queue|
    {
      var next := Step(fs, cfg, st);
      if next.Failure? {
        FailureIsDiscovered(fs, cfg, wdir, st, consumed);
        FailureIsFirst(fs, cfg, wdir, st, consumed, taken);
        return Failure(next.error);
      }
      StepKeepsInv(fs, cfg, wdir, st, consumed);
      StepKeepsItemInv(fs, cfg, wdir, st, taken);
      StepProgress(fs, cfg, st);
      TakenFiles(consumed, taken, st.queue[0]);
      consumed := consumed + [st.queue[0].file];
      taken := taken + [st.queue[0]];
      st := next.value;
    }
    FinishedWalk(fs, cfg, wdir, st, consumed);
    WalkMeaning(fs, cfg, wdir, st.visited);
    return Success(Walked(st.visited, st.coll.tags));
  }

  /** The whole run: the walk, then mergeTags of the collected tags. */
  method Run(fs: FileSystem, cfg: Config, wdir: string) returns (r: Result<string, Error>)
    ensures r.Success? ==> exists visited :: BreadthFirst(fs, cfg, wdir, visited)
                                          && ReadsExactlyReachable(fs, cfg, wdir, visited)
                                          && r.value == MergeTags(Dedup(TagsAll(fs, cfg, visited)))
    ensures r.Failure? ==> exists it :: Discovered(fs, cfg, wdir, it) && ReadPackage(fs, cfg, it) == Failure(r.error)
    ensures r.Failure? ==> exists visited, k :: FailsAt(fs, cfg, wdir, visited, k, r.error)
  {
    var walked := CollectTags(fs, cfg, wdir);
    match walked
    case Failure(err) =>
      r := Failure(err);
    case Success(w) =>
      r := Success(MergeTags(w.tags));
      assert BreadthFirst(fs, cfg, wdir, w.visited) && ReadsExactlyReachable(fs, cfg, wdir, w.visited);
  }
}
