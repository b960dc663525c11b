/** The tag side of buildtags.go: normalising the content of a `go_tags`
    file, collecting distinct tags in discovery order (`tags` together with
    the `seentags` index), and `mergeTags`. */
module Tags {
  import opened Seqs
  import opened Strings

  /** The exact file name that marks a tag file. */
  const TagFileName: string := "go_tags"

  /** What mergeTags puts between consecutive tags. */
  const Separator: char := ' '

  /** A tag is the file content with every newline removed. */
  function Normalize(content: string): (tag: string)
    ensures '\n' !in tag
    ensures multiset(tag) == multiset(content)['\n' := 0]
  {
    RemoveAllCounts(content, '\n');
    RemoveAll(content, '\n')
  }

  /** Normalisation removes newlines piecewise: the characters that stay
      are those of the content, in their order. */
  lemma NormalizeAppend(a: string, b: string)
    ensures Normalize(a + b) == Normalize(a) + Normalize(b)
  {
    RemoveAllAppend(a, b, '\n');
  }

  /** Content without a newline is its own tag, so normalising twice is
      normalising once. */
  lemma NormalizeIdempotent(content: string)
    ensures '\n' !in content ==> Normalize(content) == content
    ensures Normalize(Normalize(content)) == Normalize(content)
  {
    if '\n' !in content {
      RemoveAllAbsent(content, '\n');
    }
    RemoveAllAbsent(Normalize(content), '\n');
  }

  /** The ordered tag list with the index of tags already seen. */
  datatype Collection = Collection(tags: seq<string>, seen: set<string>)

  /** The index mirrors the list and the list has no repetitions. */
  ghost predicate Valid(c: Collection) {
    && NoDup(c.tags)
    && forall t :: t in c.seen <==> t in c.tags
  }

  /** The state before any tag file is read. */
  const Empty: Collection := Collection([], {})

  /** Records one tag: appended at the end unless it was seen before. */
  function AddTag(c: Collection, tag: string): (c': Collection)
    ensures Valid(c) ==> Valid(c')
    ensures c.tags <= c'.tags
    ensures tag in c'.seen && c.seen <= c'.seen
    ensures |c'.tags| == if tag in c.seen then |c.tags| else |c.tags| + 1
  {
    if tag in c.seen then c
    else Collection(c.tags + [tag], c.seen + {tag})
  }

  /** Records tags one after the other. */
  function AddAll(c: Collection, tags: seq<string>): (c': Collection)
    ensures Valid(c) ==> Valid(c')
    ensures c.tags <= c'.tags
    ensures c.seen <= c'.seen
    ensures forall t :: t in tags ==> t in c'.seen
    decreases |tags|
  {
    if |tags| == 0 then c
    else
      assert tags == [tags[0]] + tags[1..];
      AddAll(AddTag(c, tags[0]), tags[1..])
  }

  /** A collection built from the tags `raw` holds their first-occurrence
      deduplication; one more tag extends it accordingly. */
  lemma AddTagExtendsDedup(c: Collection, raw: seq<string>, tag: string)
    requires Valid(c) && c.tags == Dedup(raw)
    ensures AddTag(c, tag).tags == Dedup(raw + [tag])
  {
    DedupSnoc(raw, tag);
    assert tag in c.seen <==> tag in raw;
  }

  /** Moving the head of `tags` to the end of `raw` keeps the concatenation. */
  lemma ConsSplit(raw: seq<string>, tags: seq<string>)
    requires |tags| > 0
    ensures raw + [tags[0]] + tags[1..] == raw + tags
  {
    assert tags == [tags[0]] + tags[1..];
  }

  /** Recording a batch of tags keeps the collection equal to the
      first-occurrence deduplication of everything recorded so far. */
  lemma {:induction false} AddAllExtendsDedup(c: Collection, raw: seq<string>, tags: seq<string>)
    requires Valid(c) && c.tags == Dedup(raw)
    ensures AddAll(c, tags).tags == Dedup(raw + tags)
    decreases |tags|
  {
    if |tags| == 0 {
      assert raw + tags == raw;
    } else {
      var c1 := AddTag(c, tags[0]);
      var raw1 := raw + [tags[0]];
      AddTagExtendsDedup(c, raw, tags[0]);
      AddAllExtendsDedup(c1, raw1, tags[1..]);
      ConsSplit(raw, tags);
    }
  }

  /** mergeTags: the tags joined with single spaces. */
  function MergeTags(tags: seq<string>): (merged: string)
    ensures |tags| == 0 ==> merged == ""
    ensures |tags| > 0 ==> tags[0] <= merged
    ensures |tags| > 0 ==> |merged| == TotalLength(tags) + |tags| - 1
  {
    if |tags| == 0 then "" else
      JoinShape(tags, [Separator]);
      Join(tags, [Separator])
  }

  /** No tags merge to the empty string, a single tag merges to itself. */
  lemma MergeSmall(tag: string)
    ensures MergeTags([]) == ""
    ensures MergeTags([tag]) == tag
  {
  }

  /** Merging one more tag appends exactly one space and the tag, leaving
      the earlier output untouched. */
  lemma MergeSnoc(tags: seq<string>, tag: string)
    requires |tags| > 0
    ensures MergeTags(tags + [tag]) == MergeTags(tags) + " " + tag
  {
    JoinSnoc(tags, tag, [Separator]);
  }

  /** When no tag contains a space, the merged string splits back into the
      tags; a tag with a space inside is not recoverable. */
  lemma MergeSplit(tags: seq<string>)
    requires |tags| > 0
    requires forall i :: 0 <= i < |tags| ==> Separator !in tags[i]
    ensures Split(MergeTags(tags), Separator) == tags
  {
    SplitJoin(tags, Separator);
  }

  /** The merge is a plain join: it does not reconcile tags, so two
      different collections can produce the same output. */
  lemma MergeIsNotInjective()
    ensures MergeTags(["a b"]) == MergeTags(["a", "b"])
  {
    assert Join(["b"], " ") == "b";
    assert Join(["a", "b"], " ") == "a" + " " + Join(["a", "b"][1..], " ");
    assert ["a", "b"][1..] == ["b"];
  }
}
