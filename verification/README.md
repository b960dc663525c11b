# buildtags, modelled in Dafny

`buildtags` computes one build-tag string for a Go package and the internal
packages it depends on. It starts in the working directory and walks the
graph of internal imports breadth first, reading each package directory
once. An import is internal when its path starts with the organisation
namespace (`-pkgs`, default `htc.com/csi`). In every directory it looks at
the regular files:

- a `*.go` file contributes the directories of its internal imports to the
  queue;
- a file named exactly `go_tags` contributes its content, with every newline
  removed, as a tag. A tag is kept only the first time it is seen.

The output is the kept tags joined with single spaces. Any directory that
cannot be listed, Go file that cannot be parsed, or tag file that cannot be
read aborts the whole run, and nothing is printed.

The model is pure except for the walk loop:

- `results.dfy`: `Option` and `Result`. They stand in for Go's
  `(value, error)` pairs and for the panics.
- `seqs.dfy`: `Dedup` keeps the first occurrence of each value. The file
  also proves that `Dedup` is the only sequence listing each value once in
  order of first occurrence. Both the directory order and the tag order of
  the walk are stated with it.
- `strings.dfy`: the `strings` functions the tool uses (`HasPrefix`,
  `HasSuffix`, `Replace` of one character, `Join`). It adds `Split`, the
  inverse that `Join` is checked against.
- `imports.dfy`: `getImports` on a file that parsed.
- `tags.dfy`: tag normalisation, the `tags`/`seentags` pair, and `mergeTags`.
- `packages.dfy`: the filesystem, `pkgToPath`, and the body of the loop over
  one directory's entries.
- `walk.dfy`: one iteration of the loop of `main` (`Step`), the loop
  invariant, and the preservation proofs.
- `walk_facts.dfy`: what a walk in breadth-first order means.
- `first_failure.dfy`: which error an aborted walk reports. It works on the
  discovery stream taken item by item, importing file included, and has a
  worked example.
- `buildtags.dfy`: the loop itself (`CollectTags`) and the whole run
  (`Run`). Their contracts restate the walk's result in terms of import
  reachability and tag files.

The filesystem is a map from directory to listing. A directory that is not
in the map cannot be listed. Each entry records whether it is a directory,
what reading it returns (`None` for a read error), and which import literals
the import-only parse reports (`None` for a parse error). `pkgToPath` is the
source root, a `/`, and the import path.

The walk's result is stated without repeating the loop:

- `BreadthFirst`: the directories read, in reading order, are the first
  occurrences in the discovery stream. That stream is the working
  directory followed by everything each read directory enqueues, in
  enqueue order.
- `DiscoveredEarlier`: every directory read after the first is imported by
  one read before it.
- The tags are the first occurrences of the tags of the directories read,
  in reading order.
- On failure, the error comes from reading an item that can be reached by
  following imports from the start. More precisely, it is the error of the
  first item in queue order whose directory was not read before and cannot
  be read (`FailsAt`). Every item before it names a directory that was
  already read without error.

## Model

| member | source | states |
|---|---|---|
| `Imports.GetImports` | buildtags.go:50-57 | a path is returned exactly when some literal starts with a double quote followed by the namespace and the path is that literal without its first and last character; never more paths than literals |
| `Imports.GetImportsAppend` | buildtags.go:51-56 | the filter works literal by literal: the result for a concatenation is the concatenation of the results, so declaration order is kept |
| `Imports.QuotedRoundTrip` | buildtags.go:53-54 | stripping the quotes undoes quoting, and a quoted path passes the test exactly when the path starts with the namespace (for a namespace without quote characters) |
| `Imports.Unquote` | buildtags.go:54 | the kept path is the literal without its first and last character: two characters shorter, and the literal is rebuilt by putting them back |
| `Imports.IsInternal` | buildtags.go:53 | a literal passes exactly when it is longer than the namespace, starts with a double quote, and the namespace follows the quote |
| `Imports.GetImportsSingle` | buildtags.go:51-56 | on one literal the filter keeps its unquoted path exactly when it passes the test; with `GetImportsAppend` this fixes the result on every list |
| `Imports.PrefixIsTextual` | buildtags.go:53 | the test is a raw text prefix: `htc.com/csix/util` passes for namespace `htc.com/csi`, `fmt` is dropped, order is kept |
| `Packages.PkgToPathInjective` | buildtags.go:60-62 | two import paths map to the same directory exactly when they are equal |
| `Strings.RemoveAll` | buildtags.go:121 | the result contains no occurrence of the removed character and is no longer than the input |
| `Strings.RemoveAllAppend` | buildtags.go:121 | removal is piecewise over concatenation, so the remaining characters keep their order |
| `Strings.RemoveAllCounts` | buildtags.go:121 | every other character keeps its multiplicity; only the removed character disappears |
| `Tags.Normalize` | buildtags.go:121 | a tag has no newline, and its characters are those of the content minus the newlines, with the same multiplicities |
| `Tags.NormalizeAppend` | buildtags.go:121 | normalising a concatenation concatenates the normalised parts: characters keep their order |
| `Tags.NormalizeIdempotent` | buildtags.go:121 | newline-free content is its own tag; normalising twice equals normalising once |
| `Tags.AddTag` | buildtags.go:122-126 | recording a tag keeps `seentags` equal to the set of `tags` and `tags` free of repetitions; old entries are a prefix of the new ones; the list grows by one exactly when the tag was not seen |
| `Tags.AddTagExtendsDedup` | buildtags.go:122-126 | if `tags` is the first-occurrence deduplication of the tags read so far, it still is after one more tag |
| `Tags.AddAll` | buildtags.go:99-128 | recording a directory's tags in order keeps the collection valid, keeps old entries as a prefix, and marks every recorded tag seen |
| `Tags.AddAllExtendsDedup` | buildtags.go:99-128 | after a batch of tags the list equals the first-occurrence deduplication of everything read so far |
| `Seqs.Dedup` | buildtags.go:122-126 | the kept list has no repetitions and holds exactly the values of its input |
| `Seqs.DedupCharacterization` | buildtags.go:122-126 | a list holds each value of the input once, in order of first occurrence, exactly when it equals `Dedup` of the input |
| `Strings.JoinSnoc` | buildtags.go:66 | joining one more part appends the separator and the part, and leaves the earlier output unchanged |
| `Strings.SplitJoin` | buildtags.go:66 | splitting a join on a separator that no part contains gives back the parts |
| `Strings.JoinSplit` | buildtags.go:66 | joining the pieces of a split on the same character restores the text |
| `Tags.MergeTags` | buildtags.go:65-67 | no tags give the empty string; otherwise the output starts with the first tag and its length is the tags' total length plus one separator between each pair |
| `Strings.JoinShape` | buildtags.go:66 | a join starts with its first part and is as long as all parts plus one separator between each pair |
| `Tags.MergeSmall` | buildtags.go:65-67 | no tags merge to the empty string; one tag merges to itself |
| `Tags.MergeSnoc` | buildtags.go:65-67 | each further tag adds exactly one space and the tag at the end |
| `Tags.MergeSplit` | buildtags.go:65-67 | when no tag contains a space, the output splits back into the tag list |
| `Tags.MergeIsNotInjective` | buildtags.go:64-67 | the merge is a plain join: `["a b"]` and `["a", "b"]` give the same output |
| `Packages.TagFileIsNotGoFile` | buildtags.go:106-115 | no entry is both a Go file and the tag file, so the order of the two tests does not matter |
| `Packages.ScanEntry` | buildtags.go:99-127 | directories contribute nothing; a `*.go` file that parses enqueues exactly the items of its internal imports, tagged with its path, and any other entry enqueues nothing; only `go_tags` gives a tag (its normalised content); the entry fails exactly when a Go file does not parse or the tag file cannot be read, with the matching error and path |
| `Packages.ScanEntries` | buildtags.go:99-128 | a directory's entries succeed exactly when each one does; otherwise the error is that of the first failing entry in listing order; the tags are exactly the normalised contents of its tag files |
| `Packages.ScanEntriesFound` | buildtags.go:99-114 | when a directory's entries succeed, the items it enqueues are each entry's contribution, concatenated in listing order |
| `Packages.ListingImportsSnoc` | buildtags.go:99-114 | one more entry at the end of a listing adds its contribution at the end of the queue items |
| `Packages.ListingImportsMember` | buildtags.go:99-114 | a listing enqueues an item exactly when one of its entries does |
| `Packages.EntryImportsMember` | buildtags.go:104-114 | an entry enqueues an item exactly when it is a Go file that parsed and the item is the directory of one of its internal imports, with the file's joined path as the importer |
| `Packages.Enqueue` | buildtags.go:112-114 | one item per kept import path, in the order `getImports` returns them: the package's directory, and the importing file as the source |
| `Packages.PkgToPath` | buildtags.go:60-62 | the directory is the source root, a separator, and then the import path unchanged |
| `Packages.JoinPath` | buildtags.go:105 | the joined path is the directory, one separator and the name, and each part can be read back |
| `WalkFacts.DepsAreImports` | buildtags.go:99-114 | a readable directory enqueues its entries' contributions in listing order, so it depends on a directory exactly when one of its Go files has an internal import whose package lives there |
| `Packages.ReadPackage` | buildtags.go:94-128 | a directory missing from the filesystem fails with a listing error that names it and the importing file, and no other case gives that error; otherwise the result, success or the first entry's error, is that of scanning its listing |
| `Walk.Start` | buildtags.go:82-85 | before the loop the queue holds only the working directory, with no importer; nothing is touched or read and no tag is recorded |
| `Walk.InvStart` | buildtags.go:82-85 | the loop invariant holds before the first iteration |
| `Walk.Step` | buildtags.go:86-128 | an already touched directory is dropped with no other effect; `touched` grows only by the dequeued directory; earlier visits and tags are kept as prefixes; a directory is marked read only if it can be listed; an abort happens only on an untouched directory whose read fails |
| `Walk.StepKeepsInv` | buildtags.go:82-129 | every completed iteration keeps the invariant: the queue is the unconsumed discovery stream, reads are first occurrences, `touched` mirrors the read directories, tags are first occurrences, and each read has an earlier importer |
| `Walk.VisitedAreReachable` | buildtags.go:85-114 | every directory read is reached from the working directory through a chain of imports between readable directories |
| `Walk.FailureIsDiscovered` | buildtags.go:94-120 | an aborted iteration failed on the start item or on an import found in a reachable directory |
| `BuildTags.StepProgress` | buildtags.go:86-128 | each iteration either reads a directory of the filesystem that was not read before, or leaves `touched` unchanged and shortens the queue, so the loop terminates on every filesystem, including import cycles |
| `BuildTags.CollectTags` | buildtags.go:82-129 | on success: the directories are read in breadth-first discovery order, each once, starting with the working directory; they are exactly the directories reachable by imports, and all of them can be read; the tags are the normalised contents of their tag files, each distinct tag once, in order of first discovery. On failure: the error is that of reading an item discovered from the start, and it is the first item of the item stream whose directory is new and whose read fails, with the directories read so far being the first occurrences before it |
| `BuildTags.Run` | buildtags.go:82-130 | the output is the merge of the first-occurrence tags of a breadth-first walk that reads exactly the reachable directories; otherwise the error is that of the first item in queue order whose new directory cannot be read |
| `FirstFailure.FilesFoundAll` | buildtags.go:112-114 | the directories of the item stream are the discovery stream that the reading order is stated with |
| `FirstFailure.StepKeepsItemInv` | buildtags.go:86-114 | each completed iteration keeps the items dequeued, followed by the queue, equal to the item stream of the directories read |
| `FirstFailure.FailureIsFirst` | buildtags.go:86-120 | an aborted iteration fails on the item at the position of the number of items dequeued so far; the directories read are the first occurrences before it, and its own directory is new |
| `FirstFailure.ExampleImports` | buildtags.go:50-57 | with namespace `p`, the literals `"p/a"` and `"p/b"` are both kept, in order |
| `FirstFailure.TwoMissingImports` | buildtags.go:94-97 | in the case where `W/x.go` imports the missing `p/a` and then the missing `p/b`, the only abort allowed is on `p/a`, naming `W/x.go` as the importer, after reading only `W` |
| `WalkFacts.VisitedOnce` | buildtags.go:85-93 | the walk reads the working directory first and no directory twice, however many imports lead to it |
| `WalkFacts.VisitedClosed` | buildtags.go:108-114 | every import of a read directory is itself read |
| `WalkFacts.ReachableAreVisited` | buildtags.go:94-120 | after a successful walk every reachable directory has been read and was readable, so one unreadable reachable directory makes the run fail |
| `WalkFacts.VisitedAreExactlyReachable` | buildtags.go:85-114 | the directories read are exactly those reachable from the working directory |
| `WalkFacts.TagsAllMembers` | buildtags.go:115-126 | the raw tag stream holds exactly the tags of the directories read |
| `Seqs.DedupHead` | buildtags.go:85-93 | deduplication keeps the first value first, so the working directory, which starts the queue, is read first |
| `Strings.RemoveAllAbsent` | buildtags.go:121 | removing a character that does not occur changes nothing |
| `Walk.ReachableStep` | buildtags.go:108-114 | whatever a reachable, readable directory imports is reachable too |
| `WalkFacts.DepsInDepsAll` | buildtags.go:108-114 | everything one read directory enqueues is part of the discovery stream |
| `WalkFacts.TagsAllFrom` | buildtags.go:115-126 | every tag in the raw tag stream comes from some directory that was read |
| `WalkFacts.CollectedTags` | buildtags.go:115-126 | the collected tags are each tag file's normalised content, each distinct tag once, in order of first discovery |

## Left out

- `init` (buildtags.go:26-39): finding the source root through GOPATH and
  `os.Stat` is environment I/O. The source root is a field of `Config`.
- Flag parsing, `filepath.Abs` and the directory check of the working
  directory (buildtags.go:70-81) are configuration I/O. The start directory
  is an input.
- `parser.ParseFile` with `ImportsOnly` (buildtags.go:45) is a foreign
  parser. Each entry carries the literals it would report, or `None` for a
  parse error.
- The parser always reports import paths as quoted literals, so `Literal`
  is a string of at least two characters. The slice `v[1:len(v)-1]` on a
  one-character literal, which would panic, cannot occur and is not modelled.
- `ioutil.ReadDir` and `ioutil.ReadFile` (buildtags.go:94, 117) are lookups
  in the filesystem map. The listing order is taken as given; the
  name-sorting that `ReadDir` does is not imposed.
- Panic messages, `fmt.Sprintf` and `fmt.Print` (buildtags.go:96, 110, 119,
  130): an abort is an `Error` value that keeps the paths the message would
  name, and the output is the returned string.
- `filepath.Join` cleaning (`..`, duplicate separators) is not modelled.
  Paths are joined with one `/`. As a result, two spellings of one directory
  count as two directories.
- In the source, enqueueing and tag recording interleave entry by entry. The
  model computes one directory's imports and tags first, then enqueues all
  the imports and records all the tags. The result is the same, because the
  queue and the tags do not depend on each other and an error discards
  both.
- Go maps that only ever store `true` (`touched`, `seentags`) are sets.
- The model also returns the directories read, in reading order. The source
  keeps only the set, but the contracts need the order.
- BuildTags.CollectTags: the contract states breadth-first order through the
  discovery-stream equation. It does not state the queue discipline
  separately.
