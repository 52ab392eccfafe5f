# Image version updater — a Dafny model

This project models the core of a small GitOps service. The service receives a
request `{ image, version }` and checks out a configuration repository. It
rewrites every YAML manifest whose `image:` reference names that image so that
the reference carries the new version tag. It then commits the rewritten files,
pushes them and reports what it did. All of that lives in one class,
`ImageUpdater` in `src/updater.ts`. The model follows the class's own
structure:

- `common.dfy`: `Option`, `Result`, and a thrown value (`Exception`), which is
  an `Error` with a message or anything else. `ErrorText` is the
  `'Unknown error'` fallback of the catch block.
- `text.dfy`: `join`, `split` on one character, and the decimal rendering of a
  count. The round trips the other modules rely on are proved here.
- `yaml_tree.dfy`: the document tree `js-yaml` loads and the mutator
  `updateYamlContent`.
  - The spec function is `Rewrite`.
  - The method `UpdateYamlContent` recurses and fills the new mapping in a
    `for` loop, as the source does, and is proved equal to `Rewrite`.
  - `Rewrite` is then characterised without itself, by two functions:
    - `Skeleton`: the tree with its image slots blanked.
    - `Slots`: the image strings in document order.
  - The result's slots are the input's slots, each re-tagged or kept.
  - A skeleton and its slots determine a tree. From this follow when the tree
    is unchanged, that the mutator is idempotent, and that a non-matching
    request changes nothing.
- `scanner.dfy`: `findYamlFiles`.
  - A directory tree is given as listings. A listing may fail to read, and an
    entry may fail to stat.
  - The spec function is `Scan`. The recursive method `FindYamlFiles` keeps the
    source's loop and is proved equal to `Scan`.
  - `Scan` is characterised by a reachability predicate (which paths are
    returned), by a fault predicate (when it throws), and by the absence of
    duplicates.
- `file_update.dfy`: `updateSingleYamlFile` and the loop of `updateYamlFiles`.
  This is the step from load to mutate to dump to compare to write, over an
  abstract disk. It covers the per-file catch, the recorded relative paths and
  the final content of every file.
- `updater.dfy`:
  - `updateImageVersion` and `commitAndPushChanges` as the spec functions `Run`
    and `CommitAndPush` over a repository state (working tree, commits, pushed
    count).
  - The class `ImageUpdater`, whose methods change that state step by step and
    are each proved against those functions.
  - Lemmas for each outcome, the commit message's lines, and the possibly
    empty hash.

`js-yaml` and `simple-git` are parameters:
- `YamlLibrary` holds `load` and `dump` as arbitrary functions that may fail.
- `GitEnv` holds the outcome of each git call of one request. A successful pull
  supplies the new working tree.

The file system is a `Listing` tree plus a `Disk` map from paths to text, with
a set of paths whose write fails.

Where the code and the service's stated design differ, the model follows the
code:

- The dirty check compares `dump(mutated)` with the file's raw text, not with
  `dump` of the unmutated document (src/updater.ts:132-135).
  - A file that `dump` would format differently is rewritten and reported even
    when no image matches (`FileUpdate.NonCanonicalFileRewritten`).
  - So "a no-op mutation never triggers a rewrite" holds only for files already
    in `dump`'s canonical form that use no YAML anchors or aliases
    (`FileUpdate.CanonicalNoMatchUnchanged`). The mutator copies a shared node
    at each place it occurs, so `dump` writes an aliased document back
    expanded.
- The commit hash is `logResult.latest?.hash || ''` (src/updater.ts:186). A
  successful result may carry the empty string
  (`Updater.SuccessMayCarryEmptyHash`); it is not guaranteed non-empty.
- `git add .` (src/updater.ts:176) stages the whole working tree except
  untracked files that `.gitignore` matches (`Updater.Staged`). So the commit is
  not limited to the files listed in `filesUpdated`. Conversely, the scanner
  skips only `node_modules` and `.git`, so a manifest under an ignored,
  untracked path is rewritten and listed but not committed
  (`Updater.IgnoredUpdateNotCommitted`).
- A failure after files were written reverts nothing. The rewritten files stay
  on disk, and a commit made before a failing `log` or `push` stays, unpushed
  (`Updater.RunFailsBeforeCommit`, `Updater.RunFailsAfterCommit`).
- The scan has no error handling of its own (src/updater.ts:102, :106). A
  directory that cannot be listed, or an entry that cannot be stat-ed, fails the
  whole request rather than being skipped (`Scanner.ScanFailsIff`,
  `Updater.RunScanFails`).
- The request's `image` is not checked for a tag. An image holding a colon
  never matches anything (`YamlTree.ColonImageNeverMatches`).
- A YAML timestamp loads as a JavaScript `Date`, which is a non-array object
  with no own entries, so the mutator replaces it with `{}`. `Rewrite` does the
  same, and the "unchanged" lemmas require a timestamp-free tree.

## Model

| member | source | states |
|---|---|---|
| YamlTree.BaseName | src/updater.ts:153 | the base name is a prefix of the reference, holds no colon, and is followed by a colon whenever it is shorter than the reference (the first piece of `split(':')`) |
| YamlTree.RewriteFields | src/updater.ts:149-163 | the rebuilt mapping has the same number of entries, with the same keys in the same order |
| YamlTree.RewriteItems | src/updater.ts:147 | a mapped array keeps its length |
| YamlTree.UpdateYamlContent | src/updater.ts:144-168 | the recursive mutator, with its `map` and its entry-by-entry `for` loop, returns exactly `Rewrite` of its input |
| YamlTree.RewriteItemsAt | src/updater.ts:147 | element k of the mapped array is the mutator applied to element k |
| YamlTree.RewriteFieldsAt | src/updater.ts:150-162 | entry k of the new mapping is entry k of the old one, re-tagged if it is an image slot and otherwise rewritten recursively |
| YamlTree.RetagAll | src/updater.ts:151-159 | re-tagging a list of slot strings keeps its length |
| YamlTree.RetagAllAppend | src/updater.ts:151-159 | re-tagging distributes over concatenation of slot lists |
| YamlTree.RetagAllAt | src/updater.ts:151-159 | slot k of the re-tagged list is slot k re-tagged |
| YamlTree.RewriteSlots | src/updater.ts:144-168 | the image strings of the result, in document order, are the input's image strings, each re-tagged when its base name is the target and kept otherwise |
| YamlTree.RewriteSlotsField | src/updater.ts:151-161 | the same, for one mapping entry |
| YamlTree.RewriteSlotsFields | src/updater.ts:150-163 | the same, for a mapping's entries |
| YamlTree.RewriteSlotsItems | src/updater.ts:147 | the same, for an array's items |
| YamlTree.RewriteSkeleton | src/updater.ts:144-168 | on a timestamp-free tree, the mutator changes nothing but image strings: the result's skeleton equals the input's |
| YamlTree.RewriteSkeletonFields | src/updater.ts:150-163 | the same, for a mapping's entries |
| YamlTree.RewriteSkeletonItems | src/updater.ts:147 | the same, for an array's items |
| YamlTree.RewriteTimestampFree | src/updater.ts:144-168 | the mutator's output holds no `Date` (a `Date` becomes `{}`) |
| YamlTree.RewriteTimestampFreeFields | src/updater.ts:150-163 | the same, for a mapping's entries |
| YamlTree.RewriteTimestampFreeItems | src/updater.ts:147 | the same, for an array's items |
| YamlTree.SkeletonSlotsDetermine | src/updater.ts:144-168 | two trees with equal skeletons and equal slot lists are equal |
| YamlTree.SkeletonSlotsDetermineField | src/updater.ts:150-162 | the same, for one mapping entry |
| YamlTree.SkeletonSlotsDetermineFields | src/updater.ts:150-163 | the same, for a mapping's entries |
| YamlTree.SkeletonSlotsDetermineItems | src/updater.ts:147 | the same, for an array's items |
| YamlTree.RewriteUnchangedIff | src/updater.ts:144-168 | a timestamp-free tree comes back equal to itself if and only if every image slot already equals what re-tagging makes of it |
| YamlTree.NoMatchUnchanged | src/updater.ts:151-159 | when no image slot's base name is the target, the tree comes back unchanged |
| YamlTree.ColonImageNeverMatches | src/updater.ts:153-154 | a target image containing ':' matches no reference, so the tree comes back unchanged |
| YamlTree.BaseNameTagged | src/updater.ts:153-155 | the reference written for a colon-free image has that image as its base name |
| YamlTree.RetagIdempotent | src/updater.ts:153-158 | re-tagging a reference twice gives the same result as re-tagging it once |
| YamlTree.RewriteIdempotent | src/updater.ts:144-168 | applying the mutator to its own output changes nothing, for any target image |
| YamlTree.RewriteShape | src/updater.ts:145-167 | arrays keep their length, objects keep their keys in order, scalars are returned as they are, and a `Date` becomes `{}` |
| YamlTree.Keys | src/updater.ts:150 | the key list has one key per entry |
| YamlTree.ImageEntryRule | src/updater.ts:151-159 | a lone `image` string entry is replaced by `image:version` exactly when its base name is the target, and kept otherwise |
| Text.Split | src/updater.ts:153 | `split` yields at least one piece, no piece contains the separator, and the pieces joined with the separator give the string back (so they are determined) |
| Text.JoinCons | src/updater.ts:179 | joining a part ahead of a non-empty list puts one separator between them |
| YamlTree.BaseNameIsFirstPiece | src/updater.ts:153 | the base name the mutator compares is exactly the first piece of `split(':')` |
| Text.SplitFree | src/updater.ts:179 | a line with no line break splits into itself |
| Text.SplitAtFirst | src/updater.ts:179 | splitting stops at the first separator |
| Text.SplitJoin | src/updater.ts:179 | splitting a non-empty, separator-free list of lines after joining it gives the list back |
| Text.JoinInjective | src/updater.ts:89 | distinct non-empty, separator-free lists of names join to distinct strings |
| Text.NatToStringDecimal | src/updater.ts:60 | the rendered count is a non-empty digit string with no leading zero that denotes the count |
| Scanner.FindYamlFiles | src/updater.ts:99-119 | the recursive walk with its loop over the listing returns, or throws, exactly what `Scan` does |
| Scanner.ScanEntriesErrPrefix | src/updater.ts:102-116 | once an entry throws, the whole walk throws that error (the first error wins) |
| Scanner.AppendPrefix | src/updater.ts:105 | a path lies below `dir/name` exactly when it lies below `dir` and continues with `name` |
| Scanner.ScanSelects | src/updater.ts:99-119 | when the walk succeeds, it returns exactly the paths that lead, through directories other than `node_modules` and `.git`, to a file ending in `.yaml` or `.yml` |
| Scanner.ScanEntriesSelect | src/updater.ts:104-116 | the same, for a listing's entries |
| Scanner.ScanEntrySelects | src/updater.ts:106-115 | the same, for one entry: a skipped directory contributes nothing, and a directory is never returned itself |
| Scanner.ScanFailsIff | src/updater.ts:99-119 | the walk throws if and only if some listing or `stat` it reaches fails |
| Scanner.ScanEntriesFailsIff | src/updater.ts:102-116 | the same, for a listing's entries |
| Scanner.ScanEntryFailsIff | src/updater.ts:106-112 | the same, for one entry; a skipped directory is never read |
| Scanner.ReachesShape | src/updater.ts:108-115 | a selected path ends in a manifest name and passes through no skipped directory |
| Scanner.ScanPathsAreManifests | src/updater.ts:99-119 | every returned path lies strictly below `dir`, ends in `.yaml` or `.yml`, and crosses no `node_modules` or `.git` |
| Scanner.NoDuplicatesAppend | src/updater.ts:111 | appending a subdirectory's results that are disjoint from earlier results keeps the list free of duplicates |
| Scanner.ScanNoDuplicates | src/updater.ts:99-119 | on a tree whose listings hold distinct names, no path is returned twice |
| Scanner.ScanEntriesNoDuplicates | src/updater.ts:104-116 | the same, for a listing's entries |
| Scanner.ReachesValidNames | src/updater.ts:105 | a selected path is made of names a listing can hold |
| Scanner.ScanRootWellFormed | src/updater.ts:83 | the walk from the repository root returns distinct, non-empty paths of valid names |
| Scanner.DirectoryNamedYamlIsDescended | src/updater.ts:108-115 | a directory named like a manifest is descended into and not returned; results come in listing order, depth first |
| Scanner.ScanSingleEntry | src/updater.ts:104-116 | a one-entry listing gives what its entry gives |
| Scanner.ScanEntriesSnoc | src/updater.ts:104-116 | one more entry appends its results, unless the walk has already thrown or the entry throws |
| FileUpdate.UpdateAllSpec | src/updater.ts:79-97 | with distinct paths, the loop records exactly the files whose step against the original disk rewrites them, in scan order, and leaves each file with its dumped text if it was rewritten and its original text otherwise |
| FileUpdate.SelectedMembers | src/updater.ts:85-90 | a path is selected exactly when it was scanned and its step rewrites it |
| FileUpdate.SelectedNoDuplicates | src/updater.ts:85-90 | distinct scanned paths give distinct selected paths |
| FileUpdate.UpdatedFiles | src/updater.ts:79-142 | a path is recorded if and only if it is readable, loads, dumps, differs from its raw text, and is writable; a file that throws is skipped without stopping the loop; every file ends with its dump if recorded and its original text if not |
| FileUpdate.NothingRecordedNothingWritten | src/updater.ts:85-94 | when no path is recorded, no file was written |
| FileUpdate.NonCanonicalFileRewritten | src/updater.ts:132-137 | a file whose raw text differs from `dump` of its document is rewritten even when no image matches |
| FileUpdate.CanonicalNoMatchUnchanged | src/updater.ts:132-135 | a file already in `dump`'s form with no matching image is left alone |
| FileUpdate.RelativePaths | src/updater.ts:89 | one relative path per recorded file |
| FileUpdate.RelativePathsAt | src/updater.ts:89 | the k-th relative path renders the k-th recorded file |
| FileUpdate.RelativePathsDistinct | src/updater.ts:89 | distinct files get distinct relative paths |
| Updater.Bullets | src/updater.ts:179 | one `- ` line per updated file |
| Updater.RunRejectsEmptyFields | src/updater.ts:33-38 | an empty image or version fails with the required-fields message and changes nothing, with no pull and no commit |
| Updater.RunPullFails | src/updater.ts:40-71 | a failed pull fails with `Error: ` and its message, and changes nothing |
| Updater.RunScanFails | src/updater.ts:43-70 | a scan that throws fails the request with `Error: ` and its message; the pulled tree is kept, nothing is written and no commit is made |
| Updater.RunNoMatch | src/updater.ts:46-51 | when no file is recorded, the request fails with the no-match message; no file is written and no commit is made |
| Updater.RunFailureShape | src/updater.ts:33-70 | a failed result has neither files nor a hash, and its message is the required-fields message, the no-match message, or starts with `Error: ` |
| Updater.RunSuccess | src/updater.ts:28-72 | success holds if and only if the fields are present, the pull, scan and every git step succeed, and some file was recorded; the result then lists the files, counts them, and carries git's hash; exactly one commit is added and pushed, with the message naming the files and what `git add .` stages of the updated tree |
| Updater.RunSuccessFiles | src/updater.ts:44-63 | on a well-formed checkout, a successful result lists each rewritten file exactly once; the commit holds every file that is not ignored and untracked, with its final text |
| Updater.IgnoredUpdateNotCommitted | src/updater.ts:85-90 | a rewritten manifest under an ignored, untracked path appears in `filesUpdated` but not in the commit |
| Updater.RunFailsBeforeCommit | src/updater.ts:172-182 | when setting the author, staging or committing throws after files were written, the request fails with that error; the written files stay and no commit is made |
| Updater.RunFailsAfterCommit | src/updater.ts:185-189 | when `log` or `push` throws after the commit, the request fails with that error; the files and the new commit stay, and the commit is not pushed |
| Updater.SuccessMayCarryEmptyHash | src/updater.ts:186 | when git reports no latest commit, success is returned with the empty hash |
| Updater.CommitMessageJoin | src/updater.ts:179 | the commit message is its lines joined with line breaks |
| Updater.CommitMessageLines | src/updater.ts:179 | read line by line, the message is the subject, a blank line, `Updated files:`, then one `- <file>` line per file in order |
| Updater.ImageUpdater.constructor | src/updater.ts:23-26 | the updater starts on the given checkout with no commits of its own |
| Updater.ImageUpdater.UpdateImageVersion | src/updater.ts:28-72 | running the steps on the object returns the result `Run` gives and leaves the object in the state `Run` gives |
| Updater.ImageUpdater.PullLatestChanges | src/updater.ts:74-77 | a pull either throws and changes nothing, or replaces the working tree and keeps the commits |
| Updater.ImageUpdater.UpdateYamlFiles | src/updater.ts:79-97 | a scan error is returned with nothing written; otherwise the loop returns the relative paths `UpdateAll` records and leaves the disk as `UpdateAll` does |
| Updater.ImageUpdater.UpdateSingleYamlFile | src/updater.ts:121-142 | reports whether the file was rewritten, or that it threw, and writes exactly what `FileStep` says |
| Updater.ImageUpdater.CommitAndPushChanges | src/updater.ts:170-194 | returns the hash or error `CommitAndPush` gives and leaves the commits and pushed count as it does |

## Left out

- FileUpdate.CanonicalNoMatchUnchanged: holds only for documents without YAML anchors and aliases. `load` makes an alias the same object as its anchor, but the mutator builds a fresh object or array at every node, so the sharing is lost and `dump` writes the document back expanded. The tree-shaped `Node` cannot represent that sharing.

- `src/index.ts` (the HTTP endpoints, status codes, JSON bodies) is not part of this model.
- Logging calls (`logger.info`, `logger.error`) have no effect on results; they are dropped.
- `async`/`await` is modelled as sequential steps. Concurrent requests on the shared checkout, and any lock around them, are not modelled; the source has no lock.
- `js-yaml`'s parser and printer are not modelled. `load` and `dump` are arbitrary functions that may throw, and properties that depend on them take their results as hypotheses.
- Node kinds other than objects, arrays, strings, numbers, booleans, `null`, `undefined` and `Date` are not modelled, for example binary values loaded as `Uint8Array`.
- A key named `__proto__`, which a plain object assignment treats specially, is not modelled.
- `Object.entries` lists integer-like keys first in ascending order. The model keeps a mapping's entries in whatever order the loaded tree gives them and does not reorder them.
- `simple-git` is not modelled. Each call is an outcome supplied in `GitEnv`: a pull delivers a new working tree, and the hash comes from `log`. Merges, remotes and what `commit` does when nothing is staged are outside the model.
- `process.env.GIT_USER_NAME`/`GIT_USER_EMAIL` and their defaults only configure git. They are covered by the `setUserName`/`setUserEmail` outcomes, and the author identity is not recorded.
- Real `fs` and `path` behaviour is not modelled:
  - Paths are lists of names below the repository root, and `path.relative` is their `/` join.
  - Link aliasing is not modelled. A symbolic or hard link can make two scanned paths the same file, so that the second visit reads the first visit's write and the file is normally reported once. The `Disk` map treats every path as a separate file, so both paths are recorded. Symbolic-link cycles are not modelled either.
  - `repoPath` normalisation and file encodings are not modelled.
  - A write either succeeds completely or throws with the file unchanged; partial writes are not modelled.
