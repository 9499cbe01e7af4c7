# Split and merge builds in goreleaser, and the `continue` command

This project models four pieces of goreleaser's release pipeline and proves what each one guarantees.

- **The build-target filter.** In a split or partial build, the build stage keeps only the first target that starts with the match string. The match string is the split target when split mode is on, otherwise the partial target. Outside split and partial mode, every target is kept.
- **The split stages.**
  - `split` picks the target OS: the first non-empty value among `GGOOS`, `GOOS` and the runtime OS.
  - It then narrows the output directory (`dist`) to `<dist>/<target>`.
  - `split-artifacts` rewrites every registered artifact path, in order, to be relative to the narrowed directory.
  - At the first path that cannot be made relative, the visit stops. That artifact is left with the empty path, and the error is returned.
- **The merge stage.**
  - It lists `dist` in name order and ignores entries that are not directories.
  - For every partition directory, it reads and decodes `artifacts.json`.
  - It skips Metadata entries.
  - Every other entry is registered at its path joined onto `dist`. Then the entry's parent directory is created, and its file is renamed from the partition into `dist`.
  - Finally the partition directory is removed.
  - The first error stops the stage.
- **The `continue` command.**
  - `setupContinueContext` copies the flags into the context. The parallelism flag falls back to the processor count. A dirty tree under `--auto-snapshot` implies `--snapshot`.
  - It then adds the requested skips. A snapshot implies skipping publish, announce and validate, and skipping publish implies skipping announce.
  - `continueProject` loads the configuration and sets up the context. It then runs the stages strictly in order, skipping the ones that skip, and returns the first error.

Paths are modelled as cleaned paths: an absolute flag, a count of leading `..` elements, and the names. `filepath.Join`, `Dir` and `Rel` are modelled on these, and `Join` is proved equal to `Clean` applied element by element.

The filesystem is a datatype: regular files by path, plus a set of directories. A `FileSystem` class holds this state, and its `ReadDir`, `ReadFile`, `MkdirAll`, `Rename` and `RemoveAll` methods are each proved equal to a function on the datatype.

The context is a class. Its fields are the ones these stages read and write:
- `dist` stands for `Config.Dist`.
- `draft` stands for `Config.Release.Draft`.
- `artifacts` is the registry, in insertion order.
- `skips` is the set of skipped stage names.

The methods that change the context follow the source step by step. Each is proved equal to a specification function. The guarantees are proved as lemmas about those functions:
- the merge stage succeeds on the layout a split build leaves;
- it registers exactly the non-Metadata entries, in listing and manifest order;
- it moves every file with its content;
- it leaves nothing beneath any partition;
- it changes nothing else.

## Model

| member | source | states |
|---|---|---|
| Build.Filter | internal/pipe/build/filter.go:11-35 | Outside split and partial mode the targets come back unchanged. Otherwise the match string is the split target when split is on (even with partial on), else the partial target. The result has at most one element. It is empty exactly when no target has the match string as a prefix. Its element is a target with that prefix, and no earlier target has it. |
| Build.FilterFirstMatchExample | internal/pipe/build/filter.go:26-33 | With split target "darwin", of two darwin targets the first in input order is chosen. |
| Split.PipesIdentity | internal/pipe/split/split.go:16-33 | The two stages are named "split" and "split-artifacts", and both skip exactly when split mode is off. |
| Split.First | internal/pipe/split/split.go:26 | `ordered.First` is "" exactly when every value is empty. Otherwise it is a value with only empty values before it. |
| Split.GetFilterPrecedence | internal/pipe/split/split.go:25-28 | GGOOS wins when set. Otherwise GOOS wins when set. Otherwise the runtime OS is used. |
| Split.GetFilter | internal/pipe/split/split.go:25-28 | The target is the value of GGOOS, of GOOS or the runtime OS, and it is empty only when the runtime OS is. |
| Split.RunSplit | internal/pipe/split/split.go:19-23 | Never fails, records the resolved target, and replaces dist by dist joined with the target. |
| Split.SplitDistIsChild | internal/pipe/split/split.go:21 | For a plain OS name the new dist is the old one with that one name added. |
| Split.Relativize | internal/pipe/split/split.go:36-41 | The visit keeps the registry's length. |
| Split.RelativizeKeepsFields | internal/pipe/split/split.go:36-41 | Only paths change. Name, OS, arch, ARM variant, type, type name, extra fields and registry order all stay. |
| Split.RelativizePass | internal/pipe/split/split.go:36-41 | The visit succeeds exactly when every path can be made relative to dist, and then each path becomes its `Rel`. |
| Split.RelativizeFail | internal/pipe/split/split.go:36-41 | Let the first path `Rel` refuses be at index i. The visit returns that error. Earlier paths are rewritten, artifact i gets the empty path, and later artifacts are untouched. |
| Split.RelativizeUnderDist | internal/pipe/split/split.go:38 | When dist is a segment prefix of every path, the visit succeeds and each path becomes the rest after dist, with no "..". |
| Split.RelativizeJoin | internal/pipe/split/split.go:38 | After a successful visit, joining dist back onto each new path gives the old path. |
| Split.VisitRelativize | internal/pipe/split/split.go:36-41 | The in-order loop over the registry computes exactly the visit's result and error. |
| Split.RunArtifacts | internal/pipe/split/split.go:35-42 | The new registry and the returned error are exactly the visit of the old registry against dist. |
| Paths.Join | internal/pipe/merge/merge.go:43-44 | The result is absolute exactly when the first path is, and joining two cleaned paths gives a cleaned path. |
| Paths.JoinString | internal/pipe/split/split.go:21 | Joining a string keeps the path absolute or relative, and a cleaned path stays cleaned. |
| Paths.Rel | internal/pipe/split/split.go:38 | A result is always relative, and it is cleaned when the target is. |
| Paths.Dir | internal/pipe/merge/merge.go:47 | The parent of a path with names lies strictly above it and has one name fewer. The parent of a cleaned path is cleaned. |
| Paths.JoinIsClean | internal/pipe/merge/merge.go:43-44 | Joining two cleaned paths equals Clean applied element by element to the concatenation. |
| Paths.JoinStringName | internal/pipe/split/split.go:21 | Joining a plain name appends it. Joining "" leaves the path as it is. |
| Paths.RelFails | internal/pipe/split/split.go:38 | `Rel` fails exactly when one path is absolute and the other is not, or when base has more leading ".." than the target. A result is never absolute. |
| Paths.RelJoin | internal/pipe/split/split.go:38 | Joining base with `Rel(base, targ)` gives `targ` back. |
| Paths.RelOfPrefix | internal/pipe/split/split.go:38 | When base is a segment prefix of the target, `Rel` is the rest of the target. |
| Paths.RelDownward | internal/pipe/split/split.go:38 | `Rel` succeeds without climbing ".." exactly when base is a segment prefix of the target. |
| Paths.DirJoin | internal/pipe/merge/merge.go:47 | `Dir` drops the last name, and joining that name back gives the path. |
| Strings.SortedList | internal/pipe/merge/merge.go:18 | The listing order: strictly increasing byte-wise, holding exactly the elements of the set. |
| Strings.Sort | internal/pipe/merge/merge.go:18 | The sort computes exactly the sorted listing of the set. |
| Files.Fs.ReadDir | internal/pipe/merge/merge.go:18 | Listing succeeds exactly on an existing directory. It then has one entry per child name, and every entry names a child. |
| Files.Fs.ReadFile | internal/pipe/merge/merge.go:29 | Reading succeeds exactly on a regular file. A failure is is-a-directory exactly when the path is a directory, and not-found otherwise. |
| Files.Fs.MkdirAll | internal/pipe/merge/merge.go:47 | After a success the path is a directory. The files are unchanged and no directory is lost. |
| Files.Fs.Rename | internal/pipe/merge/merge.go:51 | After a success the source was a regular file and the destination holds its content. The source is gone unless it is the destination, and the directories are unchanged. |
| Files.Fs.RemoveAll | internal/pipe/merge/merge.go:56 | Succeeds exactly when the path has names. Afterwards nothing remains at or beneath the path. |
| Files.MkdirAllWellformed | internal/pipe/merge/merge.go:47 | Creating directories keeps the tree well formed: no path is both a file and a directory, and the parent of every entry is a directory. |
| Files.RenameWellformed | internal/pipe/merge/merge.go:51 | Moving a file keeps the tree well formed. |
| Files.RemoveAllWellformed | internal/pipe/merge/merge.go:56 | Removing a subtree keeps the tree well formed. |
| Files.ChildrenOf | internal/pipe/merge/merge.go:18 | A name is listed exactly when the path one name below the directory exists. |
| Files.ReadDirListing | internal/pipe/merge/merge.go:18-25 | A listing names every entry exactly once, in strictly increasing order, and flags exactly the directories. |
| Files.FileSystem.ReadDir | internal/pipe/merge/merge.go:18 | Returns exactly the listing function's result: not-a-directory for a file, not-found for a missing path, else the sorted entries. |
| Files.FileSystem.MkdirAll | internal/pipe/merge/merge.go:47 | Fails with not-a-directory, changing nothing, when the path or a parent is a regular file. Otherwise it adds the path and all its parents as directories. |
| Files.FileSystem.Rename | internal/pipe/merge/merge.go:51 | Moves a regular file, replacing a file at the destination. It fails, changing nothing, on a missing source, a directory destination, or a missing or non-directory parent. |
| Files.FileSystem.RemoveAll | internal/pipe/merge/merge.go:56 | Removes the path and everything beneath it. A missing path is not an error. A path with no names at all is invalid. |
| Merge.PipeIdentity | internal/pipe/merge/merge.go:14-15 | The stage is named "merge" and skips exactly when merge mode is off. |
| Merge.Decode | internal/pipe/merge/merge.go:33-37 | Decoding succeeds exactly on a manifest and gives back the list it holds. Anything else is the malformed-JSON error. |
| Merge.MergePartition | internal/pipe/merge/merge.go:26-59 | When merging one partition succeeds, nothing remains at or beneath its directory. |
| Merge.MergeAll | internal/pipe/merge/merge.go:17-63 | The stage succeeds only when dist is an existing directory. |
| Merge.RunPartition | internal/pipe/merge/merge.go:26-59 | The returned error, the filesystem and the registry are exactly the partition function's: manifest read, decode, relocation loop, then removal. |
| Merge.Run | internal/pipe/merge/merge.go:17-63 | The returned error, the filesystem and the registry are exactly the stage function's over the listing of dist. |
| MergeFacts.Expected | internal/pipe/merge/merge.go:39-46 | A manifest contributes at most one entry per artifact, and never a Metadata one. |
| MergeFacts.MoveStep | internal/pipe/merge/merge.go:47-54 | For a move whose source is a file and whose destination is unblocked, `MkdirAll` and `Rename` both succeed. Moves apart from it stay ready. |
| MergeFacts.RelocateReady | internal/pipe/merge/merge.go:39-55 | With every move ready and apart, the relocation loop succeeds. It performs every move and registers the manifest's non-Metadata entries at their paths joined onto dist, in manifest order. |
| MergeFacts.MovedAllFrame | internal/pipe/merge/merge.go:47-54 | Moves change files only at their sources and destinations, and directories only above their destinations. |
| MergeFacts.MovedAllContent | internal/pipe/merge/merge.go:51-54 | After moves that are apart, every destination holds what its source held. |
| MergeFacts.PartitionStep | internal/pipe/merge/merge.go:26-59 | A ready partition merges without error. Its entries are registered, each destination holds its source's content, nothing is left beneath the partition, and nothing else changes. |
| MergeFacts.ReadyAfterPartition | internal/pipe/merge/merge.go:22-60 | Merging one partition leaves every later partition ready. |
| MergeFacts.ItemsReady | internal/pipe/merge/merge.go:22-60 | The loop over the listing merges ready partitions in listing order, with every effect of the whole-stage theorem. |
| MergeFacts.MergeSucceeds | internal/pipe/merge/merge.go:17-63 | On the layout a split build leaves, the stage succeeds. The registry gains exactly the non-Metadata entries at their paths joined onto dist, partitions in listing order and entries in manifest order. Every destination holds its source's content, nothing remains beneath any partition, and every other path is as it was. |
| MergeFacts.MissingDist | internal/pipe/merge/merge.go:18-21 | A missing dist fails with not-found, and neither the filesystem nor the registry changes. |
| MergeFacts.MissingManifest | internal/pipe/merge/merge.go:28-32 | A partition without `artifacts.json` fails with not-found, changing nothing. |
| MergeFacts.IgnoresFiles | internal/pipe/merge/merge.go:22-25 | Non-directory entries of dist make no difference to the stage. |
| MergeFacts.RelocateRegisters | internal/pipe/merge/merge.go:39-55 | The relocation loop registers a prefix of the manifest's non-Metadata entries, in order, and all of them when it succeeds. |
| MergeFacts.RelocateGrows | internal/pipe/merge/merge.go:39-55 | Whatever its error, the relocation loop only appends to the registry, and never a Metadata entry. |
| MergeFacts.MergeItemsGrows | internal/pipe/merge/merge.go:22-60 | Whatever its error, the loop over the listing only appends to the registry, and never a Metadata entry. |
| MergeFacts.MergeGrows | internal/pipe/merge/merge.go:17-63 | The stage only appends to the registry, whatever its error, and never appends a Metadata entry. |
| MergeFacts.MissingSourceRegistered | internal/pipe/merge/merge.go:45-54 | An entry whose file is missing is already registered when the rename fails with not-found. |
| MergeFacts.RelocateWellformed | internal/pipe/merge/merge.go:39-55 | Whether it succeeds or stops at an error, the relocation loop leaves a well-formed tree well formed. |
| MergeFacts.MergePartitionWellformed | internal/pipe/merge/merge.go:26-59 | Merging one partition leaves a well-formed tree well formed. |
| MergeFacts.MergeItemsWellformed | internal/pipe/merge/merge.go:22-60 | The loop over the listing leaves a well-formed tree well formed. |
| MergeFacts.MergeAllWellformed | internal/pipe/merge/merge.go:17-63 | Whatever its error, the stage leaves a well-formed tree well formed. |
| MergeFacts.SplitThenMerge | internal/pipe/merge/merge.go:43-45 | A path beneath `<dist>/<target>` becomes, after split-artifacts, a relative path without "..". Merge then finds the file where it was built and moves it to dist with the target segment dropped. |
| Continue.SetRelease | cmd/continue.go:153-155 | Succeeds exactly when every requested name is allowed, and then adds exactly those names. Otherwise it is the invalid-skip error. |
| Continue.ImpliedSkips | cmd/continue.go:157-162 | Only adds names. A snapshot implies publish, announce and validate, and publish implies announce. |
| Continue.ImpliedSkipsLeast | cmd/continue.go:157-162 | The implied skip set is the smallest one that holds the requested names and obeys both rules. |
| Continue.SetRunFlags | cmd/continue.go:130-134 | The action becomes continue. The parallelism is the flag when the flag is positive, and the processor count otherwise. |
| Continue.SetReleaseNotes | cmd/continue.go:136-141 | The six release-notes, header and footer fields are copied from the options. |
| Continue.SetModes | cmd/continue.go:142-151 | Snapshot is set when asked for, or when `--auto-snapshot` meets a dirty tree. Fail-fast, merge and draft are copied, and clean is off. |
| Continue.ApplySkips | cmd/continue.go:153-162 | On an invalid name: the error, with the skip set unchanged. Otherwise the requested names are added, then the implied ones. |
| Continue.SetupContinueContext | cmd/continue.go:129-171 | Every flag field as above, including the parallelism case split. The skip set is the old set plus the requested and implied names, or unchanged with the error returned. |
| Continue.Active | cmd/continue.go:115-124 | The stages run below n are listed in increasing order, and each is one that does not skip. |
| Continue.ActiveComplete | cmd/continue.go:115-124 | Every stage below n that does not skip is listed. |
| Continue.FirstFailure | cmd/continue.go:115-126 | The first stage that runs and fails, with no failing stage before it. None exactly when no stage fails. |
| Continue.RunStages | cmd/continue.go:113-126 | With no failing stage, it returns success having run every non-skipped stage. Otherwise it returns the first failure's error, having run exactly the non-skipped stages up to it. |
| Continue.StopsAtFirstFailure | cmd/continue.go:115-124 | The failing stage is the last one run, and every stage run before it succeeded. |
| Continue.ContinueProject | cmd/continue.go:103-127 | A load error or a skip error is returned with no context and before any stage runs. Otherwise it returns a fresh context with dist, action and implied skips set, and the stage loop's result. |

## Left out

- Flag registration and completion of the `continue` command, the command's timeout, and the interrupt handling around the stage loop: these are command-line and concurrency machinery.
- Logging, including the warning when release stages are skipped.
- The extra-files template helper (internal/extrafiles/extra_files_template.go): it depends on the template engine, which is not part of this model.
- Stage internals:
  - `skip.Maybe`, `logging.Log`, `errhandler.Handle` and the stages of the continue pipeline are not part of this model.
  - A stage is given as its skip decision and the outcome of its run.
  - Because of that, stages do not read or change the context in this model.
- `loadConfig` is given as its result (`loaded`, holding the output directory).
- `git.CheckDirty` is given as the boolean `dirty`.
- `runtime.GOMAXPROCS(0)` is given as `procs`.
- `os.Getenv` and `runtime.GOOS` are given as an `Env` value.
- Continue.SetRelease: the skips package is not part of this model. Adding release skips is modelled as all or nothing: on a name outside the allowed set the error is returned and the skip set is left unchanged. What the skips package leaves in the set on that error is not modelled. This makes no difference to the command, because continueProject discards the context when this error occurs (cmd/continue.go:110-112).
- JSON decoding: a manifest file is given as the artifact list it decodes to, or as an uninterpreted blob that fails to decode. Manifest paths are clean, and extra artifact fields are strings.
- Filesystem:
  - Permissions, symbolic links, Windows volumes and case-insensitive names are not modelled.
  - Renaming a directory is reported as an error, because the merge stage only moves files.
  - `ReadFile` and `ReadDir` of a path beneath a regular file report not-found, not "not a directory".
  - `Rename` onto an existing directory reports is-a-directory, where Unix reports that the directory exists.
- Artifact registration: `Artifacts.Add` (internal/artifact/artifact.go) is not part of this model. In goreleaser it rewrites an absolute path that lies beneath the working directory to be relative to that directory. The model registers the joined path as it is. So the registry paths in Merge.Relocate, MergeFacts.RelocateReady, MergeFacts.RelocateRegisters, MergeFacts.PartitionStep and MergeFacts.MergeSucceeds agree with goreleaser's only when dist is relative or lies outside the working directory.
- Split.Relativize: the registry is a sequence of values. goreleaser's `Visit` changes each artifact through its pointer, so an artifact registered twice would be rewritten twice. This aliasing is not modelled.
- Paths: "" and "." are the same relative path. `ToSlash` is the identity, because the model has no separator other than "/".
- MergeFacts.MergeSucceeds: proved for the success case on a ready layout. The partial state after each error is characterised at the level of the registry only (RelocateRegisters, MergeGrows, MissingSourceRegistered). That the result does not depend on listing order is not proved.
- Continue.ContinueProject: the context is returned only on success. The stages run against their given outcomes, not against the context.
