# transport-cli core, modelled in Dafny

transport-cli distributes directory snapshots as a chain of patches. The
tool has three steps:

- **Staging.** `base`/`patch` stage a version of a source directory: a patch
  document (`PatchFile`) and compressed, chunked data files.
- **Commit.** `commit` publishes a staged document to a storage backend and
  records it in the patch database `db.json`, which holds the tags and the
  entries (ID, base ID).
- **Restore.** `restore` resolves a tag to its chain of patches. It flattens
  the chain into one snapshot and writes that snapshot into a destination
  directory.

This project models the newest revision of that core. Its files are
`patchcreation.go`, `version.go` and `restore.go`, together with the database
and configuration code they use. It also models the older revisions as
variants of the same pure functions:

- `base.go` and `patch.go`: version and patch creation before
  `patchcreation.go`;
- `commit.go`: commit;
- `main.go`: the original single-file tool, with MD5 digests and inline
  contents.

Each revision's behaviour is stated and proved, and the revisions are related
to one another.

Modules, one concept each:

| module | file | models |
|---|---|---|
| `Types` | types.dfy | entries, tombstones, the document shapes, errors, and the foreign primitives (SHA-256, MD5, zlib) as function-valued parameters |
| `Decimal`, `Chunking` | decimal.dfy, chunking.dfy | `len / size + 1` chunk counting, splitting a stream into chunks, and chunk names `H`, `H_1`, `H_2`, ... |
| `Database`, `Chain` | database.dfy, chain.dfy | `findTag`, `findEntry`, tag upsert, entry append, and `findRestoreChain` |
| `Storage` | storage.dfy | the backend (blobs, documents, `db.json`) and the staging directory, as maps |
| `Codec` | codec.dfy | staging one file as chunks, and fetching the chunks back (`processPatchFile`, `write`) |
| `SourceTree` | tree.dfy | the source directory, `os.Stat`-style lookup, and the recursive scan of `processPatchDir` / `processDir` |
| `Flattening` | flatten.dfy | `flattenRestoreChain` |
| `Diff` | diff.dfy | `createPatch` of patchcreation.go, and `base` with `NullPrevPatchProvider` of version.go |
| `LegacyDiff` | diff_legacy.dfy | `base` of base.go; `createPatch`, `add` and `fetchBase` of patch.go; `createBase` and `createPatch` of main.go |
| `Commit` | commit.dfy | `commit` of commit.go and of main.go, with injectable upload faults |
| `Restore` | restore.dfy | `restore` and `write` of restore.go, and `restore` of main.go |
| `Configuration` | config.dfy | `NewConfig`, `ChunkSize`, and the backend choice of `readConfig` |
| `RoundTrip` | roundtrip.dfy | version → commit → restore, end to end |

Paths are lists of components, so `filepath.Join(sub, name)` is
`sub + [name]`. The destination of a restore is its regular files and its
directories, by path relative to it; the empty path is the destination
itself. The UUID a run draws is a parameter (`freshId`).

Where the code's behaviour is surprising, the model follows the code:

- A compressed stream of `len` bytes gets `len / size + 1` chunks, so an exact
  multiple of the chunk size ends with an empty chunk.
- commit.go uploads one data file per entry: the one named by the entry's
  digest, which is chunk 0 only.
- The newest revision stages into `.staging`; base.go and patch.go stage into
  `staging`.
- A failed `db.json` upload leaves the database untouched, so the commit can
  be retried.
- A tag that the database does not know restores an empty snapshot without
  an error: `findTag` returns `uuid.Nil` and the chain is empty.
- patch.go's `fetchBase` decodes the tag head as a `BaseFile`. A head written
  as a `PatchFile` therefore reads as a base without entries.

## Model

| member | source | states |
|---|---|---|
| Types.PatchDocument | patchcreation.go:24-31 | a serialised patch file decodes back to the same patch file; decoded as a `BaseFile` it has no entries |
| Types.BaseDocument | transport.go:30-34 | a serialised base file decodes back to itself; decoded as a `PatchFile` it has no changes and a zero base ID |
| Decimal.ParseNatToString | restore.go:78-81 | the decimal chunk suffix parses back to the chunk index |
| Chunking.Split | patchcreation.go:168-184 | the chunks concatenate to the whole stream; all but the last are full; there are `len / size + 1` of them; the last holds `len % size` bytes |
| Chunking.SplitExactMultiple | patchcreation.go:168 | a stream of exactly `n` chunk sizes is cut into `n + 1` chunks, the last one empty |
| Chunking.ChunkIndexOfName | restore.go:77-81 | the index of a chunk can be read back from its name, so names of different chunks differ |
| Chunking.ChunkNameInjective | patchcreation.go:173-177 | two chunks of one digest share a name only if they have the same index |
| Codec.StageFile | patchcreation.go:151-192 | fails exactly when a limited staging needs more than 1024 chunks (or the chunk size is not positive); on success the entry names the file and the digest of its raw bytes, `AdditionalChunks + 1` is the chunk count, and the chunks concatenate to the compressed stream |
| Codec.WriteChunks | patchcreation.go:173-184 | afterwards chunk `i` is stored under its name, and every other stored file is unchanged |
| Codec.FetchChunks | restore.go:77-91 | succeeds exactly when all `count` chunk names are present, and then yields their concatenation in index order; otherwise fails on the first missing name |
| Codec.FetchWritten | restore.go:77-91 | fetching the chunks just written returns their concatenation |
| Codec.FetchOther | restore.go:77-91 | writing the chunks of one digest leaves the fetch of any other digest of the same length as it was |
| Codec.StagedRoundTrip | restore.go:74-141 | a staged file's chunks, fetched by the entry's digest and chunk count, inflate to the original bytes, whose digest is the entry's |
| SourceTree.ScanExact | patchcreation.go:110-149 | the scan lists a file iff it exists in the tree with that content and no skipped path covers it |
| Database.FindTag | database.go:24-31 | the ID of the first tag with the name, or Nil when no tag has it |
| Database.FindEntry | database.go:33-40 | the first entry with the ID, or none exactly when no entry has it |
| Database.UpsertTag | commit.go:76-94 | an existing tag's first occurrence is retargeted in place; otherwise the tag is appended |
| Database.UpsertThenFind | commit.go:76-94 | after the upsert the tag resolves to the new ID, and every other tag resolves as before |
| Database.AddEntry | commit.go:96-101 | appends exactly one entry and leaves the tags and earlier entries as they were |
| Database.AddThenFind | commit.go:96-101 | the appended ID is found with its base ID, and other IDs are found as before |
| Chain.FindRestoreChain | restore.go:143-163 | a Nil head gives the empty chain; a result is a linked chain, root first, ending at the head; a missing entry is a patch-not-found error |
| Chain.ResolveExact | restore.go:143-163 | resolution yields chain `c` exactly when `c` is the linked chain from the head |
| Chain.CycleMeansNoChain | restore.go:145-156 | on the cycle error no linked chain ends at the head, and the Go loop, modelled step by step as `HeadAfter`, is still running after any number of iterations |
| Chain.CycleExactly | restore.go:145-156 | the cycle error is returned if and only if the Go loop never leaves: every iteration count still finds it running |
| Chain.NotFoundExactly | restore.go:147-150 | "Patch not found" names `x` if and only if the Go loop reaches the non-Nil ID `x` and no entry has it |
| Chain.MissingBaseAfterFullChain | restore.go:147-150 | an example: with entries `1→2` the walk from 1 stops with "Patch not found" for 2, and with `1→2, 2→3` for 3 |
| Chain.LinkedUnique | restore.go:145-156 | the walk from a head is determined by the database |
| Flattening.Flatten | restore.go:165-216 | the snapshot is disjoint and keyed by path; a path is live, with its entry, or tombstoned exactly as its fate through the layers (the latest layer mentioning it, a deletion winning within a layer, root deletions ignored) says |
| Flattening.LastWriteWins | restore.go:192-195 | a path changed and not deleted by the last layer carries that layer's last entry for it and is not tombstoned |
| Flattening.DeletionWins | restore.go:196-199 | a path deleted by the last layer is tombstoned and not live, even if that layer also changed it |
| Flattening.UnmentionedUnchanged | restore.go:186-199 | a path the last layer does not mention keeps its fate from the earlier layers |
| Flattening.RootDeletionsIgnored | restore.go:175-184 | the root layer's deletions have no effect on the snapshot |
| Flattening.ResurrectionExample | restore.go:186-199 | for one fixed chain (root `{a, b}`, a patch changing `b`, one deleting `b`, one changing `b` again), the snapshot holds `a` with its root entry and `b` with the last patch's entry, and tombstones nothing; an example, not a general law |
| Flattening.FetchLayers | restore.go:169-200 | succeeds exactly when every chain document is present; the root is read as a base (main.go) or a patch (restore.go) |
| Flattening.FlattenChain | restore.go:165-216 | fails exactly when some chain document is missing; a result is disjoint and keyed |
| Restore.WriteEntry | restore.go:74-141 | with nothing in the way of the file: a missing chunk fails before the file is created; otherwise the inflated bytes are written; the write succeeds exactly when inflation ends cleanly and the written bytes hash to the entry's digest; a failed inflation or check leaves the partial output in place |
| Restore.Put | restore.go:94-106 | creating a file adds exactly that file, with its content, and every directory on its way; other files keep their content |
| Restore.WriteAt | restore.go:74-106 | the download comes first and its failure wins; then a regular file on the way to the path (`os.MkdirAll` or `os.Create` fails with "not a directory") or a directory at the path ("is a directory") fails the write with no file created; otherwise it is the unobstructed write |
| Restore.WriteFiles | restore.go:47-65 | on success, exactly the paths whose existing digest differs (a missing file or a directory counting as digest `""`) were written, each with its write's content, the only new directories are those on their way, and nothing else changed; the loop fails whenever a pending path clashes (blocked in the destination, or another pending path on its way), and succeeds whenever there is no clash and every pending write succeeds; a failure is a clash or a failed write of a pending path; with nothing pending nothing changes |
| Restore.RemoveAll | restore.go:66-69 | removes exactly the tombstoned regular files and keeps every other file and every directory |
| Restore.Plan | restore.go:24-37 | a missing database is "patch database not found"; an unknown tag plans the empty snapshot; a plan is the flattening of the tag's linked chain |
| Restore.MakeRoot | restore.go:42-45 | `os.MkdirAll` of the destination keeps the files, leaves an existing directory as it is, fails when the destination is a regular file, and otherwise adds the destination as a directory |
| Restore.Apply | restore.go:47-69 | on success every snapshot file carries its digest, tombstoned files are gone, other files are untouched, nothing is left pending, and the new directories are those on the way to written files; a pending clash makes it fail, and without a clash it succeeds when every pending write does; a failure is a clash or a failed pending write; an up-to-date destination is left as it was |
| Restore.RestoreTag | restore.go:24-72 | a plan failure is the restore's failure with nothing written; a destination that is a regular file is "not a directory"; otherwise the plan is applied to the created destination with Apply's guarantees |
| Restore.UnknownTagRestoresNothing | restore.go:32-33 | a tag the database does not know restores nothing, in both revisions |
| Restore.RestoreTwice | restore.go:24-72 | restoring the same tag again after a success writes nothing and changes nothing |
| Restore.FileBecomesDirectory | restore.go:47-69 | destination file `a`, snapshot file `a/b` with `a` tombstoned: `a/b` clashes, so the restore fails; against the destination with the tombstones removed it does not clash |
| Restore.ApplyRemovalsFirst | restore.go:47-69 | the two loops in the other order, tombstones first: the same guarantees on success, failing exactly on a clash with the cleared destination, and succeeding when there is none and every pending write succeeds |
| Restore.WriteLegacy | main.go:550 | `os.WriteFile` writes the inline content only where every directory on the way exists and the path is not a directory; otherwise, its error being discarded, nothing changes; directories never change |
| Restore.ApplyLegacy | main.go:544-560 | a path whose MD5 matches, or where the file cannot be created, is left alone; any other snapshot path gets the inline content; tombstoned files are removed; other files and all directories are untouched |
| Restore.RestoreLegacy | main.go:516-561 | the plan reads the root as a `BaseFile`; a failure changes nothing; otherwise the snapshot is applied as ApplyLegacy states, the destination is not created, and the restore reports success |
| Restore.NestedFileLost | main.go:544-551 | restoring `d/f` into an empty destination directory leaves `d/f` absent, as `d` is never created; the same file does not clash in restore.go, which creates `d` |
| Diff.AddChanged | patchcreation.go:140-145 | fails exactly when staging the file fails; otherwise appends the file's entry and stores its chunks |
| Diff.PriorPass | patchcreation.go:63-96 | the first loop fails exactly when a previous path cannot be stat'ed, is a directory, or cannot be staged; otherwise it yields the reference lists: the gone paths, the modified entries, and the surviving paths |
| Diff.GoneExact | patchcreation.go:71-76 | each deletion is a previous path that is missing now, and every missing previous path is deleted |
| Diff.ModifiedFrom | patchcreation.go:88-95 | every modified entry stands for a previous file whose content digest differs now |
| Diff.ModifiedCovers | patchcreation.go:88-95 | every previous file whose digest differs has a modified entry |
| Diff.ScanPass | patchcreation.go:116-146 | staging the scanned files fails exactly when one of them cannot be staged; otherwise their entries are appended in scan order |
| Diff.ScanFindsNew | patchcreation.go:98-120 | the scan after the first loop reaches exactly the files of the tree that are not previous paths |
| Diff.CreatePatch | patchcreation.go:54-108 | a patch is version 1 with the fresh ID and the provider's base ID, and is non-empty; its deletions are the gone previous files; its changes are the modified previous files followed by every new file in scan order; it is "no changes" exactly when both lists would be empty |
| Diff.PatchDeletions | patchcreation.go:63-76 | a patch deletes exactly the previous paths that are gone |
| Diff.PatchChanges | patchcreation.go:54-108 | every change is the tree's file staged, and a change of a previous path means its content differs |
| Diff.PatchCovers | patchcreation.go:54-108 | every surviving previous file either keeps its digest or is changed, and every file that is not a previous path is changed |
| Diff.PatchDisjoint | patchcreation.go:54-108 | no changed path is also deleted |
| Diff.PatchStaged | patchcreation.go:151-192 | the staged chunks restore every changed file, given digests that tell the tree's contents apart |
| Diff.NoChangesExactly | patchcreation.go:103-105 | "no changes" is reported exactly when every previous file exists with its digest and no other file exists |
| Diff.RootVersion | version.go:8-19 | a root version has no base and no deletions, and lists every file of the tree in scan order |
| Diff.RootVersionEmpty | version.go:16-19 | a root version is "no changes" exactly when the tree holds no file |
| Diff.DiffApply | patchcreation.go:54-108 | applying the patch to the previous snapshot gives exactly the tree's files, each with its current digest, and tombstones every gone previous file |
| LegacyDiff.BaseGoIsRootVersion | base.go:17-41 | base.go's version equals version.go's root version; an empty tree is "no entries" instead of "no changes" |
| LegacyDiff.BaseGoSound | base.go:17-124 | a base lists exactly the tree's files, each staged, with no base and no deletions; "no entries" exactly for a tree without files |
| LegacyDiff.TopLevelPass | patch.go:89-120 | patch.go's directory loop succeeds only if no unskipped top-level entry is a directory, and always succeeds for such a flat tree |
| LegacyDiff.TopLevelPassIsScan | patch.go:96-120 | on success, the directory loop is the scan pass restricted to top-level files, staged unflushed and unlimited |
| LegacyDiff.PatchGo | patch.go:46-127 | patch.go's patch is the newest revision's two lists, computed over top-level files only and staged with `add` |
| LegacyDiff.PatchGoDeletions | patch.go:54-67 | a patch.go patch deletes exactly the base paths that are gone |
| LegacyDiff.PatchGoChanges | patch.go:46-127 | every change is staged from the tree; a change of a base path means its content differs; a new path is top-level |
| LegacyDiff.PatchGoCovers | patch.go:46-127 | every differing base file and every new top-level file is changed |
| LegacyDiff.PatchGoStaged | patch.go:129-164 | the staged chunks restore every changed file's unflushed stream |
| LegacyDiff.PatchGoNeedsFlatTree | patch.go:89-109 | patch.go succeeds only on a tree whose top level holds no directory |
| LegacyDiff.NestedUnchangedTree | patch.go:96-109 | an unchanged tree holding `d/f` fails in patch.go reading `d` as a file, but is "no changes" in the newest revision |
| LegacyDiff.FetchBase | patch.go:166-199 | each failure of the tag head lookup is distinguished; a success is the head document decoded as a version-1 `BaseFile` |
| LegacyDiff.PatchHeadReadsAsEmptyBase | patch.go:184-196 | a head written as a `PatchFile` reads as a base without entries |
| LegacyDiff.BaseEntries | main.go:101-120 | fails exactly when a top-level entry is a directory; otherwise holds each file's name, MD5 and content in directory order |
| LegacyDiff.MainCreateBase | main.go:90-123 | main.go's base is version 1 with the fresh ID and one inline entry per top-level file, and fails on a directory |
| LegacyDiff.LegacyPass | main.go:151-184 | the loop fails exactly when a previous path is neither missing nor a regular file; otherwise it yields the gone paths and the entries whose MD5 differs |
| LegacyDiff.MainCreatePatch | main.go:145-191 | a patch is version 1 with the base's ID, non-empty, made of those two lists; "no changes" exactly when both are empty |
| LegacyDiff.MainPatchSound | main.go:145-191 | deletions are exactly the gone base paths; changes carry the current content and its MD5 for exactly the base files whose MD5 differs; no path outside the base is ever changed, so new files are never detected |
| LegacyDiff.MainBaseThenPatch | main.go:90-191 | a patch taken right after a base of the same tree is "no changes" |
| Commit.ParseStaged | commit.go:32-51 | `base:` is tried before `patch:`; parsing fails exactly when neither prefix is present; a parsed reference names its argument |
| Commit.ParseUnparse | commit.go:32-51 | every staged reference parses back from the argument that names it |
| Commit.DataFiles | commit.go:37-47 | one data file per entry: for a base, its entries; for a patch, its changes; none in main.go |
| Commit.Prepare | commit.go:19-51 | an invalid tag, an unparsable argument, a missing staged document or a wrong version is the corresponding error; otherwise it gives the staged document, its ID, its base (Nil for a base), and its data files |
| Commit.NextDb | commit.go:55-101 | a missing database counts as empty and any other download failure aborts; an existing ID aborts; otherwise the tag is upserted and one entry appended |
| Commit.NextDbResolves | commit.go:67-101 | after a commit the tag resolves to the new ID; other tags and old entries are as before; the tag's chain is the base's chain plus the new entry |
| Commit.UploadData | commit.go:103-118 | fails exactly at the first data file that is missing or fails to upload; on success every data file is uploaded with its staged bytes; other files are untouched |
| Commit.Cleanup | commit.go:142-148 | removes exactly the staged document and the data files |
| Commit.Publish | commit.go:103-148 | succeeds exactly when the data, the document and the database all upload; then the backend holds all three and the staging is cleaned; on failure the database and the staging are as before |
| Commit.CommitStaged | commit.go:13-149 | a rejected tag, argument or duplicate ID changes nothing; any failure leaves the database and staging as they were; a success publishes the document, the data files and the next database |
| Commit.RetryAfterDatabaseFailure | commit.go:135-140 | after a failed `db.json` upload, running the commit again yields what a fault-free first run yields |
| Configuration.Wrap64 | config.go:25-27 | the result lies in Go's 64-bit `int` range and is congruent to the input modulo 2^64 |
| Configuration.NewConfig | config.go:18-23 | keeps the backend and defaults to 50 MiB chunks (52428800 bytes) |
| Configuration.ChunkSizeIsMiB | config.go:25-27 | without overflow the chunk size is MiB times 1048576, and positive for a positive setting |
| Configuration.ClassifyBackend | config.go:40-65 | `sftp`, `local` and `http` are recognised under Unicode simple case folding; anything else is "unknown backend" |
| Configuration.ClassifyIgnoresCase | config.go:40-65 | a name and its ASCII lower-casing pick the same backend |
| Configuration.ReadConfig | config.go:29-70 | the configured chunk size replaces the default; an unknown backend name or a failed SFTP connection is an error; otherwise it succeeds |
| RoundTrip.CommitRoot | commit.go:13-149 | committing a staged root patch to an empty backend succeeds, makes the tag's chain the single new entry, and publishes the document and each entry's data file |
| RoundTrip.PublishedRestorable | version.go:16-19 | the root version of a non-empty tree of single-chunk files, once committed, restores every file of the tree from its chunk |
| RoundTrip.TreeFilesDoNotClash | restore.go:94-106 | the regular files of a source tree never clash in a freshly created destination: none is the destination itself and none lies on the way to another |
| RoundTrip.RestoreRestorable | restore.go:24-72 | restoring a committed root version into a destination that does not exist yet succeeds and yields exactly the tree's files |
| RoundTrip.VersionCommitRestore | restore.go:24-141 | version, commit, then restore into a destination that does not exist yet gives back exactly the source tree's regular files with their contents |

## Left out

- I/O, JSON encoding and the backends (SFTP, local, HTTP, the hive
  packages) are not modelled. The backend is a map of blobs, a map of
  documents and a `db.json` state, and the staging directory is a map.
- `tags.go`, the command-line dispatch of `main()`, and printing are not
  modelled. Usage messages are not modelled either.
- SHA-256, MD5 and zlib are parameters (`Primitives`). The model assumes only
  that inflating a flushed stream gives back its input (`Sound`) and that
  SHA-256 hex digests have 64 characters (`HexDigests`).
- `uuid.New()` is the `freshId` parameter.
- The unflushed stream that patch.go's `add` stages is kept abstract. Its
  close is deferred to function return, after the chunks are cut, so the
  model makes no claim that it inflates back.
- Go's randomised map iteration is not modelled as an order. The write loop
  of `restore` visits the flattened files in an arbitrary order, and the
  contracts hold for every order.
- Non-canonical path names (`a//b`, `./a`, `..`) are not modelled, and
  neither are symbolic links or permission errors. Reading an existing
  regular file is assumed to succeed.
- `log.Fatal` and the `return` after a printed error are modelled as an `Err`
  result.
- Chain.FindRestoreChain: a database whose chain loops back on itself makes
  the Go loop run forever. The model makes at most `|entries| + 1` lookups and
  then reports `ChainCycle`; `Chain.CycleExactly` proves that this happens
  exactly on the databases where the Go loop never ends.
- Commit.DataFiles: the `base:` branch of commit.go reads the staged document
  with `readBaseFile` of transport.go:64-78, whose `BaseEntry`
  (transport.go:20-23) carries the SHA-256 digest; it is modelled as the
  `BaseFile` view of the staged document. transport.go's file reading and
  JSON decoding are not part of this model beyond that view.
- RoundTrip.VersionCommitRestore: requires every file to compress into a
  single chunk. commit.go uploads only the data file named by each entry's
  digest, which is chunk 0, so a multi-chunk file is not restorable after
  commit.go.
- RoundTrip.VersionCommitRestore: requires SHA-256 to tell the tree's file
  contents apart (`DigestsDistinguish`). Two different files with equal
  digests share chunk names, and the later staging overwrites the earlier.
- Restore.Apply: on a failed write it does not state which other files had
  been written before the failure, because that depends on the map order.
- Restore.RemoveAll: `os.Remove` of a tombstoned path that names an empty
  directory removes that directory; the model removes only regular files, as
  which directories are empty depends on the order of the removals.
- Restore.MakeRoot: `os.MkdirAll` also creates the destination's missing
  parent directories, which lie outside the model.
- Restore.WriteAt: a blocked write fails with `NotADirectory` or
  `IsADirectory` naming the file's path; Go's error names the directory that
  `os.MkdirAll` or `os.Create` failed on.
- RoundTrip.VersionCommitRestore: version.go stages `.staging/staged.json`
  with string digests (patchcreation.go:18-22, 43-51), but commit.go reads
  `staging/<guid>.json` and decodes 32-byte digests that it hex-encodes
  (commit.go:33-46, transport.go:20-23). As written, commit.go cannot find
  what version.go staged. `StageVersion` files the document under
  `<guid>.json` in the staging directory, and `DataName` takes the hex
  encoding of the decoded digest to be the digest string.
- RoundTrip.PublishedRestorable: rests on the same `StageVersion` and
  `DataName` bridge between version.go's staging and commit.go's.
- Configuration.ReadConfig: parsing `transport.toml` and the type
  assertions on its values are not modelled. The result of dialling SFTP is
  the `sftpConnects` parameter.
- Codec.StageFile: a chunk size that is not positive is an
  `InvalidChunkSize` error. Go divides by it or slices with it.

## Findings

| source | as written | input that shows it | evidently intended | confidence | as-written member | corrected member |
|---|---|---|---|---|---|---|
| patch.go:96-109 | the directory loop of `createPatch` reads every top-level entry that is not a previous path as a file, although `base` (base.go:43-69) records files of subdirectories by their nested path | a tree holding only `d/f`, unchanged since the base that lists `d/f`: `d` is not a previous path, so `os.ReadFile("d")` fails on a directory | subdirectories are scanned recursively with the surviving nested paths skipped, as `processPatchDir` (patchcreation.go:110-149) does, so the unchanged tree is "no changes" | medium, not executed | LegacyDiff.NestedUnchangedTree | Diff.NoChangesExactly |
| restore.go:47-69 | every file is written before any tombstone is removed | a restore over an earlier version in which `a` was a file: the destination holds the file `a`, the snapshot holds `a/b` and tombstones `a`; `os.Stat` finds `a`, so `os.Create("a/b")` fails with "not a directory" and the restore stops with `a` still in place | an in-place restore can turn the file `a` into a directory holding `b`: the tombstoned files are removed before the writes | medium, not executed | Restore.FileBecomesDirectory | Restore.ApplyRemovalsFirst |
| main.go:544-551 | `os.WriteFile` is called with its error discarded, and no directory is created | restoring a tag whose snapshot holds `d/f` into an empty destination directory: `d` does not exist, the write fails unseen, and the restore reports success with `d/f` missing | the missing directories are created and a failed write is reported, as restore.go does (restore.go:42-45, 94-106) | medium, not executed | Restore.NestedFileLost | Restore.RestoreTag |

`Restore.RestoreTag` models restore.go as written, with the writes before the
removals; `Restore.ApplyRemovalsFirst` states the corrected order beside it.
