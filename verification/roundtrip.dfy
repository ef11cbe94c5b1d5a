/**
 The whole life of a root version, end to end: `base` of version.go stages
 the tree, `commit` of commit.go publishes the staged document under a tag
 to an empty backend, and `restore` of restore.go brings the tagged version
 into an empty destination, which then holds exactly the tree's files.

 commit.go uploads one data file per entry, the one named by the entry's
 digest, which is chunk 0; so the theorem is about trees whose files each
 compress into a single chunk.

 The two revisions do not meet as written: version.go writes
 `.staging/staged.json` with string digests, while commit.go reads
 `staging/<guid>.json` and decodes 32-byte digests that it hex-encodes.
 `StageVersion` and `DataName` carry the staged version across that gap:
 the document is filed under `<guid>.json`, and the hex encoding of the
 decoded digest is taken to be the digest string itself.
 */
module RoundTrip {
  import opened Wrappers
  import opened Types
  import opened Database
  import opened Chain
  import opened Chunking
  import opened Storage
  import opened Codec
  import opened SourceTree
  import opened Flattening
  import opened Diff
  import opened Commit
  import opened Restore

  /** The data file commit.go uploads for an entry: the one named by its digest, read as hex. */
  function DataName(e: Entry): string {
    e.hash
  }

  /**
   The staging directory commit.go reads after `version`: the patch document,
   moved from `staged.json` to `<guid>.json`, and the chunks.
   */
  function StageVersion(sv: StagedVersion, guid: string): Staging<Entry> {
    Staging(map[guid + ".json" := PatchDocument(sv.patch)], sv.blobs)
  }

  /** A backend nothing was ever published to. */
  const EmptyRemote: Remote<Entry> := Remote(map[], map[], NoDb)

  /** A destination directory that does not exist yet. */
  const Nowhere: Dest := Dest(map[], {})

  /** The same destination once `restore` created it: an empty directory. */
  const Fresh: Dest := Dest(map[], {[]})

  /** Every file of the tree compresses into fewer bytes than one chunk holds. */
  ghost predicate SingleChunk(prims: Primitives, size: int, root: Node) {
    forall p :: IsFileAt(root, p) ==> |prims.deflateFlushed(ContentAt(root, p))| < size
  }

  /** A file that compresses into less than one chunk is staged as exactly one chunk. */
  lemma OneChunk(prims: Primitives, size: int, path: Path, content: Bytes)
    requires |prims.deflateFlushed(content)| < size
    ensures StageFile(prims, size, true, true, path, content).Ok?
    ensures StageFile(prims, size, true, true, path, content).value.entry.additionalChunks == 0
  {
    assert |prims.deflateFlushed(content)| / size == 0;
  }

  /** A directory with at least one file, each fitting one chunk, gets a root version. */
  lemma SingleChunkVersion(prims: Primitives, size: int, root: Node, freshId: Id)
    requires root.Dir? && WellFormed(root) && SingleChunk(prims, size, root)
    requires exists p :: IsFileAt(root, p)
    ensures CreatePatch(prims, size, root, NullPrev, freshId).Ok?
  {
    var files := Scan(root, {}).value;
    forall k | 0 <= k < |files|
      ensures StageFile(prims, size, Current.limited, Current.flushed, files[k].path, files[k].content).Ok?
    {
      ScanExact(root, {}, files[k].path, files[k].content);
      assert ContentAt(root, files[k].path) == files[k].content;
      OneChunk(prims, size, files[k].path, files[k].content);
    }
    assert AllStageable(prims, size, Current, files);
    assert AllPriorOk(prims, size, Current, root, []);
    assert Kept(root, []) == {};
    RootVersionEmpty(prims, size, root, freshId);
  }

  /** Every entry of a root version fits one chunk, and its chunk holds the compressed file. */
  lemma RootEntries(prims: Primitives, size: int, root: Node, freshId: Id)
    requires root.Dir? && WellFormed(root) && SingleChunk(prims, size, root)
    requires HexDigests(prims) && DigestsDistinguish(prims, root)
    requires CreatePatch(prims, size, root, NullPrev, freshId).Ok?
    ensures var sv := CreatePatch(prims, size, root, NullPrev, freshId).value;
            forall i :: 0 <= i < |sv.patch.changed| ==>
              var c := sv.patch.changed[i];
              && IsFileAt(root, c.fileName) && c.hash == prims.sha256Hex(ContentAt(root, c.fileName))
              && c.additionalChunks == 0
              && FetchChunks(sv.blobs, c.hash, 1) == Ok(prims.deflateFlushed(ContentAt(root, c.fileName)))
  {
    var sv := CreatePatch(prims, size, root, NullPrev, freshId).value;
    PatchChanges(prims, size, root, NullPrev, freshId);
    PatchStaged(prims, size, root, NullPrev, freshId);
    forall i | 0 <= i < |sv.patch.changed|
      ensures sv.patch.changed[i].additionalChunks == 0
    {
      var c := sv.patch.changed[i];
      assert Produced(prims, size, Current, root, c);
      OneChunk(prims, size, c.fileName, ContentAt(root, c.fileName));
    }
  }

  /**
   Committing a staged root patch as `patch:<guid>` to an empty backend
   succeeds: the tag's chain is the one new entry, the document is
   published under its ID, and each entry's data file is uploaded.
   */
  lemma CommitRoot(patch: PatchFile<Entry>, blobs: Store, guid: string, tag: string)
    requires patch.version == 1 && patch.id != Nil && patch.baseId == Nil && ValidTagName(tag)
    requires forall i :: 0 <= i < |patch.changed| ==> patch.changed[i].hash in blobs
    ensures var o := CommitStaged(Some(DataName), EmptyRemote, Staging(map[guid + ".json" := PatchDocument(patch)], blobs),
                                  tag, Unparse(StagedRef(PatchKind, guid)), NoFaults);
            && o.result.Ok?
            && o.remote.db.Present?
            && FindRestoreChain(o.remote.db.db, FindTag(o.remote.db.db, tag)) == Ok([DbEntry(patch.id, Nil)])
            && o.remote.docs == map[patch.id := PatchDocument(patch)]
            && forall i :: 0 <= i < |patch.changed| ==>
                 patch.changed[i].hash in o.remote.blobs && o.remote.blobs[patch.changed[i].hash] == blobs[patch.changed[i].hash]
  {
    RootPrepared(patch, blobs, guid, tag);
    var p := Prepare(Some(DataName), tag, Unparse(StagedRef(PatchKind, guid)), Staging(map[guid + ".json" := PatchDocument(patch)], blobs));
    assert FirstFailing(blobs, p.value.dataFiles, {}).None?;
    FirstDb(tag, patch.id);
  }

  /** A staged root patch passes the checks of `commit`, and its data files are its entries' digests. */
  lemma RootPrepared(patch: PatchFile<Entry>, blobs: Store, guid: string, tag: string)
    requires patch.version == 1 && patch.baseId == Nil && ValidTagName(tag)
    ensures var p := Prepare(Some(DataName), tag, Unparse(StagedRef(PatchKind, guid)), Staging(map[guid + ".json" := PatchDocument(patch)], blobs));
            && p.Ok? && p.value.id == patch.id && p.value.baseId == Nil && p.value.doc == PatchDocument(patch)
            && |p.value.dataFiles| == |patch.changed|
            && forall i :: 0 <= i < |patch.changed| ==> p.value.dataFiles[i] == patch.changed[i].hash
  {
    ParseUnparse(StagedRef(PatchKind, guid));
  }

  /** The first commit to a backend without a database makes the tag's chain the one new entry. */
  lemma FirstDb(tag: string, id: Id)
    requires id != Nil
    ensures NextDb(NoDb, tag, id, Nil).Ok?
    ensures FindRestoreChain(NextDb(NoDb, tag, id, Nil).value, FindTag(NextDb(NoDb, tag, id, Nil).value, tag)) == Ok([DbEntry(id, Nil)])
  {
    NextDbResolves(EmptyDb, tag, id, Nil, tag + "_", []);
    assert NextDb(NoDb, tag, id, Nil) == NextDb(Present(EmptyDb), tag, id, Nil);
  }

  /** The chain of one root document flattens to the root's changes. */
  lemma PlanOfRoot(remote: Remote<Entry>, tag: string, patch: PatchFile<Entry>)
    requires remote.db.Present? && remote.docs == map[patch.id := PatchDocument(patch)]
    requires FindRestoreChain(remote.db.db, FindTag(remote.db.db, tag)) == Ok([DbEntry(patch.id, Nil)])
    ensures Plan(EntryName, remote, tag, false) == Ok(Flatten(EntryName, [Layer(patch.changed, patch.deleted)]))
  {
    var chain := [DbEntry(patch.id, Nil)];
    assert chain[0].id in remote.docs;
    var layers := FetchLayers(remote.docs, chain, false);
    assert layers.Ok? && |layers.value| == 1;
    assert layers.value[0] == LayerOf(PatchDocument(patch), true, false) == Layer(patch.changed, patch.deleted);
    assert layers.value == [Layer(patch.changed, patch.deleted)];
  }

  /** A one-layer snapshot holds exactly the named paths, each with one of the layer's entries. */
  lemma RootSnapshot(changed: seq<Entry>, deleted: seq<Tombstone>)
    ensures var flat := Flatten(EntryName, [Layer(changed, deleted)]);
            && flat.tombstones == {}
            && (forall p :: p in flat.files <==> p in Names(changed))
            && forall p :: p in flat.files ==> exists i :: 0 <= i < |changed| && changed[i] == flat.files[p] && changed[i].fileName == p
  {
    var layers := [Layer(changed, deleted)];
    var flat := Flatten(EntryName, layers);
    assert layers[..0] == [];
    forall p ensures p in flat.files <==> p in Names(changed) {
      if p in Names(changed) {
        var c :| c in changed && c.fileName == p;
        var i :| 0 <= i < |changed| && changed[i] == c;
        assert EntryName(changed[i]) == p;
      }
    }
    forall p ensures p !in flat.tombstones {
      assert FateOf(EntryName, layers, p) != Removed;
    }
  }

  /** An entry uploaded as its single chunk is written back as the tree's file. */
  lemma WriteOne(prims: Primitives, root: Node, c: Entry, staged: Store, blobs: Store)
    requires Sound(prims) && HexDigests(prims)
    requires c.hash == prims.sha256Hex(ContentAt(root, c.fileName)) && c.additionalChunks == 0
    requires FetchChunks(staged, c.hash, 1) == Ok(prims.deflateFlushed(ContentAt(root, c.fileName)))
    requires c.hash in staged && c.hash in blobs && blobs[c.hash] == staged[c.hash]
    ensures WriteEntry(prims, blobs, c) == Wrote(ContentAt(root, c.fileName))
    ensures c.hash != ""
  {
    assert ChunkName(c.hash, 0) == c.hash;
    FetchUnaffected(staged, blobs, c.hash, 1);
    assert |c.hash| == 64;
  }

  /**
   Restoring the root snapshot into an empty destination writes every file:
   each entry's chunk, as uploaded, inflates to the tree's file.
   */
  lemma RootWrites(prims: Primitives, root: Node, patch: PatchFile<Entry>, staged: Store, blobs: Store)
    requires Sound(prims) && HexDigests(prims)
    requires forall i :: 0 <= i < |patch.changed| ==>
               var c := patch.changed[i];
               && c.hash == prims.sha256Hex(ContentAt(root, c.fileName)) && c.additionalChunks == 0
               && FetchChunks(staged, c.hash, 1) == Ok(prims.deflateFlushed(ContentAt(root, c.fileName)))
               && c.hash in staged && c.hash in blobs && blobs[c.hash] == staged[c.hash]
    ensures var flat := Flatten(EntryName, [Layer(patch.changed, patch.deleted)]);
            && Pending(prims.sha256Hex, EntryHash, flat.files, Nowhere) == flat.files.Keys
            && forall p :: p in flat.files ==> WriteEntry(prims, blobs, flat.files[p]) == Wrote(ContentAt(root, p))
  {
    var flat := Flatten(EntryName, [Layer(patch.changed, patch.deleted)]);
    RootSnapshot(patch.changed, patch.deleted);
    forall p | p in flat.files
      ensures WriteEntry(prims, blobs, flat.files[p]) == Wrote(ContentAt(root, p))
      ensures ExistingHash(prims.sha256Hex, Nowhere, p) != flat.files[p].hash
    {
      var i :| 0 <= i < |patch.changed| && patch.changed[i] == flat.files[p] && patch.changed[i].fileName == p;
      WriteOne(prims, root, patch.changed[i], staged, blobs);
    }
  }

  /** What an empty destination holds after every file of the snapshot was written and nothing else changed. */
  lemma RestoredExactly(root: Node, flat: Snapshot<Entry>, out: Dest, written: set<Path>)
    requires written == flat.files.Keys && flat.tombstones == {}
    requires forall p :: p in flat.files <==> IsFileAt(root, p)
    requires forall p :: p in written ==> p in out.files && out.files[p] == ContentAt(root, p)
    requires forall p :: p !in flat.files && p !in flat.tombstones ==> Untouched(out, Fresh, p)
    ensures forall p :: p in out.files <==> IsFileAt(root, p)
    ensures forall p :: p in out.files ==> out.files[p] == ContentAt(root, p)
  {
    forall p ensures p in out.files <==> IsFileAt(root, p) {
      if p !in flat.files {
        assert Untouched(out, Fresh, p);
      }
    }
  }

  /**
   The regular files of a tree never clash in a fresh destination: none is
   the destination itself, and none lies on the way to another.
   */
  lemma TreeFilesDoNotClash(root: Node, files: set<Path>)
    requires root.Dir? && forall p :: p in files <==> IsFileAt(root, p)
    ensures !Clashing(Fresh, files)
  {
    forall p | p in files
      ensures Free(Fresh, p) && Ancestors(p) !! files
    {
      assert p != [] by {
        assert Lookup(root, []) == Found(root);
      }
      forall q | q in Ancestors(p)
        ensures q !in files
      {
        if q in files {
          FileHasNoDescendants(root, q, p);
        }
      }
    }
  }

  /** The files of a root version's snapshot are the files of the tree. */
  lemma RootSnapshotFiles(prims: Primitives, size: int, root: Node, freshId: Id)
    requires WellFormed(root) && CreatePatch(prims, size, root, NullPrev, freshId).Ok?
    ensures var patch := CreatePatch(prims, size, root, NullPrev, freshId).value.patch;
            var flat := Flatten(EntryName, [Layer(patch.changed, patch.deleted)]);
            && flat.tombstones == {}
            && forall p :: p in flat.files <==> IsFileAt(root, p)
  {
    var patch := CreatePatch(prims, size, root, NullPrev, freshId).value.patch;
    RootVersion(prims, size, root, freshId);
    PatchChanges(prims, size, root, NullPrev, freshId);
    RootSnapshot(patch.changed, patch.deleted);
    ProducedNames(prims, size, Current, root, patch.changed);
  }

  /** The backend after committing staged version `sv` to an empty backend under `tag` as `patch:<guid>`. */
  function Published(sv: StagedVersion, guid: string, tag: string): Remote<Entry> {
    CommitStaged(Some(DataName), EmptyRemote, StageVersion(sv, guid), tag, Unparse(StagedRef(PatchKind, guid)), NoFaults).remote
  }

  /** The snapshot of a chain holding only `patch`. */
  function RootFlat(patch: PatchFile<Entry>): Snapshot<Entry> {
    Flatten(EntryName, [Layer(patch.changed, patch.deleted)])
  }

  /**
   A restore of `tag` from `remote` into an empty destination applies `flat`,
   which holds the tree's files and no tombstones, writes every one of them,
   and each write yields the tree's file.
   */
  ghost predicate Restorable(prims: Primitives, root: Node, remote: Remote<Entry>, tag: string, flat: Snapshot<Entry>) {
    && Plan(EntryName, remote, tag, false) == Ok(flat)
    && flat.tombstones == {}
    && (forall p :: p in flat.files <==> IsFileAt(root, p))
    && Pending(prims.sha256Hex, EntryHash, flat.files, Nowhere) == flat.files.Keys
    && !Clashing(Fresh, flat.files.Keys)
    && forall p :: p in flat.files ==> WriteEntry(prims, remote.blobs, flat.files[p]) == Wrote(ContentAt(root, p))
  }

  /** A staged root version of single-chunk files, once committed, can be restored. */
  lemma CommittedRestorable(prims: Primitives, root: Node, sv: StagedVersion, guid: string, tag: string)
    requires Sound(prims) && HexDigests(prims)
    requires root.Dir? && sv.patch.version == 1 && sv.patch.id != Nil && sv.patch.baseId == Nil && ValidTagName(tag)
    requires forall i :: 0 <= i < |sv.patch.changed| ==>
               var c := sv.patch.changed[i];
               && c.hash == prims.sha256Hex(ContentAt(root, c.fileName)) && c.additionalChunks == 0
               && FetchChunks(sv.blobs, c.hash, 1) == Ok(prims.deflateFlushed(ContentAt(root, c.fileName)))
    requires RootFlat(sv.patch).tombstones == {} && forall p :: p in RootFlat(sv.patch).files <==> IsFileAt(root, p)
    ensures Restorable(prims, root, Published(sv, guid, tag), tag, RootFlat(sv.patch))
  {
    forall i | 0 <= i < |sv.patch.changed| ensures sv.patch.changed[i].hash in sv.blobs {
      assert ChunkName(sv.patch.changed[i].hash, 0) == sv.patch.changed[i].hash;
    }
    CommitRoot(sv.patch, sv.blobs, guid, tag);
    var remote := Published(sv, guid, tag);
    PlanOfRoot(remote, tag, sv.patch);
    RootWrites(prims, root, sv.patch, sv.blobs, remote.blobs);
    TreeFilesDoNotClash(root, RootFlat(sv.patch).files.Keys);
  }

  /** The root version of a tree of single-chunk files, once committed, can be restored. */
  lemma PublishedRestorable(prims: Primitives, size: int, root: Node, freshId: Id, guid: string, tag: string)
    requires Sound(prims) && HexDigests(prims)
    requires root.Dir? && WellFormed(root) && DigestsDistinguish(prims, root) && SingleChunk(prims, size, root)
    requires exists p :: IsFileAt(root, p)
    requires freshId != Nil && ValidTagName(tag)
    ensures CreatePatch(prims, size, root, NullPrev, freshId).Ok?
    ensures var sv := CreatePatch(prims, size, root, NullPrev, freshId).value;
            Restorable(prims, root, Published(sv, guid, tag), tag, RootFlat(sv.patch))
  {
    SingleChunkVersion(prims, size, root, freshId);
    var sv := CreatePatch(prims, size, root, NullPrev, freshId).value;
    RootEntries(prims, size, root, freshId);
    RootSnapshotFiles(prims, size, root, freshId);
    CommittedRestorable(prims, root, sv, guid, tag);
  }

  /** What `RestoreTag` promises, for a restorable backend, yields the tree's files. */
  lemma RestoreOfRestorable(prims: Primitives, root: Node, remote: Remote<Entry>, tag: string, flat: Snapshot<Entry>,
                            out: Dest, written: set<Path>, result: Result<(), Error>)
    requires Restorable(prims, root, remote, tag, flat)
    requires Applied(prims, remote.blobs, flat, Fresh, out, written, result)
    ensures result.Ok?
    ensures forall p :: p in out.files <==> IsFileAt(root, p)
    ensures forall p :: p in out.files ==> out.files[p] == ContentAt(root, p)
  {
    assert Pending(prims.sha256Hex, EntryHash, flat.files, Fresh) == flat.files.Keys;
    RestoredExactly(root, flat, out, written);
  }

  /** Restoring a tag of a restorable backend into an empty destination gives back the tree's files. */
  method RestoreRestorable(prims: Primitives, root: Node, remote: Remote<Entry>, tag: string, ghost flat: Snapshot<Entry>)
    returns (out: Dest, result: Result<(), Error>)
    requires Restorable(prims, root, remote, tag, flat)
    ensures result.Ok?
    ensures forall p :: p in out.files <==> IsFileAt(root, p)
    ensures forall p :: p in out.files ==> out.files[p] == ContentAt(root, p)
  {
    assert Nowhere.dirs + {[]} == Fresh.dirs;
    assert MakeRoot(Nowhere) == Ok(Fresh);
    var written;
    out, written, result := RestoreTag(prims, remote, tag, Nowhere);
    RestoreOfRestorable(prims, root, remote, tag, flat, out, written, result);
  }

  /**
   Version, commit, restore: a tree with at least one file, each compressing
   into one chunk, staged by `base`, committed under a valid tag to an empty
   backend and restored into an empty destination, comes back exactly: the
   destination holds the tree's regular files with their contents.
   */
  method VersionCommitRestore(prims: Primitives, size: int, root: Node, freshId: Id, guid: string, tag: string)
    returns (out: Dest, result: Result<(), Error>)
    requires Sound(prims) && HexDigests(prims)
    requires root.Dir? && WellFormed(root) && DigestsDistinguish(prims, root) && SingleChunk(prims, size, root)
    requires exists p :: IsFileAt(root, p)
    requires freshId != Nil && ValidTagName(tag)
    ensures result.Ok?
    ensures forall p :: p in out.files <==> IsFileAt(root, p)
    ensures forall p :: p in out.files ==> out.files[p] == ContentAt(root, p)
  {
    PublishedRestorable(prims, size, root, freshId, guid, tag);
    var sv := CreatePatch(prims, size, root, NullPrev, freshId).value;
    var remote := Published(sv, guid, tag);
    out, result := RestoreRestorable(prims, root, remote, tag, RootFlat(sv.patch));
  }
}
