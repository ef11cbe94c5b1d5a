/**
 The older ways of building a version or patch, as variants of the diff
 engine: `base` with `processDir` in base.go (a full scan, like `base` in
 version.go, but "no entries" instead of "no changes"), `createPatch` with
 `add` in patch.go (unflushed chunks without a limit, and new files looked
 for only at the top level), `fetchBase` in patch.go and main.go, and
 `createBase` with `createPatch` in main.go (MD5 digests and contents inline,
 no new files at all).
 */
module LegacyDiff {
  import opened Wrappers
  import opened Types
  import opened Database
  import opened Storage
  import opened Codec
  import opened SourceTree
  import opened Flattening
  import opened Diff

  // ----- base.go

  /** `base` of base.go: every file of the tree staged, in scan order. */
  function BaseGo(prims: Primitives, size: int, root: Node, freshId: Id): Result<StagedVersion, Error> {
    var files :- Scan(root, {});
    var all :- ScanPass(prims, size, Current, EmptyDraft, files);
    if |all.changed| == 0 then Err(NoEntries)
    else Ok(StagedVersion(PatchFile(1, freshId, Nil, all.changed, []), all.staged))
  }

  /**
   base.go builds the same root version as version.go, except that an empty
   tree is "no entries" instead of "no changes".
   */
  lemma BaseGoIsRootVersion(prims: Primitives, size: int, root: Node, freshId: Id)
    ensures BaseGo(prims, size, root, freshId).Ok? <==> CreatePatch(prims, size, root, NullPrev, freshId).Ok?
    ensures CreatePatch(prims, size, root, NullPrev, freshId).Ok? ==>
              BaseGo(prims, size, root, freshId) == CreatePatch(prims, size, root, NullPrev, freshId)
    ensures root.Dir? && AllStageable(prims, size, Current, Scan(root, {}).value) ==>
              (BaseGo(prims, size, root, freshId) == Err(NoEntries) <==> CreatePatch(prims, size, root, NullPrev, freshId) == Err(NoChanges))
  {
    assert PriorPass(prims, size, Current, root, []) == Ok(EmptyDraft);
    assert Kept(root, []) == {};
  }

  /**
   The root file of base.go: a zero base ID, one entry per regular file of
   the tree (each the staged entry of that file), and "no entries" exactly
   for a tree without files.
   */
  lemma BaseGoSound(prims: Primitives, size: int, root: Node, freshId: Id)
    requires WellFormed(root)
    ensures var r := BaseGo(prims, size, root, freshId);
            r.Ok? ==> && r.value.patch.version == 1 && r.value.patch.id == freshId
                      && r.value.patch.baseId == Nil && r.value.patch.deleted == []
                      && AllProduced(prims, size, Current, root, r.value.patch.changed)
                      && forall p :: IsFileAt(root, p) <==> p in Names(r.value.patch.changed)
    ensures root.Dir? && AllStageable(prims, size, Current, Scan(root, {}).value) ==>
              (BaseGo(prims, size, root, freshId) == Err(NoEntries) <==> forall p :: !IsFileAt(root, p))
  {
    BaseGoIsRootVersion(prims, size, root, freshId);
    RootVersion(prims, size, root, freshId);
    RootVersionEmpty(prims, size, root, freshId);
    var r := CreatePatch(prims, size, root, NullPrev, freshId);
    if r.Ok? {
      PatchChanges(prims, size, root, NullPrev, freshId);
      ProducedNames(prims, size, Current, root, r.value.patch.changed);
    }
  }

  // ----- patch.go

  /** The regular files directly in the source directory whose paths are not in `skip`, in directory order. */
  function TopFiles(skip: set<Path>, cs: seq<Child>): seq<Scanned> {
    if |cs| == 0 then []
    else
      var n := |cs| - 1;
      var c := cs[n];
      TopFiles(skip, cs[..n]) + (if [c.name] !in skip && c.node.File? then [Scanned([c.name], c.node.content)] else [])
  }

  /** No directory among the source directory's entries outside `skip`. */
  predicate FlatOutside(skip: set<Path>, cs: seq<Child>) {
    forall k :: 0 <= k < |cs| && [cs[k].name] !in skip ==> cs[k].node.File?
  }

  lemma FlatOutsideSnoc(skip: set<Path>, cs: seq<Child>)
    requires |cs| > 0
    ensures FlatOutside(skip, cs) <==>
            FlatOutside(skip, cs[..|cs| - 1]) && ([cs[|cs| - 1].name] in skip || cs[|cs| - 1].node.File?)
  {
    var init := cs[..|cs| - 1];
    assert forall k :: 0 <= k < |init| ==> init[k] == cs[k];
  }

  /** Staging one more scanned file is one more step of the scan pass. */
  lemma ScanPassSnoc(prims: Primitives, size: int, pk: Packing, d: Draft, files: seq<Scanned>, x: Scanned)
    requires ScanPass(prims, size, pk, d, files).Ok?
    ensures ScanPass(prims, size, pk, d, files + [x]) == AddChanged(prims, size, pk, ScanPass(prims, size, pk, d, files).value, x.path, x.content)
  {
    assert (files + [x])[..|files|] == files;
  }

  /**
   The second loop of patch.go's `createPatch`, over the source directory's
   own entries only: a surviving previous path is passed over, a directory
   cannot be read as a file, and any other file is staged by `add` (unflushed,
   without a chunk limit).
   */
  function TopLevelPass(prims: Primitives, size: int, d: Draft, cs: seq<Child>): (r: Result<Draft, Error>)
    ensures r.Ok? ==> FlatOutside(d.surviving, cs)
    ensures size > 0 && FlatOutside(d.surviving, cs) ==> r.Ok?
  {
    if |cs| == 0 then Ok(d)
    else
      var n := |cs| - 1;
      var c := cs[n];
      var before := TopLevelPass(prims, size, d, cs[..n]);
      FlatOutsideSnoc(d.surviving, cs);
      if before.Err? then Err(before.error)
      else if [c.name] in d.surviving then before
      else if c.node.Dir? then Err(IsADirectory([c.name]))
      else AddChanged(prims, size, Unlimited, before.value, [c.name], c.node.content)
  }

  /** When the second loop gets through, it is the scan pass over the top-level files outside the surviving paths. */
  lemma {:induction false} TopLevelPassIsScan(prims: Primitives, size: int, d: Draft, cs: seq<Child>)
    requires TopLevelPass(prims, size, d, cs).Ok?
    ensures TopLevelPass(prims, size, d, cs) == ScanPass(prims, size, Unlimited, d, TopFiles(d.surviving, cs))
  {
    if |cs| > 0 {
      var n := |cs| - 1;
      var c := cs[n];
      var files := TopFiles(d.surviving, cs[..n]);
      var before := TopLevelPass(prims, size, d, cs[..n]);
      TopLevelPassIsScan(prims, size, d, cs[..n]);
      if [c.name] in d.surviving {
        assert TopFiles(d.surviving, cs) == files + [] == files;
        assert TopLevelPass(prims, size, d, cs) == before;
      } else {
        var x := Scanned([c.name], c.node.content);
        assert TopFiles(d.surviving, cs) == files + [x];
        ScanPassSnoc(prims, size, Unlimited, d, files, x);
        assert TopLevelPass(prims, size, d, cs) == AddChanged(prims, size, Unlimited, before.value, [c.name], c.node.content);
      }
    }
  }

  /** `createPatch` of patch.go, against the entries of the previous base file. */
  function PatchGo(prims: Primitives, size: int, root: Node, base: BaseFile<Entry>, freshId: Id): (r: Result<StagedVersion, Error>)
    ensures r.Ok? ==> && r.value.patch.version == 1 && r.value.patch.id == freshId && r.value.patch.baseId == base.id
                      && |r.value.patch.changed| + |r.value.patch.deleted| > 0
    ensures r.Ok? ==> && root.Dir? && AllPriorOk(prims, size, Unlimited, root, base.entries)
                      && FlatOutside(Kept(root, base.entries), root.children)
                      && AllStageable(prims, size, Unlimited, TopFiles(Kept(root, base.entries), root.children))
                      && r.value.patch.deleted == Gone(root, base.entries)
                      && r.value.patch.changed == Modified(prims, size, Unlimited, root, base.entries)
                                                  + ScannedEntries(prims, size, Unlimited, TopFiles(Kept(root, base.entries), root.children))
                      && r.value.blobs == ScanStore(prims, size, Unlimited, ModifiedStore(prims, size, Unlimited, root, base.entries),
                                                    TopFiles(Kept(root, base.entries), root.children))
  {
    var d :- PriorPass(prims, size, Unlimited, root, base.entries);
    if root.File? then Err(NotADirectory([]))
    else
      var all :- TopLevelPass(prims, size, d, root.children);
      TopLevelPassIsScan(prims, size, d, root.children);
      if |all.changed| == 0 && |all.deleted| == 0 then Err(NoChanges)
      else Ok(StagedVersion(PatchFile(1, freshId, base.id, all.changed, all.deleted), all.staged))
  }

  /** A top-level file is found by its one-element path (names in a directory are distinct). */
  lemma LookupTop(root: Node, k: nat)
    requires root.Dir? && WellFormed(root) && k < |root.children|
    ensures Lookup(root, [root.children[k].name]) == Found(root.children[k].node)
  {
    ChildIndexOf(root.children, k);
    assert [root.children[k].name][1..] == [];
  }

  /** What the top-level walk yields: entries of `cs`, outside `skip`, that are files. */
  lemma {:induction false} TopFilesSound(skip: set<Path>, cs: seq<Child>, x: Scanned)
    requires x in TopFiles(skip, cs)
    ensures exists k :: 0 <= k < |cs| && cs[k].node.File? && x == Scanned([cs[k].name], cs[k].node.content) && [cs[k].name] !in skip
  {
    var n := |cs| - 1;
    if x in TopFiles(skip, cs[..n]) {
      TopFilesSound(skip, cs[..n], x);
      var k :| 0 <= k < n && cs[..n][k].node.File? && x == Scanned([cs[..n][k].name], cs[..n][k].node.content) && [cs[..n][k].name] !in skip;
      assert cs[..n][k] == cs[k];
    }
  }

  /** Every file entry of `cs` outside `skip` is yielded. */
  lemma {:induction false} TopFilesComplete(skip: set<Path>, cs: seq<Child>, k: nat)
    requires k < |cs| && cs[k].node.File? && [cs[k].name] !in skip
    ensures Scanned([cs[k].name], cs[k].node.content) in TopFiles(skip, cs)
  {
    var n := |cs| - 1;
    if k < n {
      assert cs[..n][k] == cs[k];
      TopFilesComplete(skip, cs[..n], k);
    }
  }

  /** An existing path survives exactly when some previous entry names it. */
  lemma KeptNames(root: Node, prior: seq<Entry>, p: Path)
    requires Lookup(root, p).Found?
    ensures p in Kept(root, prior) <==> p in Names(prior)
  {
    if p in Names(prior) {
      var e :| e in prior && e.fileName == p;
    }
  }

  /** The top-level files outside the surviving previous paths, as paths of the tree. */
  lemma TopFilesExact(prims: Primitives, size: int, pk: Packing, root: Node, prior: seq<Entry>, p: Path, content: Bytes)
    requires root.Dir? && WellFormed(root) && AllPriorOk(prims, size, pk, root, prior)
    ensures Scanned(p, content) in TopFiles(Kept(root, prior), root.children) <==>
              |p| == 1 && Lookup(root, p) == Found(File(content)) && p !in Names(prior)
  {
    var cs := root.children;
    var skip := Kept(root, prior);
    if Scanned(p, content) in TopFiles(skip, cs) {
      TopFilesSound(skip, cs, Scanned(p, content));
      var k :| 0 <= k < |cs| && cs[k].node.File? && Scanned(p, content) == Scanned([cs[k].name], cs[k].node.content) && p !in skip;
      LookupTop(root, k);
      KeptNames(root, prior, p);
    }
    if |p| == 1 && Lookup(root, p) == Found(File(content)) && p !in Names(prior) {
      var k := ChildIndex(cs, p[0]).value;
      assert p == [cs[k].name];
      LookupTop(root, k);
      TopFilesComplete(skip, cs, k);
    }
  }

  /** The entries the second loop adds are produced from top-level files that are not previous paths. */
  lemma TopEntriesNew(prims: Primitives, size: int, root: Node, prior: seq<Entry>)
    requires root.Dir? && WellFormed(root) && AllPriorOk(prims, size, Unlimited, root, prior)
    requires AllStageable(prims, size, Unlimited, TopFiles(Kept(root, prior), root.children))
    ensures var added := ScannedEntries(prims, size, Unlimited, TopFiles(Kept(root, prior), root.children));
            && AllProduced(prims, size, Unlimited, root, added)
            && forall c :: c in added ==> |c.fileName| == 1 && c.fileName !in Names(prior)
  {
    var files := TopFiles(Kept(root, prior), root.children);
    forall k | 0 <= k < |files|
      ensures Lookup(root, files[k].path) == Found(File(files[k].content)) && |files[k].path| == 1 && files[k].path !in Names(prior)
    {
      TopFilesExact(prims, size, Unlimited, root, prior, files[k].path, files[k].content);
    }
    ScanKeepsStaged(prims, size, Unlimited, root, [], map[], files);
    assert [] + ScannedEntries(prims, size, Unlimited, files) == ScannedEntries(prims, size, Unlimited, files);
  }

  /** Deletions of patch.go are exactly the previous paths that are gone. */
  lemma PatchGoDeletions(prims: Primitives, size: int, root: Node, base: BaseFile<Entry>, freshId: Id)
    requires PatchGo(prims, size, root, base, freshId).Ok?
    ensures var patch := PatchGo(prims, size, root, base, freshId).value.patch;
            && (forall t :: t in patch.deleted ==> Lookup(root, t.fileName) == Missing && t.fileName in Names(base.entries))
            && (forall e :: e in base.entries && Lookup(root, e.fileName) == Missing ==> Deletes(patch.deleted, e.fileName))
  {
    GoneExact(root, base.entries);
  }

  /**
   Every change of patch.go is the staged entry of a file of the tree; a
   change to a previous path means a previous entry's digest differs, and
   any other change is a file directly in the source directory.
   */
  lemma PatchGoChanges(prims: Primitives, size: int, root: Node, base: BaseFile<Entry>, freshId: Id)
    requires WellFormed(root) && PatchGo(prims, size, root, base, freshId).Ok?
    ensures var patch := PatchGo(prims, size, root, base, freshId).value.patch;
            && AllProduced(prims, size, Unlimited, root, patch.changed)
            && (forall c :: c in patch.changed && c.fileName in Names(base.entries) ==>
                  exists e :: e in base.entries && e.fileName == c.fileName && Differs(prims, root, e))
            && (forall c :: c in patch.changed && c.fileName !in Names(base.entries) ==> |c.fileName| == 1)
  {
    var prior := base.entries;
    var modified := Modified(prims, size, Unlimited, root, prior);
    var added := ScannedEntries(prims, size, Unlimited, TopFiles(Kept(root, prior), root.children));
    ModifiedProduced(prims, size, Unlimited, root, prior);
    ModifiedFrom(prims, size, Unlimited, root, prior);
    TopEntriesNew(prims, size, root, prior);
    AllProducedAppend(prims, size, Unlimited, root, modified, added);
  }

  /**
   patch.go misses nothing at the top level: a previous file that still
   exists keeps its digest or has a change, and every top-level file that is
   not a previous path has a change.
   */
  lemma PatchGoCovers(prims: Primitives, size: int, root: Node, base: BaseFile<Entry>, freshId: Id)
    requires WellFormed(root) && PatchGo(prims, size, root, base, freshId).Ok?
    ensures var patch := PatchGo(prims, size, root, base, freshId).value.patch;
            && (forall e :: e in base.entries && Differs(prims, root, e) ==> e.fileName in Names(patch.changed))
            && (forall p :: |p| == 1 && IsFileAt(root, p) && p !in Names(base.entries) ==> p in Names(patch.changed))
  {
    var prior := base.entries;
    var patch := PatchGo(prims, size, root, base, freshId).value.patch;
    var files := TopFiles(Kept(root, prior), root.children);
    var added := ScannedEntries(prims, size, Unlimited, files);
    ModifiedCovers(prims, size, Unlimited, root, prior);
    assert Names(Modified(prims, size, Unlimited, root, prior)) <= Names(patch.changed);
    forall p | |p| == 1 && IsFileAt(root, p) && p !in Names(prior)
      ensures p in Names(patch.changed)
    {
      var content := Lookup(root, p).node.content;
      TopFilesExact(prims, size, Unlimited, root, prior, p, content);
      var k :| 0 <= k < |files| && files[k] == Scanned(p, content);
      assert added[k] in patch.changed;
    }
  }

  /** Every change of patch.go can be restored from its staged chunks. */
  lemma PatchGoStaged(prims: Primitives, size: int, root: Node, base: BaseFile<Entry>, freshId: Id)
    requires WellFormed(root) && PatchGo(prims, size, root, base, freshId).Ok?
    requires HexDigests(prims) && DigestsDistinguish(prims, root)
    ensures var staged := PatchGo(prims, size, root, base, freshId).value;
            AllStaged(prims, Unlimited, root, staged.patch.changed, staged.blobs)
  {
    var prior := base.entries;
    var files := TopFiles(Kept(root, prior), root.children);
    ModifiedProduced(prims, size, Unlimited, root, prior);
    ModifiedStaged(prims, size, Unlimited, root, prior);
    forall k | 0 <= k < |files| ensures Lookup(root, files[k].path) == Found(File(files[k].content)) {
      TopFilesExact(prims, size, Unlimited, root, prior, files[k].path, files[k].content);
    }
    ScanKeepsStaged(prims, size, Unlimited, root, Modified(prims, size, Unlimited, root, prior),
                    ModifiedStore(prims, size, Unlimited, root, prior), files);
  }

  /** patch.go gets through only when no entry of the source directory is a directory. */
  lemma PatchGoNeedsFlatTree(prims: Primitives, size: int, root: Node, base: BaseFile<Entry>, freshId: Id)
    requires WellFormed(root) && PatchGo(prims, size, root, base, freshId).Ok?
    ensures forall k :: 0 <= k < |root.children| ==> root.children[k].node.File?
  {
    var prior := base.entries;
    var cs := root.children;
    forall k | 0 <= k < |cs| ensures cs[k].node.File? {
      LookupTop(root, k);
      if [cs[k].name] in Kept(root, prior) {
        var e :| e in prior && Lookup(root, e.fileName).Found? && e.fileName == [cs[k].name];
        var j :| 0 <= j < |prior| && prior[j] == e;
        assert PriorOk(prims, size, Unlimited, root, prior[j]);
      }
    }
  }

  /** A source directory with one subdirectory holding one file. */
  function NestedTree(content: Bytes): Node {
    Dir([Child("d", Dir([Child("f", File(content))]))])
  }

  /**
   The tree `d/f`, unchanged since the version that lists `d/f`: the current
   revision reports no changes, while patch.go fails reading the directory
   `d` as a file.
   */
  lemma NestedUnchangedTree(prims: Primitives, size: int, content: Bytes, baseId: Id, freshId: Id)
    requires size > 0
    ensures var prior := [Entry(["d", "f"], prims.sha256Hex(content), 0)];
            && PatchGo(prims, size, NestedTree(content), BaseFile(1, baseId, prior), freshId) == Err(IsADirectory(["d"]))
            && CreatePatch(prims, size, NestedTree(content), PrevPatch(baseId, prior), freshId) == Err(NoChanges)
  {
    var root := NestedTree(content);
    var prior := [Entry(["d", "f"], prims.sha256Hex(content), 0)];
    NestedLookup(content);
    NestedPrior(prims, size, content, prior);
    var d := Draft([], [], {["d", "f"]}, map[]);
    assert TopLevelPass(prims, size, d, root.children) == Err(IsADirectory(["d"])) by {
      assert root.children[..0] == [];
    }
    NestedScanSkips(content);
    assert ScanPass(prims, size, Current, d, []) == Ok(d);
  }

  lemma NestedLookup(content: Bytes)
    ensures Lookup(NestedTree(content), ["d", "f"]) == Found(File(content))
  {
    var root := NestedTree(content);
    assert ChildIndex(root.children, "d") == Some(0);
    assert ChildIndex(root.children[0].node.children, "f") == Some(0);
    assert ["d", "f"][1..] == ["f"];
    assert ["f"][1..] == [];
  }

  /** Against the one unchanged previous entry, the first loop records only the surviving path. */
  lemma NestedPrior(prims: Primitives, size: int, content: Bytes, prior: seq<Entry>)
    requires prior == [Entry(["d", "f"], prims.sha256Hex(content), 0)]
    requires Lookup(NestedTree(content), ["d", "f"]) == Found(File(content))
    ensures PriorPass(prims, size, Unlimited, NestedTree(content), prior) == Ok(Draft([], [], {["d", "f"]}, map[]))
    ensures PriorPass(prims, size, Current, NestedTree(content), prior) == Ok(Draft([], [], {["d", "f"]}, map[]))
  {
    var root := NestedTree(content);
    assert prior[..0] == [];
    assert ContentAt(root, ["d", "f"]) == content;
    assert Kept(root, prior) == {["d", "f"]};
  }

  /** The scan of the current revision passes over the surviving file. */
  lemma NestedScanSkips(content: Bytes)
    ensures Scan(NestedTree(content), {["d", "f"]}) == Ok([])
  {
    var root := NestedTree(content);
    var sub := root.children[0].node;
    assert [] + ["d"] == ["d"];
    assert ["d"] + ["f"] == ["d", "f"];
    assert ScanDir(sub, ["d"], {["d", "f"]}, 1) == [];
    assert ScanDir(sub, ["d"], {["d", "f"]}, 0) == [];
    assert ScanDir(root, [], {["d", "f"]}, 1) == [];
    assert ScanDir(root, [], {["d", "f"]}, 0) == [];
  }

  // ----- fetchBase (patch.go, and the same steps in main.go's `patch`)

  /**
   The previous version for patch.go and main.go: the tagged document, read
   as a base file, which must be version 1.
   */
  function FetchBase<E>(remote: Remote<E>, tagName: string): (r: Result<BaseFile<E>, Error>)
    ensures remote.db.NoDb? ==> r == Err(DatabaseNotFound)
    ensures remote.db.Unreadable? ==> r == Err(DatabaseUnreadable)
    ensures remote.db.Present? && FindTag(remote.db.db, tagName) == Nil ==> r == Err(TagNotFound(tagName))
    ensures remote.db.Present? && FindTag(remote.db.db, tagName) != Nil && !HasEntry(remote.db.db, FindTag(remote.db.db, tagName)) ==>
              r == Err(InconsistentDatabase(tagName))
    ensures r.Ok? <==> && remote.db.Present?
                       && var id := FindTag(remote.db.db, tagName);
                          id != Nil && HasEntry(remote.db.db, id) && id in remote.docs && remote.docs[id].version == 1
    ensures r.Ok? ==> r.value == BaseView(remote.docs[FindTag(remote.db.db, tagName)])
  {
    match remote.db
    case NoDb => Err(DatabaseNotFound)
    case Unreadable => Err(DatabaseUnreadable)
    case Present(db) =>
      var tag := FindTag(db, tagName);
      if tag == Nil then Err(TagNotFound(tagName))
      else match FindEntry(db, tag)
        case None => Err(InconsistentDatabase(tagName))
        case Some(entry) =>
          if entry.id !in remote.docs then Err(DocumentNotFound(entry.id))
          else
            var b := BaseView(remote.docs[entry.id]);
            if b.version != 1 then Err(WrongVersion(b.version)) else Ok(b)
  }

  /**
   A tag whose head is a patch reads as a base file with no entries, since a
   patch document has no `Entries` field.
   */
  lemma PatchHeadReadsAsEmptyBase<E>(remote: Remote<E>, tagName: string, p: PatchFile<E>)
    requires remote.db.Present? && FindTag(remote.db.db, tagName) != Nil && HasEntry(remote.db.db, FindTag(remote.db.db, tagName))
    requires p.version == 1 && remote.docs == map[FindTag(remote.db.db, tagName) := PatchDocument(p)]
    ensures FetchBase(remote, tagName) == Ok(BaseFile(1, p.id, []))
  {
  }

  // ----- main.go

  /** `md5sum` and `os.ReadFile` of one top-level entry in `createBase`; a directory cannot be read. */
  function BaseEntryOf(prims: Primitives, c: Child): Result<LegacyEntry, Error> {
    if c.node.Dir? then Err(IsADirectory([c.name]))
    else Ok(LegacyEntry([c.name], prims.md5Hex(c.node.content), c.node.content))
  }

  function BaseEntries(prims: Primitives, cs: seq<Child>): (r: Result<seq<LegacyEntry>, Error>)
    ensures r.Ok? <==> forall k :: 0 <= k < |cs| ==> cs[k].node.File?
    ensures r.Ok? ==> |r.value| == |cs| && forall k :: 0 <= k < |cs| ==> r.value[k] == BaseEntryOf(prims, cs[k]).value
  {
    if |cs| == 0 then Ok([])
    else
      var n := |cs| - 1;
      var init := BaseEntries(prims, cs[..n]);
      assert forall k :: 0 <= k < n ==> cs[..n][k] == cs[k];
      if init.Err? then Err(init.error)
      else
        var e :- BaseEntryOf(prims, cs[n]);
        Ok(init.value + [e])
  }

  /**
   `createBase` of main.go: one entry per entry of the source directory, with
   its MD5 and its content; a subdirectory is fatal, and an empty directory
   gives a base file without entries.
   */
  function MainCreateBase(prims: Primitives, root: Node, freshId: Id): (r: Result<BaseFile<LegacyEntry>, Error>)
    ensures root.File? ==> r == Err(NotADirectory([]))
    ensures r.Ok? <==> root.Dir? && forall k :: 0 <= k < |root.children| ==> root.children[k].node.File?
    ensures r.Ok? ==> && r.value.version == 1 && r.value.id == freshId && |r.value.entries| == |root.children|
                      && forall k :: 0 <= k < |root.children| ==>
                           r.value.entries[k] == LegacyEntry([root.children[k].name], prims.md5Hex(root.children[k].node.content),
                                                             root.children[k].node.content)
  {
    if root.File? then Err(NotADirectory([]))
    else
      var entries :- BaseEntries(prims, root.children);
      Ok(BaseFile(1, freshId, entries))
  }

  /** The patch lists of main.go's `createPatch`. */
  datatype LegacyDraft = LegacyDraft(changed: seq<LegacyEntry>, deleted: seq<Tombstone>)

  /** One previous entry: gone is deleted, a different MD5 is a change carrying the new content. */
  function LegacyStep(prims: Primitives, root: Node, d: LegacyDraft, e: LegacyEntry): Result<LegacyDraft, Error> {
    match Lookup(root, e.fileName)
    case NotDir => Err(NotADirectory(e.fileName))
    case Missing => Ok(LegacyDraft(d.changed, d.deleted + [Tombstone(e.fileName)]))
    case Found(node) =>
      if node.Dir? then Err(IsADirectory(e.fileName))
      else if prims.md5Hex(node.content) != e.md5 then
        Ok(LegacyDraft(d.changed + [LegacyEntry(e.fileName, prims.md5Hex(node.content), node.content)], d.deleted))
      else Ok(d)
  }

  /** The paths a legacy file list names. */
  function LegacyNames(entries: seq<LegacyEntry>): set<Path> {
    set e | e in entries :: e.fileName
  }

  /** Whether the loop gets past previous entry `e`: its path is gone or a regular file. */
  predicate LegacyOk(root: Node, e: LegacyEntry) {
    Lookup(root, e.fileName) == Missing || IsFileAt(root, e.fileName)
  }

  /** Every previous entry can be visited. */
  predicate AllLegacyOk(root: Node, prior: seq<LegacyEntry>) {
    forall j :: 0 <= j < |prior| ==> LegacyOk(root, prior[j])
  }

  lemma AllLegacyOkSnoc(root: Node, prior: seq<LegacyEntry>)
    requires |prior| > 0
    ensures AllLegacyOk(root, prior) <==> AllLegacyOk(root, prior[..|prior| - 1]) && LegacyOk(root, prior[|prior| - 1])
  {
    var init := prior[..|prior| - 1];
    assert forall j :: 0 <= j < |init| ==> init[j] == prior[j];
  }

  /** The previous file `e` exists now with another MD5. */
  predicate LegacyDiffers(prims: Primitives, root: Node, e: LegacyEntry) {
    IsFileAt(root, e.fileName) && prims.md5Hex(ContentAt(root, e.fileName)) != e.md5
  }

  /** Reference definition: a deletion for every previous file that is gone, in order. */
  function LegacyGone(root: Node, prior: seq<LegacyEntry>): seq<Tombstone> {
    if |prior| == 0 then []
    else
      var e := prior[|prior| - 1];
      LegacyGone(root, prior[..|prior| - 1]) + (if Lookup(root, e.fileName) == Missing then [Tombstone(e.fileName)] else [])
  }

  /** Reference definition: the current entry of every previous file whose MD5 differs, in order. */
  function LegacyChanged(prims: Primitives, root: Node, prior: seq<LegacyEntry>): seq<LegacyEntry> {
    if |prior| == 0 then []
    else
      var e := prior[|prior| - 1];
      var content := ContentAt(root, e.fileName);
      LegacyChanged(prims, root, prior[..|prior| - 1])
        + (if LegacyDiffers(prims, root, e) then [LegacyEntry(e.fileName, prims.md5Hex(content), content)] else [])
  }

  /** The loop of main.go's `createPatch` over the previous entries, in order. */
  function LegacyPass(prims: Primitives, root: Node, prior: seq<LegacyEntry>): (r: Result<LegacyDraft, Error>)
    ensures r.Ok? <==> AllLegacyOk(root, prior)
    ensures r.Ok? ==> r.value == LegacyDraft(LegacyChanged(prims, root, prior), LegacyGone(root, prior))
  {
    if |prior| == 0 then Ok(LegacyDraft([], []))
    else
      var n := |prior| - 1;
      var before := LegacyPass(prims, root, prior[..n]);
      AllLegacyOkSnoc(root, prior);
      if before.Err? then Err(before.error)
      else
        var e := prior[n];
        assert IsFileAt(root, e.fileName) ==> ContentAt(root, e.fileName) == Lookup(root, e.fileName).node.content;
        LegacyStep(prims, root, before.value, e)
  }

  /** The deletions are exactly the previous paths that are gone. */
  lemma {:induction false} LegacyGoneExact(root: Node, prior: seq<LegacyEntry>)
    ensures forall t :: t in LegacyGone(root, prior) ==> Lookup(root, t.fileName) == Missing && t.fileName in LegacyNames(prior)
    ensures forall e :: e in prior && Lookup(root, e.fileName) == Missing ==> Deletes(LegacyGone(root, prior), e.fileName)
  {
    if |prior| > 0 {
      var n := |prior| - 1;
      var init := prior[..n];
      var e := prior[n];
      LegacyGoneExact(root, init);
      assert prior == init + [e];
      var g := LegacyGone(root, prior);
      var g0 := LegacyGone(root, init);
      assert g[..|g0|] == g0;
      forall x | x in prior && Lookup(root, x.fileName) == Missing
        ensures Deletes(g, x.fileName)
      {
        if x in init {
          var t :| t in g0 && t.fileName == x.fileName;
          var i :| 0 <= i < |g0| && g0[i] == t;
          assert g[i] == g0[i];
        } else {
          assert g[|g0|] == Tombstone(e.fileName);
        }
      }
    }
  }

  /** Every change is a previous path whose MD5 differs, with the file's current MD5 and content. */
  lemma {:induction false} LegacyChangedFrom(prims: Primitives, root: Node, prior: seq<LegacyEntry>)
    ensures forall c :: c in LegacyChanged(prims, root, prior) ==>
              && IsFileAt(root, c.fileName) && c.content == ContentAt(root, c.fileName) && c.md5 == prims.md5Hex(c.content)
              && exists e :: e in prior && e.fileName == c.fileName && LegacyDiffers(prims, root, e)
  {
    if |prior| > 0 {
      var n := |prior| - 1;
      LegacyChangedFrom(prims, root, prior[..n]);
      assert prior == prior[..n] + [prior[n]];
    }
  }

  /** Every previous file whose MD5 differs has a change. */
  lemma {:induction false} LegacyChangedCovers(prims: Primitives, root: Node, prior: seq<LegacyEntry>)
    ensures forall e :: e in prior && LegacyDiffers(prims, root, e) ==> e.fileName in LegacyNames(LegacyChanged(prims, root, prior))
  {
    if |prior| > 0 {
      var n := |prior| - 1;
      var init := prior[..n];
      var e := prior[n];
      LegacyChangedCovers(prims, root, init);
      assert prior == init + [e];
      var m := LegacyChanged(prims, root, prior);
      var m0 := LegacyChanged(prims, root, init);
      assert LegacyNames(m0) <= LegacyNames(m);
      if LegacyDiffers(prims, root, e) {
        assert m[|m0|].fileName == e.fileName;
      }
    }
  }

  /**
   `createPatch` of main.go: a deletion for each previous file that is gone,
   a change carrying the new content for each one whose MD5 differs, and
   nothing for new files; "no changes" when both lists are empty.
   */
  function MainCreatePatch(prims: Primitives, root: Node, base: BaseFile<LegacyEntry>, freshId: Id): (r: Result<PatchFile<LegacyEntry>, Error>)
    ensures r.Ok? ==> && r.value.version == 1 && r.value.id == freshId && r.value.baseId == base.id
                      && |r.value.changed| + |r.value.deleted| > 0
    ensures r.Ok? ==> && AllLegacyOk(root, base.entries)
                      && r.value.changed == LegacyChanged(prims, root, base.entries)
                      && r.value.deleted == LegacyGone(root, base.entries)
    ensures AllLegacyOk(root, base.entries) ==> (r.Err? <==> r == Err(NoChanges))
  {
    var d :- LegacyPass(prims, root, base.entries);
    if |d.changed| == 0 && |d.deleted| == 0 then Err(NoChanges)
    else Ok(PatchFile(1, freshId, base.id, d.changed, d.deleted))
  }

  /**
   main.go's patch: deletions exactly for the previous files that are gone,
   changes exactly for the previous files whose MD5 differs, each carrying
   the current content and MD5, and no entry for a path the base file does
   not list.
   */
  lemma MainPatchSound(prims: Primitives, root: Node, base: BaseFile<LegacyEntry>, freshId: Id)
    requires MainCreatePatch(prims, root, base, freshId).Ok?
    ensures var patch := MainCreatePatch(prims, root, base, freshId).value;
            && (forall t :: t in patch.deleted ==> Lookup(root, t.fileName) == Missing && t.fileName in LegacyNames(base.entries))
            && (forall e :: e in base.entries && Lookup(root, e.fileName) == Missing ==> Deletes(patch.deleted, e.fileName))
            && (forall c :: c in patch.changed ==>
                  && IsFileAt(root, c.fileName) && c.content == ContentAt(root, c.fileName) && c.md5 == prims.md5Hex(c.content)
                  && exists e :: e in base.entries && e.fileName == c.fileName && LegacyDiffers(prims, root, e))
            && (forall e :: e in base.entries && LegacyDiffers(prims, root, e) ==> e.fileName in LegacyNames(patch.changed))
            && LegacyNames(patch.changed) <= LegacyNames(base.entries)
  {
    LegacyGoneExact(root, base.entries);
    LegacyChangedFrom(prims, root, base.entries);
    LegacyChangedCovers(prims, root, base.entries);
  }

  /** Diffing a flat directory against its own base file finds no changes. */
  lemma MainBaseThenPatch(prims: Primitives, root: Node, baseId: Id, freshId: Id)
    requires WellFormed(root) && MainCreateBase(prims, root, baseId).Ok?
    ensures MainCreatePatch(prims, root, MainCreateBase(prims, root, baseId).value, freshId) == Err(NoChanges)
  {
    var base := MainCreateBase(prims, root, baseId).value;
    var prior := base.entries;
    forall j | 0 <= j < |prior|
      ensures IsFileAt(root, prior[j].fileName) && !LegacyDiffers(prims, root, prior[j])
    {
      LookupTop(root, j);
    }
    LegacyQuiet(prims, root, prior);
  }

  /** Previous files all present with their MD5s leave both lists empty. */
  lemma {:induction false} LegacyQuiet(prims: Primitives, root: Node, prior: seq<LegacyEntry>)
    requires forall j :: 0 <= j < |prior| ==> IsFileAt(root, prior[j].fileName) && !LegacyDiffers(prims, root, prior[j])
    ensures AllLegacyOk(root, prior) && LegacyGone(root, prior) == [] && LegacyChanged(prims, root, prior) == []
  {
    if |prior| > 0 {
      var n := |prior| - 1;
      assert forall j :: 0 <= j < n ==> prior[..n][j] == prior[j];
      LegacyQuiet(prims, root, prior[..n]);
      AllLegacyOkSnoc(root, prior);
    }
  }
}
