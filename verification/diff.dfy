/**
 Building a version or patch from a source tree (`createPatch`,
 `processPatchDir` and `processPatchFile` in patchcreation.go, and `base` with
 `NullPrevPatchProvider` in version.go).

 The previous version's files are visited in order: a path that no longer
 exists becomes a deletion, an existing file with a different digest is
 staged as a change, and every existing path joins the set the scan skips.
 Then the tree is scanned and every file the scan reaches is staged as a
 change. No change at all is an error.
 */
module Diff {
  import opened Wrappers
  import opened Types
  import opened Chunking
  import opened Storage
  import opened Codec
  import opened SourceTree
  import opened Flattening

  /** `PrevPatchProvider`: the previous version's ID and its files. */
  datatype PrevPatch = PrevPatch(id: Id, changed: seq<Entry>)

  /** `NullPrevPatchProvider`: no previous version. */
  const NullPrev: PrevPatch := PrevPatch(Nil, [])

  /** What the passes accumulate: the patch lists, the paths the scan skips, and the staged chunks. */
  datatype Draft = Draft(changed: seq<Entry>, deleted: seq<Tombstone>, surviving: set<Path>, staged: Store)

  const EmptyDraft: Draft := Draft([], [], {}, map[])

  /** A staged version: the patch document and the chunk files beside it. */
  datatype StagedVersion = StagedVersion(patch: PatchFile<Entry>, blobs: Store)

  /**
   How one file is staged: `processPatchFile` and `processBaseFile` flush the
   zlib stream and refuse more than 1024 chunks; `add` in patch.go does neither.
   */
  datatype Packing = Packing(limited: bool, flushed: bool)

  const Current: Packing := Packing(true, true)
  const Unlimited: Packing := Packing(false, false)

  /** The paths a file list names. */
  function Names(entries: seq<Entry>): set<Path> {
    set e | e in entries :: e.fileName
  }

  /** The bytes of the regular file at `p`, empty when there is none. */
  function ContentAt(root: Node, p: Path): Bytes {
    if IsFileAt(root, p) then Lookup(root, p).node.content else []
  }

  /** `c` is the entry staging the file at its path with `pk` makes. */
  ghost predicate Produced(prims: Primitives, size: int, pk: Packing, root: Node, c: Entry) {
    && IsFileAt(root, c.fileName)
    && StageFile(prims, size, pk.limited, pk.flushed, c.fileName, ContentAt(root, c.fileName)).Ok?
    && StageFile(prims, size, pk.limited, pk.flushed, c.fileName, ContentAt(root, c.fileName)).value.entry == c
  }

  /** The chunks of `c`, fetched from `store`, reassemble the compressed `content`. */
  ghost predicate StagedFor(prims: Primitives, pk: Packing, store: Store, c: Entry, content: Bytes) {
    FetchChunks(store, c.hash, c.additionalChunks + 1) == Ok(Compress(prims, pk.flushed, content))
  }

  ghost predicate AllProduced(prims: Primitives, size: int, pk: Packing, root: Node, changed: seq<Entry>) {
    forall i :: 0 <= i < |changed| ==> Produced(prims, size, pk, root, changed[i])
  }

  /** Every listed entry can be restored from `store`. */
  ghost predicate AllStaged(prims: Primitives, pk: Packing, root: Node, changed: seq<Entry>, store: Store) {
    forall i :: 0 <= i < |changed| ==> StagedFor(prims, pk, store, changed[i], ContentAt(root, changed[i].fileName))
  }

  /** Equal digests only for equal contents, among the files of the tree. */
  ghost predicate DigestsDistinguish(prims: Primitives, root: Node) {
    forall p, q :: IsFileAt(root, p) && IsFileAt(root, q)
                   && prims.sha256Hex(ContentAt(root, p)) == prims.sha256Hex(ContentAt(root, q))
                   ==> ContentAt(root, p) == ContentAt(root, q)
  }

  /** `processPatchFile` (or `add`): stage one file and append its entry to the changes. */
  function AddChanged(prims: Primitives, size: int, pk: Packing, d: Draft, path: Path, content: Bytes): (r: Result<Draft, Error>)
    ensures r.Err? <==> StageFile(prims, size, pk.limited, pk.flushed, path, content).Err?
    ensures r.Err? ==> r.error == StageFile(prims, size, pk.limited, pk.flushed, path, content).error
    ensures r.Ok? ==> var st := StageFile(prims, size, pk.limited, pk.flushed, path, content).value;
                      r.value == Draft(d.changed + [st.entry], d.deleted, d.surviving, WriteChunks(d.staged, st.entry.hash, st.chunks))
  {
    var st :- StageFile(prims, size, pk.limited, pk.flushed, path, content);
    Ok(Draft(d.changed + [st.entry], d.deleted, d.surviving, WriteChunks(d.staged, st.entry.hash, st.chunks)))
  }

  /**
   Writing the chunks of another file of the tree leaves an entry of the tree
   restorable: a different digest names different chunks, and an equal digest
   means equal contents, so equal chunks.
   */
  lemma KeepsOne(prims: Primitives, size: int, pk: Packing, root: Node, store: Store, c: Entry, path: Path)
    requires HexDigests(prims) && DigestsDistinguish(prims, root)
    requires IsFileAt(root, path) && StageFile(prims, size, pk.limited, pk.flushed, path, ContentAt(root, path)).Ok?
    requires Produced(prims, size, pk, root, c) && StagedFor(prims, pk, store, c, ContentAt(root, c.fileName))
    ensures var st := StageFile(prims, size, pk.limited, pk.flushed, path, ContentAt(root, path)).value;
            StagedFor(prims, pk, WriteChunks(store, st.entry.hash, st.chunks), c, ContentAt(root, c.fileName))
  {
    var content := ContentAt(root, path);
    var st := StageFile(prims, size, pk.limited, pk.flushed, path, content).value;
    var h := st.entry.hash;
    var w := WriteChunks(store, h, st.chunks);
    if c.hash == h {
      assert ContentAt(root, c.fileName) == content;
      StageFileRenamed(prims, size, pk.limited, pk.flushed, path, c.fileName, content);
      FetchWritten(store, h, st.chunks);
    } else {
      assert |c.hash| == |h| == 64;
      FetchOther(store, h, st.chunks, c.hash, c.additionalChunks + 1);
    }
  }

  /** The file just staged can be restored from the chunks written for it. */
  lemma NewStaged(prims: Primitives, size: int, pk: Packing, root: Node, store: Store, path: Path)
    requires StageFile(prims, size, pk.limited, pk.flushed, path, ContentAt(root, path)).Ok?
    ensures var st := StageFile(prims, size, pk.limited, pk.flushed, path, ContentAt(root, path)).value;
            StagedFor(prims, pk, WriteChunks(store, st.entry.hash, st.chunks), st.entry, ContentAt(root, st.entry.fileName))
  {
    var st := StageFile(prims, size, pk.limited, pk.flushed, path, ContentAt(root, path)).value;
    FetchWritten(store, st.entry.hash, st.chunks);
  }

  /** Staging one more file of the tree keeps every listed file restorable, the new one included. */
  lemma AddKeepsStaged(prims: Primitives, size: int, pk: Packing, root: Node, changed: seq<Entry>, store: Store, path: Path)
    requires HexDigests(prims) && DigestsDistinguish(prims, root)
    requires IsFileAt(root, path) && StageFile(prims, size, pk.limited, pk.flushed, path, ContentAt(root, path)).Ok?
    requires AllProduced(prims, size, pk, root, changed) && AllStaged(prims, pk, root, changed, store)
    ensures var st := StageFile(prims, size, pk.limited, pk.flushed, path, ContentAt(root, path)).value;
            AllStaged(prims, pk, root, changed + [st.entry], WriteChunks(store, st.entry.hash, st.chunks))
  {
    var st := StageFile(prims, size, pk.limited, pk.flushed, path, ContentAt(root, path)).value;
    var w := WriteChunks(store, st.entry.hash, st.chunks);
    forall i | 0 <= i < |changed|
      ensures StagedFor(prims, pk, w, changed[i], ContentAt(root, changed[i].fileName))
    {
      KeepsOne(prims, size, pk, root, store, changed[i], path);
    }
    NewStaged(prims, size, pk, root, store, path);
    AllStagedSnoc(prims, pk, root, changed, st.entry, w);
  }

  lemma AllStagedSnoc(prims: Primitives, pk: Packing, root: Node, changed: seq<Entry>, c: Entry, store: Store)
    requires AllStaged(prims, pk, root, changed, store) && StagedFor(prims, pk, store, c, ContentAt(root, c.fileName))
    ensures AllStaged(prims, pk, root, changed + [c], store)
  {
    var all := changed + [c];
    assert forall i :: 0 <= i < |changed| ==> all[i] == changed[i];
  }

  /**
   One previous file in the first loop of `createPatch`: `exists` fails through
   a regular file (not a directory), a missing path becomes a deletion, and
   `os.ReadFile` of a directory fails.
   */
  function PriorStep(prims: Primitives, size: int, pk: Packing, root: Node, d: Draft, e: Entry): Result<Draft, Error> {
    match Lookup(root, e.fileName)
    case NotDir => Err(NotADirectory(e.fileName))
    case Missing => Ok(Draft(d.changed, d.deleted + [Tombstone(e.fileName)], d.surviving, d.staged))
    case Found(node) =>
      if node.Dir? then Err(IsADirectory(e.fileName))
      else
        var kept := Draft(d.changed, d.deleted, d.surviving + {e.fileName}, d.staged);
        if prims.sha256Hex(node.content) == e.hash then Ok(kept)
        else AddChanged(prims, size, pk, kept, e.fileName, node.content)
  }

  /** Whether the first loop gets past previous file `e`. */
  predicate PriorOk(prims: Primitives, size: int, pk: Packing, root: Node, e: Entry) {
    match Lookup(root, e.fileName)
    case NotDir => false
    case Missing => true
    case Found(node) =>
      node.File? && (prims.sha256Hex(node.content) == e.hash
                     || StageFile(prims, size, pk.limited, pk.flushed, e.fileName, node.content).Ok?)
  }

  /** The previous file `e` exists now with other contents. */
  predicate Differs(prims: Primitives, root: Node, e: Entry) {
    IsFileAt(root, e.fileName) && prims.sha256Hex(ContentAt(root, e.fileName)) != e.hash
  }

  /** Reference definition: a deletion for every previous file that is gone, in order. */
  function Gone(root: Node, prior: seq<Entry>): seq<Tombstone> {
    if |prior| == 0 then []
    else
      var e := prior[|prior| - 1];
      Gone(root, prior[..|prior| - 1]) + (if Lookup(root, e.fileName) == Missing then [Tombstone(e.fileName)] else [])
  }

  /** Reference definition: the previous paths that still exist. */
  function Kept(root: Node, prior: seq<Entry>): set<Path> {
    set e | e in prior && Lookup(root, e.fileName).Found? :: e.fileName
  }

  /** Reference definition: a fresh entry for every previous file whose contents differ, in order. */
  function Modified(prims: Primitives, size: int, pk: Packing, root: Node, prior: seq<Entry>): seq<Entry> {
    if |prior| == 0 then []
    else
      var e := prior[|prior| - 1];
      var st := StageFile(prims, size, pk.limited, pk.flushed, e.fileName, ContentAt(root, e.fileName));
      Modified(prims, size, pk, root, prior[..|prior| - 1]) + (if Differs(prims, root, e) && st.Ok? then [st.value.entry] else [])
  }

  /** The stages of the modified files, one after the other. */
  function ModifiedStore(prims: Primitives, size: int, pk: Packing, root: Node, prior: seq<Entry>): Store {
    if |prior| == 0 then map[]
    else
      var e := prior[|prior| - 1];
      var st := StageFile(prims, size, pk.limited, pk.flushed, e.fileName, ContentAt(root, e.fileName));
      var before := ModifiedStore(prims, size, pk, root, prior[..|prior| - 1]);
      if Differs(prims, root, e) && st.Ok? then WriteChunks(before, st.value.entry.hash, st.value.chunks) else before
  }

  lemma KeptSnoc(root: Node, prior: seq<Entry>)
    requires |prior| > 0
    ensures var e := prior[|prior| - 1];
            Kept(root, prior) == Kept(root, prior[..|prior| - 1]) + (if Lookup(root, e.fileName).Found? then {e.fileName} else {})
  {
    var n := |prior| - 1;
    assert prior == prior[..n] + [prior[n]];
  }

  /** One step of the first loop agrees with the reference definitions. */
  lemma PriorStepAgrees(prims: Primitives, size: int, pk: Packing, root: Node, prior: seq<Entry>)
    requires |prior| > 0
    ensures var n := |prior| - 1;
            var d := Draft(Modified(prims, size, pk, root, prior[..n]), Gone(root, prior[..n]), Kept(root, prior[..n]),
                           ModifiedStore(prims, size, pk, root, prior[..n]));
            var r := PriorStep(prims, size, pk, root, d, prior[n]);
            && (r.Ok? <==> PriorOk(prims, size, pk, root, prior[n]))
            && (r.Ok? ==> r.value == Draft(Modified(prims, size, pk, root, prior), Gone(root, prior), Kept(root, prior),
                                           ModifiedStore(prims, size, pk, root, prior)))
  {
    var n := |prior| - 1;
    var e := prior[n];
    KeptSnoc(root, prior);
    var st := StageFile(prims, size, pk.limited, pk.flushed, e.fileName, ContentAt(root, e.fileName));
    var before := ModifiedStore(prims, size, pk, root, prior[..n]);
    assert Modified(prims, size, pk, root, prior)
        == Modified(prims, size, pk, root, prior[..n]) + (if Differs(prims, root, e) && st.Ok? then [st.value.entry] else []);
    assert ModifiedStore(prims, size, pk, root, prior)
        == if Differs(prims, root, e) && st.Ok? then WriteChunks(before, st.value.entry.hash, st.value.chunks) else before;
    assert Gone(root, prior) == Gone(root, prior[..n]) + (if Lookup(root, e.fileName) == Missing then [Tombstone(e.fileName)] else []);
    match Lookup(root, e.fileName)
    case NotDir =>
    case Missing =>
      assert Modified(prims, size, pk, root, prior) + [] == Modified(prims, size, pk, root, prior);
    case Found(node) =>
      if node.File? {
        assert ContentAt(root, e.fileName) == node.content;
        assert Gone(root, prior[..n]) + [] == Gone(root, prior[..n]);
      }
  }

  /** The first loop gets past every previous file. */
  predicate AllPriorOk(prims: Primitives, size: int, pk: Packing, root: Node, prior: seq<Entry>) {
    forall j :: 0 <= j < |prior| ==> PriorOk(prims, size, pk, root, prior[j])
  }

  lemma AllPriorOkSnoc(prims: Primitives, size: int, pk: Packing, root: Node, prior: seq<Entry>)
    requires |prior| > 0
    ensures AllPriorOk(prims, size, pk, root, prior) <==>
            AllPriorOk(prims, size, pk, root, prior[..|prior| - 1]) && PriorOk(prims, size, pk, root, prior[|prior| - 1])
  {
    var init := prior[..|prior| - 1];
    assert forall j :: 0 <= j < |init| ==> init[j] == prior[j];
  }

  /**
   The first loop of `createPatch`, over the previous version's files in order.
   It fails exactly when some previous path is unreadable or unstageable, and
   otherwise its lists are the reference definitions above.
   */
  function PriorPass(prims: Primitives, size: int, pk: Packing, root: Node, prior: seq<Entry>): (r: Result<Draft, Error>)
    ensures r.Ok? <==> AllPriorOk(prims, size, pk, root, prior)
    ensures r.Ok? ==> r.value == Draft(Modified(prims, size, pk, root, prior), Gone(root, prior), Kept(root, prior),
                                       ModifiedStore(prims, size, pk, root, prior))
  {
    if |prior| == 0 then Ok(EmptyDraft)
    else
      var n := |prior| - 1;
      var before := PriorPass(prims, size, pk, root, prior[..n]);
      AllPriorOkSnoc(prims, size, pk, root, prior);
      if before.Err? then Err(before.error)
      else
        PriorStepAgrees(prims, size, pk, root, prior);
        PriorStep(prims, size, pk, root, before.value, prior[n])
  }

  /** What the first loop's reference lists promise, one entry at a time. */
  lemma {:induction false} GoneExact(root: Node, prior: seq<Entry>)
    ensures forall i :: 0 <= i < |Gone(root, prior)| ==>
              Lookup(root, Gone(root, prior)[i].fileName) == Missing && Gone(root, prior)[i].fileName in Names(prior)
    ensures forall e :: e in prior && Lookup(root, e.fileName) == Missing ==> Deletes(Gone(root, prior), e.fileName)
  {
    if |prior| > 0 {
      var n := |prior| - 1;
      var init := prior[..n];
      var e := prior[n];
      GoneExact(root, init);
      assert prior == init + [e];
      var g := Gone(root, prior);
      var g0 := Gone(root, init);
      assert g[..|g0|] == g0;
      forall x | x in prior && Lookup(root, x.fileName) == Missing
        ensures Deletes(g, x.fileName)
      {
        if x in init {
          var i :| 0 <= i < |g0| && g0[i].fileName == x.fileName;
          assert g[i] == g0[i];
        } else {
          assert g[|g0|] == Tombstone(e.fileName);
        }
      }
    }
  }

  /** Every modified entry is what staging its file produces. */
  lemma {:induction false} ModifiedProduced(prims: Primitives, size: int, pk: Packing, root: Node, prior: seq<Entry>)
    ensures AllProduced(prims, size, pk, root, Modified(prims, size, pk, root, prior))
  {
    if |prior| > 0 {
      var n := |prior| - 1;
      ModifiedProduced(prims, size, pk, root, prior[..n]);
      var m := Modified(prims, size, pk, root, prior);
      var m0 := Modified(prims, size, pk, root, prior[..n]);
      assert forall i :: 0 <= i < |m0| ==> m[i] == m0[i];
    }
  }

  /** Every modified entry stands for a previous file whose contents differ now. */
  lemma {:induction false} ModifiedFrom(prims: Primitives, size: int, pk: Packing, root: Node, prior: seq<Entry>)
    ensures forall c :: c in Modified(prims, size, pk, root, prior) ==>
              exists e :: e in prior && e.fileName == c.fileName && Differs(prims, root, e)
  {
    if |prior| > 0 {
      var n := |prior| - 1;
      var init := prior[..n];
      var e := prior[n];
      var m0 := Modified(prims, size, pk, root, init);
      var st := StageFile(prims, size, pk.limited, pk.flushed, e.fileName, ContentAt(root, e.fileName));
      ModifiedFrom(prims, size, pk, root, init);
      assert Modified(prims, size, pk, root, prior) == m0 + (if Differs(prims, root, e) && st.Ok? then [st.value.entry] else []);
      forall c | c in Modified(prims, size, pk, root, prior)
        ensures exists e' :: e' in prior && e'.fileName == c.fileName && Differs(prims, root, e')
      {
        if c in m0 {
          var w :| w in init && w.fileName == c.fileName && Differs(prims, root, w);
          assert w in prior;
        } else {
          assert c == st.value.entry && e in prior;
        }
      }
    }
  }

  /** When the first loop gets through, every previous file whose contents differ has a modified entry. */
  lemma {:induction false} ModifiedCovers(prims: Primitives, size: int, pk: Packing, root: Node, prior: seq<Entry>)
    requires AllPriorOk(prims, size, pk, root, prior)
    ensures forall e :: e in prior && Differs(prims, root, e) ==> e.fileName in Names(Modified(prims, size, pk, root, prior))
  {
    if |prior| > 0 {
      var n := |prior| - 1;
      var init := prior[..n];
      var e := prior[n];
      AllPriorOkSnoc(prims, size, pk, root, prior);
      ModifiedCovers(prims, size, pk, root, init);
      assert prior == init + [e];
      var m := Modified(prims, size, pk, root, prior);
      var m0 := Modified(prims, size, pk, root, init);
      assert Names(m0) <= Names(m);
      if Differs(prims, root, e) {
        var st := StageFile(prims, size, pk.limited, pk.flushed, e.fileName, ContentAt(root, e.fileName));
        assert ContentAt(root, e.fileName) == Lookup(root, e.fileName).node.content;
        assert st.Ok? && m == m0 + [st.value.entry];
        assert st.value.entry in m;
      }
    }
  }

  /** The chunks the first loop stages restore every modified file. */
  lemma {:induction false} ModifiedStaged(prims: Primitives, size: int, pk: Packing, root: Node, prior: seq<Entry>)
    requires HexDigests(prims) && DigestsDistinguish(prims, root)
    ensures AllStaged(prims, pk, root, Modified(prims, size, pk, root, prior), ModifiedStore(prims, size, pk, root, prior))
  {
    if |prior| > 0 {
      var n := |prior| - 1;
      var e := prior[n];
      ModifiedStaged(prims, size, pk, root, prior[..n]);
      ModifiedProduced(prims, size, pk, root, prior[..n]);
      var st := StageFile(prims, size, pk.limited, pk.flushed, e.fileName, ContentAt(root, e.fileName));
      if Differs(prims, root, e) && st.Ok? {
        AddKeepsStaged(prims, size, pk, root, Modified(prims, size, pk, root, prior[..n]), ModifiedStore(prims, size, pk, root, prior[..n]), e.fileName);
      }
    }
  }

  /** Every scanned file can be staged. */
  predicate AllStageable(prims: Primitives, size: int, pk: Packing, files: seq<Scanned>) {
    forall k :: 0 <= k < |files| ==> StageFile(prims, size, pk.limited, pk.flushed, files[k].path, files[k].content).Ok?
  }

  lemma AllStageableSnoc(prims: Primitives, size: int, pk: Packing, files: seq<Scanned>)
    requires |files| > 0
    ensures AllStageable(prims, size, pk, files) <==>
            AllStageable(prims, size, pk, files[..|files| - 1])
            && StageFile(prims, size, pk.limited, pk.flushed, files[|files| - 1].path, files[|files| - 1].content).Ok?
  {
    var init := files[..|files| - 1];
    assert forall k :: 0 <= k < |init| ==> init[k] == files[k];
  }

  /** Reference definition: the entry of every scanned file, in scan order. */
  function ScannedEntries(prims: Primitives, size: int, pk: Packing, files: seq<Scanned>): seq<Entry>
    requires AllStageable(prims, size, pk, files)
  {
    seq(|files|, k requires 0 <= k < |files| => StageFile(prims, size, pk.limited, pk.flushed, files[k].path, files[k].content).value.entry)
  }

  /** The stages of the scanned files, one after the other. */
  function ScanStore(prims: Primitives, size: int, pk: Packing, store: Store, files: seq<Scanned>): Store
    requires AllStageable(prims, size, pk, files)
  {
    if |files| == 0 then store
    else
      var n := |files| - 1;
      AllStageableSnoc(prims, size, pk, files);
      var st := StageFile(prims, size, pk.limited, pk.flushed, files[n].path, files[n].content).value;
      WriteChunks(ScanStore(prims, size, pk, store, files[..n]), st.entry.hash, st.chunks)
  }

  lemma ScannedEntriesSnoc(prims: Primitives, size: int, pk: Packing, files: seq<Scanned>)
    requires |files| > 0 && AllStageable(prims, size, pk, files)
    ensures AllStageable(prims, size, pk, files[..|files| - 1])
    ensures var n := |files| - 1;
            ScannedEntries(prims, size, pk, files)
            == ScannedEntries(prims, size, pk, files[..n])
               + [StageFile(prims, size, pk.limited, pk.flushed, files[n].path, files[n].content).value.entry]
  {
    AllStageableSnoc(prims, size, pk, files);
  }

  /**
   The rest of `processPatchDir`: the scanned files staged in scan order. It
   fails exactly when some file cannot be staged, and otherwise appends the
   scanned files' entries to the changes.
   */
  function ScanPass(prims: Primitives, size: int, pk: Packing, d: Draft, files: seq<Scanned>): (r: Result<Draft, Error>)
    ensures r.Ok? <==> AllStageable(prims, size, pk, files)
    ensures r.Ok? ==> r.value == Draft(d.changed + ScannedEntries(prims, size, pk, files), d.deleted, d.surviving,
                                       ScanStore(prims, size, pk, d.staged, files))
  {
    if |files| == 0 then Ok(d)
    else
      var n := |files| - 1;
      var before := ScanPass(prims, size, pk, d, files[..n]);
      AllStageableSnoc(prims, size, pk, files);
      if before.Err? then Err(before.error)
      else
        var r := AddChanged(prims, size, pk, before.value, files[n].path, files[n].content);
        if r.Ok? then
          ScannedEntriesSnoc(prims, size, pk, files);
          var st := StageFile(prims, size, pk.limited, pk.flushed, files[n].path, files[n].content).value;
          assert d.changed + ScannedEntries(prims, size, pk, files)
              == (d.changed + ScannedEntries(prims, size, pk, files[..n])) + [st.entry];
          assert ScanStore(prims, size, pk, d.staged, files)
              == WriteChunks(ScanStore(prims, size, pk, d.staged, files[..n]), st.entry.hash, st.chunks);
          r
        else r
  }

  /** Staging scanned files of the tree keeps every listed file restorable, the new ones included. */
  lemma {:induction false} ScanKeepsStaged(prims: Primitives, size: int, pk: Packing, root: Node, changed: seq<Entry>, store: Store, files: seq<Scanned>)
    requires forall k :: 0 <= k < |files| ==> Lookup(root, files[k].path) == Found(File(files[k].content))
    requires AllStageable(prims, size, pk, files)
    requires AllProduced(prims, size, pk, root, changed)
    ensures AllProduced(prims, size, pk, root, changed + ScannedEntries(prims, size, pk, files))
    ensures HexDigests(prims) && DigestsDistinguish(prims, root) && AllStaged(prims, pk, root, changed, store) ==>
              AllStaged(prims, pk, root, changed + ScannedEntries(prims, size, pk, files), ScanStore(prims, size, pk, store, files))
  {
    if |files| > 0 {
      var n := |files| - 1;
      var f := files[n];
      ScannedEntriesSnoc(prims, size, pk, files);
      ScanKeepsStaged(prims, size, pk, root, changed, store, files[..n]);
      var before := changed + ScannedEntries(prims, size, pk, files[..n]);
      assert changed + ScannedEntries(prims, size, pk, files) == before + [StageFile(prims, size, pk.limited, pk.flushed, f.path, f.content).value.entry];
      assert ContentAt(root, f.path) == f.content;
      if HexDigests(prims) && DigestsDistinguish(prims, root) && AllStaged(prims, pk, root, changed, store) {
        AddKeepsStaged(prims, size, pk, root, before, ScanStore(prims, size, pk, store, files[..n]), f.path);
      }
    }
  }

  /**
   `createPatch`: both passes, then "no changes" when both lists are empty.
   A staged patch is version 1 with the fresh ID and the provider's ID as its
   base; its deletions are the previous files that are gone, and its changes
   are the modified previous files followed by every file the scan finds
   outside the surviving previous paths.
   */
  function CreatePatch(prims: Primitives, size: int, root: Node, pp: PrevPatch, freshId: Id): (r: Result<StagedVersion, Error>)
    ensures r.Ok? ==> && r.value.patch.version == 1 && r.value.patch.id == freshId && r.value.patch.baseId == pp.id
                      && |r.value.patch.changed| + |r.value.patch.deleted| > 0
    ensures r.Ok? ==> && root.Dir? && AllPriorOk(prims, size, Current, root, pp.changed)
                      && AllStageable(prims, size, Current, Scan(root, Kept(root, pp.changed)).value)
                      && r.value.patch.deleted == Gone(root, pp.changed)
                      && r.value.patch.changed == Modified(prims, size, Current, root, pp.changed)
                                                  + ScannedEntries(prims, size, Current, Scan(root, Kept(root, pp.changed)).value)
                      && r.value.blobs == ScanStore(prims, size, Current, ModifiedStore(prims, size, Current, root, pp.changed),
                                                    Scan(root, Kept(root, pp.changed)).value)
    ensures AllPriorOk(prims, size, Current, root, pp.changed) && root.Dir?
            && AllStageable(prims, size, Current, Scan(root, Kept(root, pp.changed)).value) ==>
              (r.Err? <==> r == Err(NoChanges))
  {
    var d :- PriorPass(prims, size, Current, root, pp.changed);
    var files :- Scan(root, d.surviving);
    var all :- ScanPass(prims, size, Current, d, files);
    if |all.changed| == 0 && |all.deleted| == 0 then Err(NoChanges)
    else Ok(StagedVersion(PatchFile(1, freshId, pp.id, all.changed, all.deleted), all.staged))
  }

  /** The scan reaches exactly the files of the tree that are not previous paths. */
  lemma ScanFindsNew(prims: Primitives, size: int, pk: Packing, root: Node, prior: seq<Entry>, p: Path, content: Bytes)
    requires root.Dir? && WellFormed(root) && AllPriorOk(prims, size, pk, root, prior)
    ensures Scanned(p, content) in Scan(root, Kept(root, prior)).value <==>
              Lookup(root, p) == Found(File(content)) && p !in Names(prior)
  {
    var skip := Kept(root, prior);
    ScanExact(root, skip, p, content);
    if Lookup(root, p) == Found(File(content)) && p !in Names(prior) {
      forall s | s in skip ensures IsFileAt(root, s) {
        var e :| e in prior && Lookup(root, e.fileName).Found? && e.fileName == s;
        var j :| 0 <= j < |prior| && prior[j] == e;
        assert PriorOk(prims, size, pk, root, prior[j]);
      }
      UnskippedWhenSkipIsFiles(root, skip, p);
    }
    if Lookup(root, p) == Found(File(content)) && p in Names(prior) {
      var e :| e in prior && e.fileName == p;
      assert p in skip;
    }
  }

  /** The scanned files exist in the tree with the scanned contents. */
  lemma ScannedInTree(prims: Primitives, size: int, pk: Packing, root: Node, prior: seq<Entry>)
    requires root.Dir? && WellFormed(root) && AllPriorOk(prims, size, pk, root, prior)
    ensures var files := Scan(root, Kept(root, prior)).value;
            forall k :: 0 <= k < |files| ==> Lookup(root, files[k].path) == Found(File(files[k].content))
                                             && files[k].path !in Names(prior)
  {
    var files := Scan(root, Kept(root, prior)).value;
    forall k | 0 <= k < |files|
      ensures Lookup(root, files[k].path) == Found(File(files[k].content)) && files[k].path !in Names(prior)
    {
      ScanFindsNew(prims, size, pk, root, prior, files[k].path, files[k].content);
    }
  }

  /** Each deletion is a previous path that is gone now, and every previous path that is gone is deleted. */
  lemma PatchDeletions(prims: Primitives, size: int, root: Node, pp: PrevPatch, freshId: Id)
    requires CreatePatch(prims, size, root, pp, freshId).Ok?
    ensures var patch := CreatePatch(prims, size, root, pp, freshId).value.patch;
            && (forall t :: t in patch.deleted ==> Lookup(root, t.fileName) == Missing && t.fileName in Names(pp.changed))
            && (forall e :: e in pp.changed && Lookup(root, e.fileName) == Missing ==> Deletes(patch.deleted, e.fileName))
  {
    GoneExact(root, pp.changed);
  }

  /** The entries of scanned files are produced from the tree and are not previous paths. */
  lemma ScannedEntriesNew(prims: Primitives, size: int, pk: Packing, root: Node, prior: seq<Entry>)
    requires root.Dir? && WellFormed(root) && AllPriorOk(prims, size, pk, root, prior)
    requires AllStageable(prims, size, pk, Scan(root, Kept(root, prior)).value)
    ensures var added := ScannedEntries(prims, size, pk, Scan(root, Kept(root, prior)).value);
            && AllProduced(prims, size, pk, root, added)
            && forall c :: c in added ==> c.fileName !in Names(prior)
  {
    var files := Scan(root, Kept(root, prior)).value;
    var added := ScannedEntries(prims, size, pk, files);
    ScannedInTree(prims, size, pk, root, prior);
    ScanKeepsStaged(prims, size, pk, root, [], map[], files);
    assert [] + added == added;
    ScannedEntriesPaths(prims, size, pk, files, Names(prior));
  }

  /** The entries of scanned files are named by the scanned paths. */
  lemma ScannedEntriesPaths(prims: Primitives, size: int, pk: Packing, files: seq<Scanned>, avoid: set<Path>)
    requires AllStageable(prims, size, pk, files)
    requires forall k :: 0 <= k < |files| ==> files[k].path !in avoid
    ensures forall c :: c in ScannedEntries(prims, size, pk, files) ==> c.fileName !in avoid
  {
    var added := ScannedEntries(prims, size, pk, files);
    forall c | c in added ensures c.fileName !in avoid {
      var k :| 0 <= k < |files| && added[k] == c;
      assert c.fileName == files[k].path;
    }
  }

  /** Produced entries name files of the tree. */
  lemma ProducedNames(prims: Primitives, size: int, pk: Packing, root: Node, changed: seq<Entry>)
    requires AllProduced(prims, size, pk, root, changed)
    ensures forall p :: p in Names(changed) ==> IsFileAt(root, p)
  {
    forall p | p in Names(changed) ensures IsFileAt(root, p) {
      var c :| c in changed && c.fileName == p;
      var i :| 0 <= i < |changed| && changed[i] == c;
      assert Produced(prims, size, pk, root, changed[i]);
    }
  }

  lemma AllProducedAppend(prims: Primitives, size: int, pk: Packing, root: Node, a: seq<Entry>, b: seq<Entry>)
    requires AllProduced(prims, size, pk, root, a) && AllProduced(prims, size, pk, root, b)
    ensures AllProduced(prims, size, pk, root, a + b)
  {
    forall i | 0 <= i < |a + b| ensures Produced(prims, size, pk, root, (a + b)[i]) {
      if i >= |a| {
        assert (a + b)[i] == b[i - |a|];
      }
    }
  }

  /** The two passes' changes, before they are put into a patch. */
  lemma ChangesOfPasses(prims: Primitives, size: int, pk: Packing, root: Node, prior: seq<Entry>)
    requires root.Dir? && WellFormed(root) && AllPriorOk(prims, size, pk, root, prior)
    requires AllStageable(prims, size, pk, Scan(root, Kept(root, prior)).value)
    ensures var all := Modified(prims, size, pk, root, prior) + ScannedEntries(prims, size, pk, Scan(root, Kept(root, prior)).value);
            && AllProduced(prims, size, pk, root, all)
            && (forall c :: c in all && c.fileName in Names(prior) ==>
                  exists e :: e in prior && e.fileName == c.fileName && Differs(prims, root, e))
  {
    var modified := Modified(prims, size, pk, root, prior);
    var added := ScannedEntries(prims, size, pk, Scan(root, Kept(root, prior)).value);
    ModifiedProduced(prims, size, pk, root, prior);
    ModifiedFrom(prims, size, pk, root, prior);
    ScannedEntriesNew(prims, size, pk, root, prior);
    AllProducedAppend(prims, size, pk, root, modified, added);
  }

  /**
   Every change is the staged entry of a file of the tree (so it carries the
   file's current digest), and a change to a previous path is made only when
   some previous entry for that path has a different digest.
   */
  lemma PatchChanges(prims: Primitives, size: int, root: Node, pp: PrevPatch, freshId: Id)
    requires WellFormed(root) && CreatePatch(prims, size, root, pp, freshId).Ok?
    ensures var patch := CreatePatch(prims, size, root, pp, freshId).value.patch;
            && AllProduced(prims, size, Current, root, patch.changed)
            && (forall c :: c in patch.changed && c.fileName in Names(pp.changed) ==>
                  exists e :: e in pp.changed && e.fileName == c.fileName && Differs(prims, root, e))
  {
    ChangesOfPasses(prims, size, Current, root, pp.changed);
  }

  /**
   Nothing is missed: a previous file that still exists either keeps its
   digest or has a change, and every other file of the tree has a change.
   */
  lemma PatchCovers(prims: Primitives, size: int, root: Node, pp: PrevPatch, freshId: Id)
    requires WellFormed(root) && CreatePatch(prims, size, root, pp, freshId).Ok?
    ensures var patch := CreatePatch(prims, size, root, pp, freshId).value.patch;
            && (forall e :: e in pp.changed && Lookup(root, e.fileName) != Missing ==>
                  IsFileAt(root, e.fileName)
                  && (prims.sha256Hex(ContentAt(root, e.fileName)) == e.hash || e.fileName in Names(patch.changed)))
            && (forall p :: IsFileAt(root, p) && p !in Names(pp.changed) ==> p in Names(patch.changed))
  {
    var prior := pp.changed;
    var patch := CreatePatch(prims, size, root, pp, freshId).value.patch;
    var modified := Modified(prims, size, Current, root, prior);
    var files := Scan(root, Kept(root, prior)).value;
    var added := ScannedEntries(prims, size, Current, files);
    ModifiedCovers(prims, size, Current, root, prior);
    assert Names(modified) <= Names(patch.changed);
    forall e | e in prior && Lookup(root, e.fileName) != Missing
      ensures IsFileAt(root, e.fileName)
    {
      var j :| 0 <= j < |prior| && prior[j] == e;
      assert PriorOk(prims, size, Current, root, prior[j]);
    }
    forall p | IsFileAt(root, p) && p !in Names(prior)
      ensures p in Names(patch.changed)
    {
      var content := Lookup(root, p).node.content;
      ScanFindsNew(prims, size, Current, root, prior, p, content);
      var k :| 0 <= k < |files| && files[k] == Scanned(p, content);
      assert added[k] in patch.changed;
    }
  }

  /** No path is both changed and deleted: changes are files of the tree, deletions are gone. */
  lemma PatchDisjoint(prims: Primitives, size: int, root: Node, pp: PrevPatch, freshId: Id)
    requires WellFormed(root) && CreatePatch(prims, size, root, pp, freshId).Ok?
    ensures var patch := CreatePatch(prims, size, root, pp, freshId).value.patch;
            forall c :: c in patch.changed ==> !Deletes(patch.deleted, c.fileName)
  {
    var patch := CreatePatch(prims, size, root, pp, freshId).value.patch;
    PatchChanges(prims, size, root, pp, freshId);
    PatchDeletions(prims, size, root, pp, freshId);
    forall c | c in patch.changed ensures !Deletes(patch.deleted, c.fileName) {
      var i :| 0 <= i < |patch.changed| && patch.changed[i] == c;
      assert Produced(prims, size, Current, root, patch.changed[i]);
    }
  }

  /**
   Every change can be restored from the staged chunks, provided digests are
   64 characters long and distinguish the tree's files.
   */
  lemma PatchStaged(prims: Primitives, size: int, root: Node, pp: PrevPatch, freshId: Id)
    requires WellFormed(root) && CreatePatch(prims, size, root, pp, freshId).Ok?
    requires HexDigests(prims) && DigestsDistinguish(prims, root)
    ensures var staged := CreatePatch(prims, size, root, pp, freshId).value;
            AllStaged(prims, Current, root, staged.patch.changed, staged.blobs)
  {
    var prior := pp.changed;
    ModifiedProduced(prims, size, Current, root, prior);
    ModifiedStaged(prims, size, Current, root, prior);
    ScannedInTree(prims, size, Current, root, prior);
    ScanKeepsStaged(prims, size, Current, root, Modified(prims, size, Current, root, prior), ModifiedStore(prims, size, Current, root, prior),
                    Scan(root, Kept(root, prior)).value);
  }

  /** The tree holds exactly the previous files, each with its recorded digest. */
  ghost predicate Unchanged(prims: Primitives, root: Node, prior: seq<Entry>) {
    && (forall e :: e in prior ==> IsFileAt(root, e.fileName) && prims.sha256Hex(ContentAt(root, e.fileName)) == e.hash)
    && (forall p :: IsFileAt(root, p) ==> p in Names(prior))
  }

  /** An unchanged tree leaves both passes with nothing to record. */
  lemma UnchangedPassesEmpty(prims: Primitives, size: int, pk: Packing, root: Node, prior: seq<Entry>)
    requires root.Dir? && WellFormed(root) && AllPriorOk(prims, size, pk, root, prior)
    requires AllStageable(prims, size, pk, Scan(root, Kept(root, prior)).value)
    ensures Unchanged(prims, root, prior) ==>
              && |Gone(root, prior)| == 0 && |Modified(prims, size, pk, root, prior)| == 0
              && |ScannedEntries(prims, size, pk, Scan(root, Kept(root, prior)).value)| == 0
  {
    var files := Scan(root, Kept(root, prior)).value;
    var gone := Gone(root, prior);
    var modified := Modified(prims, size, pk, root, prior);
    GoneExact(root, prior);
    ModifiedFrom(prims, size, pk, root, prior);
    ScannedInTree(prims, size, pk, root, prior);
    if |gone| > 0 {
      assert gone[0].fileName in Names(prior);
    }
    if |modified| > 0 {
      assert modified[0] in modified;
    }
    if |files| > 0 {
      assert IsFileAt(root, files[0].path);
    }
  }

  /** When both passes record nothing, the tree is unchanged. */
  lemma PassesEmptyUnchanged(prims: Primitives, size: int, pk: Packing, root: Node, prior: seq<Entry>)
    requires root.Dir? && WellFormed(root) && AllPriorOk(prims, size, pk, root, prior)
    requires AllStageable(prims, size, pk, Scan(root, Kept(root, prior)).value)
    requires |Gone(root, prior)| == 0 && |Modified(prims, size, pk, root, prior)| == 0
    requires |Scan(root, Kept(root, prior)).value| == 0
    ensures Unchanged(prims, root, prior)
  {
    var gone := Gone(root, prior);
    var modified := Modified(prims, size, pk, root, prior);
    GoneExact(root, prior);
    ModifiedCovers(prims, size, pk, root, prior);
    forall e | e in prior
      ensures IsFileAt(root, e.fileName) && prims.sha256Hex(ContentAt(root, e.fileName)) == e.hash
    {
      var j :| 0 <= j < |prior| && prior[j] == e;
      assert PriorOk(prims, size, pk, root, prior[j]);
      assert !Deletes(gone, e.fileName);
      assert Names(modified) == {};
    }
    forall p | IsFileAt(root, p) ensures p in Names(prior) {
      ScanFindsNew(prims, size, pk, root, prior, p, Lookup(root, p).node.content);
    }
  }

  /**
   "no changes" exactly when the tree holds the previous files with their
   digests and nothing else (once the passes themselves get through).
   */
  lemma NoChangesExactly(prims: Primitives, size: int, root: Node, pp: PrevPatch, freshId: Id)
    requires root.Dir? && WellFormed(root) && AllPriorOk(prims, size, Current, root, pp.changed)
    requires AllStageable(prims, size, Current, Scan(root, Kept(root, pp.changed)).value)
    ensures CreatePatch(prims, size, root, pp, freshId) == Err(NoChanges) <==> Unchanged(prims, root, pp.changed)
  {
    UnchangedPassesEmpty(prims, size, Current, root, pp.changed);
    if CreatePatch(prims, size, root, pp, freshId) == Err(NoChanges) {
      PassesEmptyUnchanged(prims, size, Current, root, pp.changed);
    }
  }

  /**
   `base` of version.go: with no previous version the patch has a zero base
   ID and no deletions, and its changes are the staged entries of every file
   the full scan finds; an empty tree is "no changes".
   */
  lemma RootVersion(prims: Primitives, size: int, root: Node, freshId: Id)
    requires WellFormed(root)
    ensures var r := CreatePatch(prims, size, root, NullPrev, freshId);
            r.Ok? ==> && r.value.patch.baseId == Nil && r.value.patch.deleted == []
                      && AllStageable(prims, size, Current, Scan(root, {}).value)
                      && r.value.patch.changed == ScannedEntries(prims, size, Current, Scan(root, {}).value)
                      && forall p :: IsFileAt(root, p) ==> p in Names(r.value.patch.changed)
  {
    if CreatePatch(prims, size, root, NullPrev, freshId).Ok? {
      assert Kept(root, []) == {};
      assert Names([]) == {};
      assert Gone(root, []) == [];
      assert Modified(prims, size, Current, root, []) == [];
      assert [] + ScannedEntries(prims, size, Current, Scan(root, {}).value) == ScannedEntries(prims, size, Current, Scan(root, {}).value);
      PatchCovers(prims, size, root, NullPrev, freshId);
    }
  }

  /** Without a previous version, "no changes" means a tree without files. */
  lemma RootVersionEmpty(prims: Primitives, size: int, root: Node, freshId: Id)
    requires WellFormed(root)
    ensures root.Dir? && AllStageable(prims, size, Current, Scan(root, {}).value) ==>
              (CreatePatch(prims, size, root, NullPrev, freshId) == Err(NoChanges) <==> forall p :: !IsFileAt(root, p))
  {
    assert Kept(root, []) == {};
    if root.Dir? && AllStageable(prims, size, Current, Scan(root, {}).value) {
      assert Unchanged(prims, root, []) <==> forall p :: !IsFileAt(root, p);
      NoChangesExactly(prims, size, root, NullPrev, freshId);
    }
  }


  /** A path is changed by some entry of the list exactly when the list's last entry for it exists. */
  lemma LastChangedNames(changed: seq<Entry>, p: Path)
    ensures LastChanged(EntryName, changed, p).Some? <==> p in Names(changed)
  {
    if p in Names(changed) {
      var c :| c in changed && c.fileName == p;
      var i :| 0 <= i < |changed| && changed[i] == c;
      assert EntryName(changed[i]) == p;
    }
  }

  /** What `DiffApply` needs of a patch, stated without the passes that built it. */
  ghost predicate Describes(prims: Primitives, size: int, pk: Packing, root: Node, prior: seq<Entry>, changed: seq<Entry>, deleted: seq<Tombstone>) {
    && AllProduced(prims, size, pk, root, changed)
    && (forall t :: t in deleted ==> Lookup(root, t.fileName) == Missing)
    && (forall e :: e in prior && Lookup(root, e.fileName) == Missing ==> Deletes(deleted, e.fileName))
    && (forall e :: e in prior && Lookup(root, e.fileName) != Missing ==>
          IsFileAt(root, e.fileName)
          && (prims.sha256Hex(ContentAt(root, e.fileName)) == e.hash || e.fileName in Names(changed)))
    && (forall p :: IsFileAt(root, p) && p !in Names(prior) ==> p in Names(changed))
  }

  /** The paths of the applied snapshot are the files of the tree. */
  lemma ApplyFiles(prims: Primitives, size: int, pk: Packing, root: Node, prior: seq<Entry>, changed: seq<Entry>, deleted: seq<Tombstone>, s: Snapshot<Entry>)
    requires Describes(prims, size, pk, root, prior, changed, deleted)
    requires forall p :: p in s.files <==> p in Names(prior)
    requires forall p :: p in s.files ==> s.files[p] in prior && s.files[p].fileName == p
    ensures forall p :: p in ApplyLayer(EntryName, s, Layer(changed, deleted)).files <==> IsFileAt(root, p)
  {
    var after := ApplyLayer(EntryName, s, Layer(changed, deleted));
    forall p | IsFileAt(root, p) ensures p in after.files {
      LastChangedNames(changed, p);
      assert !Deletes(deleted, p);
    }
    forall p | p in after.files ensures IsFileAt(root, p) {
      AppliedIsFile(prims, size, pk, root, prior, changed, deleted, s, p);
    }
  }

  lemma AppliedIsFile(prims: Primitives, size: int, pk: Packing, root: Node, prior: seq<Entry>, changed: seq<Entry>, deleted: seq<Tombstone>, s: Snapshot<Entry>, p: Path)
    requires Describes(prims, size, pk, root, prior, changed, deleted)
    requires forall p :: p in s.files ==> s.files[p] in prior && s.files[p].fileName == p
    requires p in ApplyLayer(EntryName, s, Layer(changed, deleted)).files
    ensures IsFileAt(root, p)
  {
    if LastChanged(EntryName, changed, p).Some? {
      var i :| 0 <= i < |changed| && changed[i] == LastChanged(EntryName, changed, p).value;
      assert Produced(prims, size, pk, root, changed[i]);
    } else {
      var e := s.files[p];
      assert Lookup(root, p) != Missing;
    }
  }

  /** Every file of the applied snapshot carries the digest of the tree's file. */
  lemma ApplyDigests(prims: Primitives, size: int, pk: Packing, root: Node, prior: seq<Entry>, changed: seq<Entry>, deleted: seq<Tombstone>, s: Snapshot<Entry>)
    requires Describes(prims, size, pk, root, prior, changed, deleted)
    requires forall p :: p in s.files <==> p in Names(prior)
    requires forall p :: p in s.files ==> s.files[p] in prior && s.files[p].fileName == p
    ensures var after := ApplyLayer(EntryName, s, Layer(changed, deleted));
            forall p :: p in after.files ==> after.files[p].hash == prims.sha256Hex(ContentAt(root, p))
  {
    var after := ApplyLayer(EntryName, s, Layer(changed, deleted));
    forall p | p in after.files ensures after.files[p].hash == prims.sha256Hex(ContentAt(root, p)) {
      LastChangedNames(changed, p);
      if LastChanged(EntryName, changed, p).Some? {
        var i :| 0 <= i < |changed| && changed[i] == LastChanged(EntryName, changed, p).value;
        assert Produced(prims, size, pk, root, changed[i]);
      } else {
        var e := s.files[p];
        assert e in prior && Lookup(root, e.fileName) != Missing;
      }
    }
  }

  /**
   Applying the patch on top of the previous version restores the tree: with
   a snapshot holding one previous entry under each previous path, the
   result holds exactly the tree's files, each with its current digest, and
   every previous path that is gone is tombstoned.
   */
  lemma DiffApply(prims: Primitives, size: int, root: Node, pp: PrevPatch, freshId: Id, s: Snapshot<Entry>)
    requires WellFormed(root) && CreatePatch(prims, size, root, pp, freshId).Ok?
    requires forall p :: p in s.files <==> p in Names(pp.changed)
    requires forall p :: p in s.files ==> s.files[p] in pp.changed && s.files[p].fileName == p
    ensures var patch := CreatePatch(prims, size, root, pp, freshId).value.patch;
            var after := ApplyLayer(EntryName, s, Layer(patch.changed, patch.deleted));
            && (forall p :: p in after.files <==> IsFileAt(root, p))
            && (forall p :: p in after.files ==> after.files[p].hash == prims.sha256Hex(ContentAt(root, p)))
            && (forall e :: e in pp.changed && Lookup(root, e.fileName) == Missing ==> e.fileName in after.tombstones)
  {
    var patch := CreatePatch(prims, size, root, pp, freshId).value.patch;
    PatchChanges(prims, size, root, pp, freshId);
    PatchCovers(prims, size, root, pp, freshId);
    PatchDeletions(prims, size, root, pp, freshId);
    assert Describes(prims, size, Current, root, pp.changed, patch.changed, patch.deleted);
    ApplyFiles(prims, size, Current, root, pp.changed, patch.changed, patch.deleted, s);
    ApplyDigests(prims, size, Current, root, pp.changed, patch.changed, patch.deleted, s);
  }
}
