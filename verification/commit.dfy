/**
 Publishing a staged version (`commit` in commit.go and in main.go): check
 the tag name, find the staged document named by `base:<guid>` or
 `patch:<guid>`, refuse an ID the database already holds, move or add the
 tag, append one entry, then upload the data files, the document and the
 database in that order, and clean the staging directory only when all three
 succeeded.

 The staging directory is modelled by file name within it; the backend by the
 maps of `Storage.Remote`. Which uploads fail is a parameter.
 */
module Commit {
  import opened Wrappers
  import opened Types
  import opened Database
  import opened Chain
  import opened Storage

  /** `strings.HasPrefix`. */
  predicate HasPrefix(s: string, prefix: string) {
    |prefix| <= |s| && s[..|prefix|] == prefix
  }

  datatype StagedKind = BaseKind | PatchKind

  /** The staged version a commit argument names. */
  datatype StagedRef = StagedRef(kind: StagedKind, guid: string)

  /** The argument that names `ref`. */
  function Unparse(ref: StagedRef): string {
    match ref.kind
    case BaseKind => "base:" + ref.guid
    case PatchKind => "patch:" + ref.guid
  }

  /** The staged-ID parsing of `commit`: `base:` is tried first, then `patch:`. */
  function ParseStaged(arg: string): (r: Result<StagedRef, Error>)
    ensures r.Ok? ==> Unparse(r.value) == arg
    ensures r.Ok? && r.value.kind == BaseKind <==> HasPrefix(arg, "base:")
    ensures r.Err? <==> !HasPrefix(arg, "base:") && !HasPrefix(arg, "patch:")
    ensures r.Err? ==> r.error == InvalidStagedId(arg)
  {
    if HasPrefix(arg, "base:") then
      assert arg == "base:" + arg[5..];
      Ok(StagedRef(BaseKind, arg[5..]))
    else if HasPrefix(arg, "patch:") then
      assert arg == "patch:" + arg[6..];
      Ok(StagedRef(PatchKind, arg[6..]))
    else Err(InvalidStagedId(arg))
  }

  /** Every reference is parsed back from the argument that names it. */
  lemma ParseUnparse(ref: StagedRef)
    ensures ParseStaged(Unparse(ref)) == Ok(ref)
  {
    var arg := Unparse(ref);
    if ref.kind == BaseKind {
      assert arg[5..] == ref.guid;
    } else {
      assert arg[0] == 'p';
      assert !HasPrefix(arg, "base:");
      assert arg[6..] == ref.guid;
    }
  }

  /** The staged document's file name within the staging directory. */
  function DocName(ref: StagedRef): string {
    ref.guid + ".json"
  }

  /** What `commit` takes from the staged document. */
  datatype Prepared<E> = Prepared(docName: string, doc: Document<E>, id: Id, baseId: Id, dataFiles: seq<string>)

  /**
   The data files a staged document lists: one per entry (per changed entry
   of a patch), named by `dataName`; main.go uploads none.
   */
  function DataFiles<E>(dataName: Option<E -> string>, kind: StagedKind, doc: Document<E>): (r: seq<string>)
    ensures dataName.None? ==> r == []
    ensures dataName.Some? && kind == BaseKind ==>
              |r| == |BaseView(doc).entries| && forall i :: 0 <= i < |r| ==> r[i] == dataName.value(BaseView(doc).entries[i])
    ensures dataName.Some? && kind == PatchKind ==>
              |r| == |PatchView(doc).changed| && forall i :: 0 <= i < |r| ==> r[i] == dataName.value(PatchView(doc).changed[i])
  {
    match dataName
    case None => []
    case Some(f) =>
      var es := if kind == BaseKind then BaseView(doc).entries else PatchView(doc).changed;
      seq(|es|, i requires 0 <= i < |es| => f(es[i]))
  }

  /**
   Everything `commit` checks before touching the database: the tag name
   first, then the argument, then the staged file (`readBaseFile` or
   `readPatchFile`, which abort when it is missing or has a version other
   than 1). A base has no base; a patch names its own.
   */
  function Prepare<E>(dataName: Option<E -> string>, tag: string, arg: string, staging: Staging<E>): (r: Result<Prepared<E>, Error>)
    ensures !ValidTagName(tag) ==> r == Err(InvalidTagName(tag))
    ensures ValidTagName(tag) && ParseStaged(arg).Err? ==> r == Err(ParseStaged(arg).error)
    ensures r.Ok? ==> ValidTagName(tag) && ParseStaged(arg).Ok?
    ensures r.Ok? ==> var ref := ParseStaged(arg).value;
                      && r.value.docName == DocName(ref)
                      && r.value.docName in staging.docs && r.value.doc == staging.docs[r.value.docName]
                      && r.value.doc.version == 1
                      && r.value.id == r.value.doc.id
                      && r.value.baseId == (if ref.kind == BaseKind then Nil else PatchView(r.value.doc).baseId)
                      && r.value.dataFiles == DataFiles(dataName, ref.kind, r.value.doc)
    ensures r.Err? && ValidTagName(tag) && ParseStaged(arg).Ok? ==>
              var name := DocName(ParseStaged(arg).value);
              if name !in staging.docs then r.error == StagedFileMissing(name)
              else r.error == WrongVersion(staging.docs[name].version)
  {
    if !ValidTagName(tag) then Err(InvalidTagName(tag))
    else
      var ref :- ParseStaged(arg);
      var name := DocName(ref);
      if name !in staging.docs then Err(StagedFileMissing(name))
      else
        var doc := staging.docs[name];
        if doc.version != 1 then Err(WrongVersion(doc.version))
        else
          var baseId := if ref.kind == BaseKind then Nil else PatchView(doc).baseId;
          Ok(Prepared(name, doc, doc.id, baseId, DataFiles(dataName, ref.kind, doc)))
  }

  /**
   The database `commit` uploads: a missing `db.json` counts as empty, any
   other download failure aborts, an existing ID aborts, otherwise the tag is
   moved or added and one entry is appended.
   */
  function NextDb(state: DbState, tag: string, id: Id, baseId: Id): (r: Result<Db, Error>)
    ensures state.Unreadable? ==> r == Err(DatabaseUnreadable)
    ensures state.Present? && HasEntry(state.db, id) ==> r == Err(DuplicateEntry(id))
    ensures r.Ok? <==> state.NoDb? || (state.Present? && !HasEntry(state.db, id))
    ensures r.Ok? ==> var db := if state.Present? then state.db else EmptyDb;
                      r.value == AddEntry(Db(UpsertTag(db.tags, tag, id), db.entries), id, baseId)
  {
    match state
    case Unreadable => Err(DatabaseUnreadable)
    case NoDb => Ok(AddEntry(Db(UpsertTag([], tag, id), []), id, baseId))
    case Present(db) =>
      if HasEntry(db, id) then Err(DuplicateEntry(id))
      else Ok(AddEntry(Db(UpsertTag(db.tags, tag, id), db.entries), id, baseId))
  }

  /**
   After a commit the tag resolves to the new ID, other tags are unchanged,
   the new entry is found, old entries are found as before, and a chain that
   ended at the new version's base now continues to the new version.
   */
  lemma NextDbResolves(db: Db, tag: string, id: Id, baseId: Id, other: string, c: seq<DbEntry>)
    requires NextDb(Present(db), tag, id, baseId).Ok? && id != Nil && other != tag
    requires Linked(db, baseId, c)
    ensures var next := NextDb(Present(db), tag, id, baseId).value;
            && FindTag(next, tag) == id
            && FindTag(next, other) == FindTag(db, other)
            && FindEntry(next, id) == Some(DbEntry(id, baseId))
            && Linked(next, id, c + [DbEntry(id, baseId)])
            && FindRestoreChain(next, FindTag(next, tag)) == Ok(c + [DbEntry(id, baseId)])
  {
    var moved := Db(UpsertTag(db.tags, tag, id), db.entries);
    var next := AddEntry(moved, id, baseId);
    UpsertThenFind(db, tag, id, other);
    AddThenFind(moved, id, baseId, id);
    assert FindTag(next, tag) == FindTag(moved, tag) && FindTag(next, other) == FindTag(moved, other);
    forall i | 0 <= i < |c|
      ensures c[i].id != Nil && FindEntry(next, c[i].id) == Some(c[i])
    {
      assert FindEntry(db, c[i].id) == Some(c[i]);
      assert c[i].id != id;
      AddThenFind(moved, id, baseId, c[i].id);
      assert FindEntry(moved, c[i].id) == FindEntry(db, c[i].id);
    }
    assert Linked(next, baseId, c);
    LinkedSnoc(next, id, c, DbEntry(id, baseId));
    ResolveExact(next, id, c + [DbEntry(id, baseId)]);
  }

  /** The upload failures of one run: which data files, and whether the document or `db.json` fails. */
  datatype Faults = Faults(blobs: set<string>, doc: bool, db: bool)

  const NoFaults: Faults := Faults({}, false, false)

  datatype Uploaded = Uploaded(store: Store, result: Result<(), Error>)

  /** Whether the data file can be read from staging and uploaded. */
  predicate Uploads(staged: Store, failing: set<string>, n: string) {
    n in staged && n !in failing
  }

  /** Position of the first data file that cannot be read or uploaded. */
  function FirstFailing(staged: Store, names: seq<string>, failing: set<string>): (r: Option<nat>)
    ensures r.Some? ==> r.value < |names| && !Uploads(staged, failing, names[r.value])
                        && forall i :: 0 <= i < r.value ==> Uploads(staged, failing, names[i])
    ensures r.None? <==> forall i :: 0 <= i < |names| ==> Uploads(staged, failing, names[i])
  {
    if |names| == 0 then None
    else if !Uploads(staged, failing, names[0]) then Some(0)
    else match FirstFailing(staged, names[1..], failing)
      case None => None
      case Some(k) => Some(k + 1)
  }

  /**
   The data-file loop: read each staged file and upload it under its name, in
   order; the first missing file or failed upload ends the loop, after the
   ones before it went up.
   */
  function UploadData(store: Store, staged: Store, names: seq<string>, failing: set<string>): (u: Uploaded)
    ensures u.result.Ok? <==> FirstFailing(staged, names, failing).None?
    ensures u.result.Ok? ==> forall i :: 0 <= i < |names| ==> names[i] in u.store && u.store[names[i]] == staged[names[i]]
    ensures forall k :: k !in names ==> (k in u.store <==> k in store) && (k in store ==> u.store[k] == store[k])
    ensures u.result.Err? ==> var n := names[FirstFailing(staged, names, failing).value];
                              u.result.error == if n !in staged then StagedFileMissing(n) else UploadFailed(n)
    decreases |names|
  {
    if |names| == 0 then Uploaded(store, Ok(()))
    else
      var n := names[0];
      if n !in staged then Uploaded(store, Err(StagedFileMissing(n)))
      else if n in failing then Uploaded(store, Err(UploadFailed(n)))
      else
        var rest := UploadData(store[n := staged[n]], staged, names[1..], failing);
        assert forall i :: 0 < i < |names| ==> names[i] == names[1..][i - 1];
        assert forall k :: k !in names ==> k != n && k !in names[1..];
        rest
  }

  /** The state `commit` leaves behind, and how it ended. */
  datatype Outcome<E> = Outcome(remote: Remote<E>, staging: Staging<E>, result: Result<(), Error>)

  /** Staging cleanup after the database upload: the document and (in commit.go) the data files. */
  function Cleanup<E>(staging: Staging<E>, p: Prepared<E>): (s: Staging<E>)
    ensures forall k :: k in s.docs <==> k in staging.docs && k != p.docName
    ensures forall k :: k in s.blobs <==> k in staging.blobs && k !in p.dataFiles
  {
    Staging(map k | k in staging.docs && k != p.docName :: staging.docs[k],
            map k | k in staging.blobs && k !in p.dataFiles :: staging.blobs[k])
  }

  /** The three uploads in order, then cleanup, for a prepared commit and its next database. */
  function Publish<E>(remote: Remote<E>, staging: Staging<E>, p: Prepared<E>, next: Db, faults: Faults): (o: Outcome<E>)
    ensures o.result.Ok? <==> UploadData(remote.blobs, staging.blobs, p.dataFiles, faults.blobs).result.Ok? && !faults.doc && !faults.db
    ensures o.result.Ok? ==>
              && o.remote == Remote(UploadData(remote.blobs, staging.blobs, p.dataFiles, faults.blobs).store,
                                    remote.docs[p.id := p.doc], Present(next))
              && o.staging == Cleanup(staging, p)
    ensures o.result.Err? ==> o.staging == staging && o.remote.db == remote.db
    ensures o.remote.docs != remote.docs ==> UploadData(remote.blobs, staging.blobs, p.dataFiles, faults.blobs).result.Ok?
  {
    var data := UploadData(remote.blobs, staging.blobs, p.dataFiles, faults.blobs);
    var afterData := Remote(data.store, remote.docs, remote.db);
    if data.result.Err? then Outcome(afterData, staging, data.result)
    else if faults.doc then Outcome(afterData, staging, Err(UploadFailed(p.docName)))
    else
      var afterDoc := Remote(data.store, remote.docs[p.id := p.doc], remote.db);
      if faults.db then Outcome(afterDoc, staging, Err(UploadFailed("db.json")))
      else Outcome(Remote(data.store, remote.docs[p.id := p.doc], Present(next)), Cleanup(staging, p), Ok(()))
  }

  /**
   `commit`: with `dataName` as `Some(f)` the commit.go variant (data files
   named by `f` of each entry, removed after success), with `None` the
   main.go variant (no data files).
   */
  function CommitStaged<E>(dataName: Option<E -> string>, remote: Remote<E>, staging: Staging<E>,
                           tag: string, arg: string, faults: Faults): (o: Outcome<E>)
    ensures !ValidTagName(tag) ==> o == Outcome(remote, staging, Err(InvalidTagName(tag)))
    ensures Prepare(dataName, tag, arg, staging).Err? ==>
              o == Outcome(remote, staging, Err(Prepare(dataName, tag, arg, staging).error))
    ensures Prepare(dataName, tag, arg, staging).Ok? && remote.db.Present?
            && HasEntry(remote.db.db, Prepare(dataName, tag, arg, staging).value.id) ==>
              o == Outcome(remote, staging, Err(DuplicateEntry(Prepare(dataName, tag, arg, staging).value.id)))
    ensures o.result.Err? ==> o.staging == staging && o.remote.db == remote.db
    ensures o.result.Ok? ==>
              var p := Prepare(dataName, tag, arg, staging).value;
              && NextDb(remote.db, tag, p.id, p.baseId).Ok?
              && o.remote.db == Present(NextDb(remote.db, tag, p.id, p.baseId).value)
              && p.id in o.remote.docs && o.remote.docs[p.id] == p.doc
              && (forall n :: n in p.dataFiles ==> n in staging.blobs && n in o.remote.blobs && o.remote.blobs[n] == staging.blobs[n])
              && o.staging == Cleanup(staging, p)
  {
    match Prepare(dataName, tag, arg, staging)
    case Err(e) => Outcome(remote, staging, Err(e))
    case Ok(p) =>
      match NextDb(remote.db, tag, p.id, p.baseId)
      case Err(e) => Outcome(remote, staging, Err(e))
      case Ok(next) => Publish(remote, staging, p, next, faults)
  }

  /**
   A commit whose `db.json` upload failed left the database as it was, so
   running it again is not refused as a duplicate: it publishes the same
   database a fault-free first run would have.
   */
  lemma RetryAfterDatabaseFailure<E>(dataName: Option<E -> string>, remote: Remote<E>, staging: Staging<E>,
                                     tag: string, arg: string)
    requires Prepare(dataName, tag, arg, staging).Ok?
    requires CommitStaged(dataName, remote, staging, tag, arg, Faults({}, false, true)).result.Err?
    ensures var first := CommitStaged(dataName, remote, staging, tag, arg, Faults({}, false, true));
            var again := CommitStaged(dataName, first.remote, first.staging, tag, arg, NoFaults);
            var clean := CommitStaged(dataName, remote, staging, tag, arg, NoFaults);
            again.result == clean.result && again.remote.db == clean.remote.db && again.staging == clean.staging
  {
    var first := CommitStaged(dataName, remote, staging, tag, arg, Faults({}, false, true));
    assert first.staging == staging && first.remote.db == remote.db;
    var p := Prepare(dataName, tag, arg, staging).value;
    if NextDb(remote.db, tag, p.id, p.baseId).Ok? {
      var u := UploadData(first.remote.blobs, staging.blobs, p.dataFiles, {});
      var v := UploadData(remote.blobs, staging.blobs, p.dataFiles, {});
      assert u.result.Ok? <==> v.result.Ok?;
    }
  }
}
