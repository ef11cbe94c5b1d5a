/**
 Restoring a tag into a destination directory (`restore` and `write` in
 restore.go, and the older `restore` of main.go): resolve the tag's chain,
 flatten it, write every file whose existing content does not already have
 the entry's digest, then remove every tombstoned path.

 The destination is modelled by its regular files, path to content, and its
 directories. The flattened files are visited in an arbitrary order, as Go's
 map iteration is.
 */
module Restore {
  import opened Wrappers
  import opened Types
  import opened Database
  import opened Chain
  import opened Flattening
  import opened Storage
  import opened Codec

  /**
   The destination: its regular files and its directories, by path relative
   to it. The empty path is the destination directory itself.
   */
  datatype Dest = Dest(files: map<Path, Bytes>, dirs: set<Path>)

  /** `q` names a directory on the way to `p`: it is a proper prefix of `p`. */
  predicate Above(q: Path, p: Path) {
    |q| < |p| && p[..|q|] == q
  }

  /** The directories on the way to `p`, the destination itself included. */
  function Ancestors(p: Path): (a: set<Path>)
    ensures forall q :: q in a <==> Above(q, p)
  {
    var a := set k | 0 <= k < |p| :: p[..k];
    assert forall q :: Above(q, p) ==> q in a by {
      forall q | Above(q, p) ensures q in a {
        assert q == p[..|q|];
      }
    }
    a
  }

  /** Every directory on the way to some path of `written`. */
  ghost function Made(written: set<Path>): (m: set<Path>)
    ensures forall q :: q in m <==> exists w :: w in written && Above(q, w)
  {
    set w, k | w in written && 0 <= k < |w| :: w[..k]
  }

  /** The digest of the regular file at `p`, or `""` when it cannot be read (absent, or a directory). */
  function ExistingHash(digest: Bytes -> Hash, dest: Dest, p: Path): Hash {
    if p in dest.files then digest(dest.files[p]) else ""
  }

  /** The paths whose existing file does not carry the wanted digest: the ones that get written. */
  function Pending<E>(digest: Bytes -> Hash, want: E -> Hash, files: map<Path, E>, dest: Dest): set<Path> {
    set p | p in files && ExistingHash(digest, dest, p) != want(files[p])
  }

  /**
   A regular file can be created at `p`, missing directories included: no
   directory on the way is a regular file, and `p` is not a directory.
   */
  predicate Free(s: Dest, p: Path) {
    p !in s.dirs && Ancestors(p) !! s.files.Keys
  }

  /**
   Some pending path cannot be created: it is blocked in the destination, or
   another pending path lies on its way, so whichever of the two is written
   second fails.
   */
  ghost predicate Clashing(dest: Dest, pending: set<Path>) {
    exists p :: p in pending && (!Free(dest, p) || !(Ancestors(p) !! pending))
  }

  /** The destination after creating the file `p` with `content`, and the directories on its way. */
  function Put(s: Dest, p: Path, content: Bytes): (r: Dest)
    ensures r.files.Keys == s.files.Keys + {p} && r.files[p] == content
    ensures forall q :: q != p && q in s.files ==> r.files[q] == s.files[q]
    ensures r.dirs == s.dirs + Ancestors(p)
  {
    Dest(s.files[p := content], s.dirs + Ancestors(p))
  }

  /**
   Effect of one `write`: either the file now holds `content`, or the write
   failed, leaving `partial` in the file when it had been created.
   */
  datatype Write = Wrote(content: Bytes) | Failed(partial: Option<Bytes>, error: Error)

  /**
   `write` of restore.go, where nothing stands in the way of the file:
   download `AdditionalChunks + 1` chunks (a missing one fails before the file
   is created), inflate into the file (output produced before a decompression
   error stays in it), then re-hash the file and compare with the entry.
   */
  function WriteEntry(prims: Primitives, blobs: Store, e: Entry): (w: Write)
    ensures FetchChunks(blobs, e.hash, e.additionalChunks + 1).Err? ==>
              w == Failed(None, FetchChunks(blobs, e.hash, e.additionalChunks + 1).error)
    ensures w.Wrote? <==> FetchChunks(blobs, e.hash, e.additionalChunks + 1).Ok?
                          && prims.inflate(FetchChunks(blobs, e.hash, e.additionalChunks + 1).value).ok
                          && prims.sha256Hex(prims.inflate(FetchChunks(blobs, e.hash, e.additionalChunks + 1).value).output) == e.hash
    ensures w.Wrote? ==> prims.sha256Hex(w.content) == e.hash
                         && w.content == prims.inflate(FetchChunks(blobs, e.hash, e.additionalChunks + 1).value).output
    ensures w.Failed? && w.partial.Some? ==>
              && w.partial.value == prims.inflate(FetchChunks(blobs, e.hash, e.additionalChunks + 1).value).output
              && w.error in {DecompressFailed(e.fileName), ConsistencyViolation(e.fileName)}
  {
    match FetchChunks(blobs, e.hash, e.additionalChunks + 1)
    case Err(err) => Failed(None, err)
    case Ok(compressed) =>
      var inflated := prims.inflate(compressed);
      if !inflated.ok then Failed(Some(inflated.output), DecompressFailed(e.fileName))
      else if prims.sha256Hex(inflated.output) != e.hash then Failed(Some(inflated.output), ConsistencyViolation(e.fileName))
      else Wrote(inflated.output)
  }

  /**
   `write` of restore.go at `p` in the destination as it is now: after the
   download, `os.MkdirAll` of the parent fails when a directory on the way is
   a regular file, and `os.Create` fails when `p` is a directory; either way
   no file is created.
   */
  function WriteAt(prims: Primitives, blobs: Store, s: Dest, p: Path, e: Entry): (w: Write)
    ensures Free(s, p) ==> w == WriteEntry(prims, blobs, e)
    ensures !Free(s, p) ==> w.Failed? && w.partial.None?
    ensures !Free(s, p) && FetchChunks(blobs, e.hash, e.additionalChunks + 1).Err? ==> w == WriteEntry(prims, blobs, e)
    ensures !Free(s, p) && FetchChunks(blobs, e.hash, e.additionalChunks + 1).Ok? ==>
              w.error in {NotADirectory(p), IsADirectory(p)}
  {
    match FetchChunks(blobs, e.hash, e.additionalChunks + 1)
    case Err(err) => Failed(None, err)
    case Ok(_) =>
      if !(Ancestors(p) !! s.files.Keys) then Failed(None, NotADirectory(p))
      else if p in s.dirs then Failed(None, IsADirectory(p))
      else WriteEntry(prims, blobs, e)
  }

  /** The regular file at `p` is as it was in `dest` (present with the same bytes, or absent). */
  predicate Untouched(out: Dest, dest: Dest, p: Path) {
    (p in out.files <==> p in dest.files) && (p in dest.files ==> out.files[p] == dest.files[p])
  }

  /** The file at `p` holds what a successful `w` wrote. */
  predicate Holds(out: Dest, p: Path, w: Write) {
    w.Wrote? && p in out.files && out.files[p] == w.content
  }

  function EntryHash(e: Entry): Hash {
    e.hash
  }

  /** The state of the write loop after visiting every path outside `todo`, no write having failed. */
  ghost predicate Visited(prims: Primitives, blobs: Store, files: map<Path, Entry>, dest: Dest, pending: set<Path>,
                          todo: set<Path>, written: set<Path>, out: Dest)
  {
    && todo <= files.Keys
    && (forall p :: p in written <==> p in pending && p !in todo)
    && (forall p :: p in written ==> p in files && Holds(out, p, WriteEntry(prims, blobs, files[p])))
    && (forall p :: p !in written ==> Untouched(out, dest, p))
    && DirsMade(dest, written, out)
  }

  /** The loop's directories: the ones on the way to a written file, and each written file is still free. */
  ghost predicate DirsMade(dest: Dest, written: set<Path>, out: Dest) {
    && out.dirs == dest.dirs + Made(written)
    && (forall p :: p in written ==> Free(out, p))
  }

  /** The state of the write loop once a write failed with `error`. */
  ghost predicate Stopped(prims: Primitives, blobs: Store, files: map<Path, Entry>, dest: Dest, pending: set<Path>,
                          out: Dest, error: Error)
  {
    && dest.dirs <= out.dirs
    && (forall p :: p !in files ==> Untouched(out, dest, p))
    && (|| Clashing(dest, pending)
        || exists p :: p in files && p in pending
                       && WriteEntry(prims, blobs, files[p]).Failed? && WriteEntry(prims, blobs, files[p]).error == error)
  }

  lemma MadeAdd(written: set<Path>, p: Path)
    ensures Made(written + {p}) == Made(written) + Ancestors(p)
  {
  }

  /** Creating `p` where it is free keeps every earlier written path free. */
  lemma PutKeepsFree(s: Dest, p: Path, content: Bytes, written: set<Path>)
    requires Free(s, p)
    requires forall w :: w in written ==> Free(s, w) && w in s.files && Ancestors(w) <= s.dirs
    ensures forall w :: w in written + {p} ==> Free(Put(s, p, content), w)
  {
    forall w | w in written + {p}
      ensures Free(Put(s, p, content), w)
    {
      if w != p {
        assert !Above(w, p);
        assert !Above(p, w);
      }
    }
  }

  /** Creating a free file keeps the directories the loop made in order. */
  lemma DirsAfterPut(dest: Dest, written: set<Path>, out: Dest, p: Path, content: Bytes)
    requires DirsMade(dest, written, out) && written <= out.files.Keys && Free(out, p)
    ensures DirsMade(dest, written + {p}, Put(out, p, content))
  {
    MadeAdd(written, p);
    forall w | w in written
      ensures Ancestors(w) <= out.dirs
    {
      assert Ancestors(w) <= Made(written);
    }
    PutKeepsFree(out, p, content, written);
  }

  lemma VisitWritten(prims: Primitives, blobs: Store, files: map<Path, Entry>, dest: Dest, pending: set<Path>,
                     todo: set<Path>, written: set<Path>, out: Dest, p: Path)
    requires Visited(prims, blobs, files, dest, pending, todo, written, out)
    requires p in todo && p in pending && Free(out, p) && WriteEntry(prims, blobs, files[p]).Wrote?
    ensures Visited(prims, blobs, files, dest, pending, todo - {p}, written + {p},
                    Put(out, p, WriteEntry(prims, blobs, files[p]).content))
  {
    var content := WriteEntry(prims, blobs, files[p]).content;
    var out' := Put(out, p, content);
    forall w | w in written
      ensures w in out.files
    {
      assert Holds(out, w, WriteEntry(prims, blobs, files[w]));
    }
    DirsAfterPut(dest, written, out, p, content);
    forall w | w in written + {p}
      ensures w in files && Holds(out', w, WriteEntry(prims, blobs, files[w]))
    {
      if w != p {
        assert Holds(out, w, WriteEntry(prims, blobs, files[w]));
      }
    }
    forall w | w !in written + {p}
      ensures Untouched(out', dest, w)
    {
      assert Untouched(out, dest, w);
    }
  }

  /**
   Without a clash every pending path is free when its turn comes: the loop
   only adds files at pending paths and directories on their way.
   */
  lemma FreeWithoutClash(prims: Primitives, blobs: Store, files: map<Path, Entry>, dest: Dest, pending: set<Path>,
                         todo: set<Path>, written: set<Path>, out: Dest, p: Path)
    requires Visited(prims, blobs, files, dest, pending, todo, written, out)
    requires p in todo && p in pending && !Clashing(dest, pending)
    ensures Free(out, p)
  {
    assert Free(dest, p) && Ancestors(p) !! pending;
    forall w | w in written
      ensures !Above(p, w)
    {
      assert Ancestors(w) !! pending;
    }
    forall q | q in Ancestors(p)
      ensures q !in out.files
    {
      assert q !in pending;
      assert Untouched(out, dest, q);
    }
  }

  /** A loop that wrote every pending path leaves no clash behind it. */
  lemma NoClashWhenDone(prims: Primitives, blobs: Store, files: map<Path, Entry>, dest: Dest, pending: set<Path>,
                        written: set<Path>, out: Dest)
    requires Visited(prims, blobs, files, dest, pending, {}, written, out)
    ensures !Clashing(dest, pending)
  {
    forall p | p in pending
      ensures Free(dest, p) && Ancestors(p) !! pending
    {
      assert Free(out, p);
      forall q | q in Ancestors(p)
        ensures q !in dest.files && q !in pending
      {
        if q !in written {
          assert Untouched(out, dest, q);
        }
      }
    }
  }

  /**
   A failed write stops the loop: it is blocked, which takes a clash, or it
   is the write of the entry itself failing.
   */
  lemma WriteStops(prims: Primitives, blobs: Store, files: map<Path, Entry>, dest: Dest, pending: set<Path>,
                   todo: set<Path>, written: set<Path>, out: Dest, p: Path)
    requires Visited(prims, blobs, files, dest, pending, todo, written, out)
    requires p in todo && p in pending && WriteAt(prims, blobs, out, p, files[p]).Failed?
    ensures var w := WriteAt(prims, blobs, out, p, files[p]);
            Stopped(prims, blobs, files, dest, pending, if w.partial.Some? then Put(out, p, w.partial.value) else out, w.error)
  {
    if !Clashing(dest, pending) {
      FreeWithoutClash(prims, blobs, files, dest, pending, todo, written, out, p);
    }
    forall q | q !in files
      ensures Untouched(out, dest, q)
    {
      assert q !in written;
    }
  }

  /** One turn of the write loop, at `p`: skip it, write it, or stop at its failure. */
  method VisitOne(prims: Primitives, blobs: Store, files: map<Path, Entry>, dest: Dest, ghost pending: set<Path>,
                  ghost todo: set<Path>, written: set<Path>, out: Dest, p: Path)
    returns (out': Dest, written': set<Path>, result: Result<(), Error>)
    requires pending == Pending(prims.sha256Hex, EntryHash, files, dest)
    requires Visited(prims, blobs, files, dest, pending, todo, written, out) && p in todo
    ensures result.Ok? ==> Visited(prims, blobs, files, dest, pending, todo - {p}, written', out')
    ensures result.Err? ==> Stopped(prims, blobs, files, dest, pending, out', result.error)
  {
    assert Untouched(out, dest, p);
    if ExistingHash(prims.sha256Hex, out, p) == files[p].hash {
      assert p !in pending;
      return out, written, Ok(());
    }
    assert p in pending;
    var w := WriteAt(prims, blobs, out, p, files[p]);
    if w.Failed? {
      out' := if w.partial.Some? then Put(out, p, w.partial.value) else out;
      WriteStops(prims, blobs, files, dest, pending, todo, written, out, p);
      return out', written, Err(w.error);
    }
    if !Clashing(dest, pending) {
      FreeWithoutClash(prims, blobs, files, dest, pending, todo, written, out, p);
    }
    VisitWritten(prims, blobs, files, dest, pending, todo, written, out, p);
    out', written', result := Put(out, p, w.content), written + {p}, Ok(());
  }

  /**
   The loop over the flattened files: a file is written exactly when its
   existing digest differs from the wanted one, and the first failing write
   ends the loop with its error. The loop succeeds exactly when no pending
   path clashes and every pending write would succeed.
   */
  method WriteFiles(prims: Primitives, blobs: Store, files: map<Path, Entry>, dest: Dest)
    returns (out: Dest, written: set<Path>, result: Result<(), Error>)
    ensures dest.dirs <= out.dirs
    ensures forall p :: p !in files ==> Untouched(out, dest, p)
    ensures result.Ok? ==> written == Pending(prims.sha256Hex, EntryHash, files, dest)
    ensures result.Ok? ==> forall p :: p in written ==> Holds(out, p, WriteEntry(prims, blobs, files[p]))
    ensures result.Ok? ==> forall p :: p !in written ==> Untouched(out, dest, p)
    ensures result.Ok? ==> out.dirs == dest.dirs + Made(written)
    ensures Clashing(dest, Pending(prims.sha256Hex, EntryHash, files, dest)) ==> result.Err?
    ensures !Clashing(dest, Pending(prims.sha256Hex, EntryHash, files, dest))
            && (forall p :: p in Pending(prims.sha256Hex, EntryHash, files, dest) ==> WriteEntry(prims, blobs, files[p]).Wrote?) ==>
              result.Ok?
    ensures result.Err? ==>
              || Clashing(dest, Pending(prims.sha256Hex, EntryHash, files, dest))
              || exists p :: p in Pending(prims.sha256Hex, EntryHash, files, dest)
                             && WriteEntry(prims, blobs, files[p]).Failed? && WriteEntry(prims, blobs, files[p]).error == result.error
    ensures Pending(prims.sha256Hex, EntryHash, files, dest) == {} ==> result.Ok? && written == {} && out == dest
  {
    ghost var pending := Pending(prims.sha256Hex, EntryHash, files, dest);
    out, written, result := WriteLoop(prims, blobs, files, dest, pending);
    if result.Ok? {
      Finished(prims, blobs, files, dest, pending, written, out);
    } else {
      StoppedFails(prims, blobs, files, dest, pending, out, result.error);
    }
  }

  /** The write loop itself, in the order of an arbitrary choice of the next path. */
  method WriteLoop(prims: Primitives, blobs: Store, files: map<Path, Entry>, dest: Dest, ghost pending: set<Path>)
    returns (out: Dest, written: set<Path>, result: Result<(), Error>)
    requires pending == Pending(prims.sha256Hex, EntryHash, files, dest)
    ensures result.Ok? ==> Visited(prims, blobs, files, dest, pending, {}, written, out)
    ensures result.Err? ==> Stopped(prims, blobs, files, dest, pending, out, result.error)
  {
    out, written, result := dest, {}, Ok(());
    var todo := files.Keys;
    assert Made({}) == {};
    while todo != {}
      invariant Visited(prims, blobs, files, dest, pending, todo, written, out) && result.Ok?
      decreases |todo|
    {
      var p :| p in todo;
      out, written, result := VisitOne(prims, blobs, files, dest, pending, todo, written, out, p);
      if result.Err? {
        return;
      }
      todo := todo - {p};
    }
  }

  /** What the write loop promises once a write failed. */
  lemma StoppedFails(prims: Primitives, blobs: Store, files: map<Path, Entry>, dest: Dest, pending: set<Path>,
                     out: Dest, error: Error)
    requires pending == Pending(prims.sha256Hex, EntryHash, files, dest)
    requires Stopped(prims, blobs, files, dest, pending, out, error)
    ensures pending != {}
    ensures !Clashing(dest, pending) ==>
              exists p :: p in pending && WriteEntry(prims, blobs, files[p]).Failed? && WriteEntry(prims, blobs, files[p]).error == error
  {
  }

  /** What the write loop promises once every path was visited. */
  lemma Finished(prims: Primitives, blobs: Store, files: map<Path, Entry>, dest: Dest, pending: set<Path>,
                 written: set<Path>, out: Dest)
    requires Visited(prims, blobs, files, dest, pending, {}, written, out)
    ensures written == pending && !Clashing(dest, pending)
    ensures pending == {} ==> out == dest
  {
    NoClashWhenDone(prims, blobs, files, dest, pending, written, out);
    if pending == {} {
      assert Made({}) == {};
      AllUntouched(out, dest);
    }
  }

  /** Two destinations with the same directories and the same regular files everywhere are equal. */
  lemma AllUntouched(out: Dest, dest: Dest)
    requires forall p :: Untouched(out, dest, p)
    requires out.dirs == dest.dirs
    ensures out == dest
  {
    assert forall p :: p in out.files <==> p in dest.files by {
      forall p ensures p in out.files <==> p in dest.files {
        assert Untouched(out, dest, p);
      }
    }
    forall p | p in out.files
      ensures out.files[p] == dest.files[p]
    {
      assert Untouched(out, dest, p);
    }
  }

  /**
   The loop over the tombstones: `os.Remove`, whose failure (nothing there) is
   ignored. Only regular files are removed; directories stay.
   */
  function RemoveAll(dest: Dest, tombstones: set<Path>): (out: Dest)
    ensures forall p :: p in out.files <==> p in dest.files && p !in tombstones
    ensures forall p :: p in out.files ==> out.files[p] == dest.files[p]
    ensures out.dirs == dest.dirs
  {
    Dest(map p | p in dest.files && p !in tombstones :: dest.files[p], dest.dirs)
  }

  /**
   What a restore of `tagName` will apply: the database (any download failure
   is "patch database not found"), the tag's head (Nil for an unknown tag), its
   chain and the flattened snapshot. main.go reads the root as a `BaseFile`.
   */
  function Plan<E(==)>(name: E -> Path, remote: Remote<E>, tagName: string, legacyRoot: bool): (r: Result<Snapshot<E>, Error>)
    ensures !remote.db.Present? ==> r == Err(DatabaseNotFound)
    ensures r.Ok? ==> Disjoint(r.value) && Keyed(name, r.value)
    ensures remote.db.Present? && FindTag(remote.db.db, tagName) == Nil ==> r == Ok(EmptySnapshot())
    ensures r.Ok? ==> remote.db.Present?
                      && exists c :: Linked(remote.db.db, FindTag(remote.db.db, tagName), c)
                                     && FlattenChain(name, remote.docs, c, legacyRoot) == r
  {
    if !remote.db.Present? then Err(DatabaseNotFound)
    else
      var db := remote.db.db;
      var chain :- FindRestoreChain(db, FindTag(db, tagName));
      assert FlattenChain(name, remote.docs, [], legacyRoot) == Ok(Flatten(name, []));
      FlattenChain(name, remote.docs, chain, legacyRoot)
  }

  /**
   `os.MkdirAll` of the destination: nothing to do when it is a directory, a
   failure when it is a regular file, else it becomes a directory.
   */
  function MakeRoot(dest: Dest): (r: Result<Dest, Error>)
    ensures r.Ok? <==> [] in dest.dirs || [] !in dest.files
    ensures r.Ok? ==> r.value.files == dest.files && r.value.dirs == dest.dirs + {[]}
    ensures r.Err? ==> r.error == NotADirectory([])
  {
    if [] in dest.dirs then Ok(dest)
    else if [] in dest.files then Err(NotADirectory([]))
    else Ok(Dest(dest.files, dest.dirs + {[]}))
  }

  /**
   What applying `flat` to `dest` promises: on success every file is in place
   with its digest, every tombstoned path is gone, everything else is
   untouched, nothing is left pending and the only new directories are the
   ones on the way to a written file. It succeeds exactly when no pending path
   clashes and every pending write would succeed, failing with the error of a
   pending write otherwise; with nothing to do it changes nothing.
   */
  ghost predicate Applied(prims: Primitives, blobs: Store, flat: Snapshot<Entry>, dest: Dest,
                          out: Dest, written: set<Path>, result: Result<(), Error>)
  {
    var pending := Pending(prims.sha256Hex, EntryHash, flat.files, dest);
    && (result.Ok? ==>
          && written == pending
          && (forall p :: p in flat.files ==> ExistingHash(prims.sha256Hex, out, p) == flat.files[p].hash)
          && (forall p :: p in flat.tombstones ==> p !in out.files)
          && (forall p :: p !in flat.files && p !in flat.tombstones ==> Untouched(out, dest, p))
          && Pending(prims.sha256Hex, EntryHash, flat.files, out) == {}
          && out.dirs == dest.dirs + Made(written)
          && forall p :: p in written ==> p in out.files && WriteEntry(prims, blobs, flat.files[p]) == Wrote(out.files[p]))
    && (Clashing(dest, pending) ==> result.Err?)
    && (!Clashing(dest, pending) && (forall p :: p in pending ==> WriteEntry(prims, blobs, flat.files[p]).Wrote?) ==> result.Ok?)
    && (result.Err? ==>
          || Clashing(dest, pending)
          || exists p :: p in pending && WriteEntry(prims, blobs, flat.files[p]).Failed? && WriteEntry(prims, blobs, flat.files[p]).error == result.error)
    && (pending == {} && (forall p :: p in flat.tombstones ==> p !in dest.files) ==> result.Ok? && written == {} && out == dest)
  }

  /**
   The two loops of `restore` applied to a flattened snapshot: the writes,
   then the removal of the tombstones, only after all writes.
   */
  method Apply(prims: Primitives, blobs: Store, flat: Snapshot<Entry>, dest: Dest)
    returns (out: Dest, written: set<Path>, result: Result<(), Error>)
    requires Disjoint(flat)
    ensures Applied(prims, blobs, flat, dest, out, written, result)
  {
    var w: Dest;
    w, written, result := WriteFiles(prims, blobs, flat.files, dest);
    if result.Err? {
      return w, written, result;
    }
    out := RemoveAll(w, flat.tombstones);
    forall p | p in flat.files
      ensures ExistingHash(prims.sha256Hex, out, p) == flat.files[p].hash
    {
      assert p !in flat.tombstones;
      if p in written {
        assert Holds(w, p, WriteEntry(prims, blobs, flat.files[p]));
      } else {
        assert Untouched(w, dest, p);
      }
    }
    forall p | p in written
      ensures p in out.files && WriteEntry(prims, blobs, flat.files[p]) == Wrote(out.files[p])
    {
      assert Holds(w, p, WriteEntry(prims, blobs, flat.files[p]));
    }
    forall p | p !in flat.files && p !in flat.tombstones
      ensures Untouched(out, dest, p)
    {
      assert Untouched(w, dest, p);
    }
    assert Pending(prims.sha256Hex, EntryHash, flat.files, out) == {};
    if Pending(prims.sha256Hex, EntryHash, flat.files, dest) == {} && (forall p :: p in flat.tombstones ==> p !in dest.files) {
      assert w == dest;
      assert out == w;
    }
  }

  /**
   `restore` of restore.go: the plan's failure is the restore's failure, with
   nothing written; otherwise the destination directory is created and the
   snapshot is applied to it.
   */
  method RestoreTag(prims: Primitives, remote: Remote<Entry>, tagName: string, dest: Dest)
    returns (out: Dest, written: set<Path>, result: Result<(), Error>)
    ensures Plan(EntryName, remote, tagName, false).Err? ==>
              result == Err(Plan(EntryName, remote, tagName, false).error) && out == dest && written == {}
    ensures Plan(EntryName, remote, tagName, false).Ok? && MakeRoot(dest).Err? ==>
              result == Err(MakeRoot(dest).error) && out == dest && written == {}
    ensures result.Ok? ==> Plan(EntryName, remote, tagName, false).Ok? && MakeRoot(dest).Ok?
    ensures Plan(EntryName, remote, tagName, false).Ok? && MakeRoot(dest).Ok? ==>
              Applied(prims, remote.blobs, Plan(EntryName, remote, tagName, false).value, MakeRoot(dest).value, out, written, result)
  {
    var plan := Plan(EntryName, remote, tagName, false);
    if plan.Err? {
      return dest, {}, Err(plan.error);
    }
    var root := MakeRoot(dest);
    if root.Err? {
      return dest, {}, Err(root.error);
    }
    out, written, result := Apply(prims, remote.blobs, plan.value, root.value);
  }

  /** A tag the database does not know restores nothing and is not an error. */
  lemma UnknownTagRestoresNothing<E>(name: E -> Path, remote: Remote<E>, tagName: string)
    requires remote.db.Present? && forall k :: 0 <= k < |remote.db.db.tags| ==> remote.db.db.tags[k].name != tagName
    ensures Plan(name, remote, tagName, false) == Ok(EmptySnapshot())
    ensures Plan(name, remote, tagName, true) == Ok(EmptySnapshot())
  {
  }

  /** Restoring the same tag twice: the second restore writes nothing and changes nothing. */
  method RestoreTwice(prims: Primitives, remote: Remote<Entry>, tagName: string, dest: Dest)
    returns (out1: Dest, result1: Result<(), Error>, out2: Dest, written2: set<Path>, result2: Result<(), Error>)
    ensures result1.Ok? ==> result2.Ok? && written2 == {} && out2 == out1
  {
    var written1;
    out1, written1, result1 := RestoreTag(prims, remote, tagName, dest);
    out2, written2, result2 := RestoreTag(prims, remote, tagName, out1);
    if result1.Ok? {
      var flat := Plan(EntryName, remote, tagName, false).value;
      assert [] in out1.dirs;
      assert MakeRoot(out1) == Ok(out1);
      assert Pending(prims.sha256Hex, EntryHash, flat.files, out1) == {};
      assert forall p :: p in flat.tombstones ==> p !in out1.files;
    }
  }

  /**
   A restore over an earlier one where the file `a` became a directory: the
   destination holds the file `a`, the snapshot holds `a/b` and tombstones
   `a`. The writes run before the removals, so `a/b` clashes with the file
   still in place; with the tombstones removed first it does not.
   */
  lemma FileBecomesDirectory(digest: Bytes -> Hash, e: Entry, before: Bytes)
    requires e.hash != ""
    ensures var dest := Dest(map[["a"] := before], {[]});
            var flat := Snapshot(map[["a", "b"] := e], {["a"]});
            && Disjoint(flat)
            && Clashing(dest, Pending(digest, EntryHash, flat.files, dest))
            && !Clashing(RemoveAll(dest, flat.tombstones), Pending(digest, EntryHash, flat.files, RemoveAll(dest, flat.tombstones)))
  {
    var dest := Dest(map[["a"] := before], {[]});
    var flat := Snapshot(map[["a", "b"] := e], {["a"]});
    var cleared := RemoveAll(dest, flat.tombstones);
    assert Pending(digest, EntryHash, flat.files, dest) == {["a", "b"]};
    assert Above(["a"], ["a", "b"]);
    assert !Free(dest, ["a", "b"]);
    assert cleared.files == map[];
    assert Pending(digest, EntryHash, flat.files, cleared) == {["a", "b"]};
    assert Ancestors(["a", "b"]) == {[], ["a"]};
    assert Free(cleared, ["a", "b"]);
  }

  /** Removing the tombstones changes nothing at the snapshot's files, so the pending set stays. */
  lemma PendingAfterRemoval(digest: Bytes -> Hash, flat: Snapshot<Entry>, dest: Dest)
    requires Disjoint(flat)
    ensures Pending(digest, EntryHash, flat.files, RemoveAll(dest, flat.tombstones)) == Pending(digest, EntryHash, flat.files, dest)
  {
    forall p | p in flat.files
      ensures ExistingHash(digest, RemoveAll(dest, flat.tombstones), p) == ExistingHash(digest, dest, p)
    {
      assert p !in flat.tombstones;
    }
  }

  /**
   `restore` with its two loops swapped, tombstones first: a file turned into
   a directory in the snapshot no longer blocks the files below it. It
   succeeds exactly when no pending path clashes with the cleared destination
   and every pending write would succeed.
   */
  method ApplyRemovalsFirst(prims: Primitives, blobs: Store, flat: Snapshot<Entry>, dest: Dest)
    returns (out: Dest, written: set<Path>, result: Result<(), Error>)
    requires Disjoint(flat)
    ensures result.Ok? ==>
              && written == Pending(prims.sha256Hex, EntryHash, flat.files, dest)
              && (forall p :: p in flat.files ==> ExistingHash(prims.sha256Hex, out, p) == flat.files[p].hash)
              && (forall p :: p in flat.tombstones ==> p !in out.files)
              && (forall p :: p !in flat.files && p !in flat.tombstones ==> Untouched(out, dest, p))
              && forall p :: p in written ==> p in out.files && WriteEntry(prims, blobs, flat.files[p]) == Wrote(out.files[p])
    ensures !Clashing(RemoveAll(dest, flat.tombstones), Pending(prims.sha256Hex, EntryHash, flat.files, dest))
            && (forall p :: p in Pending(prims.sha256Hex, EntryHash, flat.files, dest) ==> WriteEntry(prims, blobs, flat.files[p]).Wrote?) ==>
              result.Ok?
    ensures Clashing(RemoveAll(dest, flat.tombstones), Pending(prims.sha256Hex, EntryHash, flat.files, dest)) ==> result.Err?
  {
    var cleared := RemoveAll(dest, flat.tombstones);
    PendingAfterRemoval(prims.sha256Hex, flat, dest);
    out, written, result := WriteFiles(prims, blobs, flat.files, cleared);
    if result.Ok? {
      forall p | p in flat.files
        ensures ExistingHash(prims.sha256Hex, out, p) == flat.files[p].hash
      {
        if p in written {
          assert Holds(out, p, WriteEntry(prims, blobs, flat.files[p]));
        } else {
          assert p !in flat.tombstones;
          assert Untouched(out, cleared, p);
        }
      }
      forall p | p in flat.tombstones
        ensures p !in out.files
      {
        assert Untouched(out, cleared, p);
      }
      forall p | p !in flat.files && p !in flat.tombstones
        ensures Untouched(out, dest, p)
      {
        assert Untouched(out, cleared, p);
      }
      forall p | p in written
        ensures p in out.files && WriteEntry(prims, blobs, flat.files[p]) == Wrote(out.files[p])
      {
        assert Holds(out, p, WriteEntry(prims, blobs, flat.files[p]));
      }
    }
  }

  function LegacyName(e: LegacyEntry): Path {
    e.fileName
  }

  function LegacyHash(e: LegacyEntry): Hash {
    e.md5
  }

  /**
   `os.WriteFile` creates or truncates `p` only when every directory on the
   way exists and `p` is not itself a directory.
   */
  predicate Creatable(dirs: set<Path>, p: Path) {
    p !in dirs && Ancestors(p) <= dirs
  }

  /**
   main.go writes the entry's inline content with `os.WriteFile` and ignores
   the error: it creates no directory, so where the file cannot be created
   nothing changes.
   */
  function WriteLegacy(s: Dest, p: Path, e: LegacyEntry): (out: Dest)
    ensures out.dirs == s.dirs
    ensures Creatable(s.dirs, p) ==> p in out.files && out.files[p] == e.content
    ensures forall q :: q != p || !Creatable(s.dirs, p) ==> Untouched(out, s, q)
  {
    if Creatable(s.dirs, p) then Dest(s.files[p := e.content], s.dirs) else s
  }

  /**
   What main.go leaves at a flattened path: the old state when the digest of
   what is there (empty when nothing can be read) equals the entry's MD5 or
   the file cannot be created, else the entry's content.
   */
  predicate RestoredAt(md5: Bytes -> Hash, out: Dest, dest: Dest, p: Path, e: LegacyEntry) {
    if ExistingHash(md5, dest, p) == e.md5 || !Creatable(dest.dirs, p) then Untouched(out, dest, p)
    else p in out.files && out.files[p] == e.content
  }

  /**
   The two loops of main.go's `restore` applied to a flattened snapshot. No
   directory is created and no error is seen, so the visiting order does not
   matter.
   */
  method ApplyLegacy(md5: Bytes -> Hash, flat: Snapshot<LegacyEntry>, dest: Dest) returns (out: Dest)
    requires Disjoint(flat)
    ensures out.dirs == dest.dirs
    ensures forall p :: p in flat.files ==> RestoredAt(md5, out, dest, p, flat.files[p])
    ensures forall p :: p in flat.tombstones ==> p !in out.files
    ensures forall p :: p !in flat.files && p !in flat.tombstones ==> Untouched(out, dest, p)
  {
    var w := dest;
    var todo := flat.files.Keys;
    while todo != {}
      invariant todo <= flat.files.Keys
      invariant w.dirs == dest.dirs
      invariant forall p :: p in flat.files && p !in todo ==> RestoredAt(md5, w, dest, p, flat.files[p])
      invariant forall p :: p !in flat.files || p in todo ==> Untouched(w, dest, p)
      decreases |todo|
    {
      var p :| p in todo;
      assert Untouched(w, dest, p);
      if ExistingHash(md5, w, p) != flat.files[p].md5 {
        w := WriteLegacy(w, p, flat.files[p]);
      }
      todo := todo - {p};
    }
    out := RemoveAll(w, flat.tombstones);
    forall p | p in flat.files
      ensures RestoredAt(md5, out, dest, p, flat.files[p])
    {
      assert p !in flat.tombstones;
      assert RestoredAt(md5, w, dest, p, flat.files[p]);
    }
    forall p | p !in flat.files && p !in flat.tombstones
      ensures Untouched(out, dest, p)
    {
      assert Untouched(w, dest, p);
    }
  }

  /**
   `restore` of main.go: the same plan with a `BaseFile` root; a file whose
   MD5 differs gets the entry's inline content, unverified, where it can be
   created, and tombstoned paths are removed. The destination directory is
   not created.
   */
  method RestoreLegacy(prims: Primitives, remote: Remote<LegacyEntry>, tagName: string, dest: Dest)
    returns (out: Dest, result: Result<(), Error>)
    ensures Plan(LegacyName, remote, tagName, true).Err? ==>
              result == Err(Plan(LegacyName, remote, tagName, true).error) && out == dest
    ensures Plan(LegacyName, remote, tagName, true).Ok? ==>
              var flat := Plan(LegacyName, remote, tagName, true).value;
              && result.Ok?
              && out.dirs == dest.dirs
              && (forall p :: p in flat.files ==> RestoredAt(prims.md5Hex, out, dest, p, flat.files[p]))
              && (forall p :: p in flat.tombstones ==> p !in out.files)
              && (forall p :: p !in flat.files && p !in flat.tombstones ==> Untouched(out, dest, p))
  {
    var plan := Plan(LegacyName, remote, tagName, true);
    if plan.Err? {
      return dest, Err(plan.error);
    }
    out := ApplyLegacy(prims.md5Hex, plan.value, dest);
    result := Ok(());
  }

  /**
   A nested file restored by main.go into an empty destination directory is
   lost without an error, as its directory is never created; restore.go
   creates it, and the same file does not clash there.
   */
  lemma NestedFileLost(md5: Bytes -> Hash, e: LegacyEntry, c: Entry)
    requires e.md5 != "" && c.hash != ""
    ensures var dest := Dest(map[], {[]});
            && !Creatable(dest.dirs, ["d", "f"])
            && RestoredAt(md5, dest, dest, ["d", "f"], e)
            && forall out :: RestoredAt(md5, out, dest, ["d", "f"], e) ==> ["d", "f"] !in out.files
    ensures var dest := Dest(map[], {[]});
            !Clashing(dest, Pending(md5, EntryHash, map[["d", "f"] := c], dest))
  {
    var dest := Dest(map[], {[]});
    assert Above(["d"], ["d", "f"]);
    assert Pending(md5, EntryHash, map[["d", "f"] := c], dest) == {["d", "f"]};
    assert Ancestors(["d", "f"]) == {[], ["d"]};
  }
}
