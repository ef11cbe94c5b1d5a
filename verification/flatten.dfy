/**
 Flattening a resolved chain (`flattenRestoreChain` in restore.go and
 main.go): the documents of the chain are replayed root first into a map from
 path to entry and a set of tombstoned paths. The root contributes its files
 only; every later patch first applies its changed entries (overwriting and
 resurrecting) and then its deletions (removing and tombstoning).

 The flatten is generic in the entry type: `name` reads an entry's path.
 */
module Flattening {
  import opened Wrappers
  import opened Types
  import opened Database

  datatype Layer<E> = Layer(changed: seq<E>, deleted: seq<Tombstone>)

  /** `entryMap` and `deletedMap` (a tombstone carries only its path). */
  datatype Snapshot<E> = Snapshot(files: map<Path, E>, tombstones: set<Path>)

  function EmptySnapshot<E(==)>(): Snapshot<E> {
    Snapshot(map[], {})
  }

  /** No path is both a file and a tombstone. */
  predicate Disjoint<E(==)>(s: Snapshot<E>) {
    forall p :: p in s.files ==> p !in s.tombstones
  }

  /** Every file is stored under its own name. */
  predicate Keyed<E(==)>(name: E -> Path, s: Snapshot<E>) {
    forall p :: p in s.files ==> name(s.files[p]) == p
  }

  /** The last entry of `changed` for path `p`: the one a map assignment in order keeps. */
  function LastChanged<E(==)>(name: E -> Path, changed: seq<E>, p: Path): (r: Option<E>)
    ensures r.Some? ==> name(r.value) == p
    ensures r.Some? ==> exists i :: 0 <= i < |changed| && changed[i] == r.value
                                    && forall k :: i < k < |changed| ==> name(changed[k]) != p
    ensures r.None? <==> forall i :: 0 <= i < |changed| ==> name(changed[i]) != p
  {
    if |changed| == 0 then None
    else
      var n := |changed| - 1;
      if name(changed[n]) == p then Some(changed[n])
      else
        var r := LastChanged(name, changed[..n], p);
        if r.Some? then
          var i :| 0 <= i < n && changed[..n][i] == r.value
                   && forall k :: i < k < n ==> name(changed[..n][k]) != p;
          assert changed[i] == r.value;
          r
        else r
  }

  /** Whether a deletion list names `p`. */
  predicate Deletes(deleted: seq<Tombstone>, p: Path) {
    exists i :: 0 <= i < |deleted| && deleted[i].fileName == p
  }

  /**
   The loop over `Changed`: each entry is stored under its name and its
   tombstone, if any, is cleared (`delete(deletedMap, ...)`).
   */
  function ApplyChanged<E(==)>(name: E -> Path, s: Snapshot<E>, changed: seq<E>): (r: Snapshot<E>)
    ensures forall p :: p in r.files <==> p in s.files || LastChanged(name, changed, p).Some?
    ensures forall p :: p in r.files ==>
              r.files[p] == if LastChanged(name, changed, p).Some? then LastChanged(name, changed, p).value else s.files[p]
    ensures forall p :: p in r.tombstones <==> p in s.tombstones && LastChanged(name, changed, p).None?
  {
    if |changed| == 0 then s
    else
      var n := |changed| - 1;
      var prev := ApplyChanged(name, s, changed[..n]);
      var e := changed[n];
      Snapshot(prev.files[name(e) := e], prev.tombstones - {name(e)})
  }

  /** The loop over `Deleted`: each path is removed from the files and tombstoned. */
  function ApplyDeleted<E(==)>(s: Snapshot<E>, deleted: seq<Tombstone>): (r: Snapshot<E>)
    ensures forall p :: p in r.files <==> p in s.files && !Deletes(deleted, p)
    ensures forall p :: p in r.files ==> r.files[p] == s.files[p]
    ensures forall p :: p in r.tombstones <==> p in s.tombstones || Deletes(deleted, p)
  {
    if |deleted| == 0 then s
    else
      var n := |deleted| - 1;
      var prev := ApplyDeleted(s, deleted[..n]);
      var t := deleted[n].fileName;
      assert forall p :: Deletes(deleted, p) <==> Deletes(deleted[..n], p) || p == t by {
        forall p | Deletes(deleted, p)
          ensures Deletes(deleted[..n], p) || p == t
        {
          var i :| 0 <= i < |deleted| && deleted[i].fileName == p;
          if i < n {
            assert deleted[..n][i] == deleted[i];
          }
        }
        forall p | Deletes(deleted[..n], p)
          ensures Deletes(deleted, p)
        {
          var i :| 0 <= i < n && deleted[..n][i].fileName == p;
          assert deleted[i] == deleted[..n][i];
        }
      }
      Snapshot(prev.files - {t}, prev.tombstones + {t})
  }

  /** One non-root patch: changes first, then deletions, so a deletion wins within the patch. */
  function ApplyLayer<E(==)>(name: E -> Path, s: Snapshot<E>, layer: Layer<E>): Snapshot<E> {
    ApplyDeleted(ApplyChanged(name, s, layer.changed), layer.deleted)
  }

  /** What the chain says about one path, read from the newest layer backwards. */
  datatype Fate<E> = Live(entry: E) | Removed | Untracked

  /**
   Reference reading of a chain: the newest non-root layer that deletes `p`
   makes it removed, unless a newer layer changes it; otherwise the last
   change in the newest layer mentioning it decides. The root's deletions
   are not read.
   */
  function FateOf<E(==)>(name: E -> Path, layers: seq<Layer<E>>, p: Path): Fate<E> {
    if |layers| == 0 then Untracked
    else
      var n := |layers| - 1;
      if n > 0 && Deletes(layers[n].deleted, p) then Removed
      else match LastChanged(name, layers[n].changed, p)
        case Some(e) => Live(e)
        case None => FateOf(name, layers[..n], p)
  }

  /** The replay of `flattenRestoreChain`, root first. */
  function Flatten<E(==)>(name: E -> Path, layers: seq<Layer<E>>): (r: Snapshot<E>)
    ensures Disjoint(r) && Keyed(name, r)
    ensures forall p :: p in r.files <==> FateOf(name, layers, p).Live?
    ensures forall p :: p in r.files ==> r.files[p] == FateOf(name, layers, p).entry
    ensures forall p :: p in r.tombstones <==> FateOf(name, layers, p) == Removed
  {
    if |layers| == 0 then EmptySnapshot()
    else if |layers| == 1 then
      assert forall p :: FateOf(name, layers[..0], p) == Untracked;
      ApplyChanged(name, EmptySnapshot(), layers[0].changed)
    else
      var n := |layers| - 1;
      ApplyLayer(name, Flatten(name, layers[..n]), layers[n])
  }

  /** The root's deletion list has no effect. */
  lemma RootDeletionsIgnored<E>(name: E -> Path, changed: seq<E>, deleted: seq<Tombstone>)
    ensures Flatten(name, [Layer(changed, deleted)]) == Flatten(name, [Layer(changed, [])])
  {
  }

  /** A layer that changes `p` and does not delete it decides `p` (last write wins, resurrecting it). */
  lemma LastWriteWins<E>(name: E -> Path, layers: seq<Layer<E>>, layer: Layer<E>, p: Path)
    requires |layers| > 0
    requires LastChanged(name, layer.changed, p).Some? && !Deletes(layer.deleted, p)
    ensures p in Flatten(name, layers + [layer]).files
    ensures Flatten(name, layers + [layer]).files[p] == LastChanged(name, layer.changed, p).value
    ensures p !in Flatten(name, layers + [layer]).tombstones
  {
    assert (layers + [layer])[..|layers|] == layers;
  }

  /** A non-root layer that deletes `p` leaves it tombstoned, whatever it changes. */
  lemma DeletionWins<E>(name: E -> Path, layers: seq<Layer<E>>, layer: Layer<E>, p: Path)
    requires |layers| > 0 && Deletes(layer.deleted, p)
    ensures p !in Flatten(name, layers + [layer]).files
    ensures p in Flatten(name, layers + [layer]).tombstones
  {
  }

  /** A layer that does not mention `p` leaves its state as it was. */
  lemma UnmentionedUnchanged<E>(name: E -> Path, layers: seq<Layer<E>>, layer: Layer<E>, p: Path)
    requires |layers| > 0
    requires LastChanged(name, layer.changed, p).None? && !Deletes(layer.deleted, p)
    ensures p in Flatten(name, layers + [layer]).files <==> p in Flatten(name, layers).files
    ensures p in Flatten(name, layers).files ==>
              Flatten(name, layers + [layer]).files[p] == Flatten(name, layers).files[p]
    ensures p in Flatten(name, layers + [layer]).tombstones <==> p in Flatten(name, layers).tombstones
  {
    assert (layers + [layer])[..|layers|] == layers;
  }

  /**
   The one document of the chain for entry `d`, read as `flattenRestoreChain`
   reads it: as a `PatchFile` at every position in restore.go; as a `BaseFile`
   at the root in main.go (`legacyRoot`), whose entries play the root's changes.
   */
  function LayerOf<E(==)>(doc: Document<E>, isRoot: bool, legacyRoot: bool): (l: Layer<E>)
    ensures isRoot && legacyRoot ==> l == Layer(BaseView(doc).entries, [])
    ensures !(isRoot && legacyRoot) ==> l == Layer(PatchView(doc).changed, PatchView(doc).deleted)
  {
    if isRoot && legacyRoot then Layer(BaseView(doc).entries, [])
    else Layer(PatchView(doc).changed, PatchView(doc).deleted)
  }

  /** Downloading `<ID>.json` for every chain entry, root first; a missing one stops the restore. */
  function FetchLayers<E(==)>(docs: map<Id, Document<E>>, chain: seq<DbEntry>, legacyRoot: bool): (r: Result<seq<Layer<E>>, Error>)
    ensures r.Ok? <==> forall i :: 0 <= i < |chain| ==> chain[i].id in docs
    ensures r.Ok? ==> |r.value| == |chain|
                      && forall i :: 0 <= i < |chain| ==> r.value[i] == LayerOf(docs[chain[i].id], i == 0, legacyRoot)
    ensures r.Err? ==> exists j :: 0 <= j < |chain| && chain[j].id !in docs
                                   && r.error == DocumentNotFound(chain[j].id)
                                   && forall i :: 0 <= i < j ==> chain[i].id in docs
  {
    match FirstMissing(docs, chain)
    case Some(j) => Err(DocumentNotFound(chain[j].id))
    case None => Ok(seq(|chain|, i requires 0 <= i < |chain| => LayerOf(docs[chain[i].id], i == 0, legacyRoot)))
  }

  /** Position of the first chain entry without a document. */
  function FirstMissing<E>(docs: map<Id, Document<E>>, chain: seq<DbEntry>): (r: Option<nat>)
    ensures r.Some? ==> r.value < |chain| && chain[r.value].id !in docs
                        && forall i :: 0 <= i < r.value ==> chain[i].id in docs
    ensures r.None? <==> forall i :: 0 <= i < |chain| ==> chain[i].id in docs
  {
    if |chain| == 0 then None
    else if chain[0].id !in docs then Some(0)
    else match FirstMissing(docs, chain[1..])
      case None => None
      case Some(k) => Some(k + 1)
  }

  /** `flattenRestoreChain` end to end. */
  function FlattenChain<E(==)>(name: E -> Path, docs: map<Id, Document<E>>, chain: seq<DbEntry>, legacyRoot: bool): (r: Result<Snapshot<E>, Error>)
    ensures r.Ok? ==> Disjoint(r.value) && Keyed(name, r.value)
    ensures r.Ok? <==> forall i :: 0 <= i < |chain| ==> chain[i].id in docs
  {
    var layers :- FetchLayers(docs, chain, legacyRoot);
    Ok(Flatten(name, layers))
  }

  /** Root `{a, b}`, then a patch changing `b`, one deleting `b`, one changing `b` again. */
  function ExampleChain(): seq<Layer<Entry>> {
    [ Layer([Entry(["a"], "ha", 0), Entry(["b"], "hb", 0)], []),
      Layer([Entry(["b"], "hb1", 0)], []),
      Layer([], [Tombstone(["b"])]),
      Layer([Entry(["b"], "hb2", 0)], []) ]
  }

  function EntryName(e: Entry): Path {
    e.fileName
  }

  lemma ExampleFate(p: Path)
    ensures p == ["a"] ==> FateOf(EntryName, ExampleChain(), p) == Live(Entry(["a"], "ha", 0))
    ensures p == ["b"] ==> FateOf(EntryName, ExampleChain(), p) == Live(Entry(["b"], "hb2", 0))
    ensures p != ["a"] && p != ["b"] ==> FateOf(EntryName, ExampleChain(), p) == Untracked
  {
    var layers := ExampleChain();
    var l3, l2, l1 := layers[..3], layers[..2], layers[..1];
    assert l3[..2] == l2 && l2[..1] == l1 && l1[..0] == [];
    if p != ["b"] {
      assert LastChanged(EntryName, layers[3].changed, p).None?;
      assert LastChanged(EntryName, layers[1].changed, p).None?;
      assert !Deletes(layers[2].deleted, p);
      assert FateOf(EntryName, layers, p) == FateOf(EntryName, l3, p) == FateOf(EntryName, l2, p) == FateOf(EntryName, l1, p);
      if p == ["a"] {
        assert LastChanged(EntryName, layers[0].changed, p) == Some(Entry(["a"], "ha", 0));
      } else {
        assert LastChanged(EntryName, layers[0].changed, p).None?;
        assert FateOf(EntryName, l1, p) == FateOf(EntryName, [], p);
      }
    }
  }

  /**
   Resurrection after deletion, then last write wins: the example chain
   flattens to `a` and the newest `b`, with no tombstone left.
   */
  lemma ResurrectionExample(r: Snapshot<Entry>)
    requires r == Flatten(EntryName, ExampleChain())
    ensures forall p :: p in r.files <==> p == ["a"] || p == ["b"]
    ensures ["a"] in r.files && r.files[["a"]] == Entry(["a"], "ha", 0)
    ensures ["b"] in r.files && r.files[["b"]] == Entry(["b"], "hb2", 0)
    ensures forall p :: p !in r.tombstones
  {
    forall p
      ensures (p in r.files <==> p == ["a"] || p == ["b"]) && p !in r.tombstones
    {
      ExampleFate(p);
    }
    ExampleFate(["a"]);
    ExampleFate(["b"]);
  }
}
