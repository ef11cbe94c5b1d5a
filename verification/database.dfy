/**
 The metadata database (`db.json`): named tags pointing at chain heads and the
 list of chain entries with their back-pointers, with the lookups of
 database.go and main.go and the updates `commit` makes.
 */
module Database {
  import opened Wrappers
  import opened Types

  datatype Tag = Tag(name: string, id: Id)
  datatype DbEntry = DbEntry(id: Id, baseId: Id)
  datatype Db = Db(tags: seq<Tag>, entries: seq<DbEntry>)

  /** A missing database is treated as this one by `commit`. */
  const EmptyDb: Db := Db([], [])

  /** Index of the first element of `s` that satisfies `p`. */
  function FirstIndex<T>(s: seq<T>, p: T -> bool): (r: Option<nat>)
    ensures r.Some? ==> r.value < |s| && p(s[r.value]) && forall k :: 0 <= k < r.value ==> !p(s[k])
    ensures r.None? <==> forall k :: 0 <= k < |s| ==> !p(s[k])
  {
    if |s| == 0 then None
    else if p(s[0]) then Some(0)
    else match FirstIndex(s[1..], p)
      case None => None
      case Some(k) => Some(k + 1)
  }

  /** Index of the first tag called `name`. */
  function TagIndex(tags: seq<Tag>, name: string): (r: Option<nat>)
    ensures r.Some? ==> r.value < |tags| && tags[r.value].name == name
                        && forall k :: 0 <= k < r.value ==> tags[k].name != name
    ensures r.None? <==> forall k :: 0 <= k < |tags| ==> tags[k].name != name
  {
    FirstIndex(tags, (t: Tag) => t.name == name)
  }

  /** The first tag with the name is the one `TagIndex` finds. */
  lemma TagIndexFirst(tags: seq<Tag>, name: string, k: nat)
    requires k < |tags| && tags[k].name == name
    requires forall m :: 0 <= m < k ==> tags[m].name != name
    ensures TagIndex(tags, name) == Some(k)
  {
  }

  /** `findTag`: the head of the first tag with that name, `uuid.Nil` when there is none. */
  function FindTag(db: Db, name: string): (id: Id)
    ensures (exists k :: 0 <= k < |db.tags| && db.tags[k].name == name) ==>
              exists k :: 0 <= k < |db.tags| && db.tags[k].name == name && id == db.tags[k].id
                          && forall m :: 0 <= m < k ==> db.tags[m].name != name
    ensures (forall k :: 0 <= k < |db.tags| ==> db.tags[k].name != name) ==> id == Nil
  {
    match TagIndex(db.tags, name)
    case Some(k) => db.tags[k].id
    case None => Nil
  }

  /** `findEntry`: the first entry with that ID, nothing when there is none. */
  function FindEntry(db: Db, id: Id): (r: Option<DbEntry>)
    ensures r.Some? ==> r.value.id == id
                        && exists k :: 0 <= k < |db.entries| && db.entries[k] == r.value
                                       && forall m :: 0 <= m < k ==> db.entries[m].id != id
    ensures r.None? <==> forall k :: 0 <= k < |db.entries| ==> db.entries[k].id != id
  {
    match FirstIndex(db.entries, (e: DbEntry) => e.id == id)
    case Some(k) => Some(db.entries[k])
    case None => None
  }

  /** Whether some entry already carries `id`. */
  predicate HasEntry(db: Db, id: Id) {
    exists k :: 0 <= k < |db.entries| && db.entries[k].id == id
  }

  /** The characters `commit` refuses in a tag name. */
  const ForbiddenTagChars: string := " .:;'#+*~"

  /** `!strings.ContainsAny(name, " .:;'#+*~")`. */
  predicate ValidTagName(name: string) {
    forall i :: 0 <= i < |name| ==> name[i] !in ForbiddenTagChars
  }

  /**
   Tag update of `commit`: the first tag with the name is moved to `id`;
   without one, a new tag is appended.
   */
  function UpsertTag(tags: seq<Tag>, name: string, id: Id): (r: seq<Tag>)
    ensures TagIndex(tags, name).Some? ==>
              |r| == |tags| && r[TagIndex(tags, name).value] == Tag(name, id)
              && forall k :: 0 <= k < |tags| && k != TagIndex(tags, name).value ==> r[k] == tags[k]
    ensures TagIndex(tags, name).None? ==> r == tags + [Tag(name, id)]
  {
    match TagIndex(tags, name)
    case Some(k) => tags[k := Tag(name, id)]
    case None => tags + [Tag(name, id)]
  }

  /** After the update the tag resolves to the new head, and every other tag is unaffected. */
  lemma UpsertThenFind(db: Db, name: string, id: Id, other: string)
    requires other != name
    ensures FindTag(Db(UpsertTag(db.tags, name, id), db.entries), name) == id
    ensures FindTag(Db(UpsertTag(db.tags, name, id), db.entries), other) == FindTag(db, other)
  {
    var t := UpsertTag(db.tags, name, id);
    var db2 := Db(t, db.entries);
    if TagIndex(db.tags, name).Some? {
      TagIndexFirst(t, name, TagIndex(db.tags, name).value);
    } else {
      TagIndexFirst(t, name, |db.tags|);
    }
    if TagIndex(db.tags, other).Some? {
      TagIndexFirst(t, other, TagIndex(db.tags, other).value);
    } else {
      assert forall k :: 0 <= k < |t| ==> t[k].name != other;
    }
  }

  /** The entry `commit` appends, keeping everything before it. */
  function AddEntry(db: Db, id: Id, baseId: Id): (r: Db)
    ensures r.tags == db.tags && |r.entries| == |db.entries| + 1
    ensures r.entries[..|db.entries|] == db.entries
    ensures r.entries[|db.entries|] == DbEntry(id, baseId)
  {
    Db(db.tags, db.entries + [DbEntry(id, baseId)])
  }

  /** With a fresh ID the new entry is what `findEntry` returns, and old lookups are unchanged. */
  lemma AddThenFind(db: Db, id: Id, baseId: Id, other: Id)
    requires !HasEntry(db, id)
    ensures FindEntry(AddEntry(db, id, baseId), id) == Some(DbEntry(id, baseId))
    ensures other != id ==> FindEntry(AddEntry(db, id, baseId), other) == FindEntry(db, other)
  {
    FindEntryAppend(db, DbEntry(id, baseId), id);
    FindEntryAppend(db, DbEntry(id, baseId), other);
  }

  lemma {:induction false} FindEntryAppend(db: Db, e: DbEntry, id: Id)
    ensures FindEntry(Db(db.tags, db.entries + [e]), id)
              == if FindEntry(db, id).Some? then FindEntry(db, id)
                 else if e.id == id then Some(e) else None
    decreases |db.entries|
  {
    var db2 := Db(db.tags, db.entries + [e]);
    if |db.entries| > 0 && db.entries[0].id != id {
      var tail := Db(db.tags, db.entries[1..]);
      assert db2.entries[1..] == tail.entries + [e];
      FindEntryAppend(tail, e, id);
    }
  }
}
