/**
 Chain resolution (`findRestoreChain` in restore.go and main.go): follow the
 `BaseID` back-pointers from the head until `uuid.Nil`, then reverse, so the
 root comes first and the head last. The Go loop has no cycle guard; here the
 walk makes at most one lookup more than there are database entries, and
 running out of lookups is reported as `ChainCycle`, which happens exactly when
 the Go loop never ends (`CycleExactly`, stated against `HeadAfter`, the Go
 loop's own state).
 */
module Chain {
  import opened Wrappers
  import opened Types
  import opened Database

  /** Head-first: the head's entry, then the walk from its base, ending at Nil. */
  predicate LinkedFrom(db: Db, head: Id, w: seq<DbEntry>)
    decreases |w|
  {
    if |w| == 0 then head == Nil
    else head != Nil && FindEntry(db, head) == Some(w[0]) && LinkedFrom(db, w[0].baseId, w[1..])
  }

  /** Root-first, as `findRestoreChain` returns it: the root's base is Nil, the head is last. */
  predicate Linked(db: Db, head: Id, c: seq<DbEntry>) {
    && (|c| == 0 <==> head == Nil)
    && (|c| > 0 ==> c[|c| - 1].id == head && c[0].baseId == Nil)
    && (forall i :: 0 < i < |c| ==> c[i].baseId == c[i - 1].id)
    && (forall i :: 0 <= i < |c| ==> c[i].id != Nil && FindEntry(db, c[i].id) == Some(c[i]))
  }

  /** The loop of `findRestoreChain`, head-first, with at most `fuel` lookups. */
  function Walk(db: Db, head: Id, fuel: nat): (r: Result<seq<DbEntry>, Error>)
    ensures r.Ok? ==> LinkedFrom(db, head, r.value) && |r.value| <= fuel
    ensures r.Err? ==> (r.error.PatchNotFound? && FindEntry(db, r.error.id).None? && r.error.id != Nil)
                       || r.error.ChainCycle?
    decreases fuel
  {
    if head == Nil then Ok([])
    else if fuel == 0 then Err(ChainCycle(head))
    else match FindEntry(db, head)
      case None => Err(PatchNotFound(head))
      case Some(e) =>
        match Walk(db, e.baseId, fuel - 1)
        case Err(err) => Err(err)
        case Ok(rest) => Ok([e] + rest)
  }

  function Reverse<T>(s: seq<T>): (r: seq<T>)
    ensures |r| == |s| && forall i :: 0 <= i < |s| ==> r[i] == s[|s| - 1 - i]
  {
    if |s| == 0 then [] else Reverse(s[1..]) + [s[0]]
  }

  /** Extending a root-first chain by one entry at the head end. */
  lemma LinkedSnoc(db: Db, head: Id, c: seq<DbEntry>, e: DbEntry)
    ensures Linked(db, head, c + [e]) <==>
              e.id == head && head != Nil && FindEntry(db, head) == Some(e) && Linked(db, e.baseId, c)
  {
    var d := c + [e];
    if Linked(db, head, d) {
      assert d[|d| - 1] == e;
      if |c| > 0 {
        assert d[|c|].baseId == d[|c| - 1].id;
      }
      forall i | 0 < i < |c|
        ensures c[i].baseId == c[i - 1].id
      {
        assert d[i] == c[i] && d[i - 1] == c[i - 1];
      }
      forall i | 0 <= i < |c|
        ensures c[i].id != Nil && FindEntry(db, c[i].id) == Some(c[i])
      {
        assert d[i] == c[i];
      }
    }
    if e.id == head && head != Nil && FindEntry(db, head) == Some(e) && Linked(db, e.baseId, c) {
      forall i | 0 < i < |d|
        ensures d[i].baseId == d[i - 1].id
      {
        if i < |c| {
          assert d[i] == c[i] && d[i - 1] == c[i - 1];
        } else {
          assert d[i] == e && d[i - 1] == c[|c| - 1];
        }
      }
      forall i | 0 <= i < |d|
        ensures d[i].id != Nil && FindEntry(db, d[i].id) == Some(d[i])
      {
        if i < |c| {
          assert d[i] == c[i];
        }
      }
    }
  }

  /** The two orientations of a chain describe the same thing. */
  lemma {:induction false} ReverseLinked(db: Db, head: Id, w: seq<DbEntry>)
    ensures LinkedFrom(db, head, w) <==> Linked(db, head, Reverse(w))
    decreases |w|
  {
    if |w| > 0 {
      ReverseLinked(db, w[0].baseId, w[1..]);
      assert Reverse(w) == Reverse(w[1..]) + [w[0]];
      LinkedSnoc(db, head, Reverse(w[1..]), w[0]);
    }
  }

  /** `findRestoreChain`: root first, head last; a broken link is "patch not found". */
  function FindRestoreChain(db: Db, head: Id): (r: Result<seq<DbEntry>, Error>)
    ensures r.Ok? ==> Linked(db, head, r.value)
    ensures head == Nil ==> r == Ok([])
    ensures r.Err? ==> (r.error.PatchNotFound? && FindEntry(db, r.error.id).None? && r.error.id != Nil)
                       || r.error.ChainCycle?
  {
    var w :- Walk(db, head, |db.entries| + 1);
    ReverseLinked(db, head, w);
    Ok(Reverse(w))
  }

  /** A head has at most one linked walk. */
  lemma {:induction false} LinkedUnique(db: Db, head: Id, w1: seq<DbEntry>, w2: seq<DbEntry>)
    requires LinkedFrom(db, head, w1) && LinkedFrom(db, head, w2)
    ensures w1 == w2
    decreases |w1|
  {
    if |w1| > 0 {
      assert |w2| > 0;
      LinkedUnique(db, w1[0].baseId, w1[1..], w2[1..]);
      assert w1 == [w1[0]] + w1[1..] && w2 == [w2[0]] + w2[1..];
    }
  }

  /** Every suffix of a linked walk is the walk from its first entry. */
  lemma {:induction false} LinkedSuffix(db: Db, head: Id, w: seq<DbEntry>, k: nat)
    requires LinkedFrom(db, head, w) && k < |w|
    ensures w[k].id != Nil && FindEntry(db, w[k].id) == Some(w[k]) && LinkedFrom(db, w[k].id, w[k..])
    decreases k
  {
    if k > 0 {
      LinkedSuffix(db, w[0].baseId, w[1..], k - 1);
      assert w[1..][k - 1..] == w[k..];
    }
  }

  /** Along a linked walk no ID repeats: the walks from two equal IDs would be equal, but differ in length. */
  lemma LinkedDistinct(db: Db, head: Id, w: seq<DbEntry>, i: nat, j: nat)
    requires LinkedFrom(db, head, w)
    requires i < j < |w|
    ensures w[i].id != w[j].id
  {
    LinkedSuffix(db, head, w, i);
    LinkedSuffix(db, head, w, j);
    if w[i].id == w[j].id {
      LinkedUnique(db, w[i].id, w[i..], w[j..]);
    }
  }

  function Ids(w: seq<DbEntry>): set<Id> {
    set i | 0 <= i < |w| :: w[i].id
  }

  lemma {:induction false} IdsOfDistinct(w: seq<DbEntry>)
    requires forall i, j :: 0 <= i < j < |w| ==> w[i].id != w[j].id
    ensures |Ids(w)| == |w|
  {
    if |w| > 0 {
      var init := w[..|w| - 1];
      IdsOfDistinct(init);
      assert Ids(w) == Ids(init) + {w[|w| - 1].id};
      assert w[|w| - 1].id !in Ids(init);
    }
  }

  lemma {:induction false} IdsBound(w: seq<DbEntry>)
    ensures |Ids(w)| <= |w|
  {
    if |w| > 0 {
      var init := w[..|w| - 1];
      IdsBound(init);
      assert Ids(w) == Ids(init) + {w[|w| - 1].id};
    }
  }

  lemma SubsetCard(a: set<Id>, b: set<Id>)
    requires a <= b
    ensures |a| <= |b|
  {
    assert b == a + (b - a);
  }

  /** A linked walk visits each database entry at most once, so it fits in the step budget. */
  lemma LinkedFits(db: Db, head: Id, w: seq<DbEntry>)
    requires LinkedFrom(db, head, w)
    ensures |w| <= |db.entries|
  {
    forall i, j | 0 <= i < j < |w|
      ensures w[i].id != w[j].id
    {
      LinkedDistinct(db, head, w, i, j);
    }
    IdsOfDistinct(w);
    forall x | x in Ids(w)
      ensures x in Ids(db.entries)
    {
      var i :| 0 <= i < |w| && w[i].id == x;
      LinkedSuffix(db, head, w, i);
      var k :| 0 <= k < |db.entries| && db.entries[k] == FindEntry(db, x).value;
    }
    SubsetCard(Ids(w), Ids(db.entries));
    IdsBound(db.entries);
  }

  /** One lookup of the walk: a found head puts its entry in front of the rest of the walk. */
  lemma WalkStep(db: Db, head: Id, fuel: nat, e: DbEntry)
    requires head != Nil && fuel > 0 && FindEntry(db, head) == Some(e)
    ensures Walk(db, head, fuel) == if Walk(db, e.baseId, fuel - 1).Ok?
                                    then Ok([e] + Walk(db, e.baseId, fuel - 1).value)
                                    else Walk(db, e.baseId, fuel - 1)
  {
  }

  /** A linked walk that fits in the budget is what the walk finds. */
  lemma {:induction false} WalkFinds(db: Db, head: Id, w: seq<DbEntry>, fuel: nat)
    requires LinkedFrom(db, head, w) && |w| <= fuel
    ensures Walk(db, head, fuel) == Ok(w)
    decreases |w|
  {
    if |w| > 0 {
      var e, rest := w[0], w[1..];
      assert w == [e] + rest;
      WalkFinds(db, e.baseId, rest, fuel - 1);
      WalkStep(db, head, fuel, e);
      assert Walk(db, head, fuel) == Ok([e] + rest);
    } else {
      assert w == [];
    }
  }

  /**
   The chain of a head is unique and found: `findRestoreChain` succeeds with
   `c` exactly when `c` is a root-first linked chain ending at the head.
   */
  lemma ResolveExact(db: Db, head: Id, c: seq<DbEntry>)
    ensures FindRestoreChain(db, head) == Ok(c) <==> Linked(db, head, c)
  {
    if Linked(db, head, c) {
      ChainFound(db, head, c);
    }
  }

  lemma ChainFound(db: Db, head: Id, c: seq<DbEntry>)
    requires Linked(db, head, c)
    ensures FindRestoreChain(db, head) == Ok(c)
  {
    var w := Reverse(c);
    assert Reverse(w) == c;
    ReverseLinked(db, head, w);
    LinkedFits(db, head, w);
    WalkFinds(db, head, w, |db.entries| + 1);
    ChainOfWalk(db, head, w);
  }

  lemma ChainOfWalk(db: Db, head: Id, w: seq<DbEntry>)
    requires Walk(db, head, |db.entries| + 1) == Ok(w)
    ensures FindRestoreChain(db, head) == Ok(Reverse(w))
  {
  }

  /** One iteration of the Go loop: from a non-Nil head with an entry, on to its base. */
  function Next(db: Db, x: Id): (r: Option<Id>)
    ensures r.Some? <==> x != Nil && FindEntry(db, x).Some?
    ensures r.Some? ==> r.value == FindEntry(db, x).value.baseId
  {
    if x == Nil then None
    else match FindEntry(db, x)
      case None => None
      case Some(e) => Some(e.baseId)
  }

  /**
   The Go loop's `currentHead` after `n` iterations, or None once it has left
   the loop, at `uuid.Nil` or at the fatal "Patch not found".
   */
  function HeadAfter(db: Db, head: Id, n: nat): Option<Id>
    decreases n
  {
    if n == 0 then Some(head)
    else match Next(db, head)
      case None => None
      case Some(y) => HeadAfter(db, y, n - 1)
  }

  /** Iteration `k + 1` is one step on from iteration `k`. */
  lemma {:induction false} HeadAfterStep(db: Db, head: Id, k: nat, x: Id)
    requires HeadAfter(db, head, k) == Some(x)
    ensures HeadAfter(db, head, k + 1) == Next(db, x)
    decreases k
  {
    if k > 0 {
      HeadAfterStep(db, Next(db, head).value, k - 1, x);
    }
  }

  /** `|w|` successive lookups from `head` succeed, finding the entries of `w` in turn. */
  predicate Path(db: Db, head: Id, w: seq<DbEntry>) {
    && (|w| > 0 ==> w[0].id == head)
    && (forall k :: 0 <= k < |w| ==> w[k].id != Nil && FindEntry(db, w[k].id) == Some(w[k]))
    && (forall k :: 0 < k < |w| ==> w[k].id == w[k - 1].baseId)
  }

  /** A found head in front of a path from its base is a path from the head. */
  lemma PathCons(db: Db, head: Id, e: DbEntry, rest: seq<DbEntry>)
    requires head != Nil && FindEntry(db, head) == Some(e) && Path(db, e.baseId, rest)
    ensures Path(db, head, [e] + rest)
  {
    var w := [e] + rest;
    forall k | 0 < k < |w|
      ensures w[k].id == w[k - 1].baseId
    {
      if k > 1 {
        assert w[k] == rest[k - 1] && w[k - 1] == rest[k - 2];
      }
    }
  }

  /** Running out of lookups means every lookup on the way succeeded. */
  lemma {:induction false} CyclePath(db: Db, head: Id, fuel: nat) returns (w: seq<DbEntry>)
    requires Walk(db, head, fuel).Err? && Walk(db, head, fuel).error.ChainCycle?
    ensures |w| == fuel && Path(db, head, w)
    decreases fuel
  {
    if fuel == 0 {
      w := [];
    } else {
      var e := FindEntry(db, head).value;
      WalkStep(db, head, fuel, e);
      var rest := CyclePath(db, e.baseId, fuel - 1);
      PathCons(db, head, e, rest);
      w := [e] + rest;
    }
  }

  /** A "Patch not found" is met by the Go loop at some iteration. */
  lemma {:induction false} NotFoundReached(db: Db, head: Id, fuel: nat, x: Id) returns (k: nat)
    requires Walk(db, head, fuel) == Err(PatchNotFound(x))
    ensures k < fuel && HeadAfter(db, head, k) == Some(x)
    decreases fuel
  {
    assert head != Nil && fuel > 0;
    if FindEntry(db, head).None? {
      assert Walk(db, head, fuel) == Err(PatchNotFound(head));
      k := 0;
    } else {
      var e := FindEntry(db, head).value;
      WalkStep(db, head, fuel, e);
      var j := NotFoundReached(db, e.baseId, fuel - 1, x);
      assert Next(db, head) == Some(e.baseId);
      k := j + 1;
    }
  }

  /** A missing entry the Go loop reaches within the budget is the walk's error. */
  lemma {:induction false} WalkReaches(db: Db, head: Id, fuel: nat, k: nat, x: Id)
    requires HeadAfter(db, head, k) == Some(x) && x != Nil && FindEntry(db, x).None? && k < fuel
    ensures Walk(db, head, fuel) == Err(PatchNotFound(x))
    decreases k
  {
    if k > 0 {
      WalkReaches(db, Next(db, head).value, fuel - 1, k - 1, x);
    }
  }

  /** A non-Nil head the Go loop reaches at iteration `k` lies beyond a budget of `fuel <= k`. */
  lemma {:induction false} WalkFar(db: Db, head: Id, fuel: nat, k: nat, x: Id)
    requires HeadAfter(db, head, k) == Some(x) && x != Nil && fuel <= k
    ensures Walk(db, head, fuel).Err? && Walk(db, head, fuel).error.ChainCycle?
    decreases fuel
  {
    if fuel > 0 {
      WalkFar(db, Next(db, head).value, fuel - 1, k - 1, x);
    }
  }

  /** A linked walk ends the Go loop at `uuid.Nil` after one iteration per entry. */
  lemma {:induction false} LinkedEnds(db: Db, head: Id, w: seq<DbEntry>)
    requires LinkedFrom(db, head, w)
    ensures HeadAfter(db, head, |w|) == Some(Nil)
    decreases |w|
  {
    if |w| > 0 {
      LinkedEnds(db, w[0].baseId, w[1..]);
    }
  }

  /** A set of IDs the Go loop cannot leave: each has an entry whose base is again in the set. */
  predicate Closed(db: Db, s: set<Id>) {
    forall x {:trigger Next(db, x)} :: x in s ==> Next(db, x).Some? && Next(db, x).value in s
  }

  lemma {:induction false} ClosedLoops(db: Db, s: set<Id>, head: Id, n: nat)
    requires Closed(db, s) && head in s
    ensures HeadAfter(db, head, n).Some? && HeadAfter(db, head, n).value in s
    decreases n
  {
    if n > 0 {
      ClosedLoops(db, s, Next(db, head).value, n - 1);
    }
  }

  /** More successful lookups than entries must meet some ID twice. */
  lemma LongPathRepeats(db: Db, head: Id, w: seq<DbEntry>) returns (i: nat, j: nat)
    requires Path(db, head, w) && |w| > |db.entries|
    ensures i < j < |w| && w[i].id == w[j].id
  {
    if forall i, j :: 0 <= i < j < |w| ==> w[i].id != w[j].id {
      IdsOfDistinct(w);
      forall x | x in Ids(w)
        ensures x in Ids(db.entries)
      {
        var i :| 0 <= i < |w| && w[i].id == x;
        var k :| 0 <= k < |db.entries| && db.entries[k] == FindEntry(db, x).value;
      }
      SubsetCard(Ids(w), Ids(db.entries));
      IdsBound(db.entries);
      assert false;
    }
    i, j :| 0 <= i < j < |w| && w[i].id == w[j].id;
  }

  /** A path that meets an ID twice is a loop the Go code never leaves. */
  lemma PathLoops(db: Db, head: Id, w: seq<DbEntry>, i: nat, j: nat, n: nat)
    requires Path(db, head, w) && i < j < |w| && w[i].id == w[j].id
    ensures HeadAfter(db, head, n).Some?
  {
    var s := set k | 0 <= k < j :: w[k].id;
    forall x | x in s
      ensures Next(db, x).Some? && Next(db, x).value in s
    {
      var k :| 0 <= k < j && w[k].id == x;
      assert Next(db, x) == Some(w[k].baseId) == Some(w[k + 1].id);
      if k + 1 == j {
        assert w[i].id in s;
      } else {
        assert w[k + 1].id in s;
      }
    }
    assert head == w[0].id && w[0].id in s;
    ClosedLoops(db, s, head, n);
  }

  /**
   `ChainCycle` is returned exactly when the Go loop never ends: it takes
   another iteration whatever number it has already taken.
   */
  lemma CycleExactly(db: Db, head: Id)
    ensures (FindRestoreChain(db, head).Err? && FindRestoreChain(db, head).error.ChainCycle?)
              <==> (forall n: nat :: HeadAfter(db, head, n).Some?)
  {
    var fuel := |db.entries| + 1;
    var r := Walk(db, head, fuel);
    if r.Err? && r.error.ChainCycle? {
      var w := CyclePath(db, head, fuel);
      var i, j := LongPathRepeats(db, head, w);
      forall n: nat
        ensures HeadAfter(db, head, n).Some?
      {
        PathLoops(db, head, w, i, j, n);
      }
    } else if r.Ok? {
      LinkedEnds(db, head, r.value);
      HeadAfterStep(db, head, |r.value|, Nil);
      assert HeadAfter(db, head, |r.value| + 1).None?;
    } else {
      var k := NotFoundReached(db, head, fuel, r.error.id);
      HeadAfterStep(db, head, k, r.error.id);
      assert HeadAfter(db, head, k + 1).None?;
    }
  }

  /**
   "Patch not found" names `x` exactly when the Go loop reaches the non-Nil
   ID `x` and finds no entry for it.
   */
  lemma NotFoundExactly(db: Db, head: Id, x: Id)
    ensures (FindRestoreChain(db, head) == Err(PatchNotFound(x)))
              <==> (x != Nil && FindEntry(db, x).None? && exists k: nat :: HeadAfter(db, head, k) == Some(x))
  {
    var fuel := |db.entries| + 1;
    if Walk(db, head, fuel) == Err(PatchNotFound(x)) {
      var k := NotFoundReached(db, head, fuel, x);
    }
    if x != Nil && FindEntry(db, x).None? && exists k: nat :: HeadAfter(db, head, k) == Some(x) {
      var k: nat :| HeadAfter(db, head, k) == Some(x);
      if k < fuel {
        WalkReaches(db, head, fuel, k, x);
      } else {
        WalkFar(db, head, fuel, k, x);
        CycleExactly(db, head);
        HeadAfterStep(db, head, k, x);
      }
    }
  }

  /**
   A full chain of found entries that ends at a missing base: the Go loop stops
   with "Patch not found", and so does the model, here after one entry and after two.
   */
  lemma MissingBaseAfterFullChain()
    ensures FindRestoreChain(Db([], [DbEntry(1, 2)]), 1) == Err(PatchNotFound(2))
    ensures FindRestoreChain(Db([], [DbEntry(1, 2), DbEntry(2, 3)]), 1) == Err(PatchNotFound(3))
  {
    var db1 := Db([], [DbEntry(1, 2)]);
    assert HeadAfter(db1, 1, 1) == Some(2);
    NotFoundExactly(db1, 1, 2);
    var db2 := Db([], [DbEntry(1, 2), DbEntry(2, 3)]);
    assert HeadAfter(db2, 1, 2) == Some(3);
    NotFoundExactly(db2, 1, 3);
  }

  /** Running out of lookups means there is no chain to find, and the Go loop never ends. */
  lemma CycleMeansNoChain(db: Db, head: Id, c: seq<DbEntry>, n: nat)
    requires FindRestoreChain(db, head).Err? && FindRestoreChain(db, head).error.ChainCycle?
    ensures !Linked(db, head, c)
    ensures HeadAfter(db, head, n).Some?
  {
    ResolveExact(db, head, c);
    CycleExactly(db, head);
  }
}
