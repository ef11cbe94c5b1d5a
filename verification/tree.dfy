/**
 The source directory a version or patch is built from, the `os.Stat`-style
 lookup of a relative path in it, and the recursive scan of `processDir`
 (base.go) and `processPatchDir` (patchcreation.go), which visits children in
 `os.ReadDir` order and names each regular file `Join(subDir, name)`.
 */
module SourceTree {
  import opened Wrappers
  import opened Types

  datatype Node = File(content: Bytes) | Dir(children: seq<Child>)
  datatype Child = Child(name: string, node: Node)

  /** Names within one directory are distinct, as on a real filesystem. */
  predicate WellFormed(n: Node)
    decreases n
  {
    match n
    case File(_) => true
    case Dir(cs) =>
      (forall i, j :: 0 <= i < j < |cs| ==> cs[i].name != cs[j].name)
      && forall i :: 0 <= i < |cs| ==> WellFormed(cs[i].node)
  }

  /** Outcome of `os.Stat`: found, not existing, or failing because a parent is a file. */
  datatype Stat = Found(node: Node) | Missing | NotDir

  function ChildIndex(cs: seq<Child>, name: string): (r: Option<nat>)
    ensures r.Some? ==> r.value < |cs| && cs[r.value].name == name
    ensures r.Some? ==> forall k :: 0 <= k < r.value ==> cs[k].name != name
    ensures r.None? ==> forall k :: 0 <= k < |cs| ==> cs[k].name != name
  {
    if |cs| == 0 then None
    else if cs[0].name == name then Some(0)
    else match ChildIndex(cs[1..], name)
      case None => None
      case Some(k) => Some(k + 1)
  }

  /** In a well-formed directory the child with a given name is found at its own index. */
  lemma ChildIndexOf(cs: seq<Child>, i: nat)
    requires i < |cs|
    requires forall a, b :: 0 <= a < b < |cs| ==> cs[a].name != cs[b].name
    ensures ChildIndex(cs, cs[i].name) == Some(i)
  {
  }

  /** `os.Stat(filepath.Join(root, p))`. */
  function Lookup(n: Node, p: Path): Stat
    decreases p
  {
    if |p| == 0 then Found(n)
    else match n
      case File(_) => NotDir
      case Dir(cs) =>
        match ChildIndex(cs, p[0])
        case None => Missing
        case Some(i) => Lookup(cs[i].node, p[1..])
  }

  predicate IsFileAt(n: Node, p: Path) {
    Lookup(n, p).Found? && Lookup(n, p).node.File?
  }

  /** The path of a regular file is never a proper prefix of another existing path. */
  lemma {:induction false} FileHasNoDescendants(n: Node, p: Path, q: Path)
    requires IsFileAt(n, p) && |p| < |q| && q[..|p|] == p
    ensures Lookup(n, q) == NotDir
    decreases p
  {
    if |p| == 0 {
      assert n.File?;
    } else {
      var i := ChildIndex(n.children, p[0]).value;
      assert q[0] == p[0];
      assert q[1..][..|p| - 1] == p[1..];
      FileHasNoDescendants(n.children[i].node, p[1..], q[1..]);
    }
  }

  /** A regular file found by the scan, with its path relative to the source root. */
  datatype Scanned = Scanned(path: Path, content: Bytes)

  /**
   The walk of `processPatchDir` over the children of `dir` from index `i` on:
   a child whose relative path is in `skip` is passed over (directory or not),
   a directory is descended into, and a regular file is emitted. `processDir`
   of base.go is the same walk with nothing skipped.
   */
  function ScanDir(dir: Node, prefix: Path, skip: set<Path>, i: nat): seq<Scanned>
    requires dir.Dir? && i <= |dir.children|
    decreases dir, |dir.children| - i
  {
    if i == |dir.children| then []
    else
      var c := dir.children[i];
      var rel := prefix + [c.name];
      var here :=
        if rel in skip then []
        else match c.node
          case File(b) => [Scanned(rel, b)]
          case Dir(_) => ScanDir(c.node, rel, skip, 0);
      here + ScanDir(dir, prefix, skip, i + 1)
  }

  /** Every scanned file exists at its path, below `prefix`, and was not skipped. */
  lemma {:induction false} ScanDirSound(dir: Node, prefix: Path, skip: set<Path>, i: nat, x: Scanned)
    requires dir.Dir? && i <= |dir.children| && WellFormed(dir)
    requires x in ScanDir(dir, prefix, skip, i)
    ensures |x.path| > |prefix| && x.path[..|prefix|] == prefix
    ensures Lookup(dir, x.path[|prefix|..]) == Found(File(x.content))
    ensures x.path !in skip
    decreases dir, |dir.children| - i
  {
    var c := dir.children[i];
    var rel := prefix + [c.name];
    if x in ScanDir(dir, prefix, skip, i + 1) {
      ScanDirSound(dir, prefix, skip, i + 1, x);
    } else {
      assert rel !in skip;
      ChildIndexOf(dir.children, i);
      match c.node
      case File(b) =>
        assert x == Scanned(rel, b);
        assert x.path[|prefix|..] == [c.name];
      case Dir(_) =>
        ScanDirSound(c.node, rel, skip, 0, x);
        assert x.path[..|prefix|] == rel[..|prefix|];
        var tail := x.path[|prefix|..];
        assert tail[0] == c.name;
        assert tail[1..] == x.path[|rel|..];
    }
  }

  /** No path strictly below `prefix` along `rest` is skipped. */
  predicate Unskipped(prefix: Path, rest: Path, skip: set<Path>) {
    forall k :: 1 <= k <= |rest| ==> prefix + rest[..k] !in skip
  }

  /** The scan of child `i` comes first in the scan from index `i`. */
  lemma ScanDirUnfold(dir: Node, prefix: Path, skip: set<Path>, i: nat)
    requires dir.Dir? && i < |dir.children|
    ensures var c := dir.children[i];
            var rel := prefix + [c.name];
            rel !in skip && c.node.File? ==>
              ScanDir(dir, prefix, skip, i) == [Scanned(rel, c.node.content)] + ScanDir(dir, prefix, skip, i + 1)
    ensures var c := dir.children[i];
            var rel := prefix + [c.name];
            rel !in skip && c.node.Dir? ==>
              ScanDir(dir, prefix, skip, i) == ScanDir(c.node, rel, skip, 0) + ScanDir(dir, prefix, skip, i + 1)
    ensures forall x :: x in ScanDir(dir, prefix, skip, i + 1) ==> x in ScanDir(dir, prefix, skip, i)
  {
  }

  /** Every regular file below `dir` that no skipped path covers is scanned. */
  lemma {:induction false} ScanDirComplete(dir: Node, prefix: Path, skip: set<Path>, i: nat, rest: Path, content: Bytes)
    requires dir.Dir? && i <= |dir.children| && WellFormed(dir)
    requires |rest| > 0 && Lookup(dir, rest) == Found(File(content))
    requires ChildIndex(dir.children, rest[0]).value >= i
    requires Unskipped(prefix, rest, skip)
    ensures Scanned(prefix + rest, content) in ScanDir(dir, prefix, skip, i)
    decreases dir, |dir.children| - i, 1
  {
    var j := ChildIndex(dir.children, rest[0]).value;
    if j > i {
      ScanDirComplete(dir, prefix, skip, i + 1, rest, content);
      ScanDirUnfold(dir, prefix, skip, i);
    } else if |rest| == 1 {
      ScanFileChild(dir, prefix, skip, i, rest, content);
    } else {
      ScanDirBelow(dir, prefix, skip, i, rest, content);
    }
  }

  /** The completeness lemma for a file below child `i`, a directory. */
  lemma {:induction false} ScanDirBelow(dir: Node, prefix: Path, skip: set<Path>, i: nat, rest: Path, content: Bytes)
    requires dir.Dir? && i < |dir.children| && WellFormed(dir)
    requires |rest| > 1 && Lookup(dir, rest) == Found(File(content))
    requires ChildIndex(dir.children, rest[0]) == Some(i)
    requires Unskipped(prefix, rest, skip)
    ensures Scanned(prefix + rest, content) in ScanDir(dir, prefix, skip, i)
    decreases dir, |dir.children| - i, 0
  {
    var c := dir.children[i];
    var rel := prefix + [c.name];
    ScanDirChild(dir, prefix, skip, i, rest, content);
    ScanDirComplete(c.node, rel, skip, 0, rest[1..], content);
    assert rel + rest[1..] == prefix + rest;
  }

  lemma ScanFileChild(dir: Node, prefix: Path, skip: set<Path>, i: nat, rest: Path, content: Bytes)
    requires dir.Dir? && i < |dir.children|
    requires |rest| == 1 && Lookup(dir, rest) == Found(File(content))
    requires ChildIndex(dir.children, rest[0]) == Some(i)
    requires Unskipped(prefix, rest, skip)
    ensures Scanned(prefix + rest, content) in ScanDir(dir, prefix, skip, i)
  {
    var c := dir.children[i];
    assert rest[..1] == rest == [c.name];
    assert Lookup(dir, rest) == Lookup(c.node, []);
    ScanDirUnfold(dir, prefix, skip, i);
  }

  /** Descending into child `i` along `rest` keeps the hypotheses of the completeness lemma. */
  lemma ScanDirChild(dir: Node, prefix: Path, skip: set<Path>, i: nat, rest: Path, content: Bytes)
    requires dir.Dir? && i < |dir.children| && WellFormed(dir)
    requires |rest| > 1 && Lookup(dir, rest) == Found(File(content))
    requires ChildIndex(dir.children, rest[0]) == Some(i)
    requires Unskipped(prefix, rest, skip)
    ensures var c := dir.children[i];
            && c.node.Dir? && WellFormed(c.node)
            && Lookup(c.node, rest[1..]) == Found(File(content))
            && ChildIndex(c.node.children, rest[1..][0]).Some?
            && Unskipped(prefix + [c.name], rest[1..], skip)
            && prefix + [c.name] !in skip
            && ScanDir(dir, prefix, skip, i) == ScanDir(c.node, prefix + [c.name], skip, 0) + ScanDir(dir, prefix, skip, i + 1)
  {
    var c := dir.children[i];
    var rel := prefix + [c.name];
    assert rest[..1] == [c.name];
    assert rel !in skip;
    assert Lookup(dir, rest) == Lookup(c.node, rest[1..]);
    forall k | 1 <= k <= |rest[1..]|
      ensures rel + rest[1..][..k] !in skip
    {
      assert rel + rest[1..][..k] == prefix + rest[..k + 1];
    }
    ScanDirUnfold(dir, prefix, skip, i);
  }

  /** The scan from the source root; `os.ReadDir` of a regular file fails. */
  function Scan(root: Node, skip: set<Path>): Result<seq<Scanned>, Error> {
    if root.File? then Err(NotADirectory([])) else Ok(ScanDir(root, [], skip, 0))
  }

  /**
   The scan enumerates exactly the regular files of the tree that no skipped
   path covers: a scanned file exists with the scanned content, and every
   existing file outside `skip` (with no skipped directory above it) is scanned.
   */
  lemma ScanExact(root: Node, skip: set<Path>, p: Path, content: Bytes)
    requires root.Dir? && WellFormed(root)
    ensures Scanned(p, content) in Scan(root, skip).value ==>
              Lookup(root, p) == Found(File(content)) && p !in skip
    ensures |p| > 0 && Lookup(root, p) == Found(File(content)) && Unskipped([], p, skip) ==>
              Scanned(p, content) in Scan(root, skip).value
  {
    if Scanned(p, content) in Scan(root, skip).value {
      ScanDirSound(root, [], skip, 0, Scanned(p, content));
      assert p[0..] == p;
    }
    if |p| > 0 && Lookup(root, p) == Found(File(content)) && Unskipped([], p, skip) {
      ScanDirComplete(root, [], skip, 0, p, content);
      assert [] + p == p;
    }
  }

  /** When only regular-file paths are skipped, a file is covered only by its own path. */
  lemma UnskippedWhenSkipIsFiles(root: Node, skip: set<Path>, p: Path)
    requires forall s :: s in skip ==> IsFileAt(root, s)
    requires IsFileAt(root, p) && p !in skip
    ensures Unskipped([], p, skip)
  {
    forall k | 1 <= k <= |p|
      ensures [] + p[..k] !in skip
    {
      assert [] + p[..k] == p[..k];
      if k == |p| {
        assert p[..k] == p;
      } else if p[..k] in skip {
        FileHasNoDescendants(root, p[..k], p);
      }
    }
  }
}
