/**
 * `lfs.mkdir` and `lfs.rmdir` over an abstract directory tree.
 *
 * The tree maps every existing path except the root to what it is. A symbolic
 * link is a leaf: what it points at lives elsewhere in the tree, or nowhere
 * when it dangles. The root always exists and is a directory.
 */
module FileTree {
  import opened Wrappers
  import opened LuaValues
  import LuajLFSCommon

  type Path = LuajLFSCommon.Path

  datatype LinkTarget = ToDirectory | ToOther | Dangling

  datatype Node = Directory | RegularFile | Symlink(target: LinkTarget)

  type Tree = map<Path, Node>

  function Parent(p: Path): Path
    requires |p| > 0
  {
    p[..|p| - 1]
  }

  /** Every entry hangs below the root or below a directory entry. */
  ghost predicate WellFormed(t: Tree) {
    && [] !in t
    && forall q :: q in t && |q| > 1 ==> Parent(q) in t && t[Parent(q)] == Directory
  }

  /** `exists()`, which follows links: a dangling link does not exist. */
  predicate Exists(t: Tree, p: Path) {
    p == [] || (p in t && t[p] != Symlink(Dangling))
  }

  /** `isDir()`, which follows links. */
  predicate IsDir(t: Tree, p: Path) {
    p == [] || (p in t && (t[p] == Directory || t[p] == Symlink(ToDirectory)))
  }

  /** `q` is `p` or lies below it. */
  predicate Within(p: Path, q: Path) {
    |p| <= |q| && q[..|p|] == p
  }

  /** The tree with `p` and everything below it removed. */
  function RemoveSubtree(t: Tree, p: Path): (t': Tree)
    ensures forall q :: q in t' <==> q in t && !Within(p, q)
  {
    map q | q in t && !Within(p, q) :: t[q]
  }

  const ErrNotADirectory := ErrCode(Some("Not a directory"), 20)

  /**
   * `lfs.mkdir(p)`. `mkdirFails` is an IOException of the native create for
   * reasons outside the tree (permissions, a full disk). The create also fails
   * when the name is taken by a dangling link or the parent is not a
   * directory. Under a parent that is a link to a directory the new directory
   * is created at the link's target, which the tree does not follow: the call
   * succeeds and the tree is unchanged.
   */
  function Mkdir(t: Tree, p: Path, mkdirFails: bool): (r: (Varargs, Tree))
    requires WellFormed(t)
    ensures WellFormed(r.1)
    ensures r.0 == True || r.0 == ErrFileExists || r.0 == ErrNoSuchFileOrDir || r.0 == ErrIo
    ensures Exists(t, p) ==> r.0 == ErrFileExists
    ensures !Exists(t, p) && !Exists(t, Parent(p)) ==> r.0 == ErrNoSuchFileOrDir
    ensures !Exists(t, p) && Exists(t, Parent(p)) ==> r.0 == True || r.0 == ErrIo
    ensures !Exists(t, p) && Exists(t, Parent(p)) && mkdirFails ==> r.0 == ErrIo
    ensures r.0 == True ==> !Exists(t, p) && IsDir(t, Parent(p)) && !mkdirFails
    ensures r.0 == True && (|p| == 1 || t[Parent(p)] == Directory) ==> r.1 == t[p := Directory]
    ensures r.0 != True ==> r.1 == t
    ensures !Exists(t, p) && p !in t && IsDir(t, Parent(p)) && !mkdirFails ==> r.0 == True
  {
    if Exists(t, p) then (ErrFileExists, t)
    else
      var parent := Parent(p);
      if !Exists(t, parent) then (ErrNoSuchFileOrDir, t)
      else if mkdirFails || p in t || !IsDir(t, parent) then (ErrIo, t)
      else if parent == [] || t[parent] == Directory then (True, t[p := Directory])
      else (True, t)
  }

  /** A directory made by `mkdir` is one `rmdir` accepts. */
  lemma MkdirMakesDirectory(t: Tree, p: Path)
    requires WellFormed(t) && Mkdir(t, p, false).0 == True
    requires |p| == 1 || t[Parent(p)] == Directory
    ensures Exists(Mkdir(t, p, false).1, p) && IsDir(Mkdir(t, p, false).1, p)
    ensures Mkdir(Mkdir(t, p, false).1, p, false).0 == ErrFileExists
  {
  }

  /** Some path of a finite non-empty set is at least as long as every other. */
  lemma {:induction false} LongestExists(s: set<Path>) returns (q: Path)
    requires s != {}
    ensures q in s && forall x :: x in s ==> |x| <= |q|
    decreases s
  {
    var y :| y in s;
    if s == {y} {
      q := y;
    } else {
      var q' := LongestExists(s - {y});
      q := if |y| > |q'| then y else q';
    }
  }

  /** Lying below `q` and `q` lying below `p` puts a path below `p`. */
  lemma WithinTransitive(p: Path, q: Path, k: Path)
    requires Within(p, q) && Within(q, k)
    ensures Within(p, k)
  {
    assert k[..|p|] == k[..|q|][..|p|];
  }

  /** The tree without the entries in `d`. */
  function Without(t: Tree, d: set<Path>): (t': Tree)
    ensures forall q :: q in t' <==> q in t && q !in d
  {
    map k | k in t && k !in d :: t[k]
  }

  /** Deleting an entry with nothing left below it keeps every other entry's parent. */
  lemma RemoveDeepestKeepsWellFormed(t: Tree, p: Path, remaining: set<Path>, q: Path)
    requires WellFormed(t)
    requires forall k :: k in t && Within(p, k) ==> k in remaining
    requires q in remaining && Within(p, q) && forall x :: x in remaining ==> |x| <= |q|
    ensures WellFormed(Without(t, {q}))
  {
    forall k | k in t && |k| > 1
      ensures Parent(k) != q
    {
      if Parent(k) == q {
        assert Within(q, k);
        WithinTransitive(p, q, k);
      }
    }
  }

  /**
   * The walk of `rmdir` below `p`, `p` included: it deletes every entry after
   * the entries below it and stops at the first entry whose delete fails.
   */
  method Walk(t: Tree, p: Path, undeletable: set<Path>) returns (ok: bool, t': Tree)
    requires WellFormed(t)
    ensures WellFormed(t')
    ensures ok <==> forall q :: q in t && Within(p, q) ==> q !in undeletable
    ensures ok ==> t' == RemoveSubtree(t, p)
    ensures forall q :: q in t' ==> q in t && t'[q] == t[q]
    ensures forall q :: q in t && !Within(p, q) ==> q in t'
  {
    var remaining := set q | q in t && Within(p, q);
    ghost var sub := remaining;
    ghost var deleted: set<Path> := {};
    t' := t;
    while remaining != {}
      invariant deleted <= sub && remaining == sub - deleted
      invariant t' == Without(t, deleted)
      invariant WellFormed(t')
      invariant forall q :: q in deleted ==> q !in undeletable
      decreases remaining
    {
      ghost var longest := LongestExists(remaining);
      var q :| q in remaining && forall x :: x in remaining ==> |x| <= |q|;
      if q in undeletable {
        return false, t';
      }
      RemoveDeepestKeepsWellFormed(t', p, remaining, q);
      assert Without(t', {q}) == Without(t, deleted + {q});
      t' := Without(t', {q});
      remaining := remaining - {q};
      deleted := deleted + {q};
    }
    assert deleted == sub;
    return true, t';
  }

  /**
   * `lfs.rmdir(p)`: remove a directory and everything below it. A link to a
   * directory is deleted without descending into it. Deleting a path in
   * `undeletable` throws an IOException with message `failMsg`, which ends the
   * walk: the entries deleted before it stay deleted.
   */
  method Rmdir(t: Tree, p: Path, undeletable: set<Path>, failMsg: Option<string>) returns (r: Varargs, t': Tree)
    requires WellFormed(t)
    ensures WellFormed(t')
    ensures !Exists(t, p) ==> r == ErrNoSuchFileOrDir && t' == t
    ensures Exists(t, p) && !IsDir(t, p) ==> r == ErrNotADirectory && t' == t
    ensures IsDir(t, p) ==> r == True || r == IoErr(failMsg)
    ensures r == True <==> IsDir(t, p) && forall q :: Within(p, q) && (q in t || q == p) ==> q !in undeletable
    ensures r == True ==> t' == RemoveSubtree(t, p)
    ensures forall q :: q in t' ==> q in t && t'[q] == t[q]
    ensures forall q :: q in t && !Within(p, q) ==> q in t'
  {
    if !Exists(t, p) {
      return ErrNoSuchFileOrDir, t;
    }
    if !IsDir(t, p) {
      return ErrNotADirectory, t;
    }
    var ok;
    ok, t' := Walk(t, p, undeletable);
    if !ok || (p == [] && p in undeletable) {
      return IoErr(failMsg), t';
    }
    r := True;
  }
}
