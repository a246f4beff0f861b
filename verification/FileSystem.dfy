/**
 The part of the Windows file system the receiver works on: a finite tree of directories,
 shell links and other files, addressed by exact path strings.
 */
module FileSystem {
  import opened Wire

  type Path = wstring

  const SEP: wchar := 0x5c                                // '\'
  const LNK: wstring := [0x2e, 0x6c, 0x6e, 0x6b]          // ".lnk"

  /** A link carries the path of its icon, empty when it has none. */
  datatype Node = Dir | Link(icon: Path) | Data

  type Tree = map<Path, Node>

  /** The paths on which one kind of file operation fails for reasons outside the model. */
  datatype Faults = Faults(unmakable: set<Path>, undeletable: set<Path>, unremovable: set<Path>,
                           unreadable: set<Path>)

  // ---- paths ----------------------------------------------------------------------------

  function LastSep(p: Path): (i: int)
    ensures -1 <= i < |p|
    ensures i >= 0 ==> p[i] == SEP
    ensures forall k | i < k < |p| :: p[k] != SEP
  {
    if p == [] then -1
    else if p[|p| - 1] == SEP then |p| - 1
    else LastSep(p[..|p| - 1])
  }

  predicate HasParent(p: Path) { LastSep(p) >= 0 }

  function Parent(p: Path): Path
    requires HasParent(p)
  {
    p[..LastSep(p)]
  }

  predicate ChildOf(p: Path, d: Path) { HasParent(p) && Parent(p) == d }

  predicate Under(p: Path, root: Path) {
    |root| < |p| && p[..|root|] == root && p[|root|] == SEP
  }

  predicate EndsWith(p: wstring, ext: wstring) {
    |ext| <= |p| && p[|p| - |ext|..] == ext
  }

  lemma UnderParent(p: Path, root: Path)
    requires Under(p, root)
    ensures HasParent(p) && (Parent(p) == root || Under(Parent(p), root))
    ensures Parent(p) == root || |Parent(p)| < |p|
  {
    var i := LastSep(p);
    assert i >= |root|;
    if i > |root| {
      assert p[..i][..|root|] == root;
    }
  }

  lemma ChildIsUnder(p: Path, d: Path)
    requires ChildOf(p, d)
    ensures Under(p, d) && |d| < |p|
  {
  }

  lemma UnderTransitive(p: Path, d: Path, root: Path)
    requires Under(p, d) && (d == root || Under(d, root))
    ensures Under(p, root)
  {
    if d != root {
      assert p[..|root|] == p[..|d|][..|root|];
    }
  }

  // ---- operations -----------------------------------------------------------------------

  predicate IsDir(fs: Tree, p: Path) { p in fs && fs[p].Dir? }

  predicate IsFile(fs: Tree, p: Path) { p in fs && !fs[p].Dir? }

  /** Every path but a root lies in an existing directory. */
  ghost predicate WellFormed(fs: Tree) {
    forall p | p in fs && HasParent(p) :: IsDir(fs, Parent(p))
  }

  predicate EmptyDir(fs: Tree, d: Path) {
    IsDir(fs, d) && forall p | p in fs :: !ChildOf(p, d)
  }

  /** CreateDirectoryW, where "already exists" counts as success. */
  predicate DirectoryReady(fs: Tree, p: Path, faults: Faults) {
    p in fs || (p !in faults.unmakable && HasParent(p) && IsDir(fs, Parent(p)))
  }

  function CreateDirectory(fs: Tree, p: Path, faults: Faults): Tree {
    if p !in fs && DirectoryReady(fs, p, faults) then fs[p := Dir] else fs
  }

  predicate Deletable(fs: Tree, p: Path, faults: Faults) {
    IsFile(fs, p) && p !in faults.undeletable
  }

  function DeleteFile(fs: Tree, p: Path, faults: Faults): Tree {
    if Deletable(fs, p, faults) then fs - {p} else fs
  }

  function RemoveDirectory(fs: Tree, d: Path, faults: Faults): Tree {
    if EmptyDir(fs, d) && d !in faults.unremovable then fs - {d} else fs
  }

  // A file can be created or overwritten in an existing directory, but not over a directory.
  predicate Writable(fs: Tree, p: Path) {
    !IsDir(fs, p) && HasParent(p) && IsDir(fs, Parent(p))
  }

  function WriteFile(fs: Tree, p: Path, node: Node): Tree {
    if Writable(fs, p) then fs[p := node] else fs
  }

  /** Everything that is not a directory. */
  ghost function Files(fs: Tree): map<Path, Node> {
    map p | p in fs && !fs[p].Dir? :: fs[p]
  }

  lemma WriteFiles(fs: Tree, p: Path, node: Node)
    requires !node.Dir?
    ensures Files(WriteFile(fs, p, node)) == if Writable(fs, p) then Files(fs)[p := node] else Files(fs)
  {
  }

  lemma CreateDirectoryFiles(fs: Tree, p: Path, faults: Faults)
    ensures Files(CreateDirectory(fs, p, faults)) == Files(fs)
  {
  }

  lemma DeleteFiles(fs: Tree, p: Path, faults: Faults)
    ensures Files(DeleteFile(fs, p, faults)) == if p in faults.undeletable then Files(fs) else Files(fs) - {p}
  {
  }

  lemma RemoveDirectoryFiles(fs: Tree, d: Path, faults: Faults)
    ensures Files(RemoveDirectory(fs, d, faults)) == Files(fs)
  {
  }

  // What every operation keeps: no path is left without its directory.
  lemma OperationsKeepTree(fs: Tree, p: Path, node: Node, faults: Faults)
    requires WellFormed(fs) && !node.Dir?
    ensures WellFormed(CreateDirectory(fs, p, faults))
    ensures WellFormed(DeleteFile(fs, p, faults))
    ensures WellFormed(RemoveDirectory(fs, p, faults))
    ensures WellFormed(WriteFile(fs, p, node))
  {
    var r := RemoveDirectory(fs, p, faults);
    forall q | q in r && HasParent(q) ensures IsDir(r, Parent(q)) {
      assert p !in r ==> !ChildOf(q, p);
    }
  }

  // ---- the snapshot ---------------------------------------------------------------------

  predicate IsLnkFile(fs: Tree, p: Path) { IsFile(fs, p) && EndsWith(p, LNK) }

  /** The icon lookup of a link file succeeds on readable shell links. */
  predicate HasIcon(fs: Tree, p: Path, faults: Faults) {
    IsLnkFile(fs, p) && fs[p].Link? && p !in faults.unreadable
  }

  ghost function Below(fs: Tree, root: Path): set<Path> {
    set p | p in fs && Under(p, root)
  }

  /** The .lnk files of a region, and the icons those that can be read point at. */
  ghost function LinksAndIcons(fs: Tree, region: set<Path>, faults: Faults): set<Path> {
    (set p | p in region && IsLnkFile(fs, p)) + (set p | p in region && HasIcon(fs, p, faults) :: fs[p].icon)
  }

  ghost function Snapshot(fs: Tree, root: Path, faults: Faults): set<Path> {
    LinksAndIcons(fs, Below(fs, root), faults)
  }

  // A directory the walk finds empty and can remove.
  ghost predicate Pruned(fs: Tree, p: Path, faults: Faults) {
    EmptyDir(fs, p) && p !in faults.unremovable
  }

  /** The tree after a walk: only directories that were empty are gone. */
  ghost function PruneIn(fs: Tree, region: set<Path>, faults: Faults): Tree {
    map p | p in fs && !(p in region && Pruned(fs, p, faults)) :: fs[p]
  }

  ghost function Prune(fs: Tree, root: Path, faults: Faults): Tree {
    PruneIn(fs, Below(fs, root), faults)
  }

  lemma PruneFiles(fs: Tree, root: Path, faults: Faults)
    ensures Files(Prune(fs, root, faults)) == Files(fs)
    ensures WellFormed(fs) ==> WellFormed(Prune(fs, root, faults))
  {
    var r := Prune(fs, root, faults);
    if WellFormed(fs) {
      forall q | q in r && HasParent(q) ensures IsDir(r, Parent(q)) {
        assert ChildOf(q, Parent(q));
      }
    }
  }

  // ---- the order of file ids ------------------------------------------------------------

  /** operator< of wstring: lexicographic by code unit. */
  predicate Less(a: wstring, b: wstring) {
    b != [] && (a == [] || a[0] < b[0] || (a[0] == b[0] && Less(a[1..], b[1..])))
  }

  lemma {:induction false} LessIsStrict(a: wstring, b: wstring)
    ensures Less(a, b) ==> a != b && !Less(b, a)
  {
    if a != [] && b != [] {
      LessIsStrict(a[1..], b[1..]);
    }
  }

  lemma {:induction false} LessIsTotal(a: wstring, b: wstring)
    ensures a == b || Less(a, b) || Less(b, a)
  {
    if a != [] && b != [] {
      LessIsTotal(a[1..], b[1..]);
      assert a == [a[0]] + a[1..] && b == [b[0]] + b[1..];
    }
  }

  lemma {:induction false} LessIsTransitive(a: wstring, b: wstring, c: wstring)
    requires Less(a, b) && Less(b, c)
    ensures Less(a, c)
  {
    if a != [] && a[0] == b[0] == c[0] {
      LessIsTransitive(a[1..], b[1..], c[1..]);
    }
  }

  ghost predicate IsLeast(k: Path, s: set<Path>) {
    k in s && forall x | x in s && x != k :: Less(k, x)
  }

  lemma {:induction false} LeastExists(s: set<Path>)
    requires s != {}
    ensures exists k :: IsLeast(k, s)
    decreases |s|
  {
    var x :| x in s;
    var rest := s - {x};
    assert forall y | y in s && y != x :: y in rest;
    if rest == {} {
      assert IsLeast(x, s);
    } else {
      LeastExists(rest);
      var k :| IsLeast(k, rest);
      LessIsTotal(x, k);
      if Less(k, x) {
        assert IsLeast(k, s);
      } else {
        forall y | y in s && y != x ensures Less(x, y) {
          if y != k {
            LessIsTransitive(x, k, y);
          }
        }
        assert IsLeast(x, s);
      }
    }
  }

  lemma LeastIsUnique(j: Path, k: Path, s: set<Path>)
    requires IsLeast(j, s) && IsLeast(k, s)
    ensures j == k
  {
    LessIsStrict(j, k);
  }

  ghost function Least(s: set<Path>): (k: Path)
    requires s != {}
    ensures IsLeast(k, s)
  {
    LeastExists(s);
    var k :| IsLeast(k, s);
    k
  }

  // ---- the sweep ------------------------------------------------------------------------

  /** Delete one file, then its directory if that became empty. */
  function SweepFile(fs: Tree, k: Path, faults: Faults): Tree {
    var fs' := DeleteFile(fs, k, faults);
    if Deletable(fs, k, faults) && HasParent(k) && EmptyDir(fs', Parent(k))
    then RemoveDirectory(fs', Parent(k), faults)
    else fs'
  }

  /** Sweep a set of file ids in ascending order, as iterating the ordered set does. */
  ghost function Sweep(fs: Tree, s: set<Path>, faults: Faults): Tree
    decreases |s|
  {
    if s == {} then fs else Sweep(SweepFile(fs, Least(s), faults), s - {Least(s)}, faults)
  }

  lemma SweepFileExact(fs: Tree, k: Path, faults: Faults)
    ensures var r := SweepFile(fs, k, faults);
            && Files(r) == (if k in faults.undeletable then Files(fs) else Files(fs) - {k})
            && r.Keys <= fs.Keys && (forall p | p in r :: r[p] == fs[p])
            && (forall d | IsDir(fs, d) && d !in r :: forall p | p in r :: !ChildOf(p, d))
            && (WellFormed(fs) ==> WellFormed(r))
  {
    DeleteFiles(fs, k, faults);
    if HasParent(k) {
      RemoveDirectoryFiles(DeleteFile(fs, k, faults), Parent(k), faults);
    }
    if WellFormed(fs) {
      OperationsKeepTree(fs, k, Data, faults);
      if HasParent(k) {
        OperationsKeepTree(DeleteFile(fs, k, faults), Parent(k), Data, faults);
      }
    }
  }

  /**
   The sweep deletes exactly the given ids that are deletable files and no other file, changes
   no file it keeps, and a directory that is gone afterwards has nothing left in it.
   */
  lemma {:induction false} SweepExact(fs: Tree, s: set<Path>, faults: Faults)
    ensures var r := Sweep(fs, s, faults);
            && Files(r) == Files(fs) - (s - faults.undeletable)
            && r.Keys <= fs.Keys && (forall p | p in r :: r[p] == fs[p])
            && (forall d | IsDir(fs, d) && d !in r :: forall p | p in r :: !ChildOf(p, d))
            && (WellFormed(fs) ==> WellFormed(r))
    decreases |s|
  {
    if s != {} {
      var k := Least(s);
      var fs' := SweepFile(fs, k, faults);
      SweepFileExact(fs, k, faults);
      SweepExact(fs', s - {k}, faults);
      var r := Sweep(fs', s - {k}, faults);
      forall d | IsDir(fs, d) && d !in r ensures forall p | p in r :: !ChildOf(p, d) {
        if d in fs' {
          assert IsDir(fs', d);
        }
      }
    } else {
      assert Files(fs) - (s - faults.undeletable) == Files(fs);
    }
  }

  // ---- which directories go -------------------------------------------------------------

  ghost function ChildrenOf(fs: Tree, d: Path): set<Path> {
    set p | p in fs && ChildOf(p, d)
  }

  // Sweeping a file elsewhere leaves a directory of files as it is.
  lemma SweepElsewhere(fs: Tree, k: Path, d: Path, faults: Faults)
    requires IsDir(fs, d) && !ChildOf(k, d) && forall p | p in ChildrenOf(fs, d) :: IsFile(fs, p)
    ensures var r := SweepFile(fs, k, faults);
            d in r && r[d] == fs[d] && ChildrenOf(r, d) == ChildrenOf(fs, d) && forall p | p in ChildrenOf(fs, d) :: IsFile(r, p)
  {
    var r := SweepFile(fs, k, faults);
    forall p | p in ChildrenOf(fs, d) ensures p in r {
    }
  }

  // Sweeping one of its files takes that file, and the directory with the last of them.
  lemma SweepInside(fs: Tree, k: Path, d: Path, faults: Faults)
    requires IsDir(fs, d) && k in ChildrenOf(fs, d) && IsFile(fs, k)
    requires k !in faults.undeletable && d !in faults.unremovable
    ensures var r := SweepFile(fs, k, faults);
            if ChildrenOf(fs, d) == {k} then d !in r
            else d in r && r[d] == fs[d] && ChildrenOf(r, d) == ChildrenOf(fs, d) - {k}
  {
    var fs' := DeleteFile(fs, k, faults);
    assert fs' == fs - {k};
    assert ChildrenOf(fs', d) == ChildrenOf(fs, d) - {k};
    if ChildrenOf(fs, d) != {k} {
      assert ChildrenOf(fs, d) == (ChildrenOf(fs, d) - {k}) + {k};
      var p :| p in ChildrenOf(fs, d) - {k};
      assert p in fs' && ChildOf(p, d);
    }
  }

  /**
   A directory whose children are one or more files, all of them swept, goes with the last of
   them, whatever else is swept and in whatever order.
   */
  lemma {:induction false} EmptiedDirectoryGoes(fs: Tree, s: set<Path>, d: Path, faults: Faults)
    requires IsDir(fs, d) && d !in faults.unremovable && (exists p :: p in fs && ChildOf(p, d))
    requires forall p | p in fs && ChildOf(p, d) :: IsFile(fs, p) && p in s && p !in faults.undeletable
    ensures d !in Sweep(fs, s, faults)
    decreases |s|
  {
    hide SweepFile, ChildOf, Sweep;
    var some :| some in fs && ChildOf(some, d);
    SweepUnfolds(fs, s, faults);
    var k := Least(s);
    var r := SweepFile(fs, k, faults);
    if k in ChildrenOf(fs, d) {
      SweepInside(fs, k, d, faults);
    } else if ChildOf(k, d) {
      SweepMissing(fs, k, faults);
    } else {
      SweepElsewhere(fs, k, d, faults);
    }
    SweepFileExact(fs, k, faults);
    if d in r {
      forall p | p in r && ChildOf(p, d) ensures IsFile(r, p) && p in s - {k} {
        assert p in ChildrenOf(r, d);
      }
      assert ChildrenOf(r, d) != {};
      var q :| q in ChildrenOf(r, d);
      EmptiedDirectoryGoes(r, s - {k}, d, faults);
    } else {
      SweepExact(r, s - {k}, faults);
    }
  }

  lemma SweepUnfolds(fs: Tree, s: set<Path>, faults: Faults)
    requires s != {}
    ensures Sweep(fs, s, faults) == Sweep(SweepFile(fs, Least(s), faults), s - {Least(s)}, faults)
  {
  }

  // A path that is no file has nothing swept.
  lemma SweepMissing(fs: Tree, k: Path, faults: Faults)
    requires k !in fs
    ensures SweepFile(fs, k, faults) == fs
  {
  }

  lemma SweepFileTakes(fs: Tree, k: Path, d: Path, faults: Faults)
    requires IsDir(fs, d) && d !in SweepFile(fs, k, faults)
    ensures IsFile(fs, k) && k !in faults.undeletable && ChildOf(k, d) && d !in faults.unremovable
  {
  }

  /** A directory the sweep removed directly held a file it deleted, and could be removed. */
  lemma {:induction false} GoneDirectoryHeldAFile(fs: Tree, s: set<Path>, d: Path, faults: Faults)
    requires IsDir(fs, d) && d !in Sweep(fs, s, faults)
    ensures d !in faults.unremovable
    ensures exists k :: k in s && k !in faults.undeletable && IsFile(fs, k) && ChildOf(k, d)
    decreases |s|
  {
    hide SweepFile, ChildOf, Sweep;
    if s == {} {
      SweepNothing(fs, faults);
    } else {
      SweepUnfolds(fs, s, faults);
      var k := Least(s);
      var r := SweepFile(fs, k, faults);
      if d !in r {
        SweepFileTakes(fs, k, d, faults);
      } else {
        SweepFileExact(fs, k, faults);
        GoneDirectoryHeldAFile(r, s - {k}, d, faults);
      }
    }
  }

  lemma SweepNothing(fs: Tree, faults: Faults)
    ensures Sweep(fs, {}, faults) == fs
  {
  }

  /** The walk removes exactly the directories below the root that were empty and can be removed. */
  lemma PruneExact(fs: Tree, root: Path, faults: Faults, p: Path)
    requires p in fs
    ensures p !in Prune(fs, root, faults) <==>
            Under(p, root) && IsDir(fs, p) && (forall q | q in fs :: !ChildOf(q, p)) && p !in faults.unremovable
    ensures p in Prune(fs, root, faults) ==> Prune(fs, root, faults)[p] == fs[p]
  {
    hide ChildOf, Under;
  }

  /** Listed are the .lnk files below the root, and what the readable links among them show as icon. */
  lemma SnapshotExact(fs: Tree, root: Path, faults: Faults, p: Path)
    ensures p in Snapshot(fs, root, faults) <==>
            || (p in fs && !fs[p].Dir? && Under(p, root) && EndsWith(p, LNK))
            || exists q :: q in fs && fs[q] == Link(p) && Under(q, root) && EndsWith(q, LNK) && q !in faults.unreadable
  {
    hide Under, EndsWith;
    if q :| q in fs && fs[q] == Link(p) && Under(q, root) && EndsWith(q, LNK) && q !in faults.unreadable {
      assert q in Below(fs, root) && HasIcon(fs, q, faults) && fs[q].icon == p;
    }
    if p in Snapshot(fs, root, faults) && !(p in Below(fs, root) && IsLnkFile(fs, p)) {
      var q :| q in Below(fs, root) && HasIcon(fs, q, faults) && fs[q].icon == p;
      assert fs[q] == Link(p);
    }
  }
}
