/**
 The file database: an ordered set of entries compared by file id alone, used both as the
 permanent key-to-files table and, during a sync, as the set of paths still unreported.
 */
module FileDB {
  import opened Wire
  import opened FileSystem

  datatype Paths = Paths(link: wstring, icon: wstring, exe: wstring, args: wstring)

  const NoPaths: Paths := Paths([], [], [], [])

  datatype Entry = Entry(id: wstring, paths: Paths)

  // ---- the ordered set as a partial map -------------------------------------------------

  predicate Sorted(es: seq<Entry>) {
    forall i, j | 0 <= i < j < |es| :: Less(es[i].id, es[j].id)
  }

  /** set::insert: an entry whose id is already present is not inserted. */
  function Insert(es: seq<Entry>, e: Entry): seq<Entry> {
    if es == [] then [e]
    else if Less(e.id, es[0].id) then [e] + es
    else if e.id == es[0].id then es
    else [es[0]] + Insert(es[1..], e)
  }

  /** set::erase of the entry found for an id. */
  function Erase(es: seq<Entry>, id: wstring): seq<Entry> {
    if es == [] then []
    else if es[0].id == id then es[1..]
    else [es[0]] + Erase(es[1..], id)
  }

  function ModelOf(es: seq<Entry>): map<wstring, Paths> {
    if es == [] then map[] else ModelOf(es[1..])[es[0].id := es[0].paths]
  }

  lemma {:induction false} ModelKeys(es: seq<Entry>)
    ensures forall k :: k in ModelOf(es) <==> exists i :: 0 <= i < |es| && es[i].id == k
  {
    if es != [] {
      ModelKeys(es[1..]);
      forall k | k in ModelOf(es) ensures exists i :: 0 <= i < |es| && es[i].id == k {
        if k in ModelOf(es[1..]) {
          var i :| 0 <= i < |es[1..]| && es[1..][i].id == k;
          assert es[i + 1].id == k;
        } else {
          assert es[0].id == k;
        }
      }
      forall i | 0 <= i < |es| ensures es[i].id in ModelOf(es) {
        if i > 0 {
          assert es[1..][i - 1].id == es[i].id;
        }
      }
    }
  }

  // The first id is below all others, so it is not among them.
  lemma HeadIsLeast(es: seq<Entry>)
    requires Sorted(es) && es != []
    ensures Sorted(es[1..])
    ensures es[0].id !in ModelOf(es[1..])
    ensures forall k | k in ModelOf(es[1..]) :: Less(es[0].id, k)
    ensures IsLeast(es[0].id, ModelOf(es).Keys)
  {
    ModelKeys(es[1..]);
    forall k | k in ModelOf(es[1..]) ensures Less(es[0].id, k) && k != es[0].id {
      var i :| 0 <= i < |es[1..]| && es[1..][i].id == k;
      assert es[i + 1].id == k;
      LessIsStrict(es[0].id, k);
    }
  }

  lemma SortedCons(e: Entry, es: seq<Entry>)
    requires Sorted(es) && forall k | k in ModelOf(es) :: Less(e.id, k)
    ensures Sorted([e] + es)
  {
    ModelKeys(es);
    forall i, j | 0 <= i < j < |[e] + es| ensures Less(([e] + es)[i].id, ([e] + es)[j].id) {
      assert es[j - 1].id in ModelOf(es);
    }
  }

  /** Insertion refines adding a key that is new and doing nothing for one that is not. */
  lemma {:induction false} InsertRefines(es: seq<Entry>, e: Entry)
    requires Sorted(es)
    ensures Sorted(Insert(es, e))
    ensures ModelOf(Insert(es, e)) == if e.id in ModelOf(es) then ModelOf(es) else ModelOf(es)[e.id := e.paths]
  {
    if es == [] {
    } else {
      var head, tail := es[0], es[1..];
      HeadIsLeast(es);
      LessIsTotal(e.id, head.id);
      if Less(e.id, head.id) {
        forall k | k in ModelOf(es) ensures Less(e.id, k) && k != e.id {
          if k != head.id {
            LessIsTransitive(e.id, head.id, k);
          }
          LessIsStrict(e.id, k);
        }
        SortedCons(e, es);
        assert ([e] + es)[1..] == es;
      } else if e.id != head.id {
        InsertRefines(tail, e);
        SortedCons(head, Insert(tail, e));
        assert ([head] + Insert(tail, e))[1..] == Insert(tail, e);
      }
    }
  }

  lemma {:induction false} EraseRefines(es: seq<Entry>, id: wstring)
    requires Sorted(es)
    ensures Sorted(Erase(es, id))
    ensures ModelOf(Erase(es, id)) == ModelOf(es) - {id}
  {
    if es != [] {
      var head, tail := es[0], es[1..];
      HeadIsLeast(es);
      EraseRefines(tail, id);
      if head.id != id {
        SortedCons(head, Erase(tail, id));
        assert ([head] + Erase(tail, id))[1..] == Erase(tail, id);
      }
    }
  }

  /** The map after inserting bare ids. */
  function AddIds(m: map<wstring, Paths>, ids: set<wstring>): map<wstring, Paths> {
    map k | k in m.Keys + ids :: if k in m then m[k] else NoPaths
  }

  // ---- the directory walk ---------------------------------------------------------------

  function FirstSep(p: Path, from: nat): (i: nat)
    requires from <= |p|
    ensures from <= i <= |p| && (i < |p| ==> p[i] == SEP)
    ensures forall k | from <= k < i :: p[k] != SEP
    decreases |p| - from
  {
    if from == |p| || p[from] == SEP then from else FirstSep(p, from + 1)
  }

  /** The entry of directory root that p is or lies in. */
  function Toward(p: Path, root: Path): Path
    requires Under(p, root)
  {
    p[..FirstSep(p, |root| + 1)]
  }

  ghost predicate IsOrUnder(p: Path, c: Path) { p == c || Under(p, c) }

  lemma TowardIsChild(p: Path, root: Path)
    requires Under(p, root)
    ensures ChildOf(Toward(p, root), root) && IsOrUnder(p, Toward(p, root))
  {
    var c := Toward(p, root);
    assert c[..|root|] == root && c[|root|] == SEP;
    assert forall k | |root| < k < |c| :: c[k] != SEP;
    assert LastSep(c) == |root|;
  }

  lemma TowardIsUnique(p: Path, root: Path, c: Path)
    requires ChildOf(c, root) && IsOrUnder(p, c)
    ensures Under(p, root) && Toward(p, root) == c
  {
    ChildIsUnder(c, root);
    if p != c {
      UnderTransitive(p, c, root);
    }
    var i := FirstSep(p, |root| + 1);
    assert forall k | |root| < k < |c| :: p[k] == c[k] && c[k] != SEP;
    assert i >= |c|;
    assert p[..|c|] == c;
  }

  // In a well-formed tree every directory above an existing path exists.
  lemma {:induction false} AncestorExists(fs: Tree, p: Path, c: Path)
    requires WellFormed(fs) && p in fs && Under(p, c)
    ensures IsDir(fs, c)
    decreases |p|
  {
    UnderParent(p, c);
    if Parent(p) != c {
      AncestorExists(fs, Parent(p), c);
    }
  }

  ghost predicate Visited(p: Path, root: Path, todo: set<Path>) {
    Under(p, root) && Toward(p, root) !in todo
  }

  ghost function VisitedIn(fs: Tree, root: Path, todo: set<Path>): set<Path> {
    set p | p in fs && Visited(p, root, todo)
  }

  ghost function Children(fs: Tree, root: Path): set<Path> {
    set p | p in fs && ChildOf(p, root)
  }

  lemma NothingVisited(fs: Tree, root: Path)
    requires WellFormed(fs)
    ensures VisitedIn(fs, root, Children(fs, root)) == {}
    ensures VisitedIn(fs, root, {}) == Below(fs, root)
  {
    forall p | p in fs && Under(p, root) ensures Toward(p, root) in Children(fs, root) {
      TowardIsChild(p, root);
      if p != Toward(p, root) {
        AncestorExists(fs, p, Toward(p, root));
      }
    }
  }

  // Visiting one more entry adds that entry and everything below it.
  lemma VisitStep(fs: Tree, root: Path, todo: set<Path>, c: Path)
    requires WellFormed(fs) && todo <= Children(fs, root) && c in todo
    ensures VisitedIn(fs, root, todo - {c}) == VisitedIn(fs, root, todo) + {c} + Below(fs, c)
    ensures VisitedIn(fs, root, todo) !! {c} + Below(fs, c)
  {
    forall p | p in fs && IsOrUnder(p, c) ensures Under(p, root) && Toward(p, root) == c {
      TowardIsUnique(p, root, c);
    }
    forall p | p in fs && Under(p, root) && Toward(p, root) == c ensures IsOrUnder(p, c) {
      TowardIsChild(p, root);
    }
  }

  lemma LinksAndIconsUnion(fs: Tree, a: set<Path>, b: set<Path>, faults: Faults)
    ensures LinksAndIcons(fs, a + b, faults) == LinksAndIcons(fs, a, faults) + LinksAndIcons(fs, b, faults)
  {
  }

  // A region the walk has not touched looks as it did at the start.
  lemma UntouchedRegion(fs: Tree, done: set<Path>, c: Path, faults: Faults)
    requires WellFormed(fs) && c in fs && c !in done && done !! Below(fs, c)
    ensures var cur := PruneIn(fs, done, faults);
            && c in cur && cur[c] == fs[c]
            && (EmptyDir(cur, c) <==> EmptyDir(fs, c))
            && Below(cur, c) == Below(fs, c)
            && Snapshot(cur, c, faults) == Snapshot(fs, c, faults)
            && Prune(cur, c, faults) == PruneIn(fs, done + Below(fs, c), faults)
            && WellFormed(cur)
  {
    var cur := PruneIn(fs, done, faults);
    assert Below(cur, c) == Below(fs, c);
    forall p | p in fs && ChildOf(p, c) ensures p in cur {
      ChildIsUnder(p, c);
      assert p in Below(fs, c);
    }
    forall q, p | q in Below(fs, c) && p in fs && ChildOf(p, q) ensures p in cur {
      ChildIsUnder(p, q);
      UnderTransitive(p, q, c);
      assert p in Below(fs, c);
    }
    forall p | p in cur && HasParent(p) ensures IsDir(cur, Parent(p)) {
      assert ChildOf(p, Parent(p));
    }
    forall q | q in Below(fs, c) ensures Pruned(cur, q, faults) <==> Pruned(fs, q, faults) {
    }
  }

  // An entry that contributes nothing below it: a file, or an empty directory.
  lemma LeafRegion(fs: Tree, c: Path)
    requires WellFormed(fs) && c in fs && (!fs[c].Dir? || EmptyDir(fs, c))
    ensures Below(fs, c) == {}
  {
    forall p | p in fs && Under(p, c) ensures false {
      AncestorExists(fs, p, c);
      TowardIsChild(p, c);
      if p != Toward(p, c) {
        AncestorExists(fs, p, Toward(p, c));
      }
    }
  }

  /** What visiting one entry must add to the ids and do to the tree as the walk left it. */
  ghost function EntryIds(cur: Tree, c: Path, faults: Faults): set<Path>
    requires c in cur
  {
    if cur[c].Dir? then if EmptyDir(cur, c) then {} else Snapshot(cur, c, faults)
    else if EndsWith(c, LNK) then LinksAndIcons(cur, {c}, faults)
    else {}
  }

  ghost function EntryTree(cur: Tree, c: Path, faults: Faults): Tree
    requires c in cur
  {
    if !cur[c].Dir? then cur
    else if EmptyDir(cur, c) then RemoveDirectory(cur, c, faults)
    else Prune(cur, c, faults)
  }

  lemma OneEntry(fs: Tree, cur: Tree, c: Path, faults: Faults)
    requires c in fs && c in cur && fs[c] == cur[c]
    ensures LinksAndIcons(fs, {c}, faults) == LinksAndIcons(cur, {c}, faults)
    ensures fs[c].Dir? || !EndsWith(c, LNK) ==> LinksAndIcons(fs, {c}, faults) == {}
  {
  }

  lemma EntryIdsAgree(fs: Tree, done: set<Path>, c: Path, faults: Faults)
    requires WellFormed(fs) && c in fs && c !in done && done !! Below(fs, c)
    ensures var cur := PruneIn(fs, done, faults);
            c in cur && LinksAndIcons(fs, {c} + Below(fs, c), faults) == EntryIds(cur, c, faults)
  {
    hide FileSystem.LinksAndIcons, FileSystem.PruneIn, FileSystem.EmptyDir, FileSystem.WellFormed, FileSystem.Below;
    UntouchedRegion(fs, done, c, faults);
    var cur := PruneIn(fs, done, faults);
    LinksAndIconsUnion(fs, {c}, Below(fs, c), faults);
    OneEntry(fs, cur, c, faults);
    if !fs[c].Dir? || EmptyDir(fs, c) {
      LeafRegion(fs, c);
      NoRegion(fs, faults);
    }
  }

  lemma VisitIds(fs: Tree, root: Path, todo: set<Path>, c: Path, faults: Faults)
    requires WellFormed(fs) && todo <= Children(fs, root) && c in todo
    ensures var done := VisitedIn(fs, root, todo);
            var cur := PruneIn(fs, done, faults);
            && c in cur && WellFormed(cur)
            && LinksAndIcons(fs, VisitedIn(fs, root, todo - {c}), faults) ==
               LinksAndIcons(fs, done, faults) + EntryIds(cur, c, faults)
  {
    hide IsOrUnder, Toward, FileSystem.Under, Visited, FileSystem.LinksAndIcons, EntryIds, FileSystem.EmptyDir;
    var done := VisitedIn(fs, root, todo);
    VisitStep(fs, root, todo, c);
    UntouchedRegion(fs, done, c, faults);
    EntryIdsAgree(fs, done, c, faults);
    assert VisitedIn(fs, root, todo - {c}) == done + ({c} + Below(fs, c));
    LinksAndIconsUnion(fs, done, {c} + Below(fs, c), faults);
  }

  lemma VisitTree(fs: Tree, root: Path, todo: set<Path>, c: Path, faults: Faults)
    requires WellFormed(fs) && todo <= Children(fs, root) && c in todo
    ensures var done := VisitedIn(fs, root, todo);
            var cur := PruneIn(fs, done, faults);
            c in cur && PruneIn(fs, VisitedIn(fs, root, todo - {c}), faults) == EntryTree(cur, c, faults)
  {
    hide IsOrUnder, Toward, FileSystem.Under, Visited, FileSystem.LinksAndIcons;
    var done := VisitedIn(fs, root, todo);
    VisitStep(fs, root, todo, c);
    UntouchedRegion(fs, done, c, faults);
    var next := VisitedIn(fs, root, todo - {c});
    assert next == done + {c} + Below(fs, c);
    if !fs[c].Dir? || EmptyDir(fs, c) {
      LeafRegion(fs, c);
    }
    assert !EmptyDir(fs, c) ==> PruneIn(fs, next, faults) == PruneIn(fs, done + Below(fs, c), faults);
  }

  lemma AddIdsTwice(m: map<wstring, Paths>, a: set<wstring>, b: set<wstring>)
    ensures AddIds(AddIds(m, a), b) == AddIds(m, a + b)
    ensures AddIds(m, {}) == m
  {
  }

  lemma LnkIds(fs: Tree, p: Path, faults: Faults)
    requires IsLnkFile(fs, p)
    ensures LinksAndIcons(fs, {p}, faults) == if HasIcon(fs, p, faults) then {p, fs[p].icon} else {p}
  {
    var ids := LinksAndIcons(fs, {p}, faults);
    assert p in {p};
    if HasIcon(fs, p, faults) {
      assert fs[p].icon in ids;
    }
  }

  lemma AddId(es: seq<Entry>, id: wstring)
    requires Sorted(es)
    ensures Sorted(Insert(es, Entry(id, NoPaths)))
    ensures ModelOf(Insert(es, Entry(id, NoPaths))) == AddIds(ModelOf(es), {id})
  {
    InsertRefines(es, Entry(id, NoPaths));
  }

  // ---- the class ------------------------------------------------------------------------

  /** The file system shared by everything the receiver does. */
  class Disk {
    var nodes: Tree

    constructor (nodes: Tree)
      ensures this.nodes == nodes
    {
      this.nodes := nodes;
    }
  }

  class WSLDVCFileDB {
    var entries: seq<Entry>

    ghost predicate Valid()
      reads this
    {
      Sorted(entries)
    }

    ghost function Model(): map<wstring, Paths>
      reads this
    {
      ModelOf(entries)
    }

    constructor ()
      ensures Valid() && Model() == map[]
    {
      entries := [];
    }

    method OnLnkFileAdded(disk: Disk, lnkFile: Path, faults: Faults)
      requires Valid() && IsLnkFile(disk.nodes, lnkFile)
      modifies this
      ensures Valid()
      ensures Model() == AddIds(old(Model()), LinksAndIcons(disk.nodes, {lnkFile}, faults))
    {
      hide FileSystem.LinksAndIcons, AddIds, ModelOf, Sorted;
      LnkIds(disk.nodes, lnkFile, faults);
      AddId(entries, lnkFile);
      entries := Insert(entries, Entry(lnkFile, NoPaths));
      if HasIcon(disk.nodes, lnkFile, faults) {
        var iconFile := disk.nodes[lnkFile].icon;
        AddIdsTwice(old(Model()), {lnkFile}, {iconFile});
        assert {lnkFile} + {iconFile} == {lnkFile, iconFile};
        AddId(entries, iconFile);
        entries := Insert(entries, Entry(iconFile, NoPaths));
      }
    }

    method OnFileAdded(key: wstring, paths: Paths) returns (ok: bool)
      requires Valid()
      modifies this
      ensures Valid()
      ensures ok <==> key !in old(Model()) || old(Model())[key] == paths
      ensures Model() == if key in old(Model()) then old(Model()) else old(Model())[key := paths]
    {
      InsertRefines(entries, Entry(key, paths));
      var found := ModelOf(entries);
      entries := Insert(entries, Entry(key, paths));
      ok := key !in found || found[key] == paths;
    }

    method OnFileRemoved(key: wstring) returns (ok: bool)
      requires Valid()
      modifies this
      ensures Valid()
      ensures ok <==> key in old(Model())
      ensures Model() == old(Model()) - {key}
    {
      EraseRefines(entries, key);
      ok := key in ModelOf(entries);
      entries := Erase(entries, key);
    }

    // A size of 0 stands for a null buffer; a string fits if its terminator does.
    method FindFiles(key: wstring, linkSize: nat, iconSize: nat, exeSize: nat, argsSize: nat)
      returns (ok: bool, found: Paths)
      requires Valid()
      ensures ok <==> key in Model() && Fits(Model()[key].link, linkSize) && Fits(Model()[key].icon, iconSize) &&
                      Fits(Model()[key].exe, exeSize) && Fits(Model()[key].args, argsSize)
      ensures ok ==> found == Paths(if linkSize > 0 then Model()[key].link else [],
                                    if iconSize > 0 then Model()[key].icon else [],
                                    if exeSize > 0 then Model()[key].exe else [],
                                    if argsSize > 0 then Model()[key].args else [])
    {
      ok, found := false, NoPaths;
      var m := ModelOf(entries);
      if key !in m {
        return;
      }
      if linkSize > 0 {
        if |m[key].link| >= linkSize { return; }
        found := found.(link := m[key].link);
      }
      if iconSize > 0 {
        if |m[key].icon| >= iconSize { return; }
        found := found.(icon := m[key].icon);
      }
      if exeSize > 0 {
        if |m[key].exe| >= exeSize { return; }
        found := found.(exe := m[key].exe);
      }
      if argsSize > 0 {
        if |m[key].args| >= argsSize { return; }
        found := found.(args := m[key].args);
      }
      ok := true;
    }

    static predicate Fits(s: wstring, size: nat) { size == 0 || |s| < size }

    /**
     The recursive walk. It terminates, inserts exactly the .lnk files below path and the
     icons of those that can be read, and removes exactly the removable empty directories.
     */
    method AddAllSubFolderFiles(disk: Disk, path: Path, faults: Faults)
      requires Valid() && WellFormed(disk.nodes)
      modifies this, disk
      ensures Valid()
      ensures Model() == AddIds(old(Model()), Snapshot(old(disk.nodes), path, faults))
      ensures disk.nodes == Prune(old(disk.nodes), path, faults)
      decreases Below(disk.nodes, path)
    {
      hide FileSystem.LinksAndIcons, FileSystem.PruneIn, VisitedIn, FileSystem.WellFormed, AddIds, ModelOf, Sorted,
           FileSystem.EmptyDir;
      ghost var fs, before := disk.nodes, Model();
      var todo := set p | p in disk.nodes && ChildOf(p, path);
      NothingVisited(fs, path);
      NoRegion(fs, faults);
      AddIdsTwice(before, {}, {});
      while todo != {}
        invariant Valid() && todo <= Children(fs, path)
        invariant Model() == AddIds(before, LinksAndIcons(fs, VisitedIn(fs, path, todo), faults))
        invariant disk.nodes == PruneIn(fs, VisitedIn(fs, path, todo), faults)
        decreases todo
      {
        var sub :| sub in todo;
        ghost var done := VisitedIn(fs, path, todo);
        VisitIds(fs, path, todo, sub, faults);
        VisitTree(fs, path, todo, sub, faults);
        AddIdsTwice(before, LinksAndIcons(fs, done, faults), EntryIds(disk.nodes, sub, faults));
        AddIdsTwice(Model(), {}, {});
        if disk.nodes[sub].Dir? {
          if EmptyDir(disk.nodes, sub) {
            disk.nodes := RemoveDirectory(disk.nodes, sub, faults);
          } else {
            WalkShrinks(fs, path, todo, sub, faults);
            AddAllSubFolderFiles(disk, sub, faults);
          }
        } else if EndsWith(sub, LNK) {
          OnLnkFileAdded(disk, sub, faults);
        }
        todo := todo - {sub};
      }
    }

    /** Delete every listed file in ascending order, each with its directory if that is empty. */
    method DeleteAllFileIdFiles(disk: Disk, faults: Faults)
      requires Valid()
      modifies this, disk
      ensures Valid() && Model() == map[]
      ensures disk.nodes == Sweep(old(disk.nodes), old(Model()).Keys, faults)
    {
      while entries != []
        invariant Valid()
        invariant Sweep(disk.nodes, Model().Keys, faults) == Sweep(old(disk.nodes), old(Model()).Keys, faults)
        decreases |entries|
      {
        var fileId := entries[0].id;
        HeadIsLeast(entries);
        LeastIsUnique(fileId, Least(Model().Keys), Model().Keys);
        assert ModelOf(entries[1..]).Keys == Model().Keys - {fileId};
        var deleted := Deletable(disk.nodes, fileId, faults);
        disk.nodes := DeleteFile(disk.nodes, fileId, faults);
        if deleted && HasParent(fileId) {
          var dir := Parent(fileId);
          if EmptyDir(disk.nodes, dir) {
            disk.nodes := RemoveDirectory(disk.nodes, dir, faults);
          }
        }
        entries := entries[1..];
      }
    }

    method OnClose()
      modifies this
      ensures Valid() && Model() == map[]
    {
      entries := [];
    }
  }

  lemma NoRegion(fs: Tree, faults: Faults)
    ensures LinksAndIcons(fs, {}, faults) == {}
    ensures PruneIn(fs, {}, faults) == fs
  {
  }

  // The subfolder walk has less below it than the walk it is part of.
  lemma WalkShrinks(fs: Tree, root: Path, todo: set<Path>, c: Path, faults: Faults)
    requires WellFormed(fs) && todo <= Children(fs, root) && c in todo
    ensures Below(PruneIn(fs, VisitedIn(fs, root, todo), faults), c) < Below(fs, root)
  {
    hide FileSystem.EmptyDir;
    ChildIsUnder(c, root);
    var cur := PruneIn(fs, VisitedIn(fs, root, todo), faults);
    forall p | p in cur && Under(p, c) ensures Under(p, root) {
      UnderTransitive(p, c, root);
    }
    assert c in Below(fs, root) && c !in Below(cur, c);
  }
}
