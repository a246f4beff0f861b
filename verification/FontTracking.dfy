/**
 The font monitor against a changing directory tree: a watch is placed on a folder before it is
 scanned, directories come and go at any moment in between, and the kernel queues an event for
 every change below a live watch. The actions of both sides interleave freely.
 */
module FontTracking {

  // A path is its list of names; the tree has its root at [].
  type Name = string
  type Path = seq<Name>
  type Wd = nat

  const X11: Name := "X11"

  /** IN_CREATE or IN_DELETE of a directory entry, under the descriptor it was watched with. */
  datatype Event = Event(wd: Wd, created: bool, name: Name)

  /**
   A directory_iterator in progress. The entries present throughout the scan must all be
   returned before it ends; what else it returns depends on timing.
   */
  datatype Frame = Frame(path: Path, must: set<Name>)

  datatype State = State(
    roots: set<Path>,             // the folders monitoring starts from
    mount: Path,                  // below this one only X11 is tracked
    dirs: set<Path>,              // existing directories
    tracked: map<Path, Wd>,       // m_fontMonitorFolders
    live: map<Wd, Path>,          // watches the kernel still has
    home: map<Wd, Path>,          // every descriptor given out so far
    queue: seq<Event>,
    stack: seq<Frame>)            // nested AddMonitorFolder calls, innermost last

  datatype Action =
    | Mkdir(p: Path)              // someone creates a directory
    | Rmdir(p: Path)              // someone removes an empty directory
    | AddRoot(p: Path)            // AddMonitorFolder from Start
    | Visit(n: Name)              // the innermost scan returns an entry
    | ScanDone                    // the innermost scan ends
    | Handle                      // the next event is read

  predicate HasParent(p: Path) { p != [] }

  function Parent(p: Path): Path
    requires HasParent(p)
  {
    p[..|p| - 1]
  }

  function Last(p: Path): Name
    requires HasParent(p)
  {
    p[|p| - 1]
  }

  predicate Wanted(s: State, p: Path, n: Name) { p != s.mount || n == X11 }

  // Tracked, and by a watch the kernel still has.
  predicate Watched(s: State, p: Path) {
    p in s.tracked && s.tracked[p] in s.live
  }

  predicate HasChildren(s: State, p: Path) {
    exists c | c in s.dirs :: HasParent(c) && Parent(c) == p
  }

  function ChildNames(s: State, p: Path): set<Name> {
    set c | c in s.dirs && HasParent(c) && Parent(c) == p && Wanted(s, p, Last(c)) :: Last(c)
  }

  // ---- the actions ----------------------------------------------------------------------

  predicate Enabled(s: State, a: Action) {
    match a
    case Mkdir(p) => HasParent(p) && Parent(p) in s.dirs && p !in s.dirs
    case Rmdir(p) => HasParent(p) && p in s.dirs && !HasChildren(s, p)
    case AddRoot(p) => p in s.roots && s.stack == []
    case Visit(n) => s.stack != [] && Wanted(s, s.stack[|s.stack| - 1].path, n)
    case ScanDone => s.stack != [] && s.stack[|s.stack| - 1].must == {}
    case Handle => s.stack == [] && s.queue != []
  }

  // The kernel reports a change of an entry to the watch on its directory, if there is one.
  function Notify(s: State, p: Path, created: bool): seq<Event>
    requires HasParent(p)
  {
    if Watched(s, Parent(p)) then s.queue + [Event(s.tracked[Parent(p)], created, Last(p))] else s.queue
  }

  function NextWd(s: State): Wd { |s.home| }

  /** AddMonitorFolder up to the start of its scan: skip a tracked path, else watch and insert. */
  function Add(s: State, p: Path): State {
    if p in s.tracked || p !in s.dirs then s
    else
      var wd := NextWd(s);
      s.(tracked := s.tracked[p := wd], live := s.live[wd := p], home := s.home[wd := p],
         stack := s.stack + [Frame(p, ChildNames(s, p))])
  }

  /** RemoveMonitorFolder: the destructor of the folder also gives up its watch. */
  function Remove(s: State, p: Path): State {
    if p in s.tracked then s.(tracked := s.tracked - {p}, live := s.live - {s.tracked[p]}) else s
  }

  // The tracked folder an event belongs to is the one whose descriptor it carries.
  predicate Owned(s: State, e: Event) {
    e.wd in s.home && s.home[e.wd] in s.tracked && s.tracked[s.home[e.wd]] == e.wd
  }

  function HandleEvent(s: State, e: Event): State {
    if !Owned(s, e) then s
    else
      var folder := s.home[e.wd];
      if !e.created then Remove(s, folder + [e.name])
      else if Wanted(s, folder, e.name) then Add(s, folder + [e.name])
      else s
  }

  // A removed entry drops out of any scan of its directory that is still under way.
  function Forget(stack: seq<Frame>, p: Path): (r: seq<Frame>)
    requires HasParent(p)
    ensures |r| == |stack|
    ensures forall i | 0 <= i < |stack| ::
      r[i] == if stack[i].path == Parent(p) then Frame(stack[i].path, stack[i].must - {Last(p)}) else stack[i]
  {
    if stack == [] then []
    else [if stack[0].path == Parent(p) then Frame(stack[0].path, stack[0].must - {Last(p)}) else stack[0]]
         + Forget(stack[1..], p)
  }

  function Apply(s: State, a: Action): State
    requires Enabled(s, a)
  {
    match a
    case Mkdir(p) => s.(dirs := s.dirs + {p}, queue := Notify(s, p, true))
    case Rmdir(p) =>
      s.(dirs := s.dirs - {p}, queue := Notify(s, p, false), stack := Forget(s.stack, p),
         live := if Watched(s, p) then s.live - {s.tracked[p]} else s.live)
    case AddRoot(p) => Add(s, p)
    case Visit(n) =>
      var top := s.stack[|s.stack| - 1];
      Add(s.(stack := s.stack[..|s.stack| - 1] + [top.(must := top.must - {n})]), top.path + [n])
    case ScanDone => s.(stack := s.stack[..|s.stack| - 1])
    case Handle => HandleEvent(s.(queue := s.queue[1..]), s.queue[0])
  }

  // ---- runs -----------------------------------------------------------------------------

  predicate Start(s: State) {
    && s.tracked == map[] && s.live == map[] && s.home == map[] && s.queue == [] && s.stack == []
    && (forall p | p in s.dirs && HasParent(p) :: Parent(p) in s.dirs)
    && (forall r, t | r in s.roots && t in s.roots :: r <= t ==> r == t)
  }

  /** The path an event is about. */
  function Subject(s: State, e: Event): Path
    requires e.wd in s.home
  {
    s.home[e.wd] + [e.name]
  }

  /** Whether a list of actions can happen, and where it leads. */
  predicate Possible(s: State, actions: seq<Action>)
    decreases |actions|
  {
    actions == [] || (Enabled(s, actions[0]) && Possible(Apply(s, actions[0]), actions[1..]))
  }

  function End(s: State, actions: seq<Action>): State
    requires Possible(s, actions)
    decreases |actions|
  {
    if actions == [] then s else End(Apply(s, actions[0]), actions[1..])
  }

  // ---- the invariant --------------------------------------------------------------------

  // Descriptors: a live one watches an existing directory and is the one that is tracked.
  ghost predicate Descriptors(s: State) {
    && (forall w: Wd :: w in s.home <==> w < |s.home|)
    && (forall w | w in s.live :: w in s.home && s.live[w] == s.home[w] && s.home[w] in s.dirs &&
                                  s.home[w] in s.tracked && s.tracked[s.home[w]] == w)
    && (forall p | p in s.tracked :: s.tracked[p] in s.home && s.home[s.tracked[p]] == p)
    && (forall e | e in s.queue :: e.wd in s.home)
  }

  /** Every step from r down to c is one the monitor follows. */
  predicate WantedBelow(s: State, r: Path, c: Path) {
    r <= c && forall k | |r| <= k < |c| :: Wanted(s, c[..k], c[k])
  }

  ghost predicate Rooted(s: State, p: Path) { exists r :: r in s.roots && WantedBelow(s, r, p) }

  // The tree is a tree, what is tracked is wanted below a root, scans are of tracked folders.
  ghost predicate Tree(s: State) {
    && (forall p {:trigger Parent(p)} | p in s.dirs && HasParent(p) :: Parent(p) in s.dirs)
    && (forall r, t | r in s.roots && t in s.roots :: r <= t ==> r == t)
    && (forall p {:trigger Rooted(s, p)} | p in s.tracked :: Rooted(s, p))
    && (forall f | f in s.stack :: f.path in s.tracked)
  }

  // The last thing the queue says about an existing directory is that it was created.
  ghost predicate Renewed(s: State) {
    forall i, c | 0 <= i < |s.queue| && c in s.dirs && HasParent(c) && Watched(s, Parent(c)) &&
                  s.queue[i] == Event(s.tracked[Parent(c)], false, Last(c)) ::
      Event(s.tracked[Parent(c)], true, Last(c)) in s.queue[i..]
  }

  ghost predicate InScan(s: State, p: Path, n: Name) {
    exists f :: f in s.stack && f.path == p && n in f.must
  }

  // Tracked, or a create event pending, or scan unfinished.
  ghost predicate Found(s: State, c: Path)
    requires HasParent(c) && Parent(c) in s.tracked
  {
    c in s.tracked || Event(s.tracked[Parent(c)], true, Last(c)) in s.queue || InScan(s, Parent(c), Last(c))
  }

  predicate Sought(s: State, c: Path) {
    c in s.dirs && HasParent(c) && Watched(s, Parent(c)) && Wanted(s, Parent(c), Last(c))
  }

  /** Every directory the monitor should know of is found. */
  ghost predicate Complete(s: State) { forall c | Sought(s, c) :: Found(s, c) }

  /** What holds between the monitor and the tree in every run. */
  ghost predicate Sound(s: State) {
    Descriptors(s) && Tree(s) && Renewed(s) && Complete(s)
  }

  // Everything but completeness.
  ghost predicate Base(s: State) {
    Descriptors(s) && Tree(s) && Renewed(s)
  }

  lemma StartSound(s: State)
    requires Start(s)
    ensures Sound(s)
  {
    assert |s.home| == 0;
  }

  lemma ChildOf(p: Path, n: Name)
    ensures HasParent(p + [n]) && Parent(p + [n]) == p && Last(p + [n]) == n
  {
  }

  lemma PathIs(p: Path)
    requires HasParent(p)
    ensures Parent(p) + [Last(p)] == p
  {
  }

  lemma WantedStep(s: State, r: Path, c: Path)
    requires r < c
    ensures r <= Parent(c)
    ensures WantedBelow(s, r, c) <==> WantedBelow(s, r, Parent(c)) && Wanted(s, Parent(c), Last(c))
  {
    var q := Parent(c);
    assert forall k | |r| <= k < |q| :: q[..k] == c[..k] && q[k] == c[k];
    assert c[..|c| - 1] == q && c[|c| - 1] == Last(c);
  }

  lemma RootedChild(s: State, p: Path)
    requires HasParent(p) && Rooted(s, Parent(p)) && Wanted(s, Parent(p), Last(p))
    ensures Rooted(s, p)
  {
    var r :| r in s.roots && WantedBelow(s, r, Parent(p));
    assert r < p;
    WantedStep(s, r, p);
  }

  lemma RootRooted(s: State, r: Path)
    requires r in s.roots
    ensures Rooted(s, r)
  {
    assert WantedBelow(s, r, r);
  }

  lemma SameRoots(s: State, t: State, p: Path)
    requires s.roots == t.roots && s.mount == t.mount
    ensures Rooted(s, p) == Rooted(t, p)
  {
    assert forall q, n :: Wanted(s, q, n) == Wanted(t, q, n);
    assert forall r :: WantedBelow(s, r, p) == WantedBelow(t, r, p);
  }

  // A change that adds no folder but rooted ones keeps the tree in shape.
  lemma TreeMoves(s: State, t: State)
    requires Tree(s) && t.roots == s.roots && t.mount == s.mount
    requires forall p | p in t.dirs && HasParent(p) :: Parent(p) in t.dirs
    requires forall p | p in t.tracked :: p in s.tracked || Rooted(s, p)
    requires forall f | f in t.stack :: f.path in t.tracked
    ensures Tree(t)
  {
    hide Rooted;
    forall p | p in t.tracked ensures Rooted(t, p) {
      assert Rooted(s, p);
      SameRoots(s, t, p);
    }
  }

  // ---- adding a folder ------------------------------------------------------------------

  lemma AddDescriptors(s: State, p: Path)
    requires Descriptors(s) && p !in s.tracked && p in s.dirs
    ensures Descriptors(Add(s, p))
    ensures NextWd(s) !in s.home
  {
    hide ChildNames;
    var t := Add(s, p);
    assert t.home.Keys == s.home.Keys + {NextWd(s)};
  }

  lemma AddTree(s: State, p: Path)
    requires Tree(s) && p !in s.tracked && p in s.dirs && Rooted(s, p)
    ensures Tree(Add(s, p))
  {
    hide ChildNames, Rooted;
    TreeMoves(s, Add(s, p));
  }

  lemma AddRenewed(s: State, p: Path)
    requires Descriptors(s) && Renewed(s) && p !in s.tracked && p in s.dirs
    ensures Renewed(Add(s, p))
  {
    hide ChildNames;
    var t := Add(s, p);
    AddDescriptors(s, p);
    forall i, c | 0 <= i < |t.queue| && c in t.dirs && HasParent(c) && Watched(t, Parent(c)) &&
                  t.queue[i] == Event(t.tracked[Parent(c)], false, Last(c))
      ensures Event(t.tracked[Parent(c)], true, Last(c)) in t.queue[i..]
    {
      assert t.queue[i] in s.queue;
      assert Parent(c) != p;
      assert Watched(s, Parent(c));
    }
  }

  lemma AddKeeps(s: State, p: Path)
    requires Base(s) && Rooted(s, p)
    ensures Base(Add(s, p))
  {
    hide Descriptors, Tree, Renewed, Rooted;
    if p !in s.tracked && p in s.dirs {
      AddDescriptors(s, p);
      AddTree(s, p);
      AddRenewed(s, p);
    }
  }

  // After adding p it is tracked, its own entries are in the new scan, and the rest is as it was.
  lemma AddCompletes(s: State, p: Path)
    requires Descriptors(s)
    requires forall c | c != p && Sought(s, c) :: Found(s, c)
    ensures Complete(Add(s, p))
  {
    var t := Add(s, p);
    if p !in s.tracked && p in s.dirs {
      AddDescriptors(s, p);
    }
    forall c | Sought(t, c) ensures Found(t, c) {
      if p !in s.tracked && p in s.dirs && c != p {
        if Parent(c) == p {
          var f := Frame(p, ChildNames(s, p));
          assert Last(c) in f.must;
          assert f in t.stack && f.path == p;
        } else {
          assert Sought(s, c) && Found(s, c);
          if InScan(s, Parent(c), Last(c)) {
            var f :| f in s.stack && f.path == Parent(c) && Last(c) in f.must;
            assert f in t.stack;
          }
        }
      }
    }
  }

  // ---- creating and removing directories ------------------------------------------------

  // Appending an event loses none.
  lemma QueueGrows(s: State, t: State)
    requires s.queue <= t.queue
    ensures forall e | e in s.queue :: e in t.queue
    ensures forall i, e | 0 <= i < |s.queue| && e in s.queue[i..] :: e in t.queue[i..]
  {
    forall e | e in s.queue ensures e in t.queue {
      var i :| 0 <= i < |s.queue| && s.queue[i] == e;
      assert t.queue[i] == e;
    }
    forall i, e | 0 <= i < |s.queue| && e in s.queue[i..] ensures e in t.queue[i..] {
      var k :| 0 <= k < |s.queue[i..]| && s.queue[i..][k] == e;
      assert t.queue[i..][k] == e;
    }
  }

  lemma MkdirKeeps(s: State, p: Path)
    requires Sound(s) && Enabled(s, Mkdir(p))
    ensures Sound(Apply(s, Mkdir(p)))
  {
    hide Descriptors, Tree, Renewed, Complete, Apply;
    MkdirBase(s, p);
    MkdirRenews(s, p);
    MkdirCompletes(s, p);
  }

  lemma MkdirBase(s: State, p: Path)
    requires Descriptors(s) && Tree(s) && Enabled(s, Mkdir(p))
    ensures Descriptors(Apply(s, Mkdir(p))) && Tree(Apply(s, Mkdir(p)))
  {
    hide Rooted;
    TreeMoves(s, Apply(s, Mkdir(p)));
    hide Tree;
  }

  lemma MkdirRenews(s: State, p: Path)
    requires Descriptors(s) && Renewed(s) && Enabled(s, Mkdir(p))
    ensures Renewed(Apply(s, Mkdir(p)))
  {
    var t := Apply(s, Mkdir(p));
    QueueGrows(s, t);
    forall i, c | 0 <= i < |t.queue| && c in t.dirs && HasParent(c) && Watched(t, Parent(c)) &&
                  t.queue[i] == Event(t.tracked[Parent(c)], false, Last(c))
      ensures Event(t.tracked[Parent(c)], true, Last(c)) in t.queue[i..]
    {
      assert i < |s.queue| && s.queue[i] == t.queue[i];
      if c == p {
        assert t.queue[i..][|s.queue| - i] == Event(t.tracked[Parent(c)], true, Last(c));
      } else {
        assert Event(s.tracked[Parent(c)], true, Last(c)) in s.queue[i..];
      }
    }
  }

  lemma MkdirCompletes(s: State, p: Path)
    requires Complete(s) && Enabled(s, Mkdir(p))
    ensures Complete(Apply(s, Mkdir(p)))
  {
    var t := Apply(s, Mkdir(p));
    QueueGrows(s, t);
    forall c | Sought(t, c) ensures Found(t, c) {
      if c == p {
        assert t.queue[|s.queue|] == Event(t.tracked[Parent(p)], true, Last(p));
      } else {
        assert Sought(s, c) && Found(s, c);
        assert InScan(s, Parent(c), Last(c)) ==> InScan(t, Parent(c), Last(c));
      }
    }
  }

  // Only the folder removed loses its watch.
  lemma RmdirWatches(s: State, p: Path, q: Path)
    requires Descriptors(s) && Enabled(s, Rmdir(p))
    ensures Watched(Apply(s, Rmdir(p)), q) <==> Watched(s, q) && q != p
  {
  }

  lemma RmdirKeeps(s: State, p: Path)
    requires Sound(s) && Enabled(s, Rmdir(p))
    ensures Sound(Apply(s, Rmdir(p)))
  {
    hide Descriptors, Tree, Renewed, Complete, Apply;
    RmdirBase(s, p);
    RmdirRenews(s, p);
    RmdirCompletes(s, p);
  }

  lemma RmdirBase(s: State, p: Path)
    requires Descriptors(s) && Tree(s) && Enabled(s, Rmdir(p))
    ensures Descriptors(Apply(s, Rmdir(p))) && Tree(Apply(s, Rmdir(p)))
  {
    var t := Apply(s, Rmdir(p));
    assert Tree(t) by {
      hide Descriptors, Rooted;
      forall f | f in t.stack ensures f.path in t.tracked {
        var i :| 0 <= i < |t.stack| && t.stack[i] == f;
        assert s.stack[i] in s.stack && f.path == s.stack[i].path;
      }
      TreeMoves(s, t);
    }
    hide Tree, HasChildren;
  }

  // The one event a removal adds is about a directory that is gone.
  lemma RmdirRenews(s: State, p: Path)
    requires Descriptors(s) && Renewed(s) && Enabled(s, Rmdir(p))
    ensures Renewed(Apply(s, Rmdir(p)))
  {
    hide HasChildren;
    var t := Apply(s, Rmdir(p));
    QueueGrows(s, t);
    forall i, c | 0 <= i < |t.queue| && c in t.dirs && HasParent(c) && Watched(t, Parent(c)) &&
                  t.queue[i] == Event(t.tracked[Parent(c)], false, Last(c))
      ensures Event(t.tracked[Parent(c)], true, Last(c)) in t.queue[i..]
    {
      RmdirWatches(s, p, Parent(c));
      if i == |s.queue| {
        assert Parent(c) == s.home[t.queue[i].wd] == Parent(p);
        PathIs(c);
        PathIs(p);
        assert false;
      } else {
        assert Event(s.tracked[Parent(c)], true, Last(c)) in s.queue[i..];
      }
    }
  }

  lemma RmdirCompletes(s: State, p: Path)
    requires Descriptors(s) && Complete(s) && Enabled(s, Rmdir(p))
    ensures Complete(Apply(s, Rmdir(p)))
  {
    hide HasChildren;
    var t := Apply(s, Rmdir(p));
    QueueGrows(s, t);
    forall c | Sought(t, c) ensures Found(t, c) {
      RmdirWatches(s, p, Parent(c));
      assert c != p && Sought(s, c) && Found(s, c);
      if InScan(s, Parent(c), Last(c)) {
        PathIs(c);
        PathIs(p);
        var i :| 0 <= i < |s.stack| && s.stack[i].path == Parent(c) && Last(c) in s.stack[i].must;
        assert t.stack[i].path == Parent(c) && Last(c) in t.stack[i].must;
      }
    }
  }

  // ---- reading an event -----------------------------------------------------------------

  function Drop(s: State): State
    requires s.queue != []
  {
    s.(queue := s.queue[1..])
  }

  lemma QueueShrinks(s: State)
    requires s.queue != []
    ensures forall e | e in s.queue && e != s.queue[0] :: e in s.queue[1..]
    ensures forall e | e in s.queue[1..] :: e in s.queue
    ensures forall i | 0 <= i < |s.queue| - 1 :: s.queue[1..][i..] == s.queue[i + 1..]
  {
    forall e | e in s.queue && e != s.queue[0] ensures e in s.queue[1..] {
      var i :| 0 <= i < |s.queue| && s.queue[i] == e;
      assert s.queue[1..][i - 1] == e;
    }
  }

  lemma DropKeeps(s: State)
    requires Base(s) && s.queue != []
    ensures Base(Drop(s))
  {
    var t := Drop(s);
    QueueShrinks(s);
    hide Rooted;
    TreeMoves(s, t);
    hide Tree;
    forall i, c | 0 <= i < |t.queue| && c in t.dirs && HasParent(c) && Watched(t, Parent(c)) &&
                  t.queue[i] == Event(t.tracked[Parent(c)], false, Last(c))
      ensures Event(t.tracked[Parent(c)], true, Last(c)) in t.queue[i..]
    {
      assert s.queue[i + 1] == t.queue[i];
    }
  }

  // Reading an event meets no obligation but that of its own subject.
  lemma DropFinds(s: State, c: Path)
    requires Descriptors(s) && Complete(s) && s.queue != [] && Sought(Drop(s), c)
    requires !(s.queue[0].created && Owned(s, s.queue[0]) && c == Subject(s, s.queue[0]))
    ensures Found(Drop(s), c)
  {
    QueueShrinks(s);
    assert Sought(s, c) && Found(s, c);
    if InScan(s, Parent(c), Last(c)) {
      assert InScan(Drop(s), Parent(c), Last(c));
    } else if c !in s.tracked {
      PathIs(c);
      assert Event(s.tracked[Parent(c)], true, Last(c)) != s.queue[0];
    }
  }

  lemma FoundAll(s: State)
    requires forall c | Sought(s, c) :: Found(s, c)
    ensures Complete(s)
  {
  }

  // A creation, or an event no tracked folder owns.
  lemma CreateKeeps(s: State)
    requires Sound(s) && Enabled(s, Handle) && (s.queue[0].created || !Owned(s, s.queue[0]))
    ensures Sound(Apply(s, Handle))
  {
    var t, e := Drop(s), s.queue[0];
    DropKeeps(s);
    if Owned(s, e) && Wanted(s, s.home[e.wd], e.name) {
      ChildOf(s.home[e.wd], e.name);
      assert Rooted(t, s.home[e.wd]);
      RootedChild(t, Subject(s, e));
    }
    hide Descriptors, Tree, Renewed, Rooted, Complete;
    forall c | Sought(t, c) && !(Owned(s, e) && c == Subject(s, e)) ensures Found(t, c) { DropFinds(s, c); }
    if Owned(s, e) {
      var p := Subject(s, e);
      ChildOf(s.home[e.wd], e.name);
      if Wanted(s, s.home[e.wd], e.name) {
        AddKeeps(t, p);
        AddCompletes(t, p);
      } else {
        FoundAll(t);
      }
    } else {
      FoundAll(t);
    }
  }

  lemma RemoveDescriptors(s: State, p: Path)
    requires Descriptors(s) && s.queue != []
    ensures Descriptors(Remove(Drop(s), p))
    ensures forall q :: Watched(Remove(Drop(s), p), q) <==> Watched(s, q) && q != p
  {
  }

  lemma RemoveTree(s: State, p: Path)
    requires Tree(s) && s.stack == [] && s.queue != []
    ensures Tree(Remove(Drop(s), p))
  {
    hide Rooted;
    TreeMoves(s, Remove(Drop(s), p));
  }

  lemma RemoveRenewed(s: State, p: Path)
    requires s.queue != [] && Renewed(Drop(s)) && Descriptors(Drop(s))
    ensures Renewed(Remove(Drop(s), p))
  {
    var d, t := Drop(s), Remove(Drop(s), p);
    forall i, c | 0 <= i < |t.queue| && c in t.dirs && HasParent(c) && Watched(t, Parent(c)) &&
                  t.queue[i] == Event(t.tracked[Parent(c)], false, Last(c))
      ensures Event(t.tracked[Parent(c)], true, Last(c)) in t.queue[i..]
    {
      assert Watched(d, Parent(c));
    }
  }

  lemma RemoveFinds(s: State, p: Path, c: Path)
    requires Descriptors(s) && s.queue != [] && !s.queue[0].created && c != p
    requires Sought(s, c) && Found(s, c) && Sought(Remove(Drop(s), p), c)
    ensures Found(Remove(Drop(s), p), c)
  {
    var t := Remove(Drop(s), p);
    QueueShrinks(s);
    RemoveDescriptors(s, p);
    assert t.stack == s.stack && t.queue == s.queue[1..] && t.tracked[Parent(c)] == s.tracked[Parent(c)];
    assert InScan(s, Parent(c), Last(c)) ==> InScan(t, Parent(c), Last(c));
  }

  // If what is taken away exists after all, the creation that says so is still to be read.
  lemma RemoveCompletes(s: State)
    requires Descriptors(s) && Renewed(s) && Complete(s)
    requires Enabled(s, Handle) && !s.queue[0].created && Owned(s, s.queue[0])
    ensures Complete(Remove(Drop(s), Subject(s, s.queue[0])))
  {
    var e := s.queue[0];
    var c0 := Subject(s, e);
    var t := Remove(Drop(s), c0);
    RemoveDescriptors(s, c0);
    hide Descriptors, Remove;
    forall c | Sought(t, c) ensures Found(t, c) {
      assert Watched(s, Parent(c)) && Sought(s, c) && Sought(Drop(s), c);
      if c == c0 {
        ChildOf(s.home[e.wd], e.name);
        assert e == s.queue[0] == Event(s.tracked[Parent(c)], false, Last(c));
        assert Event(s.tracked[Parent(c)], true, Last(c)) in s.queue[0..];
        QueueShrinks(s);
      } else {
        assert Found(s, c);
        RemoveFinds(s, c0, c);
      }
    }
  }

  lemma RemoveKeeps(s: State)
    requires Sound(s) && Enabled(s, Handle) && !s.queue[0].created && Owned(s, s.queue[0])
    ensures Sound(Apply(s, Handle))
  {
    hide Descriptors, Tree, Renewed, Complete;
    var c0 := Subject(s, s.queue[0]);
    DropKeeps(s);
    RemoveDescriptors(s, c0);
    RemoveTree(s, c0);
    RemoveRenewed(s, c0);
    RemoveCompletes(s);
  }

  // ---- the scan -------------------------------------------------------------------------

  // The innermost scan has returned one of its entries.
  function Returned(s: State, n: Name): State
    requires s.stack != []
  {
    var k := |s.stack| - 1;
    s.(stack := s.stack[..k] + [s.stack[k].(must := s.stack[k].must - {n})])
  }

  // Scans matter to nothing but completeness.
  lemma StackKeeps(s: State, d: State)
    requires Base(s) && d == s.(stack := d.stack) && forall f | f in d.stack :: f.path in s.tracked
    ensures Base(d)
  {
    hide Rooted;
    TreeMoves(s, d);
    hide Tree;
    assert forall q :: Watched(d, q) == Watched(s, q);
  }

  // A returned entry is wanted below a tracked folder.
  lemma VisitRooted(s: State, n: Name)
    requires Base(s) && Enabled(s, Visit(n))
    ensures Base(Returned(s, n)) && Rooted(Returned(s, n), s.stack[|s.stack| - 1].path + [n])
  {
    var top, d := s.stack[|s.stack| - 1], Returned(s, n);
    assert top in s.stack;
    assert forall f | f in d.stack :: f.path in s.tracked;
    assert Rooted(s, top.path);
    ChildOf(top.path, n);
    hide Descriptors, Tree, Renewed, Rooted;
    StackKeeps(s, d);
    RootedChild(s, top.path + [n]);
    SameRoots(s, d, top.path + [n]);
  }

  lemma VisitKeeps(s: State, n: Name)
    requires Sound(s) && Enabled(s, Visit(n))
    ensures Sound(Apply(s, Visit(n)))
  {
    hide Descriptors, Tree, Renewed, Rooted, Complete;
    var d, p := Returned(s, n), s.stack[|s.stack| - 1].path + [n];
    VisitRooted(s, n);
    forall c | c != p && Sought(d, c) ensures Found(d, c) { ReturnedFinds(s, n, c); }
    AddKeeps(d, p);
    AddCompletes(d, p);
  }

  lemma ReturnedFinds(s: State, n: Name, c: Path)
    requires Complete(s) && s.stack != [] && c != s.stack[|s.stack| - 1].path + [n] && Sought(Returned(s, n), c)
    ensures Found(Returned(s, n), c)
  {
    var d := Returned(s, n);
    assert Sought(s, c) && Found(s, c);
    PathIs(c);
    if InScan(s, Parent(c), Last(c)) {
      var i :| 0 <= i < |s.stack| && s.stack[i].path == Parent(c) && Last(c) in s.stack[i].must;
      assert d.stack[i].path == Parent(c) && Last(c) in d.stack[i].must;
    }
  }

  lemma ScanDoneKeeps(s: State)
    requires Sound(s) && Enabled(s, ScanDone)
    ensures Sound(Apply(s, ScanDone))
  {
    hide Descriptors, Renewed, Rooted, Complete, Found, Sought;
    var d := s.(stack := s.stack[..|s.stack| - 1]);
    assert forall f | f in d.stack :: f.path in s.tracked;
    hide Tree;
    StackKeeps(s, d);
    forall c | Sought(d, c) ensures HasParent(c) && Parent(c) in d.tracked && Found(d, c) { ScanDoneFinds(s, c); }
    FoundAll(d);
  }

  lemma ScanDoneFinds(s: State, c: Path)
    requires Complete(s) && Enabled(s, ScanDone) && Sought(s.(stack := s.stack[..|s.stack| - 1]), c)
    ensures HasParent(c) && Parent(c) in s.tracked && Found(s.(stack := s.stack[..|s.stack| - 1]), c)
  {
    var d := s.(stack := s.stack[..|s.stack| - 1]);
    assert Sought(s, c) && Found(s, c);
    if InScan(s, Parent(c), Last(c)) {
      var i :| 0 <= i < |s.stack| && s.stack[i].path == Parent(c) && Last(c) in s.stack[i].must;
      assert d.stack[i] == s.stack[i];
    }
  }

  lemma AddRootKeeps(s: State, p: Path)
    requires Sound(s) && Enabled(s, AddRoot(p))
    ensures Sound(Apply(s, AddRoot(p)))
  {
    RootRooted(s, p);
    hide Descriptors, Tree, Renewed, Rooted;
    AddKeeps(s, p);
    AddCompletes(s, p);
  }

  /** Every action, at any moment, keeps what holds between monitor and tree. */
  lemma StepKeepsSound(s: State, a: Action)
    requires Sound(s) && Enabled(s, a)
    ensures Sound(Apply(s, a)) && Apply(s, a).roots == s.roots && Apply(s, a).mount == s.mount
  {
    StepKeepsRoots(s, a);
    hide Sound, Apply;
    match a
    case Mkdir(p) => MkdirKeeps(s, p);
    case Rmdir(p) => RmdirKeeps(s, p);
    case AddRoot(p) => AddRootKeeps(s, p);
    case Visit(n) => VisitKeeps(s, n);
    case ScanDone => ScanDoneKeeps(s);
    case Handle =>
      if s.queue[0].created || !Owned(s, s.queue[0]) {
        CreateKeeps(s);
      } else {
        RemoveKeeps(s);
      }
  }

  lemma StepKeepsRoots(s: State, a: Action)
    requires Enabled(s, a)
    ensures Apply(s, a).roots == s.roots && Apply(s, a).mount == s.mount
  {
    hide ChildNames, HasChildren, Owned, Wanted;
  }

  // ---- whole runs, and rest -------------------------------------------------------------

  lemma {:induction false} RunKeepsSound(s: State, actions: seq<Action>)
    requires Sound(s) && Possible(s, actions)
    ensures Sound(End(s, actions)) && End(s, actions).roots == s.roots && End(s, actions).mount == s.mount
    decreases |actions|
  {
    hide Sound, Apply;
    if actions != [] {
      StepKeepsSound(s, actions[0]);
      RunKeepsSound(Apply(s, actions[0]), actions[1..]);
    }
  }

  predicate Quiet(s: State) { s.queue == [] && s.stack == [] }

  /**
   Completeness at rest, in every run: whatever the order of creations, removals, scanning and
   event handling, once nothing is left to read or to scan every existing directory below a watched
   folder is tracked, but that right below the mount only X11 is.
   */
  lemma NothingIsMissed(s: State, actions: seq<Action>)
    requires Start(s) && Possible(s, actions) && Quiet(End(s, actions))
    ensures var t := End(s, actions);
            forall c | c in t.dirs && HasParent(c) && Watched(t, Parent(c)) && (Parent(c) != s.mount || Last(c) == "X11") ::
              c in t.tracked
  {
    hide Start;
    StartSound(s);
    RunKeepsSound(s, actions);
    var t := End(s, actions);
    forall c | c in t.dirs && HasParent(c) && Watched(t, Parent(c)) && (Parent(c) != s.mount || Last(c) == "X11")
      ensures c in t.tracked
    {
      assert Sought(t, c);
      assert Found(t, c);
    }
  }

  /** Nor is anything else right below the mount ever tracked, at rest or not. */
  lemma MountTracksOnlyX11(s: State, actions: seq<Action>, c: Path)
    requires Start(s) && Possible(s, actions) && c in End(s, actions).tracked
    requires HasParent(c) && Parent(c) == s.mount && c !in s.roots
    ensures Last(c) == "X11"
  {
    hide Start, Descriptors, Tree, Renewed, Complete, Rooted;
    StartSound(s);
    RunKeepsSound(s, actions);
    TrackedBelowMount(End(s, actions), c);
  }

  lemma TrackedBelowMount(t: State, c: Path)
    requires Tree(t) && c in t.tracked && HasParent(c) && Parent(c) == t.mount && c !in t.roots
    ensures Last(c) == "X11"
  {
    assert Rooted(t, c);
    var r :| r in t.roots && WantedBelow(t, r, c);
    assert r <= c && r != c;
    assert r < c;
    WantedStep(t, r, c);
  }

  /** Tracked by a watch the kernel no longer has. */
  predicate Stale(s: State, c: Path) { c in s.tracked && !Watched(s, c) }

  /** Below r exactly the wanted directories are tracked, each by a working watch. */
  ghost predicate ExactBelow(s: State, r: Path) {
    forall c | r <= c ::
      (c in s.tracked <==> c in s.dirs && WantedBelow(s, r, c)) && (c in s.tracked ==> Watched(s, c))
  }

  // What is tracked below a root is wanted below that root.
  lemma TrackedIsWanted(s: State, r: Path, c: Path)
    requires Tree(s) && r in s.roots && r <= c && c in s.tracked
    ensures WantedBelow(s, r, c)
  {
    assert Rooted(s, c);
    var r' :| r' in s.roots && WantedBelow(s, r', c);
    assert r == c[..|r|] && r' == c[..|r'|];
    assert r <= r' || r' <= r;
  }

  lemma {:induction false} ExistingIsTracked(s: State, r: Path, c: Path)
    requires Sound(s) && Quiet(s) && r in s.tracked && r <= c
    requires forall q | r <= q && q in s.tracked :: Watched(s, q)
    requires c in s.dirs && WantedBelow(s, r, c)
    ensures c in s.tracked
    decreases |c|
  {
    if r != c {
      assert r < c;
      WantedStep(s, r, c);
      ExistingIsTracked(s, r, Parent(c));
      assert Sought(s, c);
      assert Found(s, c);
    }
  }

  /** At rest the tracking below a watched root is exact if and only if no folder in it is stale. */
  lemma RestIsExact(s: State, r: Path)
    requires Sound(s) && Quiet(s) && r in s.roots && Watched(s, r)
    ensures ExactBelow(s, r) <==> forall c | r <= c :: !Stale(s, c)
  {
    if forall c | r <= c :: !Stale(s, c) {
      assert forall q | r <= q && q in s.tracked :: Watched(s, q) by {
        assert forall q | r <= q && q in s.tracked :: !Stale(s, q);
      }
      forall c | r <= c ensures c in s.tracked <==> c in s.dirs && WantedBelow(s, r, c) {
        if c in s.tracked {
          TrackedIsWanted(s, r, c);
          assert Watched(s, c);
        } else if c in s.dirs && WantedBelow(s, r, c) {
          ExistingIsTracked(s, r, c);
        }
      }
    } else {
      var c :| r <= c && Stale(s, c);
      assert c in s.tracked && !Watched(s, c);
    }
  }
}
