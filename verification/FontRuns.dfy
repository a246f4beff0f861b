/**
 Runs in which no folder is lost: every removal takes away a folder with nothing tracked below it,
 as it does when nobody brings a directory back before its removal was read. And a run in which one
 is lost because somebody did.
 */
module FontRuns {
  import opened FontTracking
  import opened FontOrphans

  /** A removal is handled only when nothing below the folder it removes is tracked. */
  predicate Harmless(s: State, a: Action)
    requires Enabled(s, a)
  {
    a.Handle? && !s.queue[0].created && Owned(s, s.queue[0]) && Subject(s, s.queue[0]) in s.tracked ==>
      !HasTrackedChild(s, Subject(s, s.queue[0]))
  }

  predicate HasTrackedChild(s: State, p: Path) {
    exists c | c in s.tracked :: HasParent(c) && Parent(c) == p
  }

  /** A directory is not created again while the event of its removal is still unread. */
  predicate Patient(s: State, a: Action) {
    a.Mkdir? ==> forall e | e in s.queue && !e.created && e.wd in s.home :: Subject(s, e) != a.p
  }

  predicate AlwaysHarmless(s: State, actions: seq<Action>)
    requires Possible(s, actions)
    decreases |actions|
  {
    actions == [] || (Harmless(s, actions[0]) && AlwaysHarmless(Apply(s, actions[0]), actions[1..]))
  }

  predicate AlwaysPatient(s: State, actions: seq<Action>)
    requires Possible(s, actions)
    decreases |actions|
  {
    actions == [] || (Patient(s, actions[0]) && AlwaysPatient(Apply(s, actions[0]), actions[1..]))
  }

  // ---- the stronger invariant -----------------------------------------------------------

  predicate Placed(s: State, p: Path) { p in s.roots || (HasParent(p) && Parent(p) in s.tracked) }

  // Tracked folders hang together below the roots.
  ghost predicate Joined(s: State) { forall p {:trigger Placed(s, p)} | p in s.tracked :: Placed(s, p) }

  // A tracked folder that lost its watch below a watched one is about to be removed.
  ghost predicate StaleIsPending(s: State) {
    forall c | c in s.tracked && HasParent(c) && Watched(s, Parent(c)) && !Watched(s, c) ::
      Event(s.tracked[Parent(c)], false, Last(c)) in s.queue
  }

  /** What holds in addition as long as removals are harmless. */
  ghost predicate Tidy(s: State) { Sound(s) && Joined(s) && StaleIsPending(s) }

  lemma StartTidy(s: State)
    requires Start(s)
    ensures Tidy(s)
  {
    StartSound(s);
  }

  lemma NoRootBelow(s: State, p: Path, c: Path)
    requires Tree(s) && Rooted(s, p) && HasParent(c) && Parent(c) == p
    ensures c !in s.roots
  {
    var r :| r in s.roots && WantedBelow(s, r, p);
    assert r <= c && r != c;
  }

  // Nothing is tracked below an untracked folder.
  lemma NoTrackedChild(s: State, p: Path, c: Path)
    requires Tree(s) && Joined(s) && HasParent(c) && Parent(c) == p && c in s.tracked
    requires Rooted(s, p) || c !in s.roots
    ensures p in s.tracked
  {
    assert Placed(s, c);
    if c in s.roots {
      NoRootBelow(s, p, c);
    }
  }

  lemma AddTidies(s: State, p: Path)
    requires Descriptors(s) && Tree(s) && Joined(s) && StaleIsPending(s) && Placed(s, p) && Rooted(s, p)
    ensures Joined(Add(s, p)) && StaleIsPending(Add(s, p))
  {
    hide ChildNames, Rooted, Tree;
    var t := Add(s, p);
    if p !in s.tracked && p in s.dirs {
      AddDescriptors(s, p);
      forall q | q in t.tracked ensures Placed(t, q) {
        assert Placed(s, q);
      }
      forall c | c in t.tracked && HasParent(c) && Watched(t, Parent(c)) && !Watched(t, c)
        ensures Event(t.tracked[Parent(c)], false, Last(c)) in t.queue
      {
        assert c != p && c in s.tracked;
        if Parent(c) == p {
          NoTrackedChild(s, p, c);
          assert false;
        } else {
          assert Watched(s, Parent(c)) && !Watched(s, c);
        }
      }
    }
  }

  lemma MkdirTidies(s: State, p: Path)
    requires Joined(s) && StaleIsPending(s) && Enabled(s, Mkdir(p))
    ensures Joined(Apply(s, Mkdir(p))) && StaleIsPending(Apply(s, Mkdir(p)))
  {
    var t := Apply(s, Mkdir(p));
    QueueGrows(s, t);
    forall q | q in t.tracked ensures Placed(t, q) {
      assert Placed(s, q);
    }
  }

  lemma RmdirTidies(s: State, p: Path)
    requires Descriptors(s) && Joined(s) && StaleIsPending(s) && Enabled(s, Rmdir(p))
    ensures Joined(Apply(s, Rmdir(p))) && StaleIsPending(Apply(s, Rmdir(p)))
  {
    hide HasChildren;
    var t := Apply(s, Rmdir(p));
    QueueGrows(s, t);
    forall q | q in t.tracked ensures Placed(t, q) {
      assert Placed(s, q);
    }
    forall c | c in t.tracked && HasParent(c) && Watched(t, Parent(c)) && !Watched(t, c)
      ensures Event(t.tracked[Parent(c)], false, Last(c)) in t.queue
    {
      RmdirWatches(s, p, c);
      RmdirWatches(s, p, Parent(c));
      if c == p {
        assert t.queue[|s.queue|] == Event(s.tracked[Parent(c)], false, Last(c));
      }
    }
  }

  lemma DropTidies(s: State)
    requires Descriptors(s) && Joined(s) && StaleIsPending(s) && s.queue != []
    requires s.queue[0].created || !Owned(s, s.queue[0])
    ensures Joined(Drop(s)) && StaleIsPending(Drop(s))
  {
    var t := Drop(s);
    QueueShrinks(s);
    forall q | q in t.tracked ensures Placed(t, q) {
      assert Placed(s, q);
    }
    forall c | c in t.tracked && HasParent(c) && Watched(t, Parent(c)) && !Watched(t, c)
      ensures Event(t.tracked[Parent(c)], false, Last(c)) in t.queue
    {
      PendingIs(s, c, Event(s.tracked[Parent(c)], false, Last(c)));
    }
  }

  lemma CreateTidies(s: State)
    requires Tidy(s) && Enabled(s, Handle) && (s.queue[0].created || !Owned(s, s.queue[0]))
    ensures Joined(Apply(s, Handle)) && StaleIsPending(Apply(s, Handle))
  {
    DropKeeps(s);
    var t, e := Drop(s), s.queue[0];
    if Owned(s, e) && Wanted(s, s.home[e.wd], e.name) {
      ChildOf(s.home[e.wd], e.name);
      assert Rooted(t, s.home[e.wd]);
      RootedChild(t, Subject(s, e));
      assert Placed(t, Subject(s, e));
    }
    hide Descriptors, Tree, Renewed, Rooted, Complete, Joined, StaleIsPending;
    DropTidies(s);
    if Owned(s, e) && Wanted(s, s.home[e.wd], e.name) {
      AddTidies(t, Subject(s, e));
    }
  }

  lemma RemoveTidies(s: State)
    requires Descriptors(s) && Joined(s) && StaleIsPending(s)
    requires Enabled(s, Handle) && !s.queue[0].created && Owned(s, s.queue[0])
    requires Subject(s, s.queue[0]) in s.tracked ==> !HasTrackedChild(s, Subject(s, s.queue[0]))
    ensures Joined(Apply(s, Handle)) && StaleIsPending(Apply(s, Handle))
  {
    var c0 := Subject(s, s.queue[0]);
    var t := Remove(Drop(s), c0);
    RemoveDescriptors(s, c0);
    QueueShrinks(s);
    forall q | q in t.tracked ensures Placed(t, q) {
      assert Placed(s, q);
    }
    forall c | c in t.tracked && HasParent(c) && Watched(t, Parent(c)) && !Watched(t, c)
      ensures Event(t.tracked[Parent(c)], false, Last(c)) in t.queue
    {
      assert c != c0 && Watched(s, Parent(c)) && !Watched(s, c);
      PendingIs(s, c, Event(s.tracked[Parent(c)], false, Last(c)));
    }
  }

  // A removal above a tracked folder leaves that folder without a tracked parent.
  lemma RemoveBreaks(s: State)
    requires Tree(s) && Enabled(s, Handle) && !Harmless(s, Handle)
    ensures !Joined(Apply(s, Handle))
  {
    var p := Subject(s, s.queue[0]);
    var c :| c in s.tracked && HasParent(c) && Parent(c) == p;
    assert Rooted(s, p);
    NoRootBelow(s, p, c);
    hide Tree, Rooted;
    Orphaned(Drop(s), p, c);
  }

  lemma Orphaned(s: State, p: Path, c: Path)
    requires c in s.tracked && c !in s.roots && HasParent(c) && Parent(c) == p && p in s.tracked
    ensures !Joined(Remove(s, p))
  {
    var t := Remove(s, p);
    assert c in t.tracked && !Placed(t, c);
  }

  lemma VisitTidies(s: State, n: Name)
    requires Tidy(s) && Enabled(s, Visit(n))
    ensures Joined(Apply(s, Visit(n))) && StaleIsPending(Apply(s, Visit(n)))
  {
    var top, d := s.stack[|s.stack| - 1], Returned(s, n);
    assert top in s.stack;
    ChildOf(top.path, n);
    assert Placed(d, top.path + [n]);
    VisitRooted(s, n);
    hide Descriptors, Tree, Renewed, Rooted, Complete;
    StackTidies(s, d);
    hide Joined, StaleIsPending;
    AddTidies(d, top.path + [n]);
  }

  lemma StackTidies(s: State, d: State)
    requires Joined(s) && StaleIsPending(s) && d == s.(stack := d.stack)
    ensures Joined(d) && StaleIsPending(d)
  {
    forall q | q in d.tracked ensures Placed(d, q) {
      assert Placed(s, q);
    }
    assert forall q :: Watched(d, q) == Watched(s, q);
  }

  /** The tracked folders stay joined exactly if nothing was tracked below a folder that is removed. */
  lemma StepKeepsExactly(s: State, a: Action)
    requires Tidy(s) && Enabled(s, a)
    ensures Tidy(Apply(s, a)) <==> Harmless(s, a)
  {
    hide Sound, Joined, StaleIsPending;
    StepKeepsSound(s, a);
    if !Harmless(s, a) {
      assert Tree(s) by { SoundIsTree(s); }
      RemoveBreaks(s);
    } else {
      assert Descriptors(s) by { SoundIsTree(s); }
      hide Apply;
      match a
      case Mkdir(p) => MkdirTidies(s, p);
      case Rmdir(p) => RmdirTidies(s, p);
      case AddRoot(p) => AddRootTidies(s, p);
      case Visit(n) => VisitTidies(s, n);
      case ScanDone => ScanDoneTidies(s);
      case Handle =>
        if s.queue[0].created || !Owned(s, s.queue[0]) {
          CreateTidies(s);
        } else {
          RemoveTidies(s);
        }
    }
  }

  lemma SoundIsTree(s: State)
    requires Sound(s)
    ensures Descriptors(s) && Tree(s)
  {
  }

  lemma AddRootTidies(s: State, p: Path)
    requires Tidy(s) && Enabled(s, AddRoot(p))
    ensures Joined(Apply(s, AddRoot(p))) && StaleIsPending(Apply(s, AddRoot(p)))
  {
    hide Joined, StaleIsPending, Renewed, Complete;
    RootRooted(s, p);
    hide Descriptors, Tree, Rooted;
    AddTidies(s, p);
  }

  lemma ScanDoneTidies(s: State)
    requires Tidy(s) && Enabled(s, ScanDone)
    ensures Joined(Apply(s, ScanDone)) && StaleIsPending(Apply(s, ScanDone))
  {
    hide Sound, Joined, StaleIsPending;
    StackTidies(s, Apply(s, ScanDone));
  }

  lemma {:induction false} RunKeepsTidy(s: State, actions: seq<Action>)
    requires Tidy(s) && Possible(s, actions) && AlwaysHarmless(s, actions)
    ensures Tidy(End(s, actions))
    decreases |actions|
  {
    hide Tidy, Apply, Harmless;
    if actions != [] {
      StepKeepsExactly(s, actions[0]);
      RunKeepsTidy(Apply(s, actions[0]), actions[1..]);
    }
  }

  lemma {:induction false} NoneStale(s: State, r: Path, c: Path)
    requires Tidy(s) && Quiet(s) && r in s.roots && Watched(s, r) && r <= c && c in s.tracked
    ensures Watched(s, c)
    decreases |c|
  {
    if r != c {
      assert r < c && Placed(s, c) && c !in s.roots;
      NoneStale(s, r, Parent(c));
    }
  }

  /** In a run of harmless removals no folder is lost for good: at rest the tracking is exact. */
  lemma HarmlessIsExact(s: State, actions: seq<Action>, r: Path)
    requires Start(s) && Possible(s, actions) && AlwaysHarmless(s, actions)
    requires Quiet(End(s, actions)) && r in s.roots && Watched(End(s, actions), r)
    ensures ExactBelow(End(s, actions), r)
  {
    hide Start, Sound, ExactBelow, Apply, Joined, StaleIsPending, Possible, AlwaysHarmless;
    StartTidy(s);
    RunKeepsTidy(s, actions);
    RunKeepsSound(s, actions);
    var t := End(s, actions);
    forall c | r <= c ensures !Stale(t, c) {
      if c in t.tracked {
        NoneStale(t, r, c);
      }
    }
    RestIsExact(t, r);
  }

  // ---- when removals are harmless -------------------------------------------------------

  // No unread removal is about an existing directory.
  ghost predicate GoneIsGone(s: State) {
    forall e | e in s.queue && !e.created && e.wd in s.home :: Subject(s, e) !in s.dirs
  }

  // The removals of a folder's tracked children are read before its own.
  ghost predicate ChildrenFirst(s: State) {
    forall j, c | 0 <= j < |s.queue| && ChildOfRemoved(s, j, c) ::
      Parent(c) in s.tracked && Event(s.tracked[Parent(c)], false, Last(c)) in s.queue[..j]
  }

  predicate ChildOfRemoved(s: State, j: int, c: Path)
    requires 0 <= j < |s.queue|
  {
    !s.queue[j].created && Owned(s, s.queue[j]) && c in s.tracked && HasParent(c) &&
    Parent(c) == Subject(s, s.queue[j])
  }

  lemma PatientMkdir(s: State, p: Path)
    requires GoneIsGone(s) && ChildrenFirst(s) && Enabled(s, Mkdir(p)) && Patient(s, Mkdir(p))
    ensures GoneIsGone(Apply(s, Mkdir(p))) && ChildrenFirst(Apply(s, Mkdir(p)))
  {
    var t := Apply(s, Mkdir(p));
    forall j, c | 0 <= j < |t.queue| && ChildOfRemoved(t, j, c)
      ensures Parent(c) in t.tracked && Event(t.tracked[Parent(c)], false, Last(c)) in t.queue[..j]
    {
      assert j < |s.queue| && s.queue[j] == t.queue[j] && t.queue[..j] == s.queue[..j];
      assert ChildOfRemoved(s, j, c);
    }
  }

  // A directory removed while it is watched has no children left, and their removals were queued.
  lemma RmdirOrders(s: State, p: Path, c: Path)
    requires Descriptors(s) && Tree(s) && Joined(s) && StaleIsPending(s) && GoneIsGone(s)
    requires Enabled(s, Rmdir(p)) && Watched(s, Parent(p)) && c in s.tracked && HasParent(c) && Parent(c) == p
    ensures p in s.tracked && Event(s.tracked[p], false, Last(c)) in s.queue
  {
    assert Rooted(s, Parent(p));
    NoRootBelow(s, Parent(p), p);
    NoTrackedChild(s, p, c);
    PathIs(p);
    var e := Event(s.tracked[Parent(p)], false, Last(p));
    assert Subject(s, e) == p && e !in s.queue;
    assert c !in s.dirs;
  }

  lemma PatientRmdir(s: State, p: Path)
    requires Tidy(s) && GoneIsGone(s) && ChildrenFirst(s) && Enabled(s, Rmdir(p))
    ensures GoneIsGone(Apply(s, Rmdir(p))) && ChildrenFirst(Apply(s, Rmdir(p)))
  {
    var t := Apply(s, Rmdir(p));
    hide HasChildren, StaleIsPending, Renewed, Complete, Tree, Joined;
    PathIs(p);
    forall j, c | 0 <= j < |t.queue| && ChildOfRemoved(t, j, c)
      ensures Parent(c) in t.tracked && Event(t.tracked[Parent(c)], false, Last(c)) in t.queue[..j]
    {
      if j < |s.queue| {
        assert s.queue[j] == t.queue[j] && t.queue[..j] == s.queue[..j];
        assert ChildOfRemoved(s, j, c);
      } else {
        assert t.queue[..j] == s.queue && Parent(c) == p;
        RmdirOrders(s, p, c);
      }
    }
  }

  lemma PatientAdd(s: State, p: Path)
    requires Descriptors(s) && Tree(s) && GoneIsGone(s) && ChildrenFirst(s)
    ensures GoneIsGone(Add(s, p)) && ChildrenFirst(Add(s, p))
  {
    hide ChildNames;
    if p !in s.tracked && p in s.dirs {
      var t := Add(s, p);
      AddDescriptors(s, p);
      forall j, c | 0 <= j < |t.queue| && ChildOfRemoved(t, j, c)
        ensures Parent(c) in t.tracked && Event(t.tracked[Parent(c)], false, Last(c)) in t.queue[..j]
      {
        var e := t.queue[j];
        assert e in s.queue && e.wd != NextWd(s);
        assert Subject(s, e) == Subject(t, e) && Subject(s, e) !in s.dirs;
        assert Parent(c) != p;
        assert c != p;
        assert ChildOfRemoved(s, j, c);
      }
    }
  }

  // Reading an event that takes no folder away.
  lemma PatientDrop(s: State)
    requires Descriptors(s) && GoneIsGone(s) && ChildrenFirst(s) && s.queue != []
    requires s.queue[0].created || !Owned(s, s.queue[0])
    ensures GoneIsGone(Drop(s)) && ChildrenFirst(Drop(s))
  {
    var t := Drop(s);
    forall j, c | 0 <= j < |t.queue| && ChildOfRemoved(t, j, c)
      ensures Parent(c) in t.tracked && Event(t.tracked[Parent(c)], false, Last(c)) in t.queue[..j]
    {
      assert ChildOfRemoved(s, j + 1, c);
      StillBefore(s, j, Event(s.tracked[Parent(c)], false, Last(c)));
    }
  }

  lemma StillBefore(s: State, j: int, e: Event)
    requires 0 <= j < |s.queue| - 1 && e in s.queue[..j + 1] && e != s.queue[0]
    ensures e in s.queue[1..][..j]
  {
    var i :| 0 <= i < j + 1 && s.queue[i] == e;
    assert s.queue[1..][..j][i - 1] == e;
  }

  lemma PatientRemove(s: State)
    requires Descriptors(s) && GoneIsGone(s) && ChildrenFirst(s) && s.queue != []
    requires !s.queue[0].created && Owned(s, s.queue[0])
    ensures GoneIsGone(Remove(Drop(s), Subject(s, s.queue[0])))
    ensures ChildrenFirst(Remove(Drop(s), Subject(s, s.queue[0])))
    ensures !HasTrackedChild(s, Subject(s, s.queue[0]))
  {
    var c0 := Subject(s, s.queue[0]);
    var t := Remove(Drop(s), c0);
    forall c | c in s.tracked && HasParent(c) && Parent(c) == c0 ensures false {
      assert ChildOfRemoved(s, 0, c);
    }
    forall j, c | 0 <= j < |t.queue| && ChildOfRemoved(t, j, c)
      ensures Parent(c) in t.tracked && Event(t.tracked[Parent(c)], false, Last(c)) in t.queue[..j]
    {
      assert ChildOfRemoved(s, j + 1, c);
      PathIs(c);
      var e := Event(s.tracked[Parent(c)], false, Last(c));
      assert Subject(s, e) == c != c0;
      StillBefore(s, j, e);
    }
  }

  lemma PatientStep(s: State, a: Action)
    requires Tidy(s) && GoneIsGone(s) && ChildrenFirst(s) && Enabled(s, a) && Patient(s, a)
    ensures Harmless(s, a) && GoneIsGone(Apply(s, a)) && ChildrenFirst(Apply(s, a))
  {
    hide Descriptors, Tree, Joined, StaleIsPending, Renewed, Complete, GoneIsGone, ChildrenFirst, HasTrackedChild;
    match a
    case Mkdir(p) => PatientMkdir(s, p);
    case Rmdir(p) => PatientRmdir(s, p);
    case AddRoot(p) => PatientAdd(s, p);
    case Visit(n) => PatientVisit(s, n);
    case ScanDone => PatientStack(s, Apply(s, ScanDone));
    case Handle =>
      if s.queue[0].created || !Owned(s, s.queue[0]) {
        PatientDrop(s);
        DropKeeps(s);
        if Owned(s, s.queue[0]) {
          PatientAdd(Drop(s), Subject(s, s.queue[0]));
        }
      } else {
        PatientRemove(s);
      }
  }

  lemma PatientStack(s: State, d: State)
    requires GoneIsGone(s) && ChildrenFirst(s) && d == s.(stack := d.stack)
    ensures GoneIsGone(d) && ChildrenFirst(d)
  {
    forall j, c | 0 <= j < |d.queue| && ChildOfRemoved(d, j, c)
      ensures Parent(c) in d.tracked && Event(d.tracked[Parent(c)], false, Last(c)) in d.queue[..j]
    {
      assert ChildOfRemoved(s, j, c);
    }
  }

  lemma PatientVisit(s: State, n: Name)
    requires Tidy(s) && GoneIsGone(s) && ChildrenFirst(s) && Enabled(s, Visit(n))
    ensures GoneIsGone(Apply(s, Visit(n))) && ChildrenFirst(Apply(s, Visit(n)))
  {
    hide Descriptors, Tree, Joined, StaleIsPending, Renewed, Complete, Rooted, GoneIsGone, ChildrenFirst;
    VisitRooted(s, n);
    PatientStack(s, Returned(s, n));
    PatientAdd(Returned(s, n), s.stack[|s.stack| - 1].path + [n]);
  }

  lemma {:induction false} PatientRun(s: State, actions: seq<Action>)
    requires Tidy(s) && GoneIsGone(s) && ChildrenFirst(s) && Possible(s, actions) && AlwaysPatient(s, actions)
    ensures AlwaysHarmless(s, actions)
    decreases |actions|
  {
    hide Tidy, GoneIsGone, ChildrenFirst;
    if actions != [] {
      PatientStep(s, actions[0]);
      StepKeepsExactly(s, actions[0]);
      PatientRun(Apply(s, actions[0]), actions[1..]);
    }
  }

  /** No removal does harm when nobody creates a directory again before its removal was read. */
  lemma PatienceIsHarmless(s: State, actions: seq<Action>)
    requires Start(s) && Possible(s, actions) && AlwaysPatient(s, actions)
    ensures AlwaysHarmless(s, actions)
  {
    StartTidy(s);
    PatientRun(s, actions);
  }

  // ---- and when one is not --------------------------------------------------------------

  const D: Path := ["d"]
  const E: Path := ["d", "e"]

  // Two directories; d comes, goes and comes back before the monitor has read anything of it.
  function Before(): State {
    State({[]}, ["m"], {[]}, map[], map[], map[], [], [])
  }

  function Opening(): seq<Action> {
    [AddRoot([]), ScanDone, Mkdir(D), Rmdir(D), Mkdir(D), Mkdir(E)]
  }

  function Middle(): seq<Action> {
    [Handle, Visit("e"), ScanDone, ScanDone, Rmdir(E)]
  }

  function Closing(): seq<Action> {
    [Handle, Handle, ScanDone, Handle, Mkdir(E), Handle]
  }

  // The removal of the first d is unread, the second d exists and holds e.
  function Opened(): State {
    State({[]}, ["m"], {[], D, E}, map[[] := 0], map[0 := []], map[0 := []],
          [Event(0, true, "d"), Event(0, false, "d"), Event(0, true, "d")], [])
  }

  // The second d has been scanned, and e removed again.
  function Scanned(): State {
    State({[]}, ["m"], {[], D}, map[[] := 0, D := 1, E := 2], map[0 := [], 1 := D], map[0 := [], 1 := D, 2 := E],
          [Event(0, false, "d"), Event(0, true, "d"), Event(1, false, "e")], [])
  }

  // Everything is read; e is back.
  function After(): State {
    State({[]}, ["m"], {[], D, E}, map[[] := 0, D := 3, E := 2], map[0 := [], 3 := D],
          map[0 := [], 1 := D, 2 := E, 3 := D], [], [])
  }

  lemma {:induction false} RunJoins(s: State, a: seq<Action>, b: seq<Action>)
    requires Possible(s, a) && Possible(End(s, a), b)
    ensures Possible(s, a + b) && End(s, a + b) == End(End(s, a), b)
    decreases |a|
  {
    if a == [] {
      assert a + b == b;
    } else {
      RunJoins(Apply(s, a[0]), a[1..], b);
      assert (a + b)[1..] == a[1..] + b;
    }
  }

  lemma {:induction false} RunStarts(s: State, a: Action, t: State, rest: seq<Action>)
    requires Enabled(s, a) && Apply(s, a) == t && Possible(t, rest)
    ensures Possible(s, [a] + rest) && End(s, [a] + rest) == End(t, rest)
  {
    assert ([a] + rest)[1..] == rest;
  }

  lemma Distinct()
    ensures HasParent(D) && Parent(D) == [] && Last(D) == "d"
    ensures HasParent(E) && Parent(E) == D && Last(E) == "e"
    ensures |E| == 2 && |D| == 1 && D != E && D + ["e"] == E && [] + ["d"] == D
  {
  }

  // The root is watched, and nothing else is there.
  function Watching(): State {
    Before().(tracked := map[[] := 0], live := map[0 := []], home := map[0 := []])
  }

  lemma FindsRoot()
    ensures Apply(Before(), AddRoot([])) == Watching().(stack := [Frame([], {})])
  {
    var s0 := Before();
    assert ChildNames(s0, []) == {};
    assert NextWd(s0) == 0;
  }

  // d is created, removed and created again.
  lemma ComesAndGoes(q: seq<Event>)
    ensures var s, t := Watching().(queue := q), Watching().(dirs := {[], D}, queue := q + [Event(0, true, "d")]);
            Enabled(s, Mkdir(D)) && Apply(s, Mkdir(D)) == t
    ensures var s, t := Watching().(dirs := {[], D}, queue := q), Watching().(queue := q + [Event(0, false, "d")]);
            Enabled(s, Rmdir(D)) && Apply(s, Rmdir(D)) == t
  {
    hide Add, ChildNames, HandleEvent;
    Distinct();
    var s := Watching().(dirs := {[], D}, queue := q);
    assert Forget([], D) == [];
    assert s.dirs - {D} == {[]};
  }

  lemma HoldsE()
    ensures var s := Opened().(dirs := {[], D}); Enabled(s, Mkdir(E)) && Apply(s, Mkdir(E)) == Opened()
  {
    hide Add, ChildNames, HandleEvent;
    Distinct();
  }

  lemma OpeningRuns()
    ensures Possible(Before(), Opening()) && End(Before(), Opening()) == Opened()
  {
    var s2 := Watching();
    var s1 := s2.(stack := [Frame([], {})]);
    assert Enabled(Before(), AddRoot([])) && Enabled(s1, ScanDone) && Apply(s1, ScanDone) == s2;
    hide Apply, Enabled;
    var q := [Event(0, true, "d"), Event(0, false, "d")];
    var s3, s4 := s2.(dirs := {[], D}, queue := q[..1]), s2.(queue := q);
    var s5 := Opened().(dirs := {[], D});
    FindsRoot();
    ComesAndGoes([]);
    ComesAndGoes(q[..1]);
    ComesAndGoes(q);
    HoldsE();
    assert [] + [Event(0, true, "d")] == q[..1] && q[..1] + [Event(0, false, "d")] == q;
    assert q + [Event(0, true, "d")] == s5.queue && s2.(queue := []) == s2;
    RunStarts(s5, Mkdir(E), Opened(), []);
    RunStarts(s4, Mkdir(D), s5, [Mkdir(E)]);
    RunStarts(s3, Rmdir(D), s4, [Mkdir(D), Mkdir(E)]);
    RunStarts(s2, Mkdir(D), s3, [Rmdir(D), Mkdir(D), Mkdir(E)]);
    RunStarts(s1, ScanDone, s2, [Mkdir(D), Rmdir(D), Mkdir(D), Mkdir(E)]);
    RunStarts(Before(), AddRoot([]), s1, [ScanDone, Mkdir(D), Rmdir(D), Mkdir(D), Mkdir(E)]);
  }

  // d has just been found, and its scan has e ahead of it.
  function Finding(): State {
    Opened().(tracked := map[[] := 0, D := 1], live := map[0 := [], 1 := D], home := map[0 := [], 1 := D],
              queue := [Event(0, false, "d"), Event(0, true, "d")], stack := [Frame(D, {"e"})])
  }

  // e has been found in turn.
  function Nested(): State {
    Finding().(tracked := map[[] := 0, D := 1, E := 2], live := map[0 := [], 1 := D, 2 := E],
               home := map[0 := [], 1 := D, 2 := E], stack := [Frame(D, {}), Frame(E, {})])
  }

  lemma FindsD()
    ensures Apply(Opened(), Handle) == Finding()
  {
    Distinct();
    var s0, q := Opened(), Finding().queue;
    assert s0.queue[1..] == q;
    assert ChildNames(s0.(queue := q), D) == {"e"};
    assert s0.home.Keys == {0} && NextWd(s0) == 1;
  }

  lemma FindsE()
    ensures Enabled(Finding(), Visit("e")) && Apply(Finding(), Visit("e")) == Nested()
  {
    Distinct();
    var s1, d := Finding(), Returned(Finding(), "e");
    assert s1.stack[0].must - {"e"} == {};
    assert d.stack == [Frame(D, {})];
    assert ChildNames(d, E) == {};
    assert s1.home.Keys == {0, 1} && NextWd(s1) == 2;
  }

  lemma LosesE()
    ensures Enabled(Nested().(stack := []), Rmdir(E)) && Apply(Nested().(stack := []), Rmdir(E)) == Scanned()
  {
    Distinct();
    var s4 := Nested().(stack := []);
    assert Forget([], E) == [];
    assert Watched(s4, D) && Watched(s4, E);
    assert s4.live - {2} == map[0 := [], 1 := D];
    assert s4.dirs - {E} == {[], D};
  }

  lemma MiddleRuns()
    ensures Possible(Opened(), Middle()) && End(Opened(), Middle()) == Scanned()
  {
    var s2 := Nested();
    var s3, s4 := s2.(stack := [Frame(D, {})]), s2.(stack := []);
    assert Apply(s2, ScanDone) == s3;
    assert Apply(s3, ScanDone) == s4;
    hide Apply;
    FindsD();
    FindsE();
    LosesE();
    RunStarts(s4, Rmdir(E), Scanned(), []);
    RunStarts(s3, ScanDone, s4, [Rmdir(E)]);
    RunStarts(s2, ScanDone, s3, [ScanDone, Rmdir(E)]);
    RunStarts(Finding(), Visit("e"), s2, [ScanDone, ScanDone, Rmdir(E)]);
    RunStarts(Opened(), Handle, Finding(), [Visit("e"), ScanDone, ScanDone, Rmdir(E)]);
  }

  // The second d has been taken away and found again, as a new folder.
  function FoundAgain(): State {
    After().(dirs := {[], D}, queue := [Event(1, false, "e")])
  }

  // d has been taken away although it exists.
  function Dropped(): State {
    Scanned().(tracked := map[[] := 0, E := 2], live := map[0 := []],
               queue := [Event(0, true, "d"), Event(1, false, "e")])
  }

  lemma DropsD()
    ensures Apply(Scanned(), Handle) == Dropped()
  {
    hide Add, ChildNames, Wanted;
    Distinct();
    var s0 := Scanned();
    var e := s0.queue[0];
    var d := s0.(queue := Dropped().queue);
    assert s0.queue[1..] == d.queue;
    assert Owned(d, e) && !e.created && d.home[e.wd] + [e.name] == D;
    assert HandleEvent(d, e) == Remove(d, D);
    DropsDOnly();
  }

  lemma DropsDOnly()
    ensures Remove(Scanned().(queue := Dropped().queue), D) == Dropped()
  {
    Distinct();
    var d := Scanned().(queue := Dropped().queue);
    assert d.tracked - {D} == map[[] := 0, E := 2];
    assert d.live - {1} == map[0 := []];
  }

  lemma FindsDAgain()
    ensures Apply(Dropped(), Handle) == FoundAgain().(stack := [Frame(D, {})])
  {
    Distinct();
    var s1 := Dropped();
    var d := s1.(queue := [Event(1, false, "e")]);
    assert s1.queue[1..] == d.queue;
    assert ChildNames(d, D) == {};
    assert s1.home.Keys == {0, 1, 2} && NextWd(s1) == 3;
  }

  lemma FindingAgain()
    ensures Possible(Scanned(), [Handle, Handle, ScanDone])
    ensures End(Scanned(), [Handle, Handle, ScanDone]) == FoundAgain()
  {
    var s2 := FoundAgain().(stack := [Frame(D, {})]);
    assert Apply(s2, ScanDone) == FoundAgain();
    hide Apply;
    DropsD();
    FindsDAgain();
    RunStarts(s2, ScanDone, FoundAgain(), []);
    RunStarts(Dropped(), Handle, s2, [ScanDone]);
    RunStarts(Scanned(), Handle, Dropped(), [Handle, ScanDone]);
  }

  lemma LosingIt()
    ensures Possible(FoundAgain(), [Handle, Mkdir(E), Handle])
    ensures End(FoundAgain(), [Handle, Mkdir(E), Handle]) == After()
  {
    Distinct();
    var s3 := FoundAgain();
    var s4 := s3.(queue := []);
    assert Apply(s3, Handle) == s4;
    var s5 := After().(queue := [Event(3, true, "e")]);
    assert Watched(s4, D);
    assert Apply(s4, Mkdir(E)) == s5;
    assert Apply(s5, Handle) == After();
    RunStarts(s5, Handle, After(), []);
    RunStarts(s4, Mkdir(E), s5, [Handle]);
    RunStarts(s3, Handle, s4, [Mkdir(E), Handle]);
  }

  lemma ClosingRuns()
    ensures Possible(Scanned(), Closing()) && End(Scanned(), Closing()) == After()
  {
    hide *;
    FindingAgain();
    LosingIt();
    RunJoins(Scanned(), [Handle, Handle, ScanDone], [Handle, Mkdir(E), Handle]);
    assert Closing() == [Handle, Handle, ScanDone] + [Handle, Mkdir(E), Handle] by { ClosingIs(); }
  }

  lemma ClosingIs()
    ensures Closing() == [Handle, Handle, ScanDone] + [Handle, Mkdir(E), Handle]
  {
  }

  /**
   A folder can be lost: a directory that came back early is scanned, then taken
   away by the removal of its first life, and its own entry stays tracked by a watch that is gone.
   At rest the folder d is watched and its directory e exists, but nothing watches e.
   */
  lemma EarlyReturnLosesAFolder()
    ensures Start(Before()) && Possible(Before(), Opening() + (Middle() + Closing()))
    ensures var t := End(Before(), Opening() + (Middle() + Closing()));
            Quiet(t) && Watched(t, []) && Watched(t, D) && E in t.dirs && WantedBelow(t, [], E) && !Watched(t, E)
    ensures var run := Opening() + (Middle() + Closing());
            LostBy(Before(), run, |run|, E) && !ExactBelow(End(Before(), run), []) && !AlwaysHarmless(Before(), run)
  {
    hide LostBy, At, Start, Apply, Possible, End, AlwaysHarmless, Opening, Middle, Closing, Opened, Scanned;
    OpeningRuns();
    MiddleRuns();
    ClosingRuns();
    RunJoins(Opened(), Middle(), Closing());
    RunJoins(Before(), Opening(), Middle() + Closing());
    AfterIsWrong();
    var run := Opening() + (Middle() + Closing());
    AtEnd(Before(), run);
    OrphanHistory(Before(), run, |run|, E);
    if AlwaysHarmless(Before(), Opening() + (Middle() + Closing())) {
      HarmlessIsExact(Before(), Opening() + (Middle() + Closing()), []);
    }
  }

  lemma AfterIsWrong()
    ensures Start(Before()) && [] in Before().roots
    ensures Quiet(After()) && Watched(After(), []) && Watched(After(), D) && E in After().dirs
    ensures WantedBelow(After(), [], E) && [] <= E && E in After().tracked && !Watched(After(), E)
    ensures Orphan(After(), E)
  {
    Distinct();
  }
}
