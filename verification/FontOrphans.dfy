/**
 When the font monitor loses a folder for good: it keeps tracking a folder whose watch is gone, and
 no event that would take it away is on its way. Each action that does this, and each that undoes
 it, is named exactly; over whole runs that decides whether the tracking is exact at rest.
 */
module FontOrphans {
  import opened FontTracking

  /** The removal of a folder is on its way to the folder above it. */
  predicate Pending(s: State, c: Path) {
    HasParent(c) && Parent(c) in s.tracked && Event(s.tracked[Parent(c)], false, Last(c)) in s.queue
  }

  /** Tracked by a dead watch, with nothing coming to take it away. */
  predicate Orphan(s: State, c: Path) {
    HasParent(c) && Stale(s, c) && !Pending(s, c)
  }

  // The next event is a removal that takes p away.
  predicate TakesAway(s: State, a: Action, p: Path)
    requires Enabled(s, a)
  {
    a.Handle? && !s.queue[0].created && Owned(s, s.queue[0]) && Subject(s, s.queue[0]) == p
  }

  /**
   A folder is lost when its directory goes while nobody watches the directory above it, or when
   the folder above it is taken away while the folder is already stale.
   */
  predicate Loses(s: State, a: Action, c: Path)
    requires Enabled(s, a)
  {
    HasParent(c) && c in s.tracked &&
    ((a == Rmdir(c) && Watched(s, c) && !Watched(s, Parent(c)) && !Pending(s, c)) ||
     (TakesAway(s, a, Parent(c)) && Parent(c) in s.tracked && !Watched(s, c)))
  }

  /** A lost folder is recovered when a removal of it is read, or its directory goes below a watched one. */
  predicate Heals(s: State, a: Action, c: Path)
    requires Enabled(s, a)
  {
    HasParent(c) && (TakesAway(s, a, c) || (a == Rmdir(c) && Watched(s, Parent(c))))
  }

  // ---- one step -------------------------------------------------------------------------

  // A removal event names its folder.
  lemma PendingIs(s: State, c: Path, e: Event)
    requires Descriptors(s) && HasParent(c) && Parent(c) in s.tracked && e == Event(s.tracked[Parent(c)], false, Last(c))
    ensures Owned(s, e) && Subject(s, e) == c
  {
    PathIs(c);
  }

  lemma MkdirOrphans(s: State, p: Path, c: Path)
    requires Enabled(s, Mkdir(p))
    ensures Orphan(Apply(s, Mkdir(p)), c) <==> Orphan(s, c)
  {
    var t := Apply(s, Mkdir(p));
    QueueGrows(s, t);
    assert forall e | e in t.queue && !e.created :: e in s.queue;
  }

  lemma RmdirOrphans(s: State, p: Path, c: Path)
    requires Descriptors(s) && Enabled(s, Rmdir(p))
    ensures Orphan(Apply(s, Rmdir(p)), c) <==> (Orphan(s, c) && !Heals(s, Rmdir(p), c)) || Loses(s, Rmdir(p), c)
  {
    hide HasChildren;
    var t := Apply(s, Rmdir(p));
    RmdirWatches(s, p, c);
    if HasParent(c) {
      RmdirPending(s, p, c);
    }
  }

  lemma RmdirPending(s: State, p: Path, c: Path)
    requires Descriptors(s) && Enabled(s, Rmdir(p)) && HasParent(c)
    ensures Pending(Apply(s, Rmdir(p)), c) <==> Pending(s, c) || (c == p && Watched(s, Parent(p)))
  {
    hide HasChildren;
    var t := Apply(s, Rmdir(p));
    QueueGrows(s, t);
    if Watched(s, Parent(p)) {
      var added := Event(s.tracked[Parent(p)], false, Last(p));
      assert t.queue[|s.queue|] == added;
      assert forall e | e in t.queue :: e in s.queue || e == added;
      PendingIs(s, p, added);
      if Parent(c) in s.tracked {
        PendingIs(s, c, Event(s.tracked[Parent(c)], false, Last(c)));
      }
    }
  }

  // An added folder is watched, and what hangs below it has nothing pending before or after.
  lemma AddOrphans(s: State, p: Path, c: Path)
    requires Descriptors(s)
    ensures Orphan(Add(s, p), c) <==> Orphan(s, c)
  {
    hide ChildNames;
    if p !in s.tracked && p in s.dirs {
      AddDescriptors(s, p);
      var t := Add(s, p);
      assert forall e | e in s.queue :: e.wd != NextWd(s);
      assert c != p ==> Watched(t, c) == Watched(s, c);
    }
  }

  lemma DropPending(s: State, c: Path)
    requires Descriptors(s) && s.queue != []
    requires !(!s.queue[0].created && Owned(s, s.queue[0]) && Subject(s, s.queue[0]) == c)
    ensures Pending(Drop(s), c) <==> Pending(s, c)
  {
    QueueShrinks(s);
    if HasParent(c) && Parent(c) in s.tracked {
      PendingIs(s, c, Event(s.tracked[Parent(c)], false, Last(c)));
    }
  }

  lemma CreateOrphans(s: State, c: Path)
    requires Base(s) && Enabled(s, Handle) && (s.queue[0].created || !Owned(s, s.queue[0]))
    ensures Orphan(Apply(s, Handle), c) <==> Orphan(s, c)
  {
    hide Tree, Renewed;
    DropPending(s, c);
    DropKeeps(s);
    if Owned(s, s.queue[0]) {
      AddOrphans(Drop(s), Subject(s, s.queue[0]), c);
    }
  }

  lemma RemoveOrphans(s: State, c: Path)
    requires Descriptors(s) && Enabled(s, Handle) && !s.queue[0].created && Owned(s, s.queue[0])
    ensures Orphan(Apply(s, Handle), c) <==> (Orphan(s, c) && !Heals(s, Handle, c)) || Loses(s, Handle, c)
  {
    var c0 := Subject(s, s.queue[0]);
    var t := Remove(Drop(s), c0);
    assert t == Apply(s, Handle);
    RemoveDescriptors(s, c0);
    if c != c0 {
      DropPending(s, c);
      assert c in t.tracked <==> c in s.tracked;
      assert HasParent(c) && Parent(c) != c0 ==> (Pending(t, c) <==> Pending(Drop(s), c));
    }
  }

  lemma VisitOrphans(s: State, n: Name, c: Path)
    requires Base(s) && Enabled(s, Visit(n))
    ensures Orphan(Apply(s, Visit(n)), c) <==> Orphan(s, c)
  {
    hide Tree, Renewed, Rooted;
    var d := Returned(s, n);
    VisitRooted(s, n);
    AddOrphans(d, s.stack[|s.stack| - 1].path + [n], c);
    assert Orphan(d, c) <==> Orphan(s, c);
  }

  /** What one action does to a folder: the exact rule of losing and recovering. */
  lemma StepOrphansExactly(s: State, a: Action, c: Path)
    requires Sound(s) && Enabled(s, a)
    ensures Orphan(Apply(s, a), c) <==> (Orphan(s, c) && !Heals(s, a, c)) || Loses(s, a, c)
  {
    hide Descriptors, Tree, Renewed, Complete;
    match a
    case Mkdir(p) => MkdirOrphans(s, p, c);
    case Rmdir(p) => RmdirOrphans(s, p, c);
    case AddRoot(p) => AddOrphans(s, p, c);
    case Visit(n) => VisitOrphans(s, n, c);
    case ScanDone =>
    case Handle =>
      if s.queue[0].created || !Owned(s, s.queue[0]) {
        CreateOrphans(s, c);
      } else {
        RemoveOrphans(s, c);
      }
  }

  // ---- whole runs -----------------------------------------------------------------------

  /** The state after the first n actions. */
  function At(s: State, actions: seq<Action>, n: nat): State
    requires Possible(s, actions) && n <= |actions|
    decreases n
  {
    if n == 0 then s else At(Apply(s, actions[0]), actions[1..], n - 1)
  }

  lemma {:induction false} AtStep(s: State, actions: seq<Action>, n: nat)
    requires Possible(s, actions) && n < |actions|
    ensures Enabled(At(s, actions, n), actions[n])
    ensures At(s, actions, n + 1) == Apply(At(s, actions, n), actions[n])
    decreases n
  {
    hide Apply, Enabled;
    if n > 0 {
      AtStep(Apply(s, actions[0]), actions[1..], n - 1);
    }
  }

  lemma {:induction false} AtEnd(s: State, actions: seq<Action>)
    requires Possible(s, actions)
    ensures At(s, actions, |actions|) == End(s, actions)
    decreases |actions|
  {
    hide Apply, Enabled;
    if actions != [] {
      AtEnd(Apply(s, actions[0]), actions[1..]);
    }
  }

  lemma {:induction false} AtSound(s: State, actions: seq<Action>, n: nat)
    requires Sound(s) && Possible(s, actions) && n <= |actions|
    ensures Sound(At(s, actions, n))
    decreases n
  {
    hide Apply, Sound;
    if n > 0 {
      StepKeepsSound(s, actions[0]);
      AtSound(Apply(s, actions[0]), actions[1..], n - 1);
    }
  }

  predicate LosesAt(s: State, actions: seq<Action>, i: nat, c: Path)
    requires Possible(s, actions) && i < |actions|
  {
    Enabled(At(s, actions, i), actions[i]) && Loses(At(s, actions, i), actions[i], c)
  }

  predicate HealsAt(s: State, actions: seq<Action>, i: nat, c: Path)
    requires Possible(s, actions) && i < |actions|
  {
    Enabled(At(s, actions, i), actions[i]) && Heals(At(s, actions, i), actions[i], c)
  }

  /** Among the first n actions one loses the folder and none after it recovers it. */
  predicate LostBy(s: State, actions: seq<Action>, n: nat, c: Path)
    requires Possible(s, actions) && n <= |actions|
  {
    exists i: nat :: i < n && LosesAt(s, actions, i, c) && forall j: nat | i < j < n :: !HealsAt(s, actions, j, c)
  }

  lemma LostStep(s: State, actions: seq<Action>, n: nat, c: Path)
    requires Possible(s, actions) && n < |actions|
    ensures LostBy(s, actions, n + 1, c) <==>
            (LostBy(s, actions, n, c) && !HealsAt(s, actions, n, c)) || LosesAt(s, actions, n, c)
  {
    hide Apply, At, LosesAt, HealsAt, Possible;
    if LostBy(s, actions, n + 1, c) && !LosesAt(s, actions, n, c) {
      var i: nat :| i < n + 1 && LosesAt(s, actions, i, c) && forall j: nat | i < j < n + 1 :: !HealsAt(s, actions, j, c);
      assert i < n;
    }
    if LostBy(s, actions, n, c) && !HealsAt(s, actions, n, c) {
      var i: nat :| i < n && LosesAt(s, actions, i, c) && forall j: nat | i < j < n :: !HealsAt(s, actions, j, c);
      assert forall j: nat | i < j < n + 1 :: !HealsAt(s, actions, j, c);
    }
  }

  lemma {:induction false} OrphanHistory(s: State, actions: seq<Action>, n: nat, c: Path)
    requires Start(s) && Possible(s, actions) && n <= |actions|
    ensures Orphan(At(s, actions, n), c) <==> LostBy(s, actions, n, c)
    decreases n
  {
    hide Start, Apply, Possible, Orphan, Loses, Heals, Sound, LostBy;
    if n == 0 {
      NoneAtStart(s, actions, c);
    } else {
      StartSound(s);
      AtSound(s, actions, n - 1);
      AtStep(s, actions, n - 1);
      OrphanHistory(s, actions, n - 1, c);
      StepOrphansExactly(At(s, actions, n - 1), actions[n - 1], c);
      LostStep(s, actions, n - 1, c);
    }
  }

  lemma NoneAtStart(s: State, actions: seq<Action>, c: Path)
    requires Start(s) && Possible(s, actions)
    ensures !Orphan(At(s, actions, 0), c) && !LostBy(s, actions, 0, c)
  {
  }

  /**
   The exact condition, for every run that comes to rest with the root still watched: below it
   precisely the wanted directories are tracked, each by a working watch, if and only if every
   folder the run lost there was recovered later.
   */
  lemma TrackingIsExact(s: State, actions: seq<Action>, r: Path)
    requires Start(s) && Possible(s, actions) && Quiet(End(s, actions))
    requires r in s.roots && Watched(End(s, actions), r)
    ensures ExactBelow(End(s, actions), r) <==> forall c | r <= c :: !LostBy(s, actions, |actions|, c)
  {
    hide Start, Apply, Possible, Sound, LostBy, ExactBelow;
    var t := End(s, actions);
    StartSound(s);
    RunKeepsSound(s, actions);
    AtEnd(s, actions);
    RestIsExact(t, r);
    forall c | r <= c ensures Stale(t, c) <==> LostBy(s, actions, |actions|, c) {
      OrphanHistory(s, actions, |actions|, c);
      assert HasParent(c) || c == r;
    }
  }
}
