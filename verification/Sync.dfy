/**
 Sync mode over a whole bracket of updates: from the one that starts it, through any number of
 updates that succeed or fail, to the one that ends it and sweeps what was not reported.
 */
module Sync {
  import opened Wire
  import opened Protocol
  import opened FileSystem
  import opened FileDB
  import opened Receiver

  datatype Call = Call(m: Msg, env: Env)

  /** One update message with the environment it meets. */
  type Update = c: Call | c.m.UpdateMsg?
    witness Call(UpdateMsg(0, NoField, NoField, NoField, NoField, NoField, None),
                 Env(true, true, Faults({}, {}, {}, {}), Saved, true, None, None, None, None, true, true))

  predicate Hints(u: Update, bit: flag) { HasFlag(u.m.flags, bit) }

  // ---- one update in sync mode ----------------------------------------------------------

  /** An update behind its SYNC_START part. */
  ghost function Continue(st: State, u: Update): Outcome {
    if (Hints(u, HINT_SYNC) || Hints(u, HINT_SYNC_END)) && st.sync.None? then Outcome(st, false)
    else if !NamesOk(u.m) then Outcome(st, false)
    else
      var (planned, plan) := PlanUpdate(st, u.m, u.env);
      if plan.None? then Outcome(planned, false) else CommitUpdate(planned, u.m, u.env, plan.value)
  }

  lemma UpdateContinues(st: State, u: Update)
    ensures HandleUpdate(st, u.m, u.env) ==
            if !Hints(u, HINT_SYNC_START) then Continue(st, u)
            else if st.sync.Some? || !u.env.createOk then Outcome(st, false)
            else Continue(OnSyncStart(st, u.env).st, u)
  {
    hide PlanUpdate, CommitUpdate, NamesOk, Protocol.HasFlag, FileSystem.Snapshot, FileSystem.Prune;
  }

  /** The files the update of state st is about; meaningful when it succeeds. */
  ghost function Target(st: State, u: Update): Paths {
    match PlanUpdate(st, u.m, u.env).1
    case Some(plan) => plan.paths
    case None => NoPaths
  }

  ghost predicate IconDone(st: State, u: Update) {
    IconSaved(PlanUpdate(st, u.m, u.env).0, u.m, u.env, Target(st, u).icon)
  }

  ghost predicate LinkDone(st: State, u: Update) {
    u.env.saveOk && Writable(PlanUpdate(st, u.m, u.env).0.fs, Target(st, u).link)
  }

  /** The state of a successful update just before a possible sweep. */
  ghost function Stored(st: State, u: Update): State {
    var planned := PlanUpdate(st, u.m, u.env).0;
    StoreFiles(planned.(db := st.db[Key(u.m.appGroup, u.m.appId) := Target(st, u)]), u.m, u.env,
               Target(st, u).link, Target(st, u).icon)
  }

  ghost function LinkFiles(fs: Tree): set<Path> {
    set p | p in fs && IsLnkFile(fs, p)
  }

  lemma ExtensionsDiffer(p: Path, q: Path)
    requires EndsWith(p, LNK) && (q == [] || EndsWith(q, ICO))
    ensures p != q && !EndsWith(q, LNK)
  {
    if q != [] {
      assert q[|q| - 4..][3] == 0x6f && p[|p| - 4..][3] == 0x6b;
      assert ICO[3] != LNK[3];
    }
  }

  // The link lies in the menu folder and ends in .lnk, the icon ends in .ico.
  lemma TargetShape(st: State, u: Update)
    requires PlanUpdate(st, u.m, u.env).1.Some?
    ensures var t := Target(st, u);
            && Under(t.link, st.menu) && EndsWith(t.link, LNK)
            && (t.icon == [] || EndsWith(t.icon, ICO))
            && PlanUpdate(st, u.m, u.env).1.value.key == Key(u.m.appGroup, u.m.appId)
    ensures PlanUpdate(st, u.m, u.env).0 == st.(fs := PlanUpdate(st, u.m, u.env).0.fs)
  {
    hide BuildFilePath, CText, Key, W, CommandLine, Protocol.HasFlag, FileSystem.EndsWith, FileSystem.Under;
    var m, env := u.m, u.env;
    var icon := if HasFlag(m.flags, FIELD_ICON)
                then BuildFilePath(st.fs, st.icons, m.appGroup, CText(m.appId.text), ICO, env.faults)
                else (st.fs, Some([]));
    FilePathBound(st.fs, st.icons, m.appGroup, CText(m.appId.text), ICO, env.faults);
    FilePathBound(icon.0, st.menu, m.appGroup, CText(m.appDesc.text), LNK, env.faults);
  }

  // A tree with possibly one more file written, seen from the outside.
  ghost predicate OneWrite(fs: Tree, r: Tree, p: Path, node: Node, done: bool) {
    && LinkFiles(r) == LinkFiles(fs) + (if done && EndsWith(p, LNK) then {p} else {})
    && Files(fs).Keys <= Files(r).Keys
    && (forall q | q in Files(fs) && q != p :: q in Files(r) && Files(r)[q] == Files(fs)[q])
    && (done ==> p in Files(r) && Files(r)[p] == node)
  }

  lemma WriteTree(fs: Tree, p: Path, node: Node, attempt: bool)
    requires !node.Dir?
    ensures OneWrite(fs, if attempt then WriteFile(fs, p, node) else fs, p, node, attempt && Writable(fs, p))
  {
    hide FileSystem.EndsWith;
  }

  // Writing one file does not open or block the way of another.
  lemma StillWritable(fs: Tree, p: Path, node: Node, q: Path)
    requires !node.Dir?
    ensures Writable(WriteFile(fs, p, node), q) <==> Writable(fs, q)
  {
  }

  // What storing does to the tree, seen from the link and the icon.
  ghost predicate StoredAs(fs: Tree, r: Tree, link: Path, icon: Path, iconDone: bool, linkDone: bool) {
    && LinkFiles(r) == LinkFiles(fs) + (if linkDone then {link} else {})
    && Files(fs).Keys <= Files(r).Keys
    && (forall p | p in Files(fs) && p != link && p != icon :: p in Files(r) && Files(r)[p] == Files(fs)[p])
    && (iconDone ==> icon in Files(r))
    && (linkDone ==> link in Files(r) && Files(r)[link] == Link(if iconDone then icon else []))
  }

  lemma TwoWrites(fs: Tree, mid: Tree, r: Tree, link: Path, icon: Path, tried: bool, iconDone: bool, linkDone: bool)
    requires link != icon && EndsWith(link, LNK) && !EndsWith(icon, LNK)
    requires OneWrite(fs, mid, icon, Data, tried) && (iconDone ==> tried)
    requires OneWrite(mid, r, link, Link(if iconDone then icon else []), linkDone)
    ensures StoredAs(fs, r, link, icon, iconDone, linkDone)
  {
    hide FileSystem.EndsWith, LinkFiles, FileSystem.Files;
  }

  lemma StoredTree(st: State, m: Msg, env: Env, link: Path, icon: Path)
    requires m.UpdateMsg? && EndsWith(link, LNK) && (icon == [] || EndsWith(icon, ICO))
    ensures StoredAs(st.fs, StoreFiles(st, m, env, link, icon).fs, link, icon,
                     IconSaved(st, m, env, icon), env.saveOk && Writable(st.fs, link))
  {
    hide Protocol.HasFlag, FileSystem.EndsWith, FileSystem.WriteFile, FileSystem.Writable, OneWrite, StoredAs;
    ExtensionsDiffer(link, icon);
    var iconDone := IconSaved(st, m, env, icon);
    var node := Link(if iconDone then icon else []);
    var attempt := HasFlag(m.flags, FIELD_ICON) && !env.iconWrite.NotOpened?;
    var fs1 := if attempt then WriteFile(st.fs, icon, Data) else st.fs;
    var fs2 := if env.saveOk then WriteFile(fs1, link, node) else fs1;
    WriteTree(st.fs, icon, Data, attempt);
    StillWritable(st.fs, icon, Data, link);
    WriteTree(fs1, link, node, env.saveOk);
    TwoWrites(st.fs, fs1, fs2, link, icon, attempt && Writable(st.fs, icon), iconDone,
              env.saveOk && Writable(st.fs, link));
  }

  /** A failed update in sync mode leaves the files, the table and the sync set alone. */
  lemma ContinueFails(st: State, u: Update)
    requires Inv(st) && !Continue(st, u).ok
    ensures var st' := Continue(st, u).st;
            Files(st'.fs) == Files(st.fs) && st' == st.(fs := st'.fs) && Inv(st') && LinkFiles(st'.fs) == LinkFiles(st.fs)
  {
    hide PlanUpdate, NamesOk, Protocol.HasFlag, FileSystem.WellFormed, StoreFiles;
    PlanKeeps(st, u.m, u.env);
    LinkFilesOfFiles(st.fs, PlanUpdate(st, u.m, u.env).0.fs);
  }

  lemma LinkFilesOfFiles(a: Tree, b: Tree)
    requires Files(a) == Files(b)
    ensures LinkFiles(a) == LinkFiles(b)
  {
    hide FileSystem.EndsWith;
    assert forall p :: IsFile(a, p) <==> p in Files(a);
    assert forall p :: IsFile(b, p) <==> p in Files(b);
  }

  /** A successful one stores its files, and ends the sync if it says so. */
  lemma ContinueSucceeds(st: State, u: Update)
    requires Inv(st) && Continue(st, u).ok
    ensures Continue(st, u).st == if Hints(u, HINT_SYNC_END) then OnSyncEnd(Stored(st, u), true, u.env) else Stored(st, u)
    ensures Inv(Stored(st, u)) && Stored(st, u).menu == st.menu
    ensures st.sync.Some? ==>
            Stored(st, u).sync == Some(st.sync.value - if Hints(u, HINT_SYNC) then Ticks(st, u) else {})
    ensures Files(PlanUpdate(st, u.m, u.env).0.fs) == Files(st.fs)
    ensures var t := Target(st, u);
            && Under(t.link, st.menu) && EndsWith(t.link, LNK) && (t.icon == [] || EndsWith(t.icon, ICO))
  {
    hide PlanUpdate, NamesOk, Protocol.HasFlag, FileSystem.WellFormed, FileSystem.WriteFile, FileSystem.Writable,
         FileSystem.Sweep, FileSystem.Files, FileSystem.Under, FileSystem.EndsWith;
    PlanKeeps(st, u.m, u.env);
    TargetShape(st, u);
    var planned := PlanUpdate(st, u.m, u.env).0;
    assert planned.sync == st.sync;
    assert st.sync.Some? ==> st.sync.value - {} == st.sync.value;
    StoreKeepsInv(planned.(db := st.db[Key(u.m.appGroup, u.m.appId) := Target(st, u)]), u.m, u.env,
                  Target(st, u).link, Target(st, u).icon);
  }

  /** The paths one successful update reports: its link, and its icon if that was written. */
  ghost function Ticks(st: State, u: Update): set<Path> {
    {Target(st, u).link} + if IconDone(st, u) then {Target(st, u).icon} else {}
  }

  // ---- a run of updates -----------------------------------------------------------------

  /** The first update of a bracket has its SYNC_START already taken; later ones do not. */
  ghost function Turn(st: State, u: Update, first: bool): Outcome {
    if first then Continue(st, u) else HandleUpdate(st, u.m, u.env)
  }

  ghost function After(st: State, us: seq<Update>, first: bool): State
    decreases |us|
  {
    if us == [] then st else After(Turn(st, us[0], first).st, us[1..], false)
  }

  /** Sync mode is on after every update of the run. */
  ghost predicate StaysOn(st: State, us: seq<Update>, first: bool)
    decreases |us|
  {
    us == [] || (Turn(st, us[0], first).st.sync.Some? && StaysOn(Turn(st, us[0], first).st, us[1..], false))
  }

  /** The links of the successful updates, those actually saved, and all paths reported. */
  datatype Tally = Tally(updated: set<Path>, written: set<Path>, reported: set<Path>)

  ghost function Count(st: State, u: Update, first: bool): Tally {
    if !Turn(st, u, first).ok then Tally({}, {}, {})
    else Tally({Target(st, u).link}, if LinkDone(st, u) then {Target(st, u).link} else {},
               if Hints(u, HINT_SYNC) then Ticks(st, u) else {})
  }

  function Plus(a: Tally, b: Tally): Tally {
    Tally(a.updated + b.updated, a.written + b.written, a.reported + b.reported)
  }

  ghost function Total(st: State, us: seq<Update>, first: bool): Tally
    decreases |us|
  {
    if us == [] then Tally({}, {}, {})
    else Plus(Count(st, us[0], first), Total(Turn(st, us[0], first).st, us[1..], false))
  }

  // What a stretch of the bracket did, from state a to state b.
  ghost predicate Progress(a: State, b: State, t: Tally)
    requires a.sync.Some?
  {
    && Inv(b) && b.menu == a.menu
    && b.sync == Some(a.sync.value - t.reported)
    && LinkFiles(b.fs) == LinkFiles(a.fs) + t.written
    && Files(a.fs).Keys <= Files(b.fs).Keys
  }

  // Links are made under the menu; only links of updates are reported as links.
  ghost predicate TallyShape(menu: Path, t: Tally) {
    && t.written <= t.updated
    && (forall p | p in t.updated :: Under(p, menu) && EndsWith(p, LNK))
    && (forall p | p in t.reported && EndsWith(p, LNK) :: p in t.updated)
  }

  lemma CountShape(st: State, u: Update, first: bool)
    requires Inv(st) && Turn(st, u, first) == Continue(st, u)
    ensures TallyShape(st.menu, Count(st, u, first))
  {
    hide Continue, HandleUpdate, Target, IconDone, LinkDone, Protocol.HasFlag, Inv, FileSystem.EndsWith,
         FileSystem.Under, LinkFiles, FileSystem.Files, Stored, PlanUpdate;
    if Turn(st, u, first).ok {
      ContinueSucceeds(st, u);
      ExtensionsDiffer(Target(st, u).link, Target(st, u).icon);
    }
  }

  // A successful update in sync mode, up to but not including a sweep.
  lemma StoredProgress(st: State, u: Update)
    requires Inv(st) && st.sync.Some? && Continue(st, u).ok
    ensures Progress(st, Stored(st, u), Tally({Target(st, u).link},
                                              if LinkDone(st, u) then {Target(st, u).link} else {},
                                              if Hints(u, HINT_SYNC) then Ticks(st, u) else {}))
  {
    hide Continue, Protocol.HasFlag, Inv, FileSystem.EndsWith, FileSystem.Under, LinkFiles, FileSystem.Files,
         PlanUpdate, StoreFiles, Target, Ticks;
    ContinueSucceeds(st, u);
    var planned := PlanUpdate(st, u.m, u.env).0;
    var t := Target(st, u);
    StoredTree(planned.(db := st.db[Key(u.m.appGroup, u.m.appId) := t]), u.m, u.env, t.link, t.icon);
    LinkFilesOfFiles(planned.fs, st.fs);
  }

  lemma TurnIsContinue(st: State, u: Update, first: bool)
    requires st.sync.Some?
    ensures Turn(st, u, first) == Continue(st, u) || Turn(st, u, first) == Outcome(st, false)
  {
    hide Continue, HandleUpdate, Protocol.HasFlag;
    UpdateContinues(st, u);
  }

  lemma OneTurn(st: State, u: Update, first: bool)
    requires Inv(st) && st.sync.Some? && Turn(st, u, first).st.sync.Some?
    ensures Progress(st, Turn(st, u, first).st, Count(st, u, first))
    ensures TallyShape(st.menu, Count(st, u, first))
  {
    hide Continue, HandleUpdate, Protocol.HasFlag, Inv, FileSystem.EndsWith, FileSystem.Under, LinkFiles,
         FileSystem.Files, Target, Ticks, Stored, FileSystem.Sweep;
    TurnIsContinue(st, u, first);
    assert st.sync.value - {} == st.sync.value;
    if Turn(st, u, first).ok {
      CountShape(st, u, first);
      ContinueSucceeds(st, u);
      StoredProgress(st, u);
    } else if Turn(st, u, first) == Continue(st, u) {
      ContinueFails(st, u);
      assert LinkFiles(st.fs) + {} == LinkFiles(st.fs);
    }
  }

  lemma ProgressAdds(a: State, b: State, c: State, t: Tally, t': Tally)
    requires a.sync.Some? && Progress(a, b, t) && Progress(b, c, t')
    ensures Progress(a, c, Plus(t, t'))
  {
    hide Inv, LinkFiles, FileSystem.Files;
    assert a.sync.value - t.reported - t'.reported == a.sync.value - (t.reported + t'.reported);
  }

  /** Over a run in sync mode the set shrinks by what is reported and the links grow by what is written. */
  lemma {:induction false} RunInSync(st: State, us: seq<Update>, first: bool)
    requires Inv(st) && st.sync.Some? && StaysOn(st, us, first)
    ensures Progress(st, After(st, us, first), Total(st, us, first))
    ensures TallyShape(st.menu, Total(st, us, first))
    decreases |us|
  {
    hide Turn, Inv, LinkFiles, FileSystem.Files, Count, FileSystem.EndsWith, FileSystem.Under;
    if us == [] {
      assert st.sync.value - {} == st.sync.value;
      assert LinkFiles(st.fs) + {} == LinkFiles(st.fs);
    } else {
      var o := Turn(st, us[0], first);
      OneTurn(st, us[0], first);
      RunInSync(o.st, us[1..], false);
      ProgressAdds(st, o.st, After(o.st, us[1..], false), Count(st, us[0], first), Total(o.st, us[1..], false));
    }
  }

  lemma {:induction false} RunSplits(st: State, us: seq<Update>, u: Update, first: bool)
    ensures var mid := After(st, us, first);
            && After(st, us + [u], first) == Turn(mid, u, first && us == []).st
            && Total(st, us + [u], first) == Plus(Total(st, us, first), Count(mid, u, first && us == []))
    decreases |us|
  {
    hide Turn, Count;
    if us == [] {
      assert us + [u] == [u];
      assert After(st, [u], first) == After(Turn(st, u, first).st, [], false);
      assert Plus(Count(st, u, first), Tally({}, {}, {})) == Plus(Tally({}, {}, {}), Count(st, u, first));
    } else {
      assert (us + [u])[1..] == us[1..] + [u];
      RunSplits(Turn(st, us[0], first).st, us[1..], u, false);
    }
  }

  // ---- the bracket ----------------------------------------------------------------------

  /**
   A bracket: outside sync mode an update with SYNC_START arrives and a sync table can be made, sync mode stays on until the
   last update, and that one ends it. Failing updates anywhere in between are allowed.
   */
  ghost predicate Bracket(st: State, us: seq<Update>, last: Update) {
    var u0 := (us + [last])[0];
    && Inv(st) && st.sync.None? && Hints(u0, HINT_SYNC_START) && u0.env.createOk
    && StaysOn(OnSyncStart(st, u0.env).st, us, true)
    && After(st, us + [last], false).sync.None?
  }

  ghost function BracketStart(st: State, us: seq<Update>, last: Update): State {
    OnSyncStart(st, (us + [last])[0].env).st
  }

  /** Everything the bracket updated, wrote and reported. */
  ghost function BracketTotal(st: State, us: seq<Update>, last: Update): Tally {
    Total(BracketStart(st, us, last), us + [last], true)
  }

  /** The snapshot taken when the bracket began. */
  ghost function BracketSnapshot(st: State, us: seq<Update>, last: Update): set<Path> {
    Snapshot(st.fs, st.menu, (us + [last])[0].env.faults)
  }

  // The first update of the bracket: its start, then the rest of it.
  lemma BracketUnfolds(st: State, us: seq<Update>, last: Update)
    requires st.sync.None? && Hints((us + [last])[0], HINT_SYNC_START) && (us + [last])[0].env.createOk
    ensures After(st, us + [last], false) == After(BracketStart(st, us, last), us + [last], true)
  {
    hide Protocol.HasFlag, HandleUpdate, Continue;
    UpdateContinues(st, (us + [last])[0]);
  }

  // The ending update: it succeeded, and its end swept what was left of the set.
  lemma LastTurn(st: State, u: Update, first: bool)
    requires Inv(st) && st.sync.Some? && Turn(st, u, first).st.sync.None?
    ensures Turn(st, u, first) == Continue(st, u) && Continue(st, u).ok
    ensures Progress(st, Stored(st, u), Count(st, u, first)) && TallyShape(st.menu, Count(st, u, first))
    ensures Turn(st, u, first).st == OnSyncEnd(Stored(st, u), true, u.env)
  {
    hide Continue, HandleUpdate, Protocol.HasFlag, Inv, FileSystem.EndsWith, FileSystem.Under, LinkFiles,
         FileSystem.Files, Target, Ticks, Stored, FileSystem.Sweep;
    TurnIsContinue(st, u, first);
    if !Continue(st, u).ok {
      ContinueFails(st, u);
    } else {
      CountShape(st, u, first);
      ContinueSucceeds(st, u);
      StoredProgress(st, u);
    }
  }

  /** The state just before the sweep. */
  ghost function BeforeSweep(st: State, us: seq<Update>, last: Update): State {
    Stored(After(BracketStart(st, us, last), us, true), last)
  }

  // The whole bracket: the state just before the sweep, and the sweep.
  lemma BracketEnds(st: State, us: seq<Update>, last: Update) returns (full: State)
    requires Bracket(st, us, last)
    ensures Progress(BracketStart(st, us, last), full, BracketTotal(st, us, last))
    ensures TallyShape(st.menu, BracketTotal(st, us, last))
    ensures After(st, us + [last], false) == OnSyncEnd(full, true, last.env)
    ensures full == BeforeSweep(st, us, last)
  {
    hide Turn, Inv, LinkFiles, FileSystem.Files, Count, FileSystem.EndsWith, FileSystem.Under, Protocol.HasFlag,
         FileSystem.Sweep, Stored, FileSystem.Snapshot, FileSystem.Prune;
    var s1 := BracketStart(st, us, last);
    StartKeeps(st, (us + [last])[0].env);
    BracketUnfolds(st, us, last);
    RunInSync(s1, us, true);
    RunSplits(s1, us, last, true);
    var mid := After(s1, us, true);
    LastTurn(mid, last, us == []);
    full := Stored(mid, last);
    ProgressAdds(s1, mid, full, Total(s1, us, true), Count(mid, last, us == []));
  }

  // Starting a sync only removes empty directories.
  lemma StartKeeps(st: State, env: Env)
    requires Inv(st) && st.sync.None? && env.createOk
    ensures var s := OnSyncStart(st, env).st;
            && Inv(s) && s.menu == st.menu && s.sync == Some(Snapshot(st.fs, st.menu, env.faults))
            && Files(s.fs) == Files(st.fs) && LinkFiles(s.fs) == LinkFiles(st.fs)
  {
    hide FileSystem.WellFormed, FileSystem.Files, FileSystem.Snapshot, LinkFiles;
    PruneFiles(st.fs, st.menu, env.faults);
    LinkFilesOfFiles(OnSyncStart(st, env).st.fs, st.fs);
  }

  // Which .lnk files a sweep leaves.
  lemma SweepLinks(fs: Tree, s: set<Path>, faults: Faults)
    ensures LinkFiles(Sweep(fs, s, faults)) == LinkFiles(fs) - (s - faults.undeletable)
    ensures Files(Sweep(fs, s, faults)) == Files(fs) - (s - faults.undeletable)
  {
    SweepExact(fs, s, faults);
    var r := Sweep(fs, s, faults);
    forall p ensures p in LinkFiles(r) <==> p in LinkFiles(fs) - (s - faults.undeletable) {
      assert p in Files(r) <==> IsFile(r, p);
      assert p in Files(fs) <==> IsFile(fs, p);
    }
  }

  /**
   Mark and sweep in general, with any failures: the .lnk files afterwards are those there were
   and those written, without the part of the snapshot that was neither reported nor impossible
   to delete; and no other file at all has been deleted.
   */
  lemma MarkAndSweep(st: State, us: seq<Update>, last: Update)
    requires Bracket(st, us, last)
    ensures var end := After(st, us + [last], false);
            var t := BracketTotal(st, us, last);
            var swept := BracketSnapshot(st, us, last) - t.reported - last.env.faults.undeletable;
            && LinkFiles(end.fs) == LinkFiles(st.fs) + t.written - swept
            && (forall p | p in Files(st.fs) && p !in swept :: p in Files(end.fs))
            && (forall p | p in swept :: p !in Files(end.fs))
  {
    hide LinkFiles, FileSystem.Files, FileSystem.Snapshot, FileSystem.Sweep, Inv, After, Total, StaysOn, TallyShape,
         Protocol.HasFlag, FileSystem.Prune;
    StartKeeps(st, (us + [last])[0].env);
    var full := BracketEnds(st, us, last);
    SweepLinks(full.fs, full.sync.value, last.env.faults);
  }

  /** What the bracket's sweep takes: listed at its start, not reported, and deletable. */
  ghost function Swept(st: State, us: seq<Update>, last: Update): set<Path> {
    BracketSnapshot(st, us, last) - BracketTotal(st, us, last).reported - last.env.faults.undeletable
  }

  /**
   The folders at the end of a bracket: one that held nothing but swept files is gone, and one
   that is gone directly held a swept file.
   */
  lemma MarkAndSweepFolders(st: State, us: seq<Update>, last: Update, d: Path)
    requires Bracket(st, us, last) && IsDir(BeforeSweep(st, us, last).fs, d)
    ensures var pre, end := BeforeSweep(st, us, last).fs, After(st, us + [last], false).fs;
            && (d !in end ==> d !in last.env.faults.unremovable &&
                              exists p :: p in Swept(st, us, last) && IsFile(pre, p) && ChildOf(p, d))
            && (d !in last.env.faults.unremovable && (exists p :: p in pre && ChildOf(p, d)) &&
                (forall p | p in pre && ChildOf(p, d) :: IsFile(pre, p) && p in Swept(st, us, last)) ==>
                  d !in end)
  {
    hide LinkFiles, FileSystem.Files, FileSystem.Snapshot, FileSystem.Sweep, Inv, After, Total, StaysOn, TallyShape,
         Protocol.HasFlag, FileSystem.Prune, FileSystem.ChildOf, BeforeSweep, Bracket;
    StartLists(st, us, last);
    var full := BracketEnds(st, us, last);
    var faults := last.env.faults;
    if d !in Sweep(full.fs, full.sync.value, faults) {
      GoneDirectoryHeldAFile(full.fs, full.sync.value, d, faults);
    }
    if d !in faults.unremovable && (exists p :: p in full.fs && ChildOf(p, d)) &&
       forall p | p in full.fs && ChildOf(p, d) :: IsFile(full.fs, p) && p in Swept(st, us, last)
    {
      EmptiedDirectoryGoes(full.fs, full.sync.value, d, faults);
    }
  }

  // The sync set at the start of a bracket is its snapshot.
  lemma StartLists(st: State, us: seq<Update>, last: Update)
    requires Bracket(st, us, last)
    ensures BracketStart(st, us, last).sync == Some(BracketSnapshot(st, us, last))
  {
    hide FileSystem.Snapshot, FileSystem.Prune, Protocol.HasFlag, Inv, StaysOn, After;
  }

  /** The .lnk files below the menu folder. */
  ghost function MenuLinks(fs: Tree, menu: Path): set<Path> {
    set p | p in LinkFiles(fs) && Under(p, menu)
  }

  lemma MenuLinksInSnapshot(fs: Tree, menu: Path, faults: Faults)
    ensures MenuLinks(fs, menu) <= Snapshot(fs, menu, faults)
  {
    hide FileSystem.EndsWith, FileSystem.Under;
    forall p | p in MenuLinks(fs, menu) ensures p in Snapshot(fs, menu, faults) {
      assert p in Below(fs, menu);
    }
  }

  /**
   When the file operations succeed, the links left below the menu are those of successful
   updates that were reported or not there before. They are exactly the links of all successful
   updates if and only if no successful update re-made an old link without reporting it.
   */
  lemma SurvivingLinks(st: State, us: seq<Update>, last: Update)
    requires Bracket(st, us, last) && last.env.faults.undeletable == {}
    requires BracketTotal(st, us, last).written == BracketTotal(st, us, last).updated
    ensures var end := After(st, us + [last], false);
            var t := BracketTotal(st, us, last);
            var snapshot := BracketSnapshot(st, us, last);
            && MenuLinks(end.fs, st.menu) == t.updated * t.reported + (t.updated - snapshot)
            && (MenuLinks(end.fs, st.menu) == t.updated <==> t.updated * snapshot <= t.reported)
  {
    hide FileSystem.Files, FileSystem.Snapshot, FileSystem.Sweep, Inv, After, Total, StaysOn,
         Protocol.HasFlag, FileSystem.Prune, FileSystem.EndsWith, FileSystem.Under, BracketStart;
    MarkAndSweep(st, us, last);
    var _ := BracketEnds(st, us, last);
    MenuLinksInSnapshot(st.fs, st.menu, (us + [last])[0].env.faults);
    var end, t, snapshot := After(st, us + [last], false), BracketTotal(st, us, last), BracketSnapshot(st, us, last);
    SurvivorSets(LinkFiles(st.fs), LinkFiles(end.fs), MenuLinks(st.fs, st.menu), MenuLinks(end.fs, st.menu),
                 st.menu, t, snapshot);
  }

  lemma SurvivorSets(links: set<Path>, links': set<Path>, menuLinks: set<Path>, menuLinks': set<Path>,
                     menu: Path, t: Tally, snapshot: set<Path>)
    requires forall p :: p in menuLinks <==> p in links && Under(p, menu)
    requires forall p :: p in menuLinks' <==> p in links' && Under(p, menu)
    requires forall p | p in links :: EndsWith(p, LNK)
    requires links' == links + t.written - (snapshot - t.reported - {})
    requires menuLinks <= snapshot && TallyShape(menu, t) && t.written == t.updated
    ensures menuLinks' == t.updated * t.reported + (t.updated - snapshot)
    ensures menuLinks' == t.updated <==> t.updated * snapshot <= t.reported
  {
    hide FileSystem.EndsWith, FileSystem.Under;
    forall p ensures p in menuLinks' <==> p in t.updated * t.reported + (t.updated - snapshot) {
    }
    if t.updated * snapshot <= t.reported {
      assert menuLinks' == t.updated;
    }
    if menuLinks' == t.updated {
      forall p | p in t.updated * snapshot ensures p in t.reported {
        assert p in menuLinks';
      }
    }
  }

  // Every successful update of a run carries HINT_SYNC.
  ghost predicate AllHinted(st: State, us: seq<Update>, first: bool)
    decreases |us|
  {
    us == [] || ((Turn(st, us[0], first).ok ==> Hints(us[0], HINT_SYNC)) &&
                 AllHinted(Turn(st, us[0], first).st, us[1..], false))
  }

  lemma {:induction false} HintedIsReported(st: State, us: seq<Update>, first: bool)
    requires AllHinted(st, us, first)
    ensures Total(st, us, first).updated <= Total(st, us, first).reported
    decreases |us|
  {
    hide Turn, Protocol.HasFlag, Target, IconDone;
    if us != [] {
      HintedIsReported(Turn(st, us[0], first).st, us[1..], false);
    }
  }

  /**
   The protocol's intent: if every successful update of the bracket carries HINT_SYNC and file
   operations succeed, the menu holds exactly the links of the successful updates.
   */
  lemma SyncKeepsExactlyReported(st: State, us: seq<Update>, last: Update)
    requires Bracket(st, us, last) && last.env.faults.undeletable == {}
    requires BracketTotal(st, us, last).written == BracketTotal(st, us, last).updated
    requires AllHinted(BracketStart(st, us, last), us + [last], true)
    ensures MenuLinks(After(st, us + [last], false).fs, st.menu) == BracketTotal(st, us, last).updated
  {
    hide Bracket, After, Total, MenuLinks, BracketStart, FileSystem.Snapshot;
    SurvivingLinks(st, us, last);
    HintedIsReported(BracketStart(st, us, last), us + [last], true);
  }

  // ---- icons ----------------------------------------------------------------------------

  /** Each of these links exists and has no icon, or one that exists and will not be swept. */
  ghost predicate IconsSafe(fs: Tree, sync: set<Path>, links: set<Path>) {
    forall p | p in links ::
      && EndsWith(p, LNK) && p !in sync
      && p in Files(fs) && Files(fs)[p].Link?
      && (Files(fs)[p].icon == [] ||
          (Files(fs)[p].icon in Files(fs) && Files(fs)[p].icon !in sync))
  }

  // Every successful update of a run carries HINT_SYNC and saves its link.
  ghost predicate AllSaved(st: State, us: seq<Update>, first: bool)
    decreases |us|
  {
    us == [] || ((Turn(st, us[0], first).ok ==> Hints(us[0], HINT_SYNC) && LinkDone(st, us[0])) &&
                 AllSaved(Turn(st, us[0], first).st, us[1..], false))
  }

  lemma StoredKeepsIcons(fs: Tree, r: Tree, link: Path, icon: Path, iconDone: bool, sync: set<Path>, links: set<Path>)
    requires StoredAs(fs, r, link, icon, iconDone, true) && IconsSafe(fs, sync, links)
    requires EndsWith(link, LNK) && (icon == [] || EndsWith(icon, ICO))
    ensures IconsSafe(r, sync - ({link} + if iconDone then {icon} else {}), links + {link})
  {
    hide FileSystem.EndsWith, FileSystem.Files, LinkFiles;
    ExtensionsDiffer(link, icon);
  }

  lemma OneTurnIcons(st: State, u: Update, links: set<Path>)
    requires Inv(st) && st.sync.Some? && Continue(st, u).ok && Hints(u, HINT_SYNC) && LinkDone(st, u)
    requires IconsSafe(st.fs, st.sync.value, links)
    ensures Stored(st, u).sync.Some?
    ensures IconsSafe(Stored(st, u).fs, Stored(st, u).sync.value, links + {Target(st, u).link})
  {
    hide Continue, Protocol.HasFlag, Inv, FileSystem.EndsWith, FileSystem.Under, LinkFiles, FileSystem.Files,
         PlanUpdate, StoreFiles, Target, StoredAs;
    ContinueSucceeds(st, u);
    var planned := PlanUpdate(st, u.m, u.env).0;
    var t := Target(st, u);
    var s1 := planned.(db := st.db[Key(u.m.appGroup, u.m.appId) := t]);
    StoredTree(s1, u.m, u.env, t.link, t.icon);
    assert IconsSafe(planned.fs, st.sync.value, links);
    StoredKeepsIcons(planned.fs, Stored(st, u).fs, t.link, t.icon, IconDone(st, u), st.sync.value, links);
  }

  lemma {:induction false} RunIcons(st: State, us: seq<Update>, first: bool, links: set<Path>)
    requires Inv(st) && st.sync.Some? && StaysOn(st, us, first) && AllSaved(st, us, first)
    requires IconsSafe(st.fs, st.sync.value, links)
    ensures var end := After(st, us, first);
            end.sync.Some? && IconsSafe(end.fs, end.sync.value, links + Total(st, us, first).updated)
    decreases |us|
  {
    hide Continue, HandleUpdate, Protocol.HasFlag, Inv, LinkFiles, FileSystem.Files, Target, IconDone, LinkDone,
         Stored, FileSystem.Sweep, IconsSafe;
    if us == [] {
      assert links + {} == links;
    } else {
      var u := us[0];
      var o := Turn(st, u, first);
      OneTurn(st, u, first);
      TurnIsContinue(st, u, first);
      var more := if o.ok then {Target(st, u).link} else {};
      if o.ok {
        ContinueSucceeds(st, u);
        OneTurnIcons(st, u, links);
      } else {
        assert links + {} == links;
        FailedTurnIcons(st, u, first, links);
      }
      RunIcons(o.st, us[1..], false, links + more);
      assert links + more + Total(o.st, us[1..], false).updated == links + Total(st, us, first).updated;
    }
  }

  lemma FailedTurnIcons(st: State, u: Update, first: bool, links: set<Path>)
    requires Inv(st) && st.sync.Some? && !Turn(st, u, first).ok && IconsSafe(st.fs, st.sync.value, links)
    ensures var st' := Turn(st, u, first).st;
            st'.sync == st.sync && IconsSafe(st'.fs, st'.sync.value, links)
  {
    hide Continue, HandleUpdate, Inv, FileSystem.Files, LinkFiles, FileSystem.EndsWith;
    TurnIsContinue(st, u, first);
    if Turn(st, u, first) == Continue(st, u) {
      ContinueFails(st, u);
    }
  }

  /**
   After a bracket whose successful updates all carried HINT_SYNC and saved their links, each
   of those links is there, and its icon, if it has one, survived the sweep. Icons may be
   shared or rewritten, and icon writes may fail.
   */
  lemma NoDanglingIcons(st: State, us: seq<Update>, last: Update)
    requires Bracket(st, us, last) && AllSaved(BracketStart(st, us, last), us + [last], true)
    ensures var files := Files(After(st, us + [last], false).fs);
            forall p | p in BracketTotal(st, us, last).updated ::
              p in files && files[p].Link? && (files[p].icon == [] || files[p].icon in files)
  {
    hide Turn, Inv, LinkFiles, FileSystem.Files, Protocol.HasFlag, FileSystem.Sweep, FileSystem.Snapshot, LinkDone,
         Target, IconDone, FileSystem.EndsWith, Continue, FileSystem.Prune, Stored;
    var s1 := BracketStart(st, us, last);
    assert IconsSafe(s1.fs, s1.sync.value, {});
    hide IconsSafe;
    StartKeeps(st, (us + [last])[0].env);
    BracketUnfolds(st, us, last);
    SavedSplits(s1, us, last, true);
    RunInSync(s1, us, true);
    RunIcons(s1, us, true, {});
    RunSplits(s1, us, last, true);
    var mid := After(s1, us, true);
    LastTurn(mid, last, us == []);
    OneTurnIcons(mid, last, {} + Total(s1, us, true).updated);
    var full := Stored(mid, last);
    assert BracketTotal(st, us, last).updated == {} + Total(s1, us, true).updated + {Target(mid, last).link};
    SweptIcons(full.fs, full.sync.value, last.env.faults, BracketTotal(st, us, last).updated);
  }

  // The sweep touches neither the safe links nor their icons.
  lemma SweptIcons(fs: Tree, sync: set<Path>, faults: Faults, links: set<Path>)
    requires IconsSafe(fs, sync, links)
    ensures var files := Files(Sweep(fs, sync, faults));
            forall p | p in links :: p in files && files[p].Link? && (files[p].icon == [] || files[p].icon in files)
  {
    hide FileSystem.Files, FileSystem.Sweep, FileSystem.EndsWith, LinkFiles;
    SweepLinks(fs, sync, faults);
  }

  lemma {:induction false} SavedSplits(st: State, us: seq<Update>, u: Update, first: bool)
    requires AllSaved(st, us + [u], first)
    ensures AllSaved(st, us, first)
    ensures var mid := After(st, us, first);
            Turn(mid, u, first && us == []).ok ==> Hints(u, HINT_SYNC) && LinkDone(mid, u)
    decreases |us|
  {
    hide Turn, Protocol.HasFlag, LinkDone;
    if us == [] {
      assert (us + [u])[0] == u;
    } else {
      assert (us + [u])[1..] == us[1..] + [u] && (us + [u])[0] == us[0];
      SavedSplits(Turn(st, us[0], first).st, us[1..], u, false);
    }
  }
}
