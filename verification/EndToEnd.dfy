/**
 Sync mode from end to end: what the Start menu holds after the sender has written a whole sync
 bracket into one buffer and the receiver has taken it apart again.
 */
module EndToEnd {
  import opened Wire
  import opened Protocol
  import opened Codec
  import opened FileSystem
  import opened Receiver
  import opened Runs
  import opened Sync

  predicate AllUpdates(ps: seq<Pdu>) {
    forall p | p in ps :: p.Update? && Framed(p)
  }

  /** The updates a list of PDUs becomes, each with the environment of its turn. */
  ghost function UpdatesOf(ps: seq<Pdu>, n: nat, world: World): (us: seq<Update>)
    requires AllUpdates(ps)
    ensures |us| == |ps|
  {
    if ps == [] then []
    else
      assert ps[0] in ps;
      [Call(Received(ps[0]), world(n))] + UpdatesOf(ps[1..], n + 1, world)
  }

  lemma {:induction false} UpdateAt(ps: seq<Pdu>, n: nat, world: World, i: nat)
    requires AllUpdates(ps) && i < |ps|
    ensures UpdatesOf(ps, n, world)[i].m.flags == ps[i].flags
  {
    hide Codec.Framed;
    assert ps[0] in ps && ps[i] in ps;
    if i > 0 {
      UpdateAt(ps[1..], n + 1, world, i - 1);
    }
  }

  // ---- the message counter is no part of it ---------------------------------------------

  function Counted(st: State, n: nat): State { st.(handled := n) }

  lemma AdmitIgnoresCounter(st: State, m: Msg, env: Env, n: nat)
    requires m.UpdateMsg?
    ensures AdmitUpdate(Counted(st, n), m, env) ==
            Outcome(Counted(AdmitUpdate(st, m, env).st, n), AdmitUpdate(st, m, env).ok)
  {
    hide FileSystem.Prune, FileSystem.Snapshot, Protocol.HasFlag, NamesOk;
  }

  lemma PlanIgnoresCounter(st: State, m: Msg, env: Env, n: nat)
    requires m.UpdateMsg?
    ensures PlanUpdate(Counted(st, n), m, env) ==
            (Counted(PlanUpdate(st, m, env).0, n), PlanUpdate(st, m, env).1)
  {
    hide BuildFilePath, CText, Key, W, CommandLine, Protocol.HasFlag;
  }

  lemma StoreIgnoresCounter(st: State, m: Msg, env: Env, link: Path, icon: Path, n: nat)
    requires m.UpdateMsg?
    ensures StoreFiles(Counted(st, n), m, env, link, icon) == Counted(StoreFiles(st, m, env, link, icon), n)
  {
    hide Protocol.HasFlag, FileSystem.WriteFile, FileSystem.Writable;
  }

  lemma CommitIgnoresCounter(st: State, m: Msg, env: Env, plan: Plan, n: nat)
    requires m.UpdateMsg?
    ensures CommitUpdate(Counted(st, n), m, env, plan) ==
            Outcome(Counted(CommitUpdate(st, m, env, plan).st, n), CommitUpdate(st, m, env, plan).ok)
  {
    hide FileSystem.Sweep, Protocol.HasFlag, StoreFiles;
    StoreIgnoresCounter(st.(db := st.db[plan.key := plan.paths]), m, env, plan.paths.link, plan.paths.icon, n);
  }

  lemma UpdateIgnoresCounter(st: State, m: Msg, env: Env, n: nat)
    requires m.UpdateMsg?
    ensures HandleUpdate(Counted(st, n), m, env) ==
            Outcome(Counted(HandleUpdate(st, m, env).st, n), HandleUpdate(st, m, env).ok)
  {
    hide AdmitUpdate, PlanUpdate, CommitUpdate;
    var s := AdmitUpdate(st, m, env).st;
    AdmitIgnoresCounter(st, m, env, n);
    PlanIgnoresCounter(s, m, env, n);
    var (planned, plan) := PlanUpdate(s, m, env);
    if plan.Some? {
      CommitIgnoresCounter(planned, m, env, plan.value, n);
    }
  }

  // An update handled as the message after n others.
  lemma HandleCounted(st: State, m: Msg, env: Env, n: nat)
    requires m.UpdateMsg? && st.handshake
    ensures var o := HandleUpdate(st, m, env);
            Handle(Counted(st, n + 1), m, env) == Outcome(Counted(o.st, n + 1), o.ok)
  {
    hide HandleUpdate;
    UpdateIgnoresCounter(st, m, env, n + 1);
  }

  ghost predicate AllSucceed(st: State, us: seq<Update>)
    decreases |us|
  {
    us == [] || (HandleUpdate(st, us[0].m, us[0].env).ok &&
                 AllSucceed(HandleUpdate(st, us[0].m, us[0].env).st, us[1..]))
  }

  // The first PDU and the rest of them.
  lemma FirstReceived(ps: seq<Pdu>)
    requires AllUpdates(ps) && ps != []
    ensures AllUpdates(ps[1..]) && !ps[0].DeleteProvider? && Received(ps[0]).UpdateMsg?
    ensures forall p | p in ps :: !p.DeleteProvider?
    ensures forall p | p in ps[1..] :: !p.DeleteProvider?
    ensures ReceivedAll(ps) == [Received(ps[0])] + ReceivedAll(ps[1..])
    ensures ReceivedAll(ps) != [] && ReceivedAll(ps)[0] == Received(ps[0]) && ReceivedAll(ps)[1..] == ReceivedAll(ps[1..])
  {
    hide Codec.Framed, Protocol.HasFlag;
    assert ps[0] in ps && forall p | p in ps[1..] :: p in ps;
  }

  /** Messages that all succeed leave what the updates leave one after the other. */
  lemma {:induction false} HandledIsAfter(st: State, ps: seq<Pdu>, n: nat, world: World)
    requires AllUpdates(ps) && st.handshake && !st.closed
    requires HandleAll(Counted(st, n), ReceivedAll(ps), world).ok
    ensures HandleAll(Counted(st, n), ReceivedAll(ps), world).st ==
            Counted(After(st, UpdatesOf(ps, n, world), false), n + |ps|)
    ensures AllSucceed(st, UpdatesOf(ps, n, world))
    decreases |ps|
  {
    hide Handle, HandleUpdate, Codec.Framed, Protocol.HasFlag, Codec.Received;
    if ps != [] {
      FirstReceived(ps);
      hide Codec.ReceivedAll, AllUpdates;
      var m, env := Received(ps[0]), world(n);
      HandleCounted(st, m, env, n);
      UpdateKeepsRest(st, m, env);
      HandledIsAfter(HandleUpdate(st, m, env).st, ps[1..], n + 1, world);
    }
  }

  // ---- the bracket a stream is ----------------------------------------------------------

  /** The first update starts sync mode, the last one alone ends it. */
  predicate StartsAndEnds(us: seq<Update>) {
    && us != [] && Hints(us[0], HINT_SYNC_START)
    && forall i | 0 <= i < |us| :: Hints(us[i], HINT_SYNC_END) <==> i == |us| - 1
  }

  lemma {:induction false} SucceedSplits(st: State, us: seq<Update>, last: Update)
    requires AllSucceed(st, us + [last])
    ensures AllSucceed(st, us)
    ensures var mid := After(st, us, false); HandleUpdate(mid, last.m, last.env).ok
    decreases |us|
  {
    hide HandleUpdate;
    if us == [] {
      assert (us + [last])[0] == last;
    } else {
      assert (us + [last])[0] == us[0] && (us + [last])[1..] == us[1..] + [last];
      SucceedSplits(HandleUpdate(st, us[0].m, us[0].env).st, us[1..], last);
    }
  }

  lemma {:induction false} StaysOnRest(st: State, us: seq<Update>)
    requires st.sync.Some? && AllSucceed(st, us)
    requires forall u | u in us :: !Hints(u, HINT_SYNC_END)
    ensures StaysOn(st, us, false) && After(st, us, false).sync.Some?
    decreases |us|
  {
    hide HandleUpdate, Protocol.HasFlag;
    if us != [] {
      assert us[0] in us;
      SyncModeExact(st, us[0].m, us[0].env);
      StaysOnRest(HandleUpdate(st, us[0].m, us[0].env).st, us[1..]);
    }
  }

  /** Successful updates that start and end like a bracket are one. */
  lemma SucceedingBracket(st: State, us: seq<Update>, last: Update)
    requires Inv(st) && st.sync.None? && StartsAndEnds(us + [last]) && AllSucceed(st, us + [last])
    ensures Bracket(st, us, last)
  {
    hide HandleUpdate, Protocol.HasFlag, Inv, Receiver.OnSyncStart, Continue;
    var all := us + [last];
    var u0 := all[0];
    SucceedSplits(st, us, last);
    RunSplits(st, us, last, false);
    var mid := After(st, us, false);
    assert all[|us|] == last;
    SyncModeExact(mid, last.m, last.env);
    UpdateContinues(st, u0);
    if us != [] {
      assert u0 == us[0];
      forall u | u in us ensures !Hints(u, HINT_SYNC_END) {
        var i :| 0 <= i < |us| && us[i] == u;
        assert all[i] == u;
      }
      var s1 := HandleUpdate(st, u0.m, u0.env).st;
      SyncModeExact(st, u0.m, u0.env);
      StaysOnRest(s1, us[1..]);
      assert Sync.Turn(OnSyncStart(st, u0.env).st, u0, true).st == s1;
    }
  }

  // ---- the links of a bracket -----------------------------------------------------------

  /** menu[\group]\description.lnk */
  function LinkOf(menu: Path, m: Msg): Path
    requires m.UpdateMsg?
  {
    FolderOf(menu, m.appGroup) + [SEP] + CText(m.appDesc.text) + LNK
  }

  function FolderOf(base: Path, group: Field): Path {
    if group.length == 0 then base else base + [SEP] + CText(group.text)
  }

  /** icons[\group]\id.ico */
  function IconOf(icons: Path, m: Msg): Path
    requires m.UpdateMsg?
  {
    FolderOf(icons, m.appGroup) + [SEP] + CText(m.appId.text) + ICO
  }

  lemma TargetIsLink(st: State, u: Update)
    requires PlanUpdate(st, u.m, u.env).1.Some?
    ensures Target(st, u).link == LinkOf(st.menu, u.m)
  {
    hide CText, Key, W, CommandLine, Protocol.HasFlag, FileSystem.CreateDirectory, FileSystem.DirectoryReady;
  }

  lemma SucceedingPlan(st: State, u: Update)
    requires Continue(st, u).ok
    ensures PlanUpdate(st, u.m, u.env).1.Some?
  {
    hide PlanUpdate, NamesOk, CommitUpdate;
  }

  ghost function LinksOf(menu: Path, us: seq<Update>): set<Path> {
    set u | u in us :: LinkOf(menu, u.m)
  }

  lemma LinksOfCons(menu: Path, us: seq<Update>)
    requires us != []
    ensures LinksOf(menu, us) == {LinkOf(menu, us[0].m)} + LinksOf(menu, us[1..])
  {
    hide LinkOf;
    assert us == [us[0]] + us[1..];
    assert us[0] in us;
  }

  // In sync mode, or outside without a start, an update that succeeds continues.
  lemma SuccessContinues(st: State, u: Update)
    requires st.sync.Some? && HandleUpdate(st, u.m, u.env).ok
    ensures Continue(st, u).ok
  {
    hide HandleUpdate, Continue, Protocol.HasFlag;
    UpdateContinues(st, u);
  }

  lemma {:induction false} RestLinks(st: State, us: seq<Update>)
    requires AllSucceed(st, us) && st.sync.Some?
    requires forall i | 0 <= i < |us| - 1 :: !Hints(us[i], HINT_SYNC_END)
    ensures Total(st, us, false).updated == LinksOf(st.menu, us)
    decreases |us|
  {
    hide HandleUpdate, Continue, Protocol.HasFlag, LinkOf, Target, IconDone, LinkDone, LinksOf, PlanUpdate;
    if us == [] {
      assert LinksOf(st.menu, us) == {} by { NoLinks(st.menu); }
    } else {
      var u := us[0];
      SuccessContinues(st, u);
      SucceedingPlan(st, u);
      TargetIsLink(st, u);
      UpdateKeepsRest(st, u.m, u.env);
      LinksOfCons(st.menu, us);
      if |us| == 1 {
        assert us[1..] == [];
        NoLinks(st.menu);
      } else {
        SyncModeExact(st, u.m, u.env);
        RestLinks(HandleUpdate(st, u.m, u.env).st, us[1..]);
      }
    }
  }

  lemma NoLinks(menu: Path)
    ensures LinksOf(menu, []) == {}
  {
  }

  lemma StartKeepsMenu(st: State, env: Env)
    ensures OnSyncStart(st, env).st.menu == st.menu && OnSyncStart(st, env).st.icons == st.icons
  {
  }

  /** What a succeeding bracket updates are the links its messages name. */
  lemma BracketLinks(st: State, us: seq<Update>, last: Update)
    requires Inv(st) && st.sync.None? && StartsAndEnds(us + [last]) && AllSucceed(st, us + [last])
    ensures BracketTotal(st, us, last).updated == LinksOf(st.menu, us + [last])
  {
    hide HandleUpdate, Continue, Protocol.HasFlag, LinkOf, Target, IconDone, LinkDone, LinksOf, PlanUpdate, Inv,
         Receiver.OnSyncStart;
    var all := us + [last];
    var u0, s0 := all[0], BracketStart(st, us, last);
    StartKeepsMenu(st, u0.env);
    UpdateContinues(st, u0);
    assert Sync.Turn(s0, u0, true) == HandleUpdate(st, u0.m, u0.env);
    SucceedingPlan(s0, u0);
    TargetIsLink(s0, u0);
    UpdateKeepsRest(st, u0.m, u0.env);
    LinksOfCons(st.menu, all);
    var s1 := HandleUpdate(st, u0.m, u0.env).st;
    assert Total(s0, all, true).updated == {LinkOf(st.menu, u0.m)} + Total(s1, all[1..], false).updated;
    if us == [] {
      assert all[1..] == [];
      NoLinks(st.menu);
    } else {
      SyncModeExact(st, u0.m, u0.env);
      RestLinks(s1, all[1..]);
    }
  }

  lemma {:induction false} HintedStream(st: State, us: seq<Update>, first: bool)
    requires forall u | u in us :: Hints(u, HINT_SYNC)
    ensures AllHinted(st, us, first)
    decreases |us|
  {
    hide Sync.Turn, Protocol.HasFlag;
    if us != [] {
      assert us[0] in us;
      HintedStream(Sync.Turn(st, us[0], first).st, us[1..], false);
    }
  }

  // ---- room for the links ---------------------------------------------------------------

  // What may have come into a tree: directories at some paths, files at others.
  ghost predicate Grown(fs: Tree, r: Tree, dirs: set<Path>, files: set<Path>) {
    forall p | p in r :: (p in fs && r[p].Dir? == fs[p].Dir?) || (if r[p].Dir? then p in dirs else p in files)
  }

  lemma GrownOn(a: Tree, b: Tree, c: Tree, dirs: set<Path>, files: set<Path>)
    requires Grown(a, b, dirs, files) && Grown(b, c, dirs, files)
    ensures Grown(a, c, dirs, files)
  {
  }

  ghost function FoldersOf(menu: Path, icons: Path, m: Msg): set<Path>
    requires m.UpdateMsg?
  {
    {menu, icons, FolderOf(menu, m.appGroup), FolderOf(icons, m.appGroup)}
  }

  ghost function FilesOf(menu: Path, icons: Path, m: Msg): set<Path>
    requires m.UpdateMsg?
  {
    {LinkOf(menu, m), IconOf(icons, m)}
  }

  /**
   Nothing is in the way of the links: names are plain, no file stands where a menu folder is to
   be, no directory where a link is to be, and the updates do not put either there themselves.
   */
  ghost predicate Room(fs: Tree, menu: Path, icons: Path, us: seq<Update>) {
    && (forall u | u in us :: SEP !in CText(u.m.appDesc.text))
    && Clear(fs, menu, us)
    && (forall u, v | u in us && v in us ::
          LinkOf(menu, u.m) !in FoldersOf(menu, icons, v.m) && FolderOf(menu, u.m.appGroup) !in FilesOf(menu, icons, v.m))
  }

  ghost predicate Clear(fs: Tree, menu: Path, us: seq<Update>) {
    forall u | u in us :: !IsFile(fs, FolderOf(menu, u.m.appGroup)) && !IsDir(fs, LinkOf(menu, u.m))
  }

  lemma StaysClear(fs: Tree, r: Tree, menu: Path, icons: Path, us: seq<Update>, v: Update)
    requires Room(fs, menu, icons, us) && v in us
    requires Grown(fs, r, FoldersOf(menu, icons, v.m), FilesOf(menu, icons, v.m))
    ensures Room(r, menu, icons, us)
  {
    hide FolderOf, LinkOf, IconOf, CText, FoldersOf, FilesOf;
  }

  // The folder of a file that could be planned is in place, and nothing but folders was made.
  lemma FolderMade(fs: Tree, base: Path, group: Field, faults: Faults)
    ensures var (r, dir) := BuildFolder(fs, base, group, faults);
            && Grown(fs, r, {base, FolderOf(base, group)}, {}) && (forall p | p in fs :: p in r && r[p] == fs[p])
            && (dir.Some? ==> dir.value == FolderOf(base, group) && dir.value in r)
  {
    hide CText;
  }

  lemma PlanMade(st: State, u: Update)
    ensures var (planned, plan) := PlanUpdate(st, u.m, u.env);
            && Grown(st.fs, planned.fs, FoldersOf(st.menu, st.icons, u.m), {})
            && planned.menu == st.menu && planned.icons == st.icons
            && (plan.Some? ==> FolderOf(st.menu, u.m.appGroup) in planned.fs &&
                               (HasFlag(u.m.flags, FIELD_ICON) ==> plan.value.paths.icon == IconOf(st.icons, u.m)))
  {
    hide CText, Key, W, CommandLine, Protocol.HasFlag, BuildFolder, FolderOf, Grown, Args, FoldersOf;
    var m, env := u.m, u.env;
    assert FoldersOf(st.menu, st.icons, m) == {st.menu, st.icons, FolderOf(st.menu, m.appGroup), FolderOf(st.icons, m.appGroup)}
      by { FoldersAre(st.menu, st.icons, m); }
    FolderMade(st.fs, st.icons, m.appGroup, env.faults);
    var fs1 := if HasFlag(m.flags, FIELD_ICON) then BuildFolder(st.fs, st.icons, m.appGroup, env.faults).0 else st.fs;
    var dirs := FoldersOf(st.menu, st.icons, m);
    GrownSelf(st.fs, dirs);
    GrownMore(st.fs, BuildFolder(st.fs, st.icons, m.appGroup, env.faults).0, {st.icons, FolderOf(st.icons, m.appGroup)}, {}, dirs, {});
    FolderMade(fs1, st.menu, m.appGroup, env.faults);
    GrownMore(fs1, BuildFolder(fs1, st.menu, m.appGroup, env.faults).0, {st.menu, FolderOf(st.menu, m.appGroup)}, {}, dirs, {});
    GrownOn(st.fs, fs1, BuildFolder(fs1, st.menu, m.appGroup, env.faults).0, dirs, {});
  }

  lemma FoldersAre(menu: Path, icons: Path, m: Msg)
    requires m.UpdateMsg?
    ensures FoldersOf(menu, icons, m) == {menu, icons, FolderOf(menu, m.appGroup), FolderOf(icons, m.appGroup)}
  {
  }

  lemma GrownSelf(fs: Tree, dirs: set<Path>)
    ensures Grown(fs, fs, dirs, {})
  {
  }

  lemma GrownMore(fs: Tree, r: Tree, dirs: set<Path>, files: set<Path>, dirs': set<Path>, files': set<Path>)
    requires Grown(fs, r, dirs, files) && dirs <= dirs' && files <= files'
    ensures Grown(fs, r, dirs', files')
  {
  }

  lemma WriteMade(fs: Tree, p: Path, node: Node, dirs: set<Path>, files: set<Path>)
    requires !node.Dir? && p in files
    ensures Grown(fs, WriteFile(fs, p, node), dirs, files)
  {
  }

  lemma StoreMade(st: State, u: Update, link: Path, icon: Path, dirs: set<Path>, files: set<Path>)
    requires link in files && (HasFlag(u.m.flags, FIELD_ICON) ==> icon in files)
    ensures Grown(st.fs, StoreFiles(st, u.m, u.env, link, icon).fs, dirs, files)
  {
    hide Protocol.HasFlag, FileSystem.WriteFile, FileSystem.Writable, Grown;
    GrownSelf(st.fs, dirs);
    GrownMore(st.fs, st.fs, dirs, {}, dirs, files);
    var node := Link(if IconSaved(st, u.m, u.env, icon) then icon else []);
    var fs1 := if HasFlag(u.m.flags, FIELD_ICON) && !u.env.iconWrite.NotOpened? then WriteFile(st.fs, icon, Data) else st.fs;
    if HasFlag(u.m.flags, FIELD_ICON) {
      WriteMade(st.fs, icon, Data, dirs, files);
    }
    WriteMade(fs1, link, node, dirs, files);
    GrownOn(st.fs, fs1, WriteFile(fs1, link, node), dirs, files);
  }

  // What a sweep or a walk leaves was there before.
  lemma ShrunkMade(fs: Tree, r: Tree, dirs: set<Path>, files: set<Path>)
    requires r.Keys <= fs.Keys && forall p | p in r :: r[p] == fs[p]
    ensures Grown(fs, r, dirs, files)
  {
  }

  /** A whole update makes nothing but its folders, its link and its icon. */
  lemma ContinueMade(st: State, u: Update)
    ensures Grown(st.fs, Continue(st, u).st.fs, FoldersOf(st.menu, st.icons, u.m), FilesOf(st.menu, st.icons, u.m))
  {
    hide Protocol.HasFlag, NamesOk, PlanUpdate, Grown, FolderOf, LinkOf, IconOf, FileSystem.Sweep, StoreFiles;
    var dirs, files := FoldersOf(st.menu, st.icons, u.m), FilesOf(st.menu, st.icons, u.m);
    var (planned, plan) := PlanUpdate(st, u.m, u.env);
    PlanMade(st, u);
    GrownSelf(st.fs, dirs);
    GrownMore(st.fs, st.fs, dirs, {}, dirs, files);
    GrownMore(st.fs, planned.fs, dirs, {}, dirs, files);
    if Continue(st, u).ok {
      TargetIsLink(st, u);
      var s1 := planned.(db := planned.db[plan.value.key := plan.value.paths]);
      var s2 := StoreFiles(s1, u.m, u.env, plan.value.paths.link, plan.value.paths.icon);
      StoreMade(s1, u, plan.value.paths.link, plan.value.paths.icon, dirs, files);
      GrownOn(st.fs, planned.fs, s2.fs, dirs, files);
      if Hints(u, HINT_SYNC_END) && s2.sync.Some? {
        SweepExact(s2.fs, s2.sync.value, u.env.faults);
        ShrunkMade(s2.fs, Sweep(s2.fs, s2.sync.value, u.env.faults), dirs, files);
        GrownOn(st.fs, s2.fs, Sweep(s2.fs, s2.sync.value, u.env.faults), dirs, files);
      }
    }
  }

  // Where there is room, a link that is planned can be written.
  lemma RoomToWrite(st: State, us: seq<Update>, u: Update)
    requires Room(st.fs, st.menu, st.icons, us) && u in us && u.env.saveOk
    requires PlanUpdate(st, u.m, u.env).1.Some?
    ensures LinkDone(st, u)
  {
    hide CText, PlanUpdate, FolderOf, FoldersOf, FilesOf, IconOf;
    var planned := PlanUpdate(st, u.m, u.env).0;
    PlanMade(st, u);
    TargetIsLink(st, u);
    GrownMore(st.fs, planned.fs, FoldersOf(st.menu, st.icons, u.m), {}, FoldersOf(st.menu, st.icons, u.m),
              FilesOf(st.menu, st.icons, u.m));
    StaysClear(st.fs, planned.fs, st.menu, st.icons, us, u);
    var folder := FolderOf(st.menu, u.m.appGroup);
    LinkParent(folder, CText(u.m.appDesc.text));
    assert !IsFile(planned.fs, folder) && !IsDir(planned.fs, LinkOf(st.menu, u.m));
  }

  lemma LinkParent(folder: Path, name: wstring)
    requires SEP !in name
    ensures var p := folder + [SEP] + name + LNK; HasParent(p) && Parent(p) == folder
  {
    var p := folder + [SEP] + name + LNK;
    assert p[|folder|] == SEP;
    forall k | |folder| < k < |p| ensures p[k] != SEP {
      if k < |folder| + 1 + |name| {
        assert p[k] == name[k - |folder| - 1];
      } else {
        assert p[k] == LNK[k - |folder| - 1 - |name|];
      }
    }
    assert LastSep(p) == |folder|;
  }

  // In sync mode one update keeps the room and writes its link if it succeeds.
  lemma TurnWritten(st: State, all: seq<Update>, u: Update, first: bool)
    requires st.sync.Some? && Room(st.fs, st.menu, st.icons, all) && u in all && u.env.saveOk
    ensures Count(st, u, first).written == Count(st, u, first).updated
    ensures var s := Sync.Turn(st, u, first).st;
            Room(s.fs, s.menu, s.icons, all) && s.menu == st.menu && s.icons == st.icons
  {
    hide Continue, HandleUpdate, Room, LinkDone, IconDone, Target, Protocol.HasFlag, FolderOf, LinkOf, IconOf, FoldersOf,
         FilesOf;
    TurnIsContinue(st, u, first);
    ContinueKeepsMenu(st, u);
    ContinueMade(st, u);
    StaysClear(st.fs, Continue(st, u).st.fs, st.menu, st.icons, all, u);
    if Sync.Turn(st, u, first).ok {
      SucceedingPlan(st, u);
      RoomToWrite(st, all, u);
    }
  }

  lemma ContinueKeepsMenu(st: State, u: Update)
    ensures Continue(st, u).st.menu == st.menu && Continue(st, u).st.icons == st.icons
  {
    hide FileSystem.Sweep, PlanUpdate, Protocol.HasFlag, NamesOk, FileSystem.WriteFile, FileSystem.Writable;
    PlanMade(st, u);
  }

  lemma {:induction false} RunWritten(st: State, all: seq<Update>, us: seq<Update>, first: bool)
    requires st.sync.Some? && StaysOn(st, us, first) && Room(st.fs, st.menu, st.icons, all)
    requires forall u | u in us :: u in all && u.env.saveOk
    ensures Total(st, us, first).written == Total(st, us, first).updated
    ensures var s := After(st, us, first);
            s.sync.Some? && Room(s.fs, s.menu, s.icons, all) && s.menu == st.menu && s.icons == st.icons
    decreases |us|
  {
    hide Sync.Turn, Room, Count;
    if us != [] {
      assert us[0] in us;
      TurnWritten(st, all, us[0], first);
      RunWritten(Sync.Turn(st, us[0], first).st, all, us[1..], false);
    }
  }

  /** A bracket with room for its links, and saves that succeed, writes every link it updates. */
  lemma BracketWritten(st: State, us: seq<Update>, last: Update)
    requires Bracket(st, us, last) && Room(st.fs, st.menu, st.icons, us + [last])
    requires forall u | u in us + [last] :: u.env.saveOk
    ensures BracketTotal(st, us, last).written == BracketTotal(st, us, last).updated
  {
    hide Sync.Turn, Room, Count, Inv, FileSystem.Snapshot, FileSystem.Prune, Protocol.HasFlag, Total, After, FoldersOf, FilesOf;
    var all := us + [last];
    var s1 := BracketStart(st, us, last);
    assert all[0] in all && last in all && forall u | u in us :: u in all;
    StartShrinks(st, all[0].env);
    ShrunkMade(st.fs, s1.fs, FoldersOf(st.menu, st.icons, last.m), FilesOf(st.menu, st.icons, last.m));
    StaysClear(st.fs, s1.fs, st.menu, st.icons, all, last);
    RunWritten(s1, all, us, true);
    RunSplits(s1, us, last, true);
    TurnWritten(After(s1, us, true), all, last, us == []);
  }

  lemma StartShrinks(st: State, env: Env)
    requires st.sync.None? && env.createOk
    ensures var s := OnSyncStart(st, env).st;
            && s.sync.Some? && s.menu == st.menu && s.icons == st.icons
            && s.fs.Keys <= st.fs.Keys && (forall p | p in s.fs :: s.fs[p] == st.fs[p])
  {
    hide FileSystem.Snapshot;
  }

  // ---- the folders a bracket forgets ----------------------------------------------------

  lemma StoredMade(st: State, u: Update)
    requires PlanUpdate(st, u.m, u.env).1.Some?
    ensures Grown(st.fs, Stored(st, u).fs, FoldersOf(st.menu, st.icons, u.m), FilesOf(st.menu, st.icons, u.m))
  {
    hide Protocol.HasFlag, NamesOk, PlanUpdate, Grown, FolderOf, LinkOf, IconOf, StoreFiles;
    var dirs, files := FoldersOf(st.menu, st.icons, u.m), FilesOf(st.menu, st.icons, u.m);
    var (planned, plan) := PlanUpdate(st, u.m, u.env);
    PlanMade(st, u);
    TargetShape(st, u);
    TargetIsLink(st, u);
    GrownMore(st.fs, planned.fs, dirs, {}, dirs, files);
    var s1 := planned.(db := st.db[Key(u.m.appGroup, u.m.appId) := Target(st, u)]);
    StoreMade(s1, u, plan.value.paths.link, plan.value.paths.icon, dirs, files);
    GrownOn(st.fs, planned.fs, Stored(st, u).fs, dirs, files);
  }

  // Everything the updates of a list can make.
  ghost function Makes(menu: Path, icons: Path, us: seq<Update>): set<Path> {
    set u, p | u in us && p in FoldersOf(menu, icons, u.m) + FilesOf(menu, icons, u.m) :: p
  }

  lemma MakesOne(menu: Path, icons: Path, us: seq<Update>, u: Update)
    requires u in us
    ensures FoldersOf(menu, icons, u.m) + FilesOf(menu, icons, u.m) <= Makes(menu, icons, us)
  {
    hide FoldersOf, FilesOf;
  }

  lemma {:induction false} RunMade(st: State, us: seq<Update>, first: bool, all: seq<Update>)
    requires st.sync.Some? && StaysOn(st, us, first) && forall u | u in us :: u in all
    ensures var s, made := After(st, us, first), Makes(st.menu, st.icons, all);
            Grown(st.fs, s.fs, made, made) && s.menu == st.menu && s.icons == st.icons
    decreases |us|
  {
    hide Sync.Turn, Grown, Continue, FoldersOf, FilesOf, Makes;
    var made := Makes(st.menu, st.icons, all);
    if us == [] {
      GrownSelf(st.fs, made);
      GrownMore(st.fs, st.fs, made, {}, made, made);
    } else {
      var u := us[0];
      assert u in us;
      var next := Sync.Turn(st, u, first).st;
      TurnIsContinue(st, u, first);
      ContinueKeepsMenu(st, u);
      ContinueMade(st, u);
      MakesOne(st.menu, st.icons, all, u);
      GrownMore(st.fs, Continue(st, u).st.fs, FoldersOf(st.menu, st.icons, u.m), FilesOf(st.menu, st.icons, u.m), made, made);
      GrownSelf(st.fs, made);
      GrownMore(st.fs, st.fs, made, {}, made, made);
      RunMade(next, us[1..], false, all);
      GrownOn(st.fs, next.fs, After(st, us, first).fs, made, made);
    }
  }

  // The tree before the sweep has only what was there and what the updates make.
  lemma BracketMade(st: State, us: seq<Update>, last: Update)
    requires Bracket(st, us, last)
    ensures var made := Makes(st.menu, st.icons, us + [last]);
            Grown(st.fs, BeforeSweep(st, us, last).fs, made, made)
  {
    hide Sync.Turn, Grown, Continue, FoldersOf, FilesOf, Makes, Inv, FileSystem.Snapshot, FileSystem.Prune, Protocol.HasFlag,
         After, Stored;
    var all := us + [last];
    var made := Makes(st.menu, st.icons, all);
    var s1 := BracketStart(st, us, last);
    StartShrinks(st, all[0].env);
    ShrunkMade(st.fs, s1.fs, made, made);
    assert last in all && forall u | u in us :: u in all;
    RunMade(s1, us, true, all);
    var mid := After(s1, us, true);
    GrownOn(st.fs, s1.fs, mid.fs, made, made);
    BracketUnfolds(st, us, last);
    RunSplits(s1, us, last, true);
    StartKeeps(st, all[0].env);
    RunInSync(s1, us, true);
    LastTurn(mid, last, us == []);
    SucceedingPlan(mid, last);
    StoredMade(mid, last);
    MakesOne(st.menu, st.icons, all, last);
    GrownMore(mid.fs, Stored(mid, last).fs, FoldersOf(st.menu, st.icons, last.m), FilesOf(st.menu, st.icons, last.m), made, made);
    GrownOn(st.fs, mid.fs, Stored(mid, last).fs, made, made);
  }

  /**
   A folder nobody reports any more: if all that was in it when the bracket began were files the
   sweep takes, and the updates put nothing into it, the folder itself is gone at the end.
   */
  lemma ForgottenFolderGoes(st: State, us: seq<Update>, last: Update, d: Path)
    requires Bracket(st, us, last) && d !in last.env.faults.unremovable
    requires exists p :: p in st.fs && ChildOf(p, d)
    requires forall p | p in st.fs && ChildOf(p, d) :: IsFile(st.fs, p) && p in Swept(st, us, last)
    requires forall p | p in Makes(st.menu, st.icons, us + [last]) :: !ChildOf(p, d)
    ensures d !in After(st, us + [last], false).fs
  {
    hide Bracket, Makes, After, Swept, FileSystem.ChildOf, BeforeSweep, Inv, Total, LinkFiles, TallyShape;
    var pre := BeforeSweep(st, us, last).fs;
    BracketMade(st, us, last);
    FilesReachSweep(st, us, last);
    var p :| p in st.fs && ChildOf(p, d);
    assert p in Files(st.fs);
    assert p in pre && IsDir(pre, d) by { DirectoryOf(pre, p, d); }
    MarkAndSweepFolders(st, us, last, d);
  }

  lemma FilesReachSweep(st: State, us: seq<Update>, last: Update)
    requires Bracket(st, us, last)
    ensures Files(st.fs).Keys <= Files(BeforeSweep(st, us, last).fs).Keys && WellFormed(BeforeSweep(st, us, last).fs)
  {
    hide LinkFiles, FileSystem.Files, FileSystem.Snapshot, After, Total, StaysOn, TallyShape, Protocol.HasFlag,
         FileSystem.Prune, FileSystem.WellFormed, BeforeSweep;
    StartKeeps(st, (us + [last])[0].env);
    var full := BracketEnds(st, us, last);
  }

  lemma DirectoryOf(fs: Tree, p: Path, d: Path)
    requires WellFormed(fs) && p in fs && ChildOf(p, d)
    ensures IsDir(fs, d)
  {
  }

  // ---- the whole way --------------------------------------------------------------------

  /** The sender's side of a sync: every PDU is a hinted update, the first starts, the last ends. */
  predicate SyncStream(ps: seq<Pdu>) {
    && ps != [] && AllUpdates(ps)
    && (forall i | 0 <= i < |ps| :: HasFlag(ps[i].flags, HINT_SYNC))
    && HasFlag(ps[0].flags, HINT_SYNC_START)
    && (forall i | 0 <= i < |ps| :: HasFlag(ps[i].flags, HINT_SYNC_END) <==> i == |ps| - 1)
  }

  lemma StreamBrackets(ps: seq<Pdu>, n: nat, world: World)
    requires SyncStream(ps)
    ensures StartsAndEnds(UpdatesOf(ps, n, world))
    ensures forall u | u in UpdatesOf(ps, n, world) :: Hints(u, HINT_SYNC)
  {
    hide Protocol.HasFlag, Codec.Framed, UpdatesOf;
    var us := UpdatesOf(ps, n, world);
    forall i | 0 <= i < |us| ensures us[i].m.flags == ps[i].flags {
      UpdateAt(ps, n, world, i);
    }
  }

  /** What the environment owes a sync: memory, saves and deletions that succeed. */
  ghost predicate Obliging(world: World) {
    forall n: nat :: world(n).allocOk && world(n).saveOk && world(n).faults.undeletable == {}
  }

  /**
   A sync sent as one buffer and received without failure leaves exactly the links its updates
   name in the Start menu, whatever was there before, where nothing stands in the way of them.
   */
  lemma StreamLeavesItsLinks(st: State, ps: seq<Pdu>, world: World)
    requires Inv(st) && st.handshake && !st.closed && st.sync.None?
    requires SyncStream(ps) && Obliging(world)
    requires Receive(st, EncodeAll(ps), world).ok
    requires Room(st.fs, st.menu, st.icons, UpdatesOf(ps, st.handled, world))
    ensures MenuLinks(Receive(st, EncodeAll(ps), world).st.fs, st.menu) ==
            LinksOf(st.menu, UpdatesOf(ps, st.handled, world))
  {
    hide Protocol.HasFlag, Codec.Framed, Inv, LinksOf, MenuLinks, Bracket, Receive, HandleAll, BracketTotal,
         After, AllSucceed, Protocol.EncodeAll, Codec.ReceivedAll, UpdatesOf, BracketStart, Room;
    var us := UpdatesOf(ps, st.handled, world);
    var front, last := us[..|us| - 1], us[|us| - 1];
    assert front + [last] == us;
    StreamEffect(st, ps, world);
    assert Counted(st, st.handled) == st;
    HandledIsAfter(st, ps, st.handled, world);
    StreamBrackets(ps, st.handled, world);
    SucceedingBracket(st, front, last);
    HintedStream(BracketStart(st, front, last), us, true);
    Environments(ps, st.handled, world);
    BracketWritten(st, front, last);
    SyncKeepsExactlyReported(st, front, last);
    BracketLinks(st, front, last);
    assert Receive(st, EncodeAll(ps), world).st.fs == After(st, us, false).fs;
  }

  lemma {:induction false} Environments(ps: seq<Pdu>, n: nat, world: World)
    requires AllUpdates(ps) && Obliging(world)
    ensures forall u | u in UpdatesOf(ps, n, world) :: u.env.saveOk && u.env.faults.undeletable == {}
    decreases |ps|
  {
    hide Codec.Framed;
    if ps != [] {
      assert ps[0] in ps;
      Environments(ps[1..], n + 1, world);
    }
  }
}
