/**
 The channel callback as the source has it: an object whose methods update its fields, its two
 file databases and the disk, each proved to do what the functions of Receiver say.
 */
module Callback {
  import opened Wire
  import opened Protocol
  import opened Reader
  import opened FileSystem
  import opened FileDB
  import opened Receiver

  class WSLDVCCallback {
    const disk: Disk
    var fileDB: WSLDVCFileDB?
    var fileDBSync: WSLDVCFileDB?    // valid only during sync
    var channelClosed: bool
    var handShakeCompleted: bool
    var serverVersion: u16
    var appProvider: wstring
    var appProviderGUID: u32
    var appMenuPath: Path
    var iconPath: Path
    var expandedPathObj: wstring
    var handled: nat
    var replies: nat
    var windows: seq<Window>

    ghost function State(): Receiver.State
      reads this, disk, fileDB, fileDBSync
    {
      Receiver.State.State(disk.nodes,
                  if fileDB == null then map[] else fileDB.Model(),
                  if fileDBSync == null then None else Some(fileDBSync.Model().Keys),
                  handShakeCompleted, channelClosed, serverVersion, appProvider, appProviderGUID, appMenuPath,
                  iconPath, expandedPathObj, handled, replies, windows)
    }

    /** Well-formed objects and the invariant; the table is missing only after OnClose. */
    ghost predicate Valid()
      reads this, disk, fileDB, fileDBSync
    {
      && (fileDB == null ==> channelClosed)
      && (fileDB != null ==> fileDB.Valid())
      && (fileDBSync != null ==> fileDBSync.Valid() && fileDBSync != fileDB)
      && Inv(State())
    }

    // Nothing but the receiver's own objects changes hands: the permanent table stays the same
    // object, and a sync table is the old one or a new one.
    twostate predicate SameObjects()
      reads this
    {
      && fileDB == old(fileDB)
      && (fileDBSync == old(fileDBSync) || fileDBSync == null || fresh(fileDBSync))
    }

    constructor (disk: Disk)
      requires WellFormed(disk.nodes)
      ensures Valid() && fresh(fileDB) && fileDBSync == null && this.disk == disk
      ensures State() == Receiver.State.State(disk.nodes, map[], None, false, false, 0, Zeros(), 0, [], [], [], 0, 0, [])
    {
      this.disk := disk;
      fileDB := new WSLDVCFileDB();
      fileDBSync := null;
      channelClosed, handShakeCompleted, serverVersion := false, false, 0;
      appProvider, appProviderGUID := Zeros(), 0;
      appMenuPath, iconPath, expandedPathObj := [], [], [];
      handled, replies, windows := 0, 0, [];
    }

    method OnSyncStart(env: Env) returns (ok: bool)
      requires Valid()
      modifies this`fileDBSync, disk
      ensures Valid() && SameObjects()
      ensures Outcome(State(), ok) == Receiver.OnSyncStart(old(State()), env)
    {
      hide FileSystem.WellFormed, FileSystem.Snapshot, FileSystem.Prune, AddIds;
      if fileDBSync != null || !env.createOk {
        return false;
      }
      PruneFiles(disk.nodes, appMenuPath, env.faults);
      AddIdsKeys(Snapshot(disk.nodes, appMenuPath, env.faults));
      fileDBSync := new WSLDVCFileDB();
      fileDBSync.AddAllSubFolderFiles(disk, appMenuPath, env.faults);
      ok := true;
    }

    method OnSyncEnd(cleanupFiles: bool, env: Env)
      requires Valid()
      modifies this`fileDBSync, disk, fileDBSync
      ensures Valid() && fileDBSync == null
      ensures State() == Receiver.OnSyncEnd(old(State()), cleanupFiles, env)
    {
      hide FileSystem.WellFormed, FileSystem.Sweep;
      if fileDBSync != null {
        SweepExact(disk.nodes, fileDBSync.Model().Keys, env.faults);
        if cleanupFiles {
          fileDBSync.DeleteAllFileIdFiles(disk, env.faults);
        }
        fileDBSync.OnClose();
        fileDBSync := null;
      }
    }

    method OnCaps(buf: seq<byte>, buffer: nat, size: nat, env: Env) returns (ok: bool, buffer': nat, size': nat)
      requires Valid() && buffer + size == |buf|
      modifies this`serverVersion, this`appProvider, this`appProviderGUID, this`appMenuPath, this`iconPath,
               this`expandedPathObj, this`handShakeCompleted, this`replies, disk
      ensures Valid()
      ensures buffer <= buffer' && buffer' + size' == |buf|
      ensures match ParseCaps(buf[buffer..])
              case Fail => !ok && State() == old(State()).(version := VersionSeen(old(State()).version, buf[buffer..]))
              case Ok(m, u) => Outcome(State(), ok) == HandleCaps(old(State()), m, env) && u == buf[buffer'..]
    {
      hide Inv, HandleCaps, Protocol.ParseCaps;
      var got, caps, version, cur, len := ReadAppListServerCaps(buf, buffer, size, serverVersion);
      ok, buffer', size' := false, cur, len;
      ghost var st := State();
      if !got {
        VersionKeepsInv(st, version);
        serverVersion := version;
        return;
      }
      CapsKeepsInv(st, caps, env);
      ok := ApplyCaps(caps, version, env);
    }

    // The effects of a caps message once it has been read.
    method ApplyCaps(caps: Msg, version: u16, env: Env) returns (ok: bool)
      requires caps.CapsMsg? && version == caps.version
      modifies this`serverVersion, this`appProvider, this`appProviderGUID, this`appMenuPath, this`iconPath,
               this`expandedPathObj, this`handShakeCompleted, this`replies, disk
      ensures Outcome(State(), ok) == HandleCaps(old(State()), caps, env)
    {
      hide CapsNames, CapsPaths, Reply;
      ok := ApplyNames(caps, version, env);
      if !ok {
        return;
      }
      ok := ApplyPaths(env);
      if !ok {
        return;
      }
      ok := SendReply(env);
    }

    method ApplyNames(caps: Msg, version: u16, env: Env) returns (ok: bool)
      requires caps.CapsMsg? && version == caps.version
      modifies this`serverVersion, this`appProvider, this`appProviderGUID
      ensures Outcome(State(), ok) == CapsNames(old(State()), caps, env)
    {
      hide CText, Overlay, BadProvider;
      serverVersion := version;
      appProvider := Overlay(appProvider, caps.name);
      if BadProvider(CText(appProvider)) {
        return false;
      }
      if version >= 4 {
        if |CText(caps.uniqueId.text)| + 2 >= 40 || env.guid.None? {
          return false;
        }
        appProviderGUID := env.guid.value;
      }
      ok := true;
    }

    method SendReply(env: Env) returns (ok: bool)
      modifies this`handShakeCompleted, this`replies
      ensures Outcome(State(), ok) == Reply(old(State()), env)
    {
      ok := serverVersion >= CHANNEL_VERSION && env.writeOk;
      if ok {
        replies := replies + 1;
      }
      handShakeCompleted := ok;
    }

    method ApplyPaths(env: Env) returns (ok: bool)
      modifies this`appMenuPath, this`iconPath, this`expandedPathObj, disk
      ensures Outcome(State(), ok) == CapsPaths(old(State()), env)
    {
      hide BuildMenuPath, BuildIconPath, FindExe;
      ok := ApplyMenuPath(env);
      if !ok {
        return;
      }
      ok := ApplyIconPath(env);
      if !ok {
        return;
      }
      ok := ApplyExe(env);
    }

    method ApplyMenuPath(env: Env) returns (ok: bool)
      modifies this`appMenuPath, disk
      ensures Outcome(State(), ok) == BuildMenuPath(old(State()), env)
    {
      hide CText, W, FileSystem.DirectoryReady, FileSystem.CreateDirectory;
      if env.startMenu.None? {
        return false;
      }
      appMenuPath := env.startMenu.value + PROGRAMS + CText(appProvider);
      if |appMenuPath| >= MAX_PATH {
        appMenuPath := [];
        return false;
      }
      ok := DirectoryReady(disk.nodes, appMenuPath, env.faults);
      disk.nodes := CreateDirectory(disk.nodes, appMenuPath, env.faults);
    }

    method ApplyIconPath(env: Env) returns (ok: bool)
      modifies this`iconPath, disk
      ensures Outcome(State(), ok) == BuildIconPath(old(State()), env)
    {
      hide CText, W, FileSystem.DirectoryReady;
      if env.tempPath.None? || |env.tempPath.value| >= MAX_PATH {
        return false;
      }
      iconPath := env.tempPath.value;
      if |iconPath| + 14 + |CText(appProvider)| > MAX_PATH {
        return false;
      }
      var dir := iconPath + W("WSLDVCPlugin");
      iconPath := dir + [SEP];
      if !DirectoryReady(disk.nodes, dir, env.faults) {
        return false;
      }
      disk.nodes := CreateDirectory(disk.nodes, dir, env.faults);
      iconPath := iconPath + CText(appProvider);
      ok := DirectoryReady(disk.nodes, iconPath, env.faults);
      disk.nodes := CreateDirectory(disk.nodes, iconPath, env.faults);
    }

    method ApplyExe(env: Env) returns (ok: bool)
      modifies this`expandedPathObj
      ensures Outcome(State(), ok) == FindExe(old(State()), env)
    {
      hide W;
      if env.install.None? || |env.install.value| >= MAX_PATH {
        return false;
      }
      expandedPathObj := env.install.value + W("\\wslg.exe");
      if |expandedPathObj| >= MAX_PATH {
        expandedPathObj := [];
        return false;
      }
      ok := env.workingDirOk;
    }

    // base[\group]\leaf.ext, with the directories on the way created on the disk.
    method MakeFilePath(base: Path, group: Field, leaf: wstring, ext: wstring, faults: Faults)
      returns (path: Option<Path>)
      modifies disk
      ensures (disk.nodes, path) == BuildFilePath(old(disk.nodes), base, group, leaf, ext, faults)
    {
      hide CText, FileSystem.DirectoryReady, FileSystem.CreateDirectory;
      path := None;
      if |base| >= MAX_PATH || !DirectoryReady(disk.nodes, base, faults) {
        return;
      }
      disk.nodes := CreateDirectory(disk.nodes, base, faults);
      var dir := base;
      if group.length > 0 {
        dir := dir + [SEP] + CText(group.text);
        if |dir| >= MAX_PATH || !DirectoryReady(disk.nodes, dir, faults) {
          return;
        }
        disk.nodes := CreateDirectory(disk.nodes, dir, faults);
      }
      dir := dir + [SEP] + leaf + ext;
      if |dir| < MAX_PATH {
        path := Some(dir);
      }
    }

    method MakePlan(m: Msg, env: Env) returns (plan: Option<Plan>)
      requires m.UpdateMsg?
      modifies disk
      ensures (State(), plan) == PlanUpdate(old(State()), m, env)
    {
      hide CText, BuildFilePath, Protocol.HasFlag, CommandLine, W, Key;
      plan := None;
      var icon: Option<Path> := Some([]);
      if HasFlag(m.flags, FIELD_ICON) {
        icon := MakeFilePath(iconPath, m.appGroup, CText(m.appId.text), ICO, env.faults);
        if icon.None? {
          return;
        }
      }
      var link := MakeFilePath(appMenuPath, m.appGroup, CText(m.appDesc.text), LNK, env.faults);
      if link.None? {
        return;
      }
      var exeArgs := CommandLine(CText(appProvider),
                                 if m.appWorkingDir.length > 0 then CText(m.appWorkingDir.text) else W("~"),
                                 CText(m.appExecPath.text));
      var key := Key(m.appGroup, m.appId);
      if |exeArgs| >= MAX_PATH || |key| >= MAX_PATH {
        return;
      }
      plan := Some(Plan(key, Paths(link.value, icon.value, expandedPathObj, exeArgs)));
    }

    // What was written is no longer missing from the running sync.
    method TickOff(link: Path, icon: Path, hasIcon: bool)
      requires fileDBSync != null && fileDBSync.Valid() && fileDBSync != fileDB
      modifies fileDBSync
      ensures fileDBSync.Valid()
      ensures fileDBSync.Model().Keys == old(fileDBSync.Model().Keys) - ({link} + if hasIcon then {icon} else {})
    {
      hide ModelOf, Sorted;
      ghost var ids := fileDBSync.Model().Keys;
      var _ := fileDBSync.OnFileRemoved(link);
      assert fileDBSync.Model().Keys == ids - {link};
      if hasIcon {
        var _ := fileDBSync.OnFileRemoved(icon);
        assert fileDBSync.Model().Keys == ids - ({link} + {icon});
      }
      assert ids - ({link} + {}) == ids - {link};
    }

    method WriteFiles(m: Msg, env: Env, link: Path, icon: Path)
      requires Valid() && m.UpdateMsg?
      requires HasFlag(m.flags, HINT_SYNC) ==> fileDBSync != null
      modifies disk, fileDBSync
      ensures Valid()
      ensures State() == StoreFiles(old(State()), m, env, link, icon)
    {
      hide Protocol.HasFlag, Inv, FileSystem.WriteFile, FileSystem.Writable, ModelOf, Sorted;
      StoreKeepsInv(State(), m, env, link, icon);
      var hasIcon := false;
      if HasFlag(m.flags, FIELD_ICON) {
        hasIcon := env.iconWrite.Saved? && Writable(disk.nodes, icon);
        if !env.iconWrite.NotOpened? {
          disk.nodes := WriteFile(disk.nodes, icon, Data);
        }
      }
      if env.saveOk {
        disk.nodes := WriteFile(disk.nodes, link, Link(if hasIcon then icon else []));
      }
      if HasFlag(m.flags, HINT_SYNC) {
        TickOff(link, icon, hasIcon);
      }
    }

    method ApplyUpdate(m: Msg, env: Env) returns (ok: bool)
      requires Valid() && m.UpdateMsg? && fileDB != null
      modifies this`fileDBSync, disk, fileDB, fileDBSync
      ensures Valid() && SameObjects()
      ensures Outcome(State(), ok) == HandleUpdate(old(State()), m, env)
    {
      hide Protocol.HasFlag, Inv, Receiver.OnSyncStart, Receiver.OnSyncEnd, PlanUpdate, StoreFiles, NamesOk, ModelOf, Sorted;
      ok := false;
      ghost var st := State();
      AdmitKeepsInv(st, m, env);
      if HasFlag(m.flags, HINT_SYNC_START) {
        var started := OnSyncStart(env);
        if !started {
          return;
        }
      }
      if HasFlag(m.flags, HINT_SYNC) || HasFlag(m.flags, HINT_SYNC_END) {
        if fileDBSync == null {
          return;
        }
      }
      if !NamesOk(m) {
        return;
      }
      ghost var admitted := State();
      assert AdmitUpdate(st, m, env) == Outcome(admitted, true);
      PlanKeeps(admitted, m, env);
      var plan := MakePlan(m, env);
      if plan.None? {
        return;
      }
      ok := CommitPlan(m, env, plan.value);
    }

    method CommitPlan(m: Msg, env: Env, plan: Plan) returns (ok: bool)
      requires Valid() && m.UpdateMsg? && fileDB != null && BoundedPaths(plan.paths)
      requires HasFlag(m.flags, HINT_SYNC) ==> fileDBSync != null
      modifies this`fileDBSync, disk, fileDB, fileDBSync
      ensures Valid() && SameObjects()
      ensures Outcome(State(), ok) == CommitUpdate(old(State()), m, env, plan)
    {
      hide Protocol.HasFlag, Receiver.OnSyncEnd, StoreFiles, FileSystem.WellFormed, ModelOf, Sorted;
      ghost var st := State();
      ok := fileDB.OnFileAdded(plan.key, plan.paths);
      if !ok {
        assert fileDB.Model() == st.db;
        return;
      }
      assert fileDB.Model() == st.db[plan.key := plan.paths];
      WriteFiles(m, env, plan.paths.link, plan.paths.icon);
      if HasFlag(m.flags, HINT_SYNC_END) {
        OnSyncEnd(true, env);
      }
    }

    method OnUpdateAppList(buf: seq<byte>, buffer: nat, size: nat, env: Env)
      returns (ok: bool, buffer': nat, size': nat)
      requires Valid() && fileDB != null && buffer + size == |buf|
      modifies this`fileDBSync, disk, fileDB, fileDBSync
      ensures Valid() && SameObjects()
      ensures buffer <= buffer' && buffer' + size' == |buf|
      ensures match ParseUpdate(buf[buffer..], env.allocOk)
              case Fail => !ok && State() == old(State())
              case Ok(m, u) => Outcome(State(), ok) == HandleUpdate(old(State()), m, env) && u == buf[buffer'..]
    {
      hide Protocol.HasFlag, Inv, HandleUpdate, Protocol.ParseUpdateStrings, Protocol.ParseIcon;
      var got, m, cur, len := ReadAppListUpdate(buf, buffer, size);
      ok, buffer', size' := false, buffer, size;
      if !got {
        return;
      }
      if HasFlag(m.flags, FIELD_ICON) {
        var icon;
        got, icon, cur, len := ReadAppListIconData(buf, cur, len, env.allocOk);
        if !got {
          return;
        }
        m := m.(icon := Some(icon));
      }
      buffer', size' := cur, len;
      ok := ApplyUpdate(m, env);
    }

    method OnDeleteAppList(buf: seq<byte>, buffer: nat, size: nat, env: Env)
      returns (ok: bool, buffer': nat, size': nat)
      requires Valid() && fileDB != null && buffer + size == |buf|
      modifies disk, fileDB
      ensures Valid()
      ensures buffer <= buffer' && buffer' + size' == |buf|
      ensures match ParseDelete(buf[buffer..])
              case Fail => !ok && State() == old(State())
              case Ok(m, u) => Outcome(State(), ok) == HandleDelete(old(State()), m, env) && u == buf[buffer'..]
    {
      hide Protocol.ParseDelete, FileSystem.WellFormed, ModelOf, Sorted, Key, FileSystem.DeleteFile;
      var got, m, cur, len := ReadAppListDelete(buf, buffer, size);
      ok, buffer', size' := false, cur, len;
      if !got {
        return;
      }
      DeleteKeepsInv(State(), m, env);
      var key := Key(m.appGroup, m.appId);
      if |key| >= MAX_PATH {
        return;
      }
      var found, files := fileDB.FindFiles(key, MAX_PATH, MAX_PATH, 0, 0);
      if !found {
        return;
      }
      if files.link != [] {
        disk.nodes := DeleteFile(disk.nodes, files.link, env.faults);
      }
      if files.icon != [] {
        disk.nodes := DeleteFile(disk.nodes, files.icon, env.faults);
      }
      var _ := fileDB.OnFileRemoved(key);
      ok := true;
    }

    method OnAssociateWindowId(buf: seq<byte>, buffer: nat, size: nat)
      returns (ok: bool, buffer': nat, size': nat)
      requires Valid() && fileDB != null && buffer + size == |buf|
      modifies this`windows
      ensures Valid()
      ensures buffer <= buffer' && buffer' + size' == |buf|
      ensures if old(State()).version < 4 then !ok && State() == old(State())
              else match ParseAssociate(buf[buffer..])
                   case Fail => !ok && State() == old(State())
                   case Ok(m, u) => Outcome(State(), ok) == HandleAssociate(old(State()), m) && u == buf[buffer'..]
    {
      hide Protocol.ParseAssociate, FileSystem.WellFormed, ModelOf, Sorted, Key, CText, W, CommandLine;
      ok, buffer', size' := false, buffer, size;
      if serverVersion < 4 {
        return;
      }
      var got, m, cur, len := ReadAssociateWindowId(buf, buffer, size);
      if !got {
        return;
      }
      buffer', size' := cur, len;
      var windowId := appProviderGUID * TWO_32 + m.appWindowId;
      if windowId == 0 {
        return;
      }
      var key := Key(m.appGroup, m.appId);
      if |key| >= MAX_PATH {
        return;
      }
      var found, files := fileDB.FindFiles(key, 0, MAX_PATH, MAX_PATH, MAX_PATH);
      var command, icon: wstring := [], [];
      if found {
        command, icon := files.exe + [SPACE] + files.args, files.icon;
        if |command| >= MAX_PATH {
          return;
        }
      } else if CText(m.appExecPath.text) != [] {
        command := expandedPathObj + [SPACE]
                   + CommandLine(CText(appProvider), W("~"), CText(m.appExecPath.text));
        if |command| >= MAX_PATH {
          return;
        }
      }
      windows := windows + [Window(windowId, CText(m.appDesc.text), command, icon)];
      ok := true;
    }

    // One message behind its header: the dispatch of the receive loop.
    method Dispatch(buf: seq<byte>, buffer: nat, size: nat, header: Header, env: Env)
      returns (ok: bool, buffer': nat, size': nat)
      requires Valid() && fileDB != null && buffer + size == |buf|
      modifies this, disk, fileDB, fileDBSync
      ensures Valid() && SameObjects()
      ensures buffer <= buffer' && buffer' + size' == |buf|
      ensures Dispatched(old(State()), header.cmdId, buf[buffer..], env, State(), ok, buf[buffer'..])
    {
      hide Inv, Protocol.ParseCaps, Protocol.ParseUpdate, Protocol.ParseDelete, Protocol.ParseAssociate, HandleCaps,
           HandleUpdate, HandleDelete, HandleAssociate, VersionSeen, ModelOf, Sorted;
      ok, buffer', size' := false, buffer, size;
      if header.cmdId == CMDID_CAPS {
        ok, buffer', size' := OnCaps(buf, buffer, size, env);
      } else if !handShakeCompleted {
        return;
      } else if header.cmdId == CMDID_UPDATE_APPLIST {
        ok, buffer', size' := OnUpdateAppList(buf, buffer, size, env);
      } else if header.cmdId == CMDID_DELETE_APPLIST {
        ok, buffer', size' := OnDeleteAppList(buf, buffer, size, env);
      } else if header.cmdId == CMDID_DELETE_APPLIST_PROVIDER {
        ok := true;
      } else if header.cmdId == CMDID_ASSOCIATE_WINDOW_ID {
        ok, buffer', size' := OnAssociateWindowId(buf, buffer, size);
      }
    }

    /** The receive loop: it refines Receive, and each message costs at least its header. */
    method OnDataReceived(buf: seq<byte>, world: World) returns (ok: bool)
      requires Valid()
      modifies this, disk, fileDB, fileDBSync
      ensures Valid() && SameObjects()
      ensures Outcome(State(), ok) == Receive(old(State()), buf, world)
    {
      hide Inv, Protocol.ParseHeader, Step, Dispatched, ModelOf, Sorted;
      ok := true;
      var cur: nat, len: nat := 0, |buf|;
      assert buf[0..] == buf;
      if channelClosed {
        return;
      }
      while len > 0 && !channelClosed
        invariant Valid() && SameObjects() && fileDB != null
        invariant ok && cur + len == |buf|
        invariant Receive(State(), buf[cur..], world) == Receive(old(State()), buf, world)
        decreases len
      {
        ghost var st, s := State(), buf[cur..];
        label loop:
        var header;
        ok, header, cur, len := ReadAppListHeader(buf, cur, len);
        if !ok {
          StepHeaderFails(st, s, world);
          return;
        }
        HandledKeepsInv(st);
        handled := handled + 1;
        ok, cur, len := Dispatch(buf, cur, len, header, world(handled - 1));
        StepIsDispatch(st, s, world, State(), ok, buf[cur..]);
        if !ok {
          return;
        }
      }
      assert len == 0 ==> buf[cur..] == [];
    }

    method OnClose(env: Env)
      requires Valid() && fileDB != null
      modifies this, disk, fileDB, fileDBSync
      ensures Valid() && fileDB == null && fileDBSync == null
      ensures State() == Close(old(State()))
    {
      hide FileSystem.WellFormed;
      channelClosed := true;
      OnSyncEnd(false, env);
      fileDB.OnClose();
      fileDB := null;
    }
  }

  function Zeros(): (z: wstring)
    ensures |z| == MAX_PATH
  {
    seq(MAX_PATH, _ => 0)
  }

  lemma AddIdsKeys(ids: set<Path>)
    ensures AddIds(map[], ids).Keys == ids
  {
  }

  lemma VersionKeepsInv(st: State, version: u16)
    requires Inv(st)
    ensures Inv(st.(version := version))
  {
  }

  lemma HandledKeepsInv(st: State)
    requires Inv(st)
    ensures Inv(st.(handled := st.handled + 1))
  {
  }

  // The second half of Step: what follows a header that was read.
  ghost predicate Dispatched(st: State, cmdId: u32, t: seq<byte>, env: Env, st': State, ok: bool, rest: seq<byte>) {
    if Refused(st, cmdId) then st' == st && !ok
    else if cmdId == CMDID_DELETE_APPLIST_PROVIDER then st' == st && ok && rest == t
    else
      match ParseBody(cmdId, t, env.allocOk)
      case Fail => !ok && st' == if cmdId == CMDID_CAPS then st.(version := VersionSeen(st.version, t)) else st
      case Ok(m, u) => Outcome(st', ok) == Handle(st, m, env) && rest == u
  }

  lemma StepIsDispatch(st: State, s: seq<byte>, world: World, st': State, ok: bool, rest: seq<byte>)
    requires ParseHeader(s).Ok?
    requires Dispatched(st.(handled := st.handled + 1), ParseHeader(s).value.cmdId, ParseHeader(s).rest,
                        world(st.handled), st', ok, rest)
    ensures Step(st, s, world).st == st' && Step(st, s, world).ok == ok
    ensures ok ==> Step(st, s, world).rest == rest
    ensures st'.closed == st.closed
  {
    hide Protocol.ParseHeader, Protocol.ParseBody, HandleCaps, HandleUpdate, HandleDelete, HandleAssociate, VersionSeen;
    ClosedUnchanged(st, s, world);
  }

  lemma StepHeaderFails(st: State, s: seq<byte>, world: World)
    requires ParseHeader(s).Fail?
    ensures Step(st, s, world) == Turn(st, s, false)
  {
  }

  // No message opens or closes the channel.
  lemma ClosedUnchanged(st: State, s: seq<byte>, world: World)
    ensures Step(st, s, world).st.closed == st.closed
  {
    hide Protocol.ParseBody, HandleCaps, HandleUpdate, HandleDelete, HandleAssociate;
    if ParseHeader(s).Ok? {
      var h, t := ParseHeader(s).value, ParseHeader(s).rest;
      var env, st0 := world(st.handled), st.(handled := st.handled + 1);
      var r := ParseBody(h.cmdId, t, env.allocOk);
      if r.Ok? {
        HandlersKeepClosed(st0, r.value, env);
      }
    }
  }

  lemma HandlersKeepClosed(st: State, m: Msg, env: Env)
    ensures Handle(st, m, env).st.closed == st.closed
  {
    match m
    case CapsMsg(_, _, _) => CapsKeepsClosed(st, m, env);
    case UpdateMsg(_, _, _, _, _, _, _) => UpdateKeepsClosed(st, m, env);
    case _ => hide FileSystem.DeleteFile, Key, CText, CommandLine, W;
  }

  lemma CapsKeepsClosed(st: State, m: Msg, env: Env)
    requires m.CapsMsg?
    ensures HandleCaps(st, m, env).st.closed == st.closed
  {
    hide CText, W, BadProvider, Overlay, BuildMenuPath, BuildIconPath;
    var s := CapsNames(st, m, env).st;
    MenuKeepsClosed(s, env);
    IconsKeepClosed(BuildMenuPath(s, env).st, env);
  }

  lemma MenuKeepsClosed(st: State, env: Env)
    ensures BuildMenuPath(st, env).st.closed == st.closed
  {
    hide FileSystem.CreateDirectory, FileSystem.DirectoryReady, CText, W;
  }

  lemma IconsKeepClosed(st: State, env: Env)
    ensures BuildIconPath(st, env).st.closed == st.closed
  {
    hide FileSystem.CreateDirectory, FileSystem.DirectoryReady, CText, W;
  }

  lemma UpdateKeepsClosed(st: State, m: Msg, env: Env)
    requires m.UpdateMsg?
    ensures HandleUpdate(st, m, env).st.closed == st.closed
  {
    hide FileSystem.Sweep, FileSystem.Prune, FileSystem.Snapshot, BuildFilePath, CText, Key, W, CommandLine,
         Protocol.HasFlag, NamesOk, FileSystem.WriteFile, FileSystem.Writable;
  }
}
