/**
 What each message does to the receiver, as functions on its whole state: the file tree, the
 permanent file table, the set of paths a running sync has not yet seen, and the flags.
 */
module Receiver {
  import opened Wire
  import opened Protocol
  import opened FileSystem
  import opened FileDB

  const MAX_PATH: int := 260

  const DOT: wchar := 0x2e
  const QUOTE: wchar := 0x22
  const SPACE: wchar := 0x20
  const ICO: wstring := [0x2e, 0x69, 0x63, 0x6f]          // ".ico"

  /** A text literal as wide characters. */
  function W(s: string): (w: wstring)
    ensures |w| == |s| && forall i | 0 <= i < |s| :: w[i] == s[i] as int % 0x1_0000
  {
    seq(|s|, i requires 0 <= i < |s| => s[i] as int % 0x1_0000)
  }

  const PROGRAMS: wstring := W("\\Programs\\")

  // ---- the environment ------------------------------------------------------------------

  /** What CreateIconFile can run into: no file, a file without its content, or success. */
  datatype IconWrite = NotOpened | NotWritten | Saved

  /** The outcome of every outside call one message can make. */
  datatype Env = Env(
    allocOk: bool,                  // LocalAlloc for an icon
    createOk: bool,                 // WSLDVCFileDB_CreateInstance for a sync
    faults: Faults,                 // failing file operations
    iconWrite: IconWrite,           // CreateIconFile
    saveOk: bool,                   // CreateShellLink
    guid: Option<u32>,              // CLSIDFromString: Data1 of the parsed GUID
    startMenu: Option<wstring>,     // SHGetKnownFolderPath
    tempPath: Option<wstring>,      // GetTempPathW, with its trailing backslash
    install: Option<wstring>,       // the install location in the registry
    workingDirOk: bool,             // ExpandEnvironmentStringsW
    writeOk: bool)                  // the reply on the channel

  /** The environment over a run: one Env per message handled. */
  type World = nat -> Env

  /** What a window found on the desktop is told about its application. */
  datatype Window = Window(id: nat, name: wstring, command: wstring, icon: wstring)

  datatype State = State(
    fs: Tree,
    db: map<wstring, Paths>,        // m_spFileDB
    sync: Option<set<Path>>,        // m_spFileDBSync: the ids still unreported
    handshake: bool,
    closed: bool,
    version: u16,                   // m_serverCaps.version
    provider: wstring,              // m_appProvider, the whole array
    guid: u32,
    menu: Path,
    icons: Path,
    exe: wstring,
    handled: nat,                   // messages whose header was read
    replies: nat,                   // caps replies written to the channel
    windows: seq<Window>)           // taskbar updates made

  datatype Outcome = Outcome(st: State, ok: bool)

  // ---- caps -----------------------------------------------------------------------------

  /** memcpy of a name into the array: its bytes only, no terminator behind them. */
  function Overlay(before: wstring, name: Field): (a: wstring)
    ensures |a| == |before|
  {
    seq(|before|, i requires 0 <= i < |before| =>
      if i < |name.text| then name.text[i]
      else if i == |name.text| && name.length % 2 == 1 then before[i] - before[i] % 0x100
      else before[i])
  }

  function ProviderName(st: State): wstring { CText(st.provider) }

  predicate HasDotDot(w: wstring) {
    exists i | 0 <= i < |w| - 1 :: w[i] == DOT && w[i + 1] == DOT
  }

  predicate BadProvider(w: wstring) {
    HasDotDot(w) || QUOTE in w || SPACE in w
  }

  function CapsGuid(st: State, m: Msg, env: Env): Outcome
    requires m.CapsMsg?
  {
    if m.version < 4 then Outcome(st, true)
    else if |CText(m.uniqueId.text)| + 2 >= 40 || env.guid.None? then Outcome(st, false)
    else Outcome(st.(guid := env.guid.value), true)
  }

  function BuildMenuPath(st: State, env: Env): Outcome {
    if env.startMenu.None? then Outcome(st, false)
    else
      var path := env.startMenu.value + PROGRAMS + ProviderName(st);
      if |path| >= MAX_PATH then Outcome(st.(menu := []), false)
      else Outcome(st.(menu := path, fs := CreateDirectory(st.fs, path, env.faults)),
                   DirectoryReady(st.fs, path, env.faults))
  }

  function BuildIconPath(st: State, env: Env): Outcome {
    if env.tempPath.None? || |env.tempPath.value| >= MAX_PATH then Outcome(st, false)
    else
      var temp := env.tempPath.value;
      if |temp| + 14 + |ProviderName(st)| > MAX_PATH then Outcome(st.(icons := temp), false)
      else
        var dir := temp + W("WSLDVCPlugin");
        var path := dir + [SEP] + ProviderName(st);
        var fs1 := CreateDirectory(st.fs, dir, env.faults);
        if !DirectoryReady(st.fs, dir, env.faults) then Outcome(st.(icons := dir + [SEP]), false)
        else Outcome(st.(icons := path, fs := CreateDirectory(fs1, path, env.faults)),
                     DirectoryReady(fs1, path, env.faults))
  }

  function FindExe(st: State, env: Env): Outcome {
    if env.install.None? || |env.install.value| >= MAX_PATH then Outcome(st, false)
    else
      var exe := env.install.value + W("\\wslg.exe");
      if |exe| >= MAX_PATH then Outcome(st.(exe := []), false)
      else Outcome(st.(exe := exe), env.workingDirOk)
  }

  function Reply(st: State, env: Env): Outcome {
    var ok := st.version >= CHANNEL_VERSION && env.writeOk;
    Outcome(st.(handshake := ok, replies := if ok then st.replies + 1 else st.replies), ok)
  }

  function CapsPaths(st: State, env: Env): Outcome {
    var s2 := BuildMenuPath(st, env);
    if !s2.ok then s2
    else
      var s3 := BuildIconPath(s2.st, env);
      if !s3.ok then s3 else FindExe(s3.st, env)
  }

  function CapsNames(st: State, m: Msg, env: Env): Outcome
    requires m.CapsMsg?
  {
    var s0 := st.(version := m.version, provider := Overlay(st.provider, m.name));
    if BadProvider(ProviderName(s0)) then Outcome(s0, false) else CapsGuid(s0, m, env)
  }

  /** The caps exchange up to the reply; a failure leaves what was stored so far. */
  function PrepareCaps(st: State, m: Msg, env: Env): Outcome
    requires m.CapsMsg?
  {
    var s := CapsNames(st, m, env);
    if s.ok then CapsPaths(s.st, env) else s
  }

  function HandleCaps(st: State, m: Msg, env: Env): Outcome
    requires m.CapsMsg?
  {
    var s := PrepareCaps(st, m, env);
    if s.ok then Reply(s.st, env) else s
  }

  // ---- update ---------------------------------------------------------------------------

  predicate NamesOk(m: Msg)
    requires m.UpdateMsg?
  {
    && (m.appGroup.length > 0 ==> !HasDotDot(CText(m.appGroup.text)) && QUOTE !in CText(m.appGroup.text))
    && !HasDotDot(CText(m.appId.text)) && QUOTE !in CText(m.appId.text)
    && !HasDotDot(CText(m.appDesc.text)) && QUOTE !in CText(m.appDesc.text)
    && QUOTE !in CText(m.appWorkingDir.text)
  }

  /** base[\group], with the directories on the way created; None when one step fails. */
  function BuildFolder(fs: Tree, base: Path, group: Field, faults: Faults): (Tree, Option<Path>) {
    var fs1 := CreateDirectory(fs, base, faults);
    if |base| >= MAX_PATH || !DirectoryReady(fs, base, faults) then (fs, None)
    else if group.length == 0 then (fs1, Some(base))
    else
      var dir := base + [SEP] + CText(group.text);
      if |dir| >= MAX_PATH || !DirectoryReady(fs1, dir, faults) then (fs1, None)
      else (CreateDirectory(fs1, dir, faults), Some(dir))
  }

  /** base[\group]\leaf.ext within MAX_PATH. */
  function BuildFilePath(fs: Tree, base: Path, group: Field, leaf: wstring, ext: wstring, faults: Faults)
    : (Tree, Option<Path>)
  {
    var folder := BuildFolder(fs, base, group, faults);
    if folder.1.None? then (folder.0, None)
    else
      var path := folder.1.value + [SEP] + leaf + ext;
      (folder.0, if |path| >= MAX_PATH then None else Some(path))
  }

  function CommandLine(provider: wstring, dir: wstring, exec: wstring): wstring {
    W("-d ") + provider + W(" --cd \"") + dir + W("\" -- ") + exec
  }

  function Args(st: State, m: Msg): wstring
    requires m.UpdateMsg?
  {
    CommandLine(ProviderName(st), if m.appWorkingDir.length > 0 then CText(m.appWorkingDir.text) else W("~"),
                CText(m.appExecPath.text))
  }

  function Key(group: Field, id: Field): wstring {
    (if group.length > 0 then CText(group.text) + [SEP] else []) + CText(id.text)
  }

  /** The strings an update works out before it touches the table. */
  datatype Plan = Plan(key: wstring, paths: Paths)

  function PlanUpdate(st: State, m: Msg, env: Env): (State, Option<Plan>)
    requires m.UpdateMsg?
  {
    var icon := if HasFlag(m.flags, FIELD_ICON)
                then BuildFilePath(st.fs, st.icons, m.appGroup, CText(m.appId.text), ICO, env.faults)
                else (st.fs, Some([]));
    if icon.1.None? then (st.(fs := icon.0), None)
    else
      var link := BuildFilePath(icon.0, st.menu, m.appGroup, CText(m.appDesc.text), LNK, env.faults);
      var key := Key(m.appGroup, m.appId);
      if link.1.None? || |Args(st, m)| >= MAX_PATH || |key| >= MAX_PATH then (st.(fs := link.0), None)
      else (st.(fs := link.0), Some(Plan(key, Paths(link.1.value, icon.1.value, st.exe, Args(st, m)))))
  }

  ghost function OnSyncStart(st: State, env: Env): Outcome {
    if st.sync.Some? || !env.createOk then Outcome(st, false)
    else Outcome(st.(sync := Some(Snapshot(st.fs, st.menu, env.faults)), fs := Prune(st.fs, st.menu, env.faults)),
                 true)
  }

  ghost function OnSyncEnd(st: State, cleanup: bool, env: Env): State {
    if st.sync.None? then st
    else st.(sync := None, fs := if cleanup then Sweep(st.fs, st.sync.value, env.faults) else st.fs)
  }

  predicate IconSaved(st: State, m: Msg, env: Env, icon: Path)
    requires m.UpdateMsg?
  {
    HasFlag(m.flags, FIELD_ICON) && env.iconWrite.Saved? && Writable(st.fs, icon)
  }

  /** Write the icon, then the link, and tick both off the running sync. */
  ghost function StoreFiles(st: State, m: Msg, env: Env, link: Path, icon: Path): State
    requires m.UpdateMsg?
  {
    var hasIcon := IconSaved(st, m, env, icon);
    var fs1 := if HasFlag(m.flags, FIELD_ICON) && !env.iconWrite.NotOpened? then WriteFile(st.fs, icon, Data)
               else st.fs;
    var fs2 := if env.saveOk then WriteFile(fs1, link, Link(if hasIcon then icon else [])) else fs1;
    var reported := {link} + if hasIcon then {icon} else {};
    st.(fs := fs2,
        sync := if HasFlag(m.flags, HINT_SYNC) && st.sync.Some? then Some(st.sync.value - reported) else st.sync)
  }

  ghost function CommitUpdate(st: State, m: Msg, env: Env, plan: Plan): Outcome
    requires m.UpdateMsg?
  {
    if plan.key in st.db && st.db[plan.key] != plan.paths then Outcome(st, false)
    else
      var s1 := st.(db := st.db[plan.key := plan.paths]);
      var s2 := StoreFiles(s1, m, env, plan.paths.link, plan.paths.icon);
      Outcome(if HasFlag(m.flags, HINT_SYNC_END) then OnSyncEnd(s2, true, env) else s2, true)
  }

  /** The part of an update in front of the path building: entering sync mode and the checks. */
  ghost function AdmitUpdate(st: State, m: Msg, env: Env): Outcome
    requires m.UpdateMsg?
  {
    var s := if HasFlag(m.flags, HINT_SYNC_START) then OnSyncStart(st, env) else Outcome(st, true);
    if !s.ok then s
    else if (HasFlag(m.flags, HINT_SYNC) || HasFlag(m.flags, HINT_SYNC_END)) && s.st.sync.None? then Outcome(s.st, false)
    else Outcome(s.st, NamesOk(m))
  }

  ghost function HandleUpdate(st: State, m: Msg, env: Env): Outcome
    requires m.UpdateMsg?
  {
    var s := AdmitUpdate(st, m, env);
    if !s.ok then s
    else
      var (planned, plan) := PlanUpdate(s.st, m, env);
      if plan.None? then Outcome(planned, false)
      else CommitUpdate(planned, m, env, plan.value)
  }

  // ---- delete and associate -------------------------------------------------------------

  function HandleDelete(st: State, m: Msg, env: Env): Outcome
    requires m.DeleteMsg?
  {
    var key := Key(m.appGroup, m.appId);
    if |key| >= MAX_PATH || key !in st.db then Outcome(st, false)
    else
      var fs1 := if st.db[key].link != [] then DeleteFile(st.fs, st.db[key].link, env.faults) else st.fs;
      var fs2 := if st.db[key].icon != [] then DeleteFile(fs1, st.db[key].icon, env.faults) else fs1;
      Outcome(st.(fs := fs2, db := st.db - {key}), true)
  }

  function HandleAssociate(st: State, m: Msg): Outcome
    requires m.AssociateMsg?
  {
    var id := st.guid * TWO_32 + m.appWindowId;
    var key := Key(m.appGroup, m.appId);
    var exec := CText(m.appExecPath.text);
    var command := if key in st.db then st.db[key].exe + [SPACE] + st.db[key].args
                   else if exec != [] then st.exe + [SPACE] + CommandLine(ProviderName(st), W("~"), exec)
                   else [];
    if id == 0 || |key| >= MAX_PATH || |command| >= MAX_PATH then Outcome(st, false)
    else
      var icon := if key in st.db then st.db[key].icon else [];
      Outcome(st.(windows := st.windows + [Window(id, CText(m.appDesc.text), command, icon)]), true)
  }

  // ---- one message and a whole buffer ---------------------------------------------------

  /** A message once its body has been read; caps come first, version 4 for associations. */
  ghost function Handle(st: State, m: Msg, env: Env): Outcome {
    if m.CapsMsg? then HandleCaps(st, m, env)
    else if !st.handshake then Outcome(st, false)
    else
      match m
      case UpdateMsg(_, _, _, _, _, _, _) => HandleUpdate(st, m, env)
      case DeleteMsg(_, _, _) => HandleDelete(st, m, env)
      case AssociateMsg(_, _, _, _, _, _) => if st.version < 4 then Outcome(st, false) else HandleAssociate(st, m)
  }

  datatype Turn = Turn(st: State, rest: seq<byte>, ok: bool)

  function VersionSeen(before: u16, s: seq<byte>): u16 {
    match GetU16(s) case Fail => before case Ok(v, _) => v
  }

  predicate KnownBody(cmdId: u32) {
    cmdId == CMDID_CAPS || cmdId == CMDID_UPDATE_APPLIST || cmdId == CMDID_DELETE_APPLIST ||
    cmdId == CMDID_ASSOCIATE_WINDOW_ID
  }

  // Refused before its body is looked at.
  predicate Refused(st: State, cmdId: u32) {
    cmdId != CMDID_CAPS &&
    (!st.handshake || (cmdId == CMDID_ASSOCIATE_WINDOW_ID && st.version < 4) ||
     !(KnownBody(cmdId) || cmdId == CMDID_DELETE_APPLIST_PROVIDER))
  }

  /** One round of the receive loop: header, dispatch, body, effect. */
  ghost function Step(st: State, s: seq<byte>, world: World): (t: Turn)
    ensures t.ok ==> |t.rest| + HEADER_SIZE <= |s|
  {
    match ParseHeader(s)
    case Fail => Turn(st, s, false)
    case Ok(h, t) =>
      var env := world(st.handled);
      var st0 := st.(handled := st.handled + 1);
      if Refused(st, h.cmdId) then Turn(st0, t, false)
      else if h.cmdId == CMDID_DELETE_APPLIST_PROVIDER then Turn(st0, t, true)
      else
        match ParseBody(h.cmdId, t, env.allocOk)
        case Fail =>
          Turn(if h.cmdId == CMDID_CAPS then st0.(version := VersionSeen(st.version, t)) else st0, t, false)
        case Ok(m, u) =>
          var o := Handle(st0, m, env);
          Turn(o.st, u, o.ok)
  }

  /** OnDataReceived: handle messages until the buffer is used up or one of them fails. */
  ghost function Receive(st: State, s: seq<byte>, world: World): Outcome
    decreases |s|
  {
    if s == [] || st.closed then Outcome(st, true)
    else
      var t := Step(st, s, world);
      if t.ok then Receive(t.st, t.rest, world) else Outcome(t.st, false)
  }

  /** OnClose: a running sync is abandoned without a sweep, and the table is dropped. */
  function Close(st: State): State {
    st.(closed := true, sync := None, db := map[])
  }

  // ---- what every step keeps ------------------------------------------------------------

  predicate BoundedPaths(p: Paths) {
    |p.link| < MAX_PATH && |p.icon| < MAX_PATH && |p.exe| < MAX_PATH && |p.args| < MAX_PATH
  }

  /** Every stored string came from a MAX_PATH buffer, and the tree is a tree. */
  ghost predicate Inv(st: State) {
    && |st.menu| < MAX_PATH && |st.icons| < MAX_PATH && |st.exe| < MAX_PATH && |st.provider| == MAX_PATH
    && (forall k | k in st.db :: BoundedPaths(st.db[k]))
    && WellFormed(st.fs)
  }

  lemma CapsKeepsInv(st: State, m: Msg, env: Env)
    requires m.CapsMsg? && Inv(st)
    ensures Inv(HandleCaps(st, m, env).st)
  {
    hide CapsNames, CapsPaths, FileSystem.WellFormed;
    CapsNamesKeepsInv(st, m, env);
    CapsPathsKeepsInv(CapsNames(st, m, env).st, env);
  }

  lemma CapsNamesKeepsInv(st: State, m: Msg, env: Env)
    requires m.CapsMsg? && Inv(st)
    ensures Inv(CapsNames(st, m, env).st)
  {
    hide FileSystem.WellFormed, CText, BadProvider, Overlay;
  }

  lemma CapsPathsKeepsInv(st: State, env: Env)
    requires Inv(st)
    ensures Inv(CapsPaths(st, env).st)
  {
    hide FileSystem.WellFormed, BuildMenuPath, BuildIconPath, W;
    MenuKeepsInv(st, env);
    IconsKeepInv(BuildMenuPath(st, env).st, env);
  }

  lemma MenuKeepsInv(st: State, env: Env)
    requires Inv(st)
    ensures Inv(BuildMenuPath(st, env).st)
  {
    hide FileSystem.WellFormed, FileSystem.CreateDirectory, FileSystem.DirectoryReady, CText, W;
    if env.startMenu.Some? {
      OperationsKeepTree(st.fs, env.startMenu.value + PROGRAMS + ProviderName(st), Data, env.faults);
    }
  }

  lemma IconsKeepInv(st: State, env: Env)
    requires Inv(st)
    ensures Inv(BuildIconPath(st, env).st)
  {
    hide FileSystem.WellFormed, FileSystem.CreateDirectory, FileSystem.DirectoryReady, CText, W;
    if env.tempPath.Some? {
      var dir := env.tempPath.value + W("WSLDVCPlugin");
      OperationsKeepTree(st.fs, dir, Data, env.faults);
      OperationsKeepTree(CreateDirectory(st.fs, dir, env.faults), dir + [SEP] + ProviderName(st), Data, env.faults);
    }
  }

  lemma FolderKeepsTree(fs: Tree, base: Path, group: Field, faults: Faults)
    requires WellFormed(fs)
    ensures WellFormed(BuildFolder(fs, base, group, faults).0)
    ensures Files(BuildFolder(fs, base, group, faults).0) == Files(fs)
  {
    hide FileSystem.WellFormed, FileSystem.CreateDirectory, FileSystem.DirectoryReady, FileSystem.Files, CText;
    var fs1 := CreateDirectory(fs, base, faults);
    OperationsKeepTree(fs, base, Data, faults);
    CreateDirectoryFiles(fs, base, faults);
    var dir := base + [SEP] + CText(group.text);
    OperationsKeepTree(fs1, dir, Data, faults);
    CreateDirectoryFiles(fs1, dir, faults);
  }

  lemma FilePathKeepsTree(fs: Tree, base: Path, group: Field, leaf: wstring, ext: wstring, faults: Faults)
    requires WellFormed(fs)
    ensures WellFormed(BuildFilePath(fs, base, group, leaf, ext, faults).0)
    ensures Files(BuildFilePath(fs, base, group, leaf, ext, faults).0) == Files(fs)
  {
    FolderKeepsTree(fs, base, group, faults);
  }

  /** Planning creates directories and nothing else. */
  lemma PlanKeeps(st: State, m: Msg, env: Env)
    requires m.UpdateMsg? && Inv(st)
    ensures var (planned, plan) := PlanUpdate(st, m, env);
            && Inv(planned) && planned == st.(fs := planned.fs)
            && Files(planned.fs) == Files(st.fs)
            && (plan.Some? ==> BoundedPaths(plan.value.paths))
  {
    hide FileSystem.WellFormed, FileSystem.Files, CText, Key, BuildFilePath, W, CommandLine, Protocol.HasFlag;
    FilePathKeepsTree(st.fs, st.icons, m.appGroup, CText(m.appId.text), ICO, env.faults);
    FilePathBound(st.fs, st.icons, m.appGroup, CText(m.appId.text), ICO, env.faults);
    var icon := if HasFlag(m.flags, FIELD_ICON)
                then BuildFilePath(st.fs, st.icons, m.appGroup, CText(m.appId.text), ICO, env.faults)
                else (st.fs, Some([]));
    FilePathKeepsTree(icon.0, st.menu, m.appGroup, CText(m.appDesc.text), LNK, env.faults);
    FilePathBound(icon.0, st.menu, m.appGroup, CText(m.appDesc.text), LNK, env.faults);
  }

  lemma FilePathBound(fs: Tree, base: Path, group: Field, leaf: wstring, ext: wstring, faults: Faults)
    ensures var path := BuildFilePath(fs, base, group, leaf, ext, faults).1;
            path.Some? ==> |path.value| < MAX_PATH && Under(path.value, base) && EndsWith(path.value, ext)
  {
    hide FileSystem.CreateDirectory, FileSystem.DirectoryReady, CText;
  }

  lemma StoreKeepsInv(st: State, m: Msg, env: Env, link: Path, icon: Path)
    requires m.UpdateMsg? && Inv(st)
    ensures Inv(StoreFiles(st, m, env, link, icon))
  {
    hide FileSystem.WellFormed, FileSystem.WriteFile, FileSystem.Writable;
    OperationsKeepTree(st.fs, icon, Data, env.faults);
    var fs1 := WriteFile(st.fs, icon, Data);
    var hasIcon := IconSaved(st, m, env, icon);
    var node := Link(if hasIcon then icon else []);
    OperationsKeepTree(fs1, link, node, env.faults);
    OperationsKeepTree(st.fs, link, node, env.faults);
  }

  lemma AdmitKeepsInv(st: State, m: Msg, env: Env)
    requires m.UpdateMsg? && Inv(st)
    ensures Inv(AdmitUpdate(st, m, env).st)
    ensures Files(AdmitUpdate(st, m, env).st.fs) == Files(st.fs)
  {
    hide FileSystem.WellFormed, FileSystem.Files, NamesOk, FileSystem.Snapshot, FileSystem.Prune;
    PruneFiles(st.fs, st.menu, env.faults);
  }

  lemma UpdateKeepsInv(st: State, m: Msg, env: Env)
    requires m.UpdateMsg? && Inv(st)
    ensures Inv(HandleUpdate(st, m, env).st)
  {
    hide AdmitUpdate, PlanUpdate, FileSystem.WellFormed, FileSystem.Sweep, StoreFiles, FileSystem.Files;
    AdmitKeepsInv(st, m, env);
    var s := AdmitUpdate(st, m, env);
    PlanKeeps(s.st, m, env);
    var (planned, plan) := PlanUpdate(s.st, m, env);
    if s.ok && plan.Some? {
      var paths := plan.value.paths;
      var s1 := planned.(db := planned.db[plan.value.key := paths]);
      StoreKeepsInv(s1, m, env, paths.link, paths.icon);
      var s2 := StoreFiles(s1, m, env, paths.link, paths.icon);
      if s2.sync.Some? {
        SweepExact(s2.fs, s2.sync.value, env.faults);
      }
    }
  }

  lemma DeleteKeepsInv(st: State, m: Msg, env: Env)
    requires m.DeleteMsg? && Inv(st)
    ensures Inv(HandleDelete(st, m, env).st)
  {
    hide FileSystem.WellFormed, FileSystem.DeleteFile, Key;
    var key := Key(m.appGroup, m.appId);
    if key in st.db {
      OperationsKeepTree(st.fs, st.db[key].link, Data, env.faults);
      OperationsKeepTree(st.fs, st.db[key].icon, Data, env.faults);
      OperationsKeepTree(DeleteFile(st.fs, st.db[key].link, env.faults), st.db[key].icon, Data, env.faults);
    }
  }

  /** Every message, accepted or not, keeps the invariant. */
  lemma StepKeepsInv(st: State, s: seq<byte>, world: World)
    requires Inv(st)
    ensures Inv(Step(st, s, world).st)
  {
    hide FileSystem.WellFormed, HandleUpdate, HandleDelete, HandleCaps, HandleAssociate, Protocol.ParseBody;
    match ParseHeader(s) {
      case Fail =>
      case Ok(h, t) =>
        var env := world(st.handled);
        var st0 := st.(handled := st.handled + 1);
        match ParseBody(h.cmdId, t, env.allocOk) {
          case Fail =>
          case Ok(m, u) =>
            match m
            case CapsMsg(_, _, _) => CapsKeepsInv(st0, m, env);
            case UpdateMsg(_, _, _, _, _, _, _) => UpdateKeepsInv(st0, m, env);
            case DeleteMsg(_, _, _) => DeleteKeepsInv(st0, m, env);
            case AssociateMsg(_, _, _, _, _, _) => AssociateKeepsInv(st0, m);
        }
    }
  }

  lemma AssociateKeepsInv(st: State, m: Msg)
    requires m.AssociateMsg? && Inv(st)
    ensures Inv(HandleAssociate(st, m).st)
  {
    hide FileSystem.WellFormed, CText, Key, CommandLine, W;
  }
}
