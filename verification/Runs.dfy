/**
 Properties of whole runs of the receiver: what batching changes, what a sender's stream does,
 what can happen before the handshake, when sync mode is on, and what a delete undoes.
 */
module Runs {
  import opened Wire
  import opened Protocol
  import opened Codec
  import opened FileSystem
  import opened FileDB
  import opened Receiver

  // ---- batching -------------------------------------------------------------------------

  // A message that succeeds is handled the same with more bytes behind it.
  lemma StepExtend(st: State, s: seq<byte>, t: seq<byte>, world: World)
    ensures var r := Step(st, s, world);
            r.ok ==> Step(st, s + t, world) == r.(rest := r.rest + t)
  {
    hide Protocol.ParseHeader, Protocol.ParseBody, Handle, VersionSeen;
    HeaderExtend(s, t);
    if ParseHeader(s).Ok? {
      BodyExtend(ParseHeader(s).value.cmdId, ParseHeader(s).rest, t, world(st.handled).allocOk);
    }
  }

  /** If a buffer is received without failure, what follows it starts where it ended. */
  lemma {:induction false} ReceiveConcat(st: State, a: seq<byte>, b: seq<byte>, world: World)
    requires Receive(st, a, world).ok
    ensures Receive(st, a + b, world) == Receive(Receive(st, a, world).st, b, world)
    decreases |a|
  {
    hide Step;
    if a == [] {
      assert a + b == b;
    } else if !st.closed {
      var t := Step(st, a, world);
      StepExtend(st, a, b, world);
      ReceiveConcat(t.st, t.rest, b, world);
    }
  }

  function Flatten(bufs: seq<seq<byte>>): seq<byte> {
    if bufs == [] then [] else bufs[0] + Flatten(bufs[1..])
  }

  /** One OnDataReceived call per buffer; ok when every call succeeds. */
  ghost function ReceiveEach(st: State, bufs: seq<seq<byte>>, world: World): Outcome
    decreases |bufs|
  {
    if bufs == [] then Outcome(st, true)
    else
      var o := Receive(st, bufs[0], world);
      var rest := ReceiveEach(o.st, bufs[1..], world);
      Outcome(rest.st, o.ok && rest.ok)
  }

  /** If every call succeeds, one call on all the bytes leaves exactly the same state. */
  lemma {:induction false} BatchingEquivalence(st: State, bufs: seq<seq<byte>>, world: World)
    requires ReceiveEach(st, bufs, world).ok
    ensures Receive(st, Flatten(bufs), world) == ReceiveEach(st, bufs, world)
    decreases |bufs|
  {
    hide Receive;
    if bufs == [] {
      ReceiveNothing(st, world);
    } else {
      ReceiveConcat(st, bufs[0], Flatten(bufs[1..]), world);
      BatchingEquivalence(Receive(st, bufs[0], world).st, bufs[1..], world);
    }
  }

  lemma ReceiveNothing(st: State, world: World)
    ensures Receive(st, [], world) == Outcome(st, true)
  {
  }

  // ---- from the sender's PDUs to the receiver's state -----------------------------------

  /** Messages handled in order up to the first failure. */
  ghost function HandleAll(st: State, ms: seq<Msg>, world: World): Outcome
    decreases |ms|
  {
    if ms == [] || st.closed then Outcome(st, true)
    else
      var o := Handle(st.(handled := st.handled + 1), ms[0], world(st.handled));
      if o.ok then HandleAll(o.st, ms[1..], world) else o
  }

  lemma StepOfPdu(st: State, p: Pdu, rest: seq<byte>, world: World)
    requires Framed(p) && world(st.handled).allocOk
    ensures var o := Handle(st.(handled := st.handled + 1), Received(p), world(st.handled));
            var t := Step(st, Encode(p) + rest, world);
            t.st == o.st && t.ok == o.ok && (t.ok ==> t.rest == rest)
  {
    hide Protocol.ParseHeader, Protocol.ParseBody, Protocol.Encode, Protocol.Body, HandleCaps, HandleUpdate,
         HandleDelete, HandleAssociate, Protocol.Sendable, FieldsReadable, Protocol.HasFlag, StringReadable,
         ReceivedFields;
    HeaderRoundTrip(p, rest);
    AcceptedLanguage(p, rest);
    assert Leftover(p) + rest == rest;
  }

  /**
   End to end: a stream of framed PDUs, concatenated by the sender and parsed by a receiver
   that ignores every length field, has exactly the effect of its messages handled in order.
   */
  lemma {:induction false} StreamEffect(st: State, ps: seq<Pdu>, world: World)
    requires forall p | p in ps :: Framed(p)
    requires forall n: nat :: world(n).allocOk
    ensures forall p | p in ps :: !p.DeleteProvider?
    ensures Receive(st, EncodeAll(ps), world) == HandleAll(st, ReceivedAll(ps), world)
    decreases |ps|
  {
    hide Step, Handle, Protocol.Encode, Received;
    FramedIsNoProvider(ps);
    if ps != [] && !st.closed {
      var p := ps[0];
      assert p in ps;
      StepOfPdu(st, p, EncodeAll(ps[1..]), world);
      EncodeNotEmpty(p);
      StreamEffect(Step(st, EncodeAll(ps), world).st, ps[1..], world);
    }
  }

  lemma FramedIsNoProvider(ps: seq<Pdu>)
    requires forall p | p in ps :: Framed(p)
    ensures forall p | p in ps :: !p.DeleteProvider?
  {
    hide FieldsReadable, Protocol.HasFlag, StringReadable, Protocol.Sendable;
  }

  lemma EncodeNotEmpty(p: Pdu)
    ensures |Encode(p)| >= HEADER_SIZE
  {
    hide Protocol.Body;
  }

  // The bytes after the provider header are taken for a header whose command id is the flags.
  lemma ProviderBodyAsHeader(p: Pdu, rest: seq<byte>)
    requires p.DeleteProvider?
    ensures var s := Body(p) + rest;
            s != [] && (ParseHeader(s).Ok? ==> ParseHeader(s).value.cmdId == p.flags)
  {
    hide Protocol.HasFlag, Protocol.FieldBytes, Wire.Le32, Wire.GetU32;
    var s := Body(p) + rest;
    assert s == Le32(p.flags) + (FieldBytes(p.flags, Strings(p)) + rest);
    U32RoundTrip(p.flags, FieldBytes(p.flags, Strings(p)) + rest);
  }

  lemma UnknownCommandFails(st: State, s: seq<byte>, world: World)
    requires s != [] && !st.closed
    requires ParseHeader(s).Ok? ==> !(1 <= ParseHeader(s).value.cmdId <= 5)
    ensures var o := Receive(st, s, world);
            !o.ok && o.st == st.(handled := o.st.handled)
  {
    hide Protocol.ParseHeader, Protocol.ParseBody, Handle;
    assert !Step(st, s, world).ok;
  }

  /**
   The one PDU outside the framed stream: the body of a DELETE_APPLIST_PROVIDER is sent but not
   consumed, so it is received as the next message, whose command id is the flags. If those are
   none of the five ids, as whenever they announce the provider name, the rest of the buffer is
   lost and nothing in it has any effect; otherwise that command is carried out, with what the
   sender meant as its next message for the length and the body.
   */
  lemma DeleteProviderDesynchronises(st: State, p: Pdu, rest: seq<byte>, world: World)
    requires p.DeleteProvider? && st.handshake && !st.closed
    ensures var o := Receive(st, Encode(p) + rest, world);
            && o == Receive(st.(handled := st.handled + 1), Body(p) + rest, world)
            && (!(1 <= p.flags <= 5) ==> !o.ok && o.st == st.(handled := o.st.handled))
            && (1 <= p.flags <= 5 ==> o == Receive(st.(handled := st.handled + 1), Le32(p.flags) + rest, world))
    ensures HasFlag(p.flags, FIELD_PROVIDER) ==> p.flags > 5
  {
    hide Protocol.Encode, Protocol.Body, Protocol.ParseHeader, Protocol.ParseBody, Handle, Wire.Le32;
    HeaderRoundTrip(p, rest);
    EncodeNotEmpty(p);
    var st1 := st.(handled := st.handled + 1);
    assert Step(st, Encode(p) + rest, world) == Turn(st1, Body(p) + rest, true);
    ProviderBodyAsHeader(p, rest);
    ProviderFlag(p.flags);
    if 1 <= p.flags <= 5 {
      BareProvider(p);
    } else {
      UnknownCommandFails(st1, Body(p) + rest, world);
    }
  }

  // The provider name has a flag of its own, far above the command ids.
  lemma ProviderFlag(flags: u32)
    ensures HasFlag(flags, FIELD_PROVIDER) ==> flags >= FIELD_PROVIDER
  {
    if flags < FIELD_PROVIDER {
      assert HasFlag(flags, 32) == HasFlag(flags / 2, 16) == HasFlag(flags / 2 / 2, 8) == HasFlag(flags / 2 / 2 / 2, 4)
        == HasFlag(flags / 2 / 2 / 2 / 2, 2) == HasFlag(flags / 2 / 2 / 2 / 2 / 2, 1);
      assert flags / 2 / 2 / 2 / 2 / 2 == 0;
    }
  }

  lemma BareProvider(p: Pdu)
    requires p.DeleteProvider? && !HasFlag(p.flags, FIELD_PROVIDER)
    ensures Body(p) == Le32(p.flags)
  {
    hide Protocol.HasFlag, Wire.Le32;
    var vs := Strings(p);
    assert vs == [Value(FIELD_PROVIDER, true, p.name)] && vs[1..] == [];
    assert FieldBytes(p.flags, vs) == [] + FieldBytes(p.flags, []);
  }

  // ---- before the handshake -------------------------------------------------------------

  /** What happens to a callback object over its life. */
  datatype Event = Arrived(bytes: seq<byte>) | Closing

  ghost function Run(st: State, events: seq<Event>, world: World): State
    decreases |events|
  {
    if events == [] then st
    else
      Run(match events[0]
          case Arrived(b) => Receive(st, b, world).st
          case Closing => Close(st),
          events[1..], world)
  }

  predicate Initial(st: State) {
    st.db == map[] && st.sync.None? && !st.handshake && !st.closed && st.replies == 0 && st.windows == []
  }

  /** Without a completed caps exchange nothing but caps directories has been touched. */
  ghost predicate Gated(st: State, files: map<Path, Node>) {
    st.replies == 0 ==>
      !st.handshake && st.db == map[] && st.sync.None? && st.windows == [] && Files(st.fs) == files
  }

  // Everything of the state but what a caps exchange works out in front of the reply.
  ghost predicate SameButCaps(a: State, b: State) {
    && b == a.(version := b.version, provider := b.provider, guid := b.guid, fs := b.fs, menu := b.menu,
               icons := b.icons, exe := b.exe)
    && Files(b.fs) == Files(a.fs)
  }

  lemma PreparingKeepsRest(st: State, m: Msg, env: Env)
    requires m.CapsMsg?
    ensures SameButCaps(st, PrepareCaps(st, m, env).st)
  {
    hide FileSystem.Files, CapsNames, CapsPaths;
    NamesKeepRest(st, m, env);
    PathsKeepRest(CapsNames(st, m, env).st, env);
  }

  lemma NamesKeepRest(st: State, m: Msg, env: Env)
    requires m.CapsMsg?
    ensures SameButCaps(st, CapsNames(st, m, env).st)
  {
    hide CText, BadProvider, Overlay, FileSystem.Files;
  }

  lemma PathsKeepRest(st: State, env: Env)
    ensures SameButPaths(st, CapsPaths(st, env).st)
  {
    hide W, FileSystem.Files, BuildMenuPath, BuildIconPath;
    MenuOnlyDirectories(st, env);
    IconsOnlyDirectories(BuildMenuPath(st, env).st, env);
  }

  lemma CapsGated(st: State, m: Msg, env: Env, files: map<Path, Node>)
    requires m.CapsMsg? && Gated(st, files)
    ensures Gated(HandleCaps(st, m, env).st, files)
  {
    hide FileSystem.Files, PrepareCaps;
    PreparingKeepsRest(st, m, env);
  }

  /**
   A caps exchange that succeeds leaves a version 4 handshake, the provider's three paths spelled
   from its name and the environment, both folders in place, and a provider name without "..",
   quote or space; the name is the one sent if the old array already ended there. One that fails
   before the reply leaves an earlier handshake standing.
   */
  lemma CapsOutcome(st: State, m: Msg, env: Env)
    requires m.CapsMsg?
    ensures var o := HandleCaps(st, m, env);
            var name := CText(o.st.provider);
            && (o.ok ==>
                 && o.st.handshake && o.st.version == m.version >= 4 && o.st.replies == st.replies + 1
                 && env.guid.Some? && o.st.guid == env.guid.value
                 && (forall i | 0 <= i < |name| - 1 :: !(name[i] == 0x2e && name[i + 1] == 0x2e))
                 && 0x22 !in name && 0x20 !in name
                 && env.startMenu.Some? && o.st.menu == env.startMenu.value + W("\\Programs\\") + name
                 && env.tempPath.Some? && o.st.icons == env.tempPath.value + W("WSLDVCPlugin\\") + name
                 && env.install.Some? && o.st.exe == env.install.value + W("\\wslg.exe")
                 && o.st.menu in o.st.fs && o.st.icons in o.st.fs)
            && (!o.ok ==> o.st.replies == st.replies && (o.st.handshake ==> st.handshake))
            && (!PrepareCaps(st, m, env).ok ==> o.st.handshake == st.handshake)
            && (|st.provider| == MAX_PATH && Kept(m.name) && 0 !in m.name.text ==>
                 (name == m.name.text <==>
                  if m.name.length % 2 == 1 then st.provider[|m.name.text|] < 0x100 else st.provider[|m.name.text|] == 0))
  {
    hide CapsNames, CapsPaths, CText, W, FileSystem.Files, Overlay;
    PreparingKeepsRest(st, m, env);
    NamesChecked(st, m, env);
    var s := CapsNames(st, m, env);
    PathsKeepRest(s.st, env);
    if s.ok && CapsPaths(s.st, env).ok {
      PathsInPlace(s.st, env);
    }
    if |st.provider| == MAX_PATH && Kept(m.name) && 0 !in m.name.text {
      ProviderNameExact(st.provider, m.name);
    }
  }

  lemma NamesChecked(st: State, m: Msg, env: Env)
    requires m.CapsMsg?
    ensures var s := CapsNames(st, m, env);
            && s.st.version == m.version && s.st.provider == Overlay(st.provider, m.name)
            && (s.ok ==> !BadProvider(ProviderName(s.st)) &&
                         (m.version >= 4 ==> env.guid.Some? && s.st.guid == env.guid.value))
  {
    hide CText, BadProvider, Overlay;
  }

  lemma PathsInPlace(st: State, env: Env)
    requires CapsPaths(st, env).ok
    ensures env.startMenu.Some? && env.tempPath.Some? && env.install.Some?
    ensures var s := CapsPaths(st, env).st;
            && s.menu == env.startMenu.value + W("\\Programs\\") + ProviderName(st)
            && s.icons == env.tempPath.value + W("WSLDVCPlugin\\") + ProviderName(st)
            && s.exe == env.install.value + W("\\wslg.exe")
            && s.menu in s.fs && s.icons in s.fs
  {
    hide CText, W, BuildMenuPath, BuildIconPath, FindExe, FileSystem.Files;
    var s' := BuildMenuPath(st, env).st;
    MenuOnlyDirectories(st, env);
    IconsOnlyDirectories(s', env);
    MenuInPlace(st, env);
    IconsInPlace(s', env);
    ExeFound(BuildIconPath(s', env).st, env);
  }

  lemma ExeFound(st: State, env: Env)
    requires FindExe(st, env).ok
    ensures env.install.Some?
    ensures var s := FindExe(st, env).st;
            s == st.(exe := env.install.value + W("\\wslg.exe"))
  {
  }

  lemma MenuInPlace(st: State, env: Env)
    requires BuildMenuPath(st, env).ok
    ensures env.startMenu.Some?
    ensures var s := BuildMenuPath(st, env).st;
            s.menu == env.startMenu.value + W("\\Programs\\") + ProviderName(st) && s.menu in s.fs
  {
    hide CText, W;
  }

  lemma IconsInPlace(st: State, env: Env)
    requires BuildIconPath(st, env).ok
    ensures env.tempPath.Some?
    ensures var s := BuildIconPath(st, env).st;
            && s.icons == env.tempPath.value + W("WSLDVCPlugin\\") + ProviderName(st)
            && s.icons in s.fs && s.menu == st.menu && forall p | p in st.fs :: p in s.fs
  {
    hide CText;
    assert W("WSLDVCPlugin\\") == W("WSLDVCPlugin") + [SEP];
    hide W;
    var name, temp := ProviderName(st), env.tempPath.value;
    assert temp + W("WSLDVCPlugin") + [SEP] + name == temp + (W("WSLDVCPlugin") + [SEP]) + name;
  }

  // Everything of the state but the tree and the three paths.
  ghost predicate SameButPaths(a: State, b: State) {
    b == a.(fs := b.fs, menu := b.menu, icons := b.icons, exe := b.exe) && Files(b.fs) == Files(a.fs)
  }

  lemma MenuOnlyDirectories(st: State, env: Env)
    ensures SameButPaths(st, BuildMenuPath(st, env).st)
  {
    hide CText, W, FileSystem.Files, FileSystem.CreateDirectory, FileSystem.DirectoryReady;
    if env.startMenu.Some? {
      CreateDirectoryFiles(st.fs, env.startMenu.value + PROGRAMS + ProviderName(st), env.faults);
    }
  }

  lemma IconsOnlyDirectories(st: State, env: Env)
    ensures SameButPaths(st, BuildIconPath(st, env).st)
  {
    hide CText, W, FileSystem.Files, FileSystem.CreateDirectory, FileSystem.DirectoryReady;
    if env.tempPath.Some? {
      var dir := env.tempPath.value + W("WSLDVCPlugin");
      CreateDirectoryFiles(st.fs, dir, env.faults);
      CreateDirectoryFiles(CreateDirectory(st.fs, dir, env.faults), dir + [SEP] + ProviderName(st), env.faults);
    }
  }

  lemma RepliesKept(st: State, m: Msg, env: Env)
    requires !m.CapsMsg?
    ensures var s := Handle(st, m, env).st;
            s.replies == st.replies && s.handshake == st.handshake && s.handled == st.handled
  {
    hide HandleUpdate, Key, CText, CommandLine, W, FileSystem.DeleteFile;
    if m.UpdateMsg? {
      UpdateKeepsRest(st, m, env);
    }
  }

  /** An update touches files, sync set and table, and nothing else. */
  lemma UpdateKeepsRest(st: State, m: Msg, env: Env)
    requires m.UpdateMsg?
    ensures var s := HandleUpdate(st, m, env).st; s == st.(fs := s.fs, sync := s.sync, db := s.db)
  {
    hide AdmitUpdate, PlanUpdate, CommitUpdate;
    var s := AdmitUpdate(st, m, env).st;
    AdmitKeepsRest(st, m, env);
    PlanKeepsRest(s, m, env);
    var (planned, plan) := PlanUpdate(s, m, env);
    if plan.Some? {
      CommitKeepsRest(planned, m, env, plan.value);
    }
  }

  lemma AdmitKeepsRest(st: State, m: Msg, env: Env)
    requires m.UpdateMsg?
    ensures var s := AdmitUpdate(st, m, env).st; s == st.(fs := s.fs, sync := s.sync)
  {
    hide FileSystem.Prune, FileSystem.Snapshot, Protocol.HasFlag, NamesOk;
  }

  lemma CommitKeepsRest(st: State, m: Msg, env: Env, plan: Plan)
    requires m.UpdateMsg?
    ensures var s := CommitUpdate(st, m, env, plan).st; s == st.(fs := s.fs, sync := s.sync, db := s.db)
  {
    hide FileSystem.Sweep, Protocol.HasFlag, StoreFiles;
    StoredSync(st.(db := st.db[plan.key := plan.paths]), m, env, plan.paths.link, plan.paths.icon);
  }

  lemma PlanKeepsRest(st: State, m: Msg, env: Env)
    requires m.UpdateMsg?
    ensures var s := PlanUpdate(st, m, env).0; s == st.(fs := s.fs)
  {
    hide BuildFilePath, CText, Key, W, CommandLine, Protocol.HasFlag;
  }

  lemma CapsKeepCount(st: State, m: Msg, env: Env)
    requires m.CapsMsg?
    ensures HandleCaps(st, m, env).st.handled == st.handled
  {
    hide PrepareCaps, FileSystem.Files;
    PreparingKeepsRest(st, m, env);
  }

  /** A message that succeeds leaves a suffix shorter by at least its header, and is counted once. */
  lemma StepAdvances(st: State, s: seq<byte>, world: World)
    ensures var t := Step(st, s, world);
            && (t.ok ==> |t.rest| + HEADER_SIZE <= |s| && t.rest == s[|s| - |t.rest|..])
            && t.st.handled == st.handled + if |s| >= HEADER_SIZE then 1 else 0
  {
    hide Protocol.ParseHeader, Protocol.ParseBody, HandleCaps, HandleUpdate, HandleDelete, HandleAssociate;
    if ParseHeader(s).Ok? {
      var h, t := ParseHeader(s).value, ParseHeader(s).rest;
      var env, st0 := world(st.handled), st.(handled := st.handled + 1);
      var r := ParseBody(h.cmdId, t, env.allocOk);
      if r.Ok? {
        assert t == s[|s| - |t|..] && r.rest == t[|t| - |r.rest|..] == s[|s| - |r.rest|..];
        if r.value.CapsMsg? {
          CapsKeepCount(st0, r.value, env);
        } else {
          RepliesKept(st0, r.value, env);
        }
      }
    }
  }

  /** So a buffer holds at most one message for every eight bytes. */
  lemma {:induction false} MessagesBound(st: State, s: seq<byte>, world: World)
    ensures var end := Receive(st, s, world).st;
            st.handled <= end.handled && HEADER_SIZE * (end.handled - st.handled) <= |s|
    decreases |s|
  {
    hide Step;
    if s != [] && !st.closed {
      StepAdvances(st, s, world);
      var t := Step(st, s, world);
      if t.ok {
        MessagesBound(t.st, t.rest, world);
      }
    }
  }

  lemma StepGated(st: State, s: seq<byte>, world: World, files: map<Path, Node>)
    requires Gated(st, files)
    ensures Gated(Step(st, s, world).st, files)
  {
    hide Protocol.ParseBody, HandleCaps, HandleUpdate, HandleDelete, HandleAssociate, FileSystem.Files;
    if ParseHeader(s).Ok? {
      var h, t := ParseHeader(s).value, ParseHeader(s).rest;
      var env, st0 := world(st.handled), st.(handled := st.handled + 1);
      var r := ParseBody(h.cmdId, t, env.allocOk);
      if r.Ok? {
        if r.value.CapsMsg? {
          CapsGated(st0, r.value, env, files);
        } else {
          RepliesKept(st0, r.value, env);
        }
      }
    }
  }

  lemma {:induction false} ReceiveGated(st: State, s: seq<byte>, world: World, files: map<Path, Node>)
    requires Gated(st, files)
    ensures Gated(Receive(st, s, world).st, files)
    decreases |s|
  {
    hide Step, Gated;
    if s != [] && !st.closed {
      StepGated(st, s, world, files);
      var t := Step(st, s, world);
      if t.ok {
        ReceiveGated(t.st, t.rest, world, files);
      }
    }
  }

  /**
   In every run, whatever bytes arrive: as long as no caps reply has been written, the handshake
   is not complete, the table is empty, no sync is on, no window has been updated and no file
   has been created, changed or deleted.
   */
  lemma {:induction false} NothingBeforeHandshake(st: State, events: seq<Event>, world: World, files: map<Path, Node>)
    requires Gated(st, files)
    ensures Gated(Run(st, events, world), files)
    decreases |events|
  {
    hide Receive, FileSystem.Files;
    if events != [] {
      match events[0] {
        case Arrived(b) =>
          ReceiveGated(st, b, world, files);
          NothingBeforeHandshake(Receive(st, b, world).st, events[1..], world, files);
        case Closing =>
          NothingBeforeHandshake(Close(st), events[1..], world, files);
      }
    }
  }

  lemma InitialIsGated(st: State)
    requires Initial(st)
    ensures Gated(st, Files(st.fs))
  {
  }

  /** A closed channel stays as it was closed: a sync cut short has deleted no file, and never will. */
  lemma {:induction false} ClosedForGood(st: State, events: seq<Event>, world: World)
    requires forall e | e in events :: e.Arrived?
    ensures Run(st, [Closing] + events, world) == Close(st)
    ensures Files(Run(st, [Closing] + events, world).fs) == Files(st.fs)
    decreases |events|
  {
    hide FileSystem.Files;
    var end := Close(st);
    assert ([Closing] + events)[1..] == events;
    if events != [] {
      assert events[0] in events;
      ClosedForGood(end, events[1..], world);
      assert ([Closing] + events[1..])[1..] == events[1..];
      assert Close(end) == end && Receive(end, events[0].bytes, world).st == end;
    }
  }

  // ---- sync mode ------------------------------------------------------------------------

  /** An update ends in sync mode exactly when it was on or got started, and this did not end it. */
  lemma SyncModeExact(st: State, m: Msg, env: Env)
    requires m.UpdateMsg?
    ensures var o := HandleUpdate(st, m, env);
            o.st.sync.Some? <==>
              (st.sync.Some? || (HasFlag(m.flags, HINT_SYNC_START) && env.createOk)) &&
              !(o.ok && HasFlag(m.flags, HINT_SYNC_END))
  {
    hide FileSystem.Sweep, FileSystem.Prune, FileSystem.Snapshot, BuildFilePath, CText, Key, W, CommandLine,
         Protocol.HasFlag, NamesOk, FileSystem.WriteFile, FileSystem.Writable;
  }

  lemma OthersKeepSync(st: State, m: Msg, env: Env)
    requires !m.UpdateMsg?
    ensures Handle(st, m, env).st.sync == st.sync
  {
    hide CText, Key, W, CommandLine, FileSystem.DeleteFile, PrepareCaps, FileSystem.Files;
    if m.CapsMsg? {
      PreparingKeepsRest(st, m, env);
    }
  }

  /** What a message, or a close, means to sync mode: whether it starts it, and whether it ends it. */
  datatype Mark = Mark(starts: bool, ends: bool)

  const NoMark: Mark := Mark(false, false)

  /** Only an update that is read can do either, and only a successful one can end a sync. */
  ghost function MarkOf(st: State, s: seq<byte>, world: World): Mark {
    match ParseHeader(s) case Fail => NoMark case Ok(h, t) =>
    if Refused(st, h.cmdId) then NoMark
    else
      match ParseBody(h.cmdId, t, world(st.handled).allocOk) case Fail => NoMark case Ok(m, u) =>
      if !m.UpdateMsg? then NoMark
      else Mark(HasFlag(m.flags, HINT_SYNC_START) && world(st.handled).createOk,
                HasFlag(m.flags, HINT_SYNC_END) && Step(st, s, world).ok)
  }

  /** The marks of the messages of one buffer, a failing last one included. */
  ghost function ReceiveMarks(st: State, s: seq<byte>, world: World): seq<Mark>
    decreases |s|
  {
    if s == [] || st.closed then []
    else
      var t := Step(st, s, world);
      [MarkOf(st, s, world)] + if t.ok then ReceiveMarks(t.st, t.rest, world) else []
  }

  ghost function RunMarks(st: State, events: seq<Event>, world: World): seq<Mark>
    decreases |events|
  {
    if events == [] then []
    else match events[0]
      case Arrived(b) => ReceiveMarks(st, b, world) + RunMarks(Receive(st, b, world).st, events[1..], world)
      case Closing => [Mark(false, true)] + RunMarks(Close(st), events[1..], world)
  }

  /** Some start, or the sync there was before, has no end at or after it. */
  predicate LeftOn(on: bool, marks: seq<Mark>) {
    || (on && forall j | 0 <= j < |marks| :: !marks[j].ends)
    || exists i :: 0 <= i < |marks| && marks[i].starts && forall j | i <= j < |marks| :: !marks[j].ends
  }

  function OnAfter(on: bool, marks: seq<Mark>): bool
    decreases |marks|
  {
    if marks == [] then on else OnAfter((on || marks[0].starts) && !marks[0].ends, marks[1..])
  }

  lemma {:induction false} OnAfterIsLeftOn(on: bool, marks: seq<Mark>)
    ensures OnAfter(on, marks) == LeftOn(on, marks)
    decreases |marks|
  {
    if marks != [] {
      var first, rest := marks[0], marks[1..];
      OnAfterIsLeftOn((on || first.starts) && !first.ends, rest);
      assert forall j | 1 <= j < |marks| :: marks[j] == rest[j - 1];
      if i :| 0 <= i < |marks| && marks[i].starts && forall j | i <= j < |marks| :: !marks[j].ends {
        if i > 0 {
          assert rest[i - 1].starts && forall j | i - 1 <= j < |rest| :: !rest[j].ends;
        } else {
          assert forall j | 0 <= j < |rest| :: !rest[j].ends;
        }
      }
      if i :| 0 <= i < |rest| && rest[i].starts && forall j | i <= j < |rest| :: !rest[j].ends {
        assert marks[i + 1].starts && forall j | i + 1 <= j < |marks| :: !marks[j].ends;
      }
    }
  }

  lemma {:induction false} OnAfterConcat(on: bool, a: seq<Mark>, b: seq<Mark>)
    ensures OnAfter(on, a + b) == OnAfter(OnAfter(on, a), b)
    decreases |a|
  {
    if a == [] {
      assert a + b == b;
    } else {
      assert (a + b)[1..] == a[1..] + b;
      OnAfterConcat((on || a[0].starts) && !a[0].ends, a[1..], b);
    }
  }

  lemma StepMarked(st: State, s: seq<byte>, world: World)
    ensures var mark := MarkOf(st, s, world);
            Step(st, s, world).st.sync.Some? == ((st.sync.Some? || mark.starts) && !mark.ends)
  {
    hide Protocol.ParseBody, HandleCaps, HandleUpdate, HandleDelete, HandleAssociate, Protocol.HasFlag;
    if ParseHeader(s).Ok? {
      var h, t := ParseHeader(s).value, ParseHeader(s).rest;
      var env, st0 := world(st.handled), st.(handled := st.handled + 1);
      var r := ParseBody(h.cmdId, t, env.allocOk);
      if r.Ok? {
        BodyKind(h.cmdId, t, env.allocOk);
        if r.value.UpdateMsg? {
          SyncModeExact(st0, r.value, env);
        } else {
          OthersKeepSync(st0, r.value, env);
        }
      }
    }
  }

  // The command id decides which kind of message a body is.
  lemma BodyKind(cmdId: u32, s: seq<byte>, allocOk: bool)
    requires ParseBody(cmdId, s, allocOk).Ok?
    ensures ParseBody(cmdId, s, allocOk).value.CapsMsg? <==> cmdId == CMDID_CAPS
    ensures KnownBody(cmdId)
  {
    hide Protocol.ParseCaps, Protocol.ParseUpdate, Protocol.ParseDelete, Protocol.ParseAssociate;
  }

  lemma {:induction false} ReceiveMarked(st: State, s: seq<byte>, world: World)
    ensures Receive(st, s, world).st.sync.Some? == OnAfter(st.sync.Some?, ReceiveMarks(st, s, world))
    decreases |s|
  {
    hide Step, MarkOf;
    if s != [] && !st.closed {
      StepMarked(st, s, world);
      var t := Step(st, s, world);
      var rest := if t.ok then ReceiveMarks(t.st, t.rest, world) else [];
      assert ([MarkOf(st, s, world)] + rest)[1..] == rest;
      if t.ok {
        ReceiveMarked(t.st, t.rest, world);
      }
    }
  }

  /**
   Over any run of buffers and closes, with messages failing anywhere in between: the sync table
   exists exactly if it was started at some point after which no update completed an end and the
   channel was not closed.
   */
  lemma {:induction false} SyncOverRuns(st: State, events: seq<Event>, world: World)
    ensures Run(st, events, world).sync.Some? <==> LeftOn(st.sync.Some?, RunMarks(st, events, world))
    decreases |events|
  {
    hide Receive, ReceiveMarks;
    var on := st.sync.Some?;
    OnAfterIsLeftOn(on, RunMarks(st, events, world));
    if events != [] {
      var rest := events[1..];
      match events[0] {
        case Arrived(b) =>
          var mid := Receive(st, b, world).st;
          ReceiveMarked(st, b, world);
          OnAfterConcat(on, ReceiveMarks(st, b, world), RunMarks(mid, rest, world));
          SyncOverRuns(mid, rest, world);
          OnAfterIsLeftOn(mid.sync.Some?, RunMarks(mid, rest, world));
        case Closing =>
          assert RunMarks(st, events, world)[1..] == RunMarks(Close(st), rest, world);
          SyncOverRuns(Close(st), rest, world);
          OnAfterIsLeftOn(false, RunMarks(Close(st), rest, world));
      }
    }
  }

  // ---- what a delete undoes -------------------------------------------------------------

  /** The ids a completed end takes off the disk: those listed when the update arrived. */
  ghost function Listed(st: State, u: Msg, env: Env): set<Path>
    requires u.UpdateMsg?
  {
    if HasFlag(u.flags, HINT_SYNC_START) then Snapshot(st.fs, st.menu, env.faults)
    else if st.sync.Some? then st.sync.value
    else {}
  }

  ghost function SweptBy(st: State, u: Msg, env: Env): set<Path>
    requires u.UpdateMsg?
  {
    if HasFlag(u.flags, HINT_SYNC_END) then Listed(st, u, env) - env.faults.undeletable else {}
  }

  /** What a successful update was planned to write. */
  ghost function PathsOf(st: State, u: Msg, env: Env): Paths
    requires u.UpdateMsg?
  {
    match PlanUpdate(AdmitUpdate(st, u, env).st, u, env).1 case Some(plan) => plan.paths case None => NoPaths
  }

  // A successful update adds its link and its icon to the files, and a sweep takes what was listed.
  lemma UpdateFiles(st: State, u: Msg, env: Env)
    requires Inv(st) && u.UpdateMsg? && HandleUpdate(st, u, env).ok
    requires Key(u.appGroup, u.appId) !in st.db
    ensures var after := HandleUpdate(st, u, env).st;
            var paths := PathsOf(st, u, env);
            && after == st.(fs := after.fs, sync := after.sync, db := st.db[Key(u.appGroup, u.appId) := paths])
            && Files(after.fs) - {paths.link, paths.icon} == Files(st.fs) - SweptBy(st, u, env) - {paths.link, paths.icon}
            && (paths.icon == [] && paths.icon !in Files(st.fs) ==> paths.icon !in Files(after.fs))
            && paths.link != [] && BoundedPaths(paths) && |Key(u.appGroup, u.appId)| < MAX_PATH
  {
    hide FileSystem.WellFormed, FileSystem.Files, FileSystem.WriteFile, PlanUpdate, AdmitUpdate, StoreFiles,
         Protocol.HasFlag, CText, FileSystem.Writable, Key, FileSystem.Sweep, FileSystem.Snapshot;
    var s := AdmitUpdate(st, u, env).st;
    AdmitKeepsInv(st, u, env);
    AdmitLists(st, u, env);
    PlanKeeps(s, u, env);
    PlanHasKey(s, u, env);
    var (planned, plan) := PlanUpdate(s, u, env);
    var paths := plan.value.paths;
    var s1 := planned.(db := planned.db[plan.value.key := paths]);
    StoredFiles(s1, u, env, paths.link, paths.icon);
    StoredSync(s1, u, env, paths.link, paths.icon);
    var s2 := StoreFiles(s1, u, env, paths.link, paths.icon);
    var after := HandleUpdate(st, u, env).st;
    assert after == if HasFlag(u.flags, HINT_SYNC_END) then OnSyncEnd(s2, true, env) else s2;
    if HasFlag(u.flags, HINT_SYNC_END) {
      SweepExact(s2.fs, s2.sync.value, env.faults);
      SameSwept(Files(st.fs), Files(s2.fs), s2.sync.value, s.sync.value, paths, env.faults.undeletable);
    } else {
      assert Files(st.fs) - {} == Files(st.fs);
    }
  }

  lemma SameSwept(before: map<Path, Node>, mid: map<Path, Node>, swept: set<Path>, listed: set<Path>, paths: Paths,
                  undeletable: set<Path>)
    requires mid - {paths.link, paths.icon} == before - {paths.link, paths.icon}
    requires swept <= listed <= swept + {paths.link, paths.icon}
    ensures mid - (swept - undeletable) - {paths.link, paths.icon} ==
            before - (listed - undeletable) - {paths.link, paths.icon}
  {
    var a, b := mid - (swept - undeletable) - {paths.link, paths.icon}, before - (listed - undeletable) - {paths.link, paths.icon};
    forall p ensures p in a <==> p in b {
      assert p in mid - {paths.link, paths.icon} <==> p in before - {paths.link, paths.icon};
    }
    forall p | p in a ensures a[p] == b[p] {
      assert (mid - {paths.link, paths.icon})[p] == (before - {paths.link, paths.icon})[p];
    }
  }

  // What admission leaves: the same state but for sync mode and empty directories.
  lemma AdmitLists(st: State, u: Msg, env: Env)
    requires u.UpdateMsg? && AdmitUpdate(st, u, env).ok
    ensures var s := AdmitUpdate(st, u, env).st;
            && s == st.(fs := s.fs, sync := s.sync)
            && (s.sync.Some? ==> s.sync.value == Listed(st, u, env))
            && (HasFlag(u.flags, HINT_SYNC_END) ==> s.sync.Some?)
  {
    hide FileSystem.Snapshot, FileSystem.Prune, Protocol.HasFlag, NamesOk;
  }

  lemma StoredSync(st: State, m: Msg, env: Env, link: Path, icon: Path)
    requires m.UpdateMsg?
    ensures var s := StoreFiles(st, m, env, link, icon);
            && s == st.(fs := s.fs, sync := s.sync) && (s.sync.Some? <==> st.sync.Some?)
            && (s.sync.Some? ==> s.sync.value <= st.sync.value && st.sync.value <= s.sync.value + {link, icon})
  {
    hide FileSystem.WriteFile, FileSystem.Writable, Protocol.HasFlag;
  }

  /**
   DELETE with the same group and id undoes any successful UPDATE under a fresh key and fresh
   paths, in sync mode or not: the table and the files are as before, but for what the update's
   own sweep took if it ended a sync.
   */
  lemma DeleteUndoesUpdate(st: State, u: Msg, d: Msg, env: Env, env': Env)
    requires Inv(st) && u.UpdateMsg? && d.DeleteMsg?
    requires d.appGroup == u.appGroup && d.appId == u.appId
    requires HandleUpdate(st, u, env).ok
    requires Key(u.appGroup, u.appId) !in st.db
    requires var paths := PathsOf(st, u, env);
             && paths.link !in Files(st.fs) && paths.icon !in Files(st.fs)
             && paths.link !in env'.faults.undeletable && paths.icon !in env'.faults.undeletable
    ensures var after := HandleUpdate(st, u, env).st;
            var o := HandleDelete(after, d, env');
            && o.ok && o.st.db == st.db && o.st == st.(fs := o.st.fs, sync := after.sync)
            && Files(o.st.fs) == Files(st.fs) - SweptBy(st, u, env)
            && (!HasFlag(u.flags, HINT_SYNC_END) ==> Files(o.st.fs) == Files(st.fs))
  {
    hide FileSystem.Files, FileSystem.DeleteFile, HandleUpdate, Protocol.HasFlag, Key, PathsOf, Listed, Inv;
    UpdateFiles(st, u, env);
    var key, paths, after := Key(u.appGroup, u.appId), PathsOf(st, u, env), HandleUpdate(st, u, env).st;
    assert after.db[key] == paths && after.db - {key} == st.db;
    var fs1 := DeleteFile(after.fs, paths.link, env'.faults);
    DeleteFiles(after.fs, paths.link, env'.faults);
    DeleteFiles(fs1, paths.icon, env'.faults);
    var fs2 := if paths.icon != [] then DeleteFile(fs1, paths.icon, env'.faults) else fs1;
    assert HandleDelete(after, d, env') == Outcome(after.(fs := fs2, db := after.db - {key}), true);
    var kept := Files(st.fs) - SweptBy(st, u, env);
    assert kept == kept - {paths.link, paths.icon} == Files(after.fs) - {paths.link, paths.icon};
    assert Files(fs2) == Files(after.fs) - {paths.link, paths.icon};
    assert Files(st.fs) - {} == Files(st.fs);
  }

  /**
   A window of an application that was updated shows the executable with the command line of that
   update, and its icon, whether or not the update changed the table; it can only be refused for a
   zero id or an overlong command.
   */
  lemma AssociateAfterUpdate(st: State, u: Msg, a: Msg, env: Env)
    requires Inv(st) && u.UpdateMsg? && a.AssociateMsg? && HandleUpdate(st, u, env).ok
    requires a.appGroup == u.appGroup && a.appId == u.appId
    ensures var after := HandleUpdate(st, u, env).st;
            var o := HandleAssociate(after, a);
            var id := st.guid * 0x1_0000_0000 + a.appWindowId;
            var dir := if u.appWorkingDir.length > 0 then CText(u.appWorkingDir.text) else W("~");
            var command := st.exe + W(" ") + (W("-d ") + CText(st.provider) + W(" --cd \"") + dir + W("\" -- ") +
                                              CText(u.appExecPath.text));
            && (o.ok <==> id != 0 && |command| < MAX_PATH)
            && (o.ok ==> exists icon: Path ::
                  && o.st == after.(windows := st.windows + [Window(id, CText(a.appDesc.text), command, icon)])
                  && (if HasFlag(u.flags, FIELD_ICON)
                      then icon == InFolder(st.icons, u.appGroup) + W("\\") + CText(u.appId.text) + W(".ico")
                      else icon == []))
            && (!o.ok ==> o.st == after)
  {
    hide CText, W, Protocol.HasFlag, Key, HandleUpdate, HandleAssociate, PathsOf, Inv, InFolder;
    UpdateKeepsRest(st, u, env);
    UpdateListed(st, u, env);
    AssociateKnown(HandleUpdate(st, u, env).st, a);
  }

  // A window whose application is in the table.
  lemma AssociateKnown(st: State, a: Msg)
    requires a.AssociateMsg? && Key(a.appGroup, a.appId) in st.db && |Key(a.appGroup, a.appId)| < MAX_PATH
    ensures var id, paths := st.guid * 0x1_0000_0000 + a.appWindowId, st.db[Key(a.appGroup, a.appId)];
            var command := paths.exe + W(" ") + paths.args;
            HandleAssociate(st, a) ==
            if id != 0 && |command| < MAX_PATH
            then Outcome(st.(windows := st.windows + [Window(id, CText(a.appDesc.text), command, paths.icon)]), true)
            else Outcome(st, false)
  {
    assert W(" ") == [SPACE];
    hide CText, W, Key, CommandLine;
  }

  /**
   A window of an application the table does not know gets the executable with the message's own
   command in the home directory, or none at all if the message has no command, and never an icon.
   */
  lemma AssociateUnknown(st: State, a: Msg)
    requires a.AssociateMsg? && Key(a.appGroup, a.appId) !in st.db
    ensures var id, exec := st.guid * 0x1_0000_0000 + a.appWindowId, CText(a.appExecPath.text);
            var command := if exec == [] then [] else
              st.exe + W(" ") + (W("-d ") + CText(st.provider) + W(" --cd \"~\" -- ") + exec);
            HandleAssociate(st, a) ==
            if id != 0 && |command| < MAX_PATH && |Key(a.appGroup, a.appId)| < MAX_PATH
            then Outcome(st.(windows := st.windows + [Window(id, CText(a.appDesc.text), command, [])]), true)
            else Outcome(st, false)
  {
    assert W(" ") == [SPACE];
    HomeQuoted();
    hide CText, W, Key;
    var exec, name := CText(a.appExecPath.text), CText(st.provider);
    assert W("-d ") + name + W(" --cd \"") + W("~") + W("\" -- ") + exec ==
           W("-d ") + name + (W(" --cd \"") + W("~") + W("\" -- ")) + exec;
  }

  lemma HomeQuoted()
    ensures W(" --cd \"") + W("~") + W("\" -- ") == W(" --cd \"~\" -- ")
  {
  }

  /** base[\group] */
  function InFolder(base: Path, group: Field): Path {
    if group.length > 0 then base + W("\\") + CText(group.text) else base
  }

  /** After a successful update the table holds, under its spelled key, the spelled paths and command line. */
  lemma UpdateListed(st: State, u: Msg, env: Env)
    requires u.UpdateMsg? && HandleUpdate(st, u, env).ok
    ensures var key, paths := Key(u.appGroup, u.appId), PathsOf(st, u, env);
            var dir := if u.appWorkingDir.length > 0 then CText(u.appWorkingDir.text) else W("~");
            && key in HandleUpdate(st, u, env).st.db && HandleUpdate(st, u, env).st.db[key] == paths
            && |key| < MAX_PATH
            && key == (if u.appGroup.length > 0 then CText(u.appGroup.text) + W("\\") else []) + CText(u.appId.text)
            && paths.exe == st.exe
            && paths.args == W("-d ") + CText(st.provider) + W(" --cd \"") + dir + W("\" -- ") + CText(u.appExecPath.text)
            && paths.link == InFolder(st.menu, u.appGroup) + W("\\") + CText(u.appDesc.text) + W(".lnk")
            && paths.icon == (if HasFlag(u.flags, FIELD_ICON)
                              then InFolder(st.icons, u.appGroup) + W("\\") + CText(u.appId.text) + W(".ico") else [])
  {
    assert W("\\") == [SEP] by { Extensions(); }
    var s := AdmitUpdate(st, u, env).st;
    AdmitKeepsRest(st, u, env);
    KeySpelled(u);
    hide Protocol.HasFlag, Key, Args, InFolder, AdmitUpdate, PlanUpdate, StoreFiles, FileSystem.Sweep, W, CText;
    PlanHasKey(s, u, env);
    UpdatePlan(s, u, env);
    var (planned, plan) := PlanUpdate(s, u, env);
    StoredSync(planned.(db := planned.db[plan.value.key := plan.value.paths]), u, env, plan.value.paths.link,
               plan.value.paths.icon);
    SameArgs(st, s, u);
    ArgsSpelled(st, u);
  }

  lemma Extensions()
    ensures W("\\") == [SEP] && W(".lnk") == LNK && W(".ico") == ICO
  {
  }

  lemma KeySpelled(m: Msg)
    requires m.UpdateMsg?
    ensures Key(m.appGroup, m.appId) ==
            (if m.appGroup.length > 0 then CText(m.appGroup.text) + W("\\") else []) + CText(m.appId.text)
  {
    Extensions();
    hide W, CText;
  }

  lemma ArgsSpelled(st: State, m: Msg)
    requires m.UpdateMsg?
    ensures var dir := if m.appWorkingDir.length > 0 then CText(m.appWorkingDir.text) else W("~");
            Args(st, m) == W("-d ") + CText(st.provider) + W(" --cd \"") + dir + W("\" -- ") + CText(m.appExecPath.text)
  {
    hide W, CText;
  }

  lemma SameArgs(a: State, b: State, m: Msg)
    requires m.UpdateMsg? && a.provider == b.provider
    ensures Args(a, m) == Args(b, m)
  {
  }

  // The paths and the command line an update is planned with.
  lemma UpdatePlan(st: State, m: Msg, env: Env)
    requires m.UpdateMsg? && PlanUpdate(st, m, env).1.Some?
    ensures var paths := PlanUpdate(st, m, env).1.value.paths;
            && paths.exe == st.exe && paths.args == Args(st, m)
            && paths.link == InFolder(st.menu, m.appGroup) + W("\\") + CText(m.appDesc.text) + W(".lnk")
            && paths.icon == (if HasFlag(m.flags, FIELD_ICON)
                              then InFolder(st.icons, m.appGroup) + W("\\") + CText(m.appId.text) + W(".ico") else [])
    ensures var s := PlanUpdate(st, m, env).0; s == st.(fs := s.fs)
  {
    hide BuildFilePath, InFolder, CText, Key, W, CommandLine, Protocol.HasFlag;
    Extensions();
    var icon := if HasFlag(m.flags, FIELD_ICON)
                then BuildFilePath(st.fs, st.icons, m.appGroup, CText(m.appId.text), ICO, env.faults)
                else (st.fs, Some([]));
    PathSpelled(st.fs, st.icons, m.appGroup, CText(m.appId.text), ICO, env.faults);
    PathSpelled(icon.0, st.menu, m.appGroup, CText(m.appDesc.text), LNK, env.faults);
  }

  lemma PathSpelled(fs: Tree, base: Path, group: Field, leaf: wstring, ext: wstring, faults: Faults)
    ensures var path := BuildFilePath(fs, base, group, leaf, ext, faults).1;
            path.Some? ==> path.value == InFolder(base, group) + W("\\") + leaf + ext
  {
    Extensions();
    hide W, CText, FileSystem.CreateDirectory, FileSystem.DirectoryReady;
  }

  lemma PlanHasKey(st: State, m: Msg, env: Env)
    requires m.UpdateMsg?
    ensures var (planned, plan) := PlanUpdate(st, m, env);
            plan.Some? ==> plan.value.key == Key(m.appGroup, m.appId) && |plan.value.key| < MAX_PATH &&
                           plan.value.paths.link != [] &&
                           (HasFlag(m.flags, FIELD_ICON) <==> plan.value.paths.icon != [])
  {
    hide BuildFilePath, CText, Key, W, CommandLine, Protocol.HasFlag;
    var icon := if HasFlag(m.flags, FIELD_ICON)
                then BuildFilePath(st.fs, st.icons, m.appGroup, CText(m.appId.text), ICO, env.faults)
                else (st.fs, Some([]));
    FilePathBound(st.fs, st.icons, m.appGroup, CText(m.appId.text), ICO, env.faults);
    FilePathBound(icon.0, st.menu, m.appGroup, CText(m.appDesc.text), LNK, env.faults);
  }

  // Storing adds at most the link and the icon to the files there were.
  lemma StoredFiles(st: State, m: Msg, env: Env, link: Path, icon: Path)
    requires m.UpdateMsg?
    ensures var fs := StoreFiles(st, m, env, link, icon).fs;
            && Files(fs) - {link, icon} == Files(st.fs) - {link, icon}
            && ((HasFlag(m.flags, FIELD_ICON) && !env.iconWrite.NotOpened?) || icon == link ||
                (icon in Files(fs) <==> icon in Files(st.fs)))
  {
    hide FileSystem.Files, FileSystem.WriteFile, FileSystem.Writable, Protocol.HasFlag;
    WriteFiles(st.fs, icon, Data);
    var node := Link(if IconSaved(st, m, env, icon) then icon else []);
    WriteFiles(WriteFile(st.fs, icon, Data), link, node);
    WriteFiles(st.fs, link, node);
  }

  // ---- names, keys and literals ---------------------------------------------------------

  // No two dots in a row.
  predicate Undotted(w: wstring) {
    forall i | 0 <= i < |w| - 1 :: !(w[i] == 0x2e && w[i + 1] == 0x2e)
  }

  /**
   What decides an update: the sync hints must fit, no name may hold two dots in a row or a quote
   and the working directory no quote, the paths must be buildable, and the table must not hold
   other data under the key.
   */
  lemma UpdateSucceedsExactly(st: State, u: Msg, env: Env)
    requires u.UpdateMsg?
    ensures var group, id, desc := CText(u.appGroup.text), CText(u.appId.text), CText(u.appDesc.text);
            var plan := PlanUpdate(AdmitUpdate(st, u, env).st, u, env).1;
            HandleUpdate(st, u, env).ok <==>
            && (HasFlag(u.flags, HINT_SYNC_START) ==> st.sync.None? && env.createOk)
            && (HasFlag(u.flags, HINT_SYNC) || HasFlag(u.flags, HINT_SYNC_END) ==>
                 st.sync.Some? || HasFlag(u.flags, HINT_SYNC_START))
            && (u.appGroup.length > 0 ==> Undotted(group) && 0x22 !in group)
            && Undotted(id) && 0x22 !in id && Undotted(desc) && 0x22 !in desc
            && 0x22 !in CText(u.appWorkingDir.text)
            && plan.Some?
            && (Key(u.appGroup, u.appId) in st.db ==> st.db[Key(u.appGroup, u.appId)] == plan.value.paths)
  {
    hide CText, Key, PlanUpdate, Protocol.HasFlag, FileSystem.Snapshot, FileSystem.Prune, FileSystem.Sweep, StoreFiles;
    PlanHasKey(AdmitUpdate(st, u, env).st, u, env);
    PlanKeepsRest(AdmitUpdate(st, u, env).st, u, env);
  }

  /** Groups and ids are told apart by their keys as long as ids hold no separator. */
  lemma KeyInjective(g: Field, i: Field, g': Field, i': Field)
    requires Key(g, i) == Key(g', i') && 0x5c !in CText(i.text) && 0x5c !in CText(i'.text)
    ensures CText(i.text) == CText(i'.text) && (g.length > 0 <==> g'.length > 0)
    ensures g.length > 0 ==> CText(g.text) == CText(g'.text)
  {
    hide CText;
    var a, b, x, y := CText(g.text), CText(g'.text), CText(i.text), CText(i'.text);
    assert [] + x == x && [] + y == y;
    if g.length > 0 && g'.length > 0 {
      if |x| < |y| {
        SeparatorInside(b, y, a, x);
      } else if |y| < |x| {
        SeparatorInside(a, x, b, y);
      }
      assert Key(g, i)[..|a|] == a && Key(g', i')[..|b|] == b;
      assert Key(g, i)[|a| + 1..] == x && Key(g', i')[|b| + 1..] == y;
    } else if g.length > 0 {
      GroupHasSeparator(g, i);
    } else if g'.length > 0 {
      GroupHasSeparator(g', i');
    }
  }

  lemma GroupHasSeparator(g: Field, i: Field)
    requires g.length > 0
    ensures SEP in Key(g, i)
  {
    hide CText;
    assert Key(g, i)[|CText(g.text)|] == SEP;
  }

  lemma SeparatorInside(a: wstring, x: wstring, b: wstring, y: wstring)
    requires a + [SEP] + x == b + [SEP] + y && |y| < |x|
    ensures SEP in x
  {
    assert (b + [SEP] + y)[|b|] == SEP && (a + [SEP] + x)[|b|] == x[|b| - |a| - 1];
  }

  /** Ubuntu's editor, as it ends up in the table: everything spelled out. */
  lemma EditorCommandLine(st: State, u: Msg, env: Env)
    requires u.UpdateMsg? && HandleUpdate(st, u, env).ok
    requires CText(st.provider) == W("Ubuntu") && CText(u.appExecPath.text) == W("/usr/bin/gedit")
    requires u.appWorkingDir.length == 0
    ensures var db := HandleUpdate(st, u, env).st.db;
            Key(u.appGroup, u.appId) in db &&
            db[Key(u.appGroup, u.appId)].args == W("-d Ubuntu --cd \"~\" -- /usr/bin/gedit")
  {
    EditorSpelled();
    hide HandleUpdate, W, CText, Key, InFolder, PathsOf;
    UpdateListed(st, u, env);
  }

  lemma EditorSpelled()
    ensures W("-d ") + W("Ubuntu") + W(" --cd \"") + W("~") + W("\" -- ") + W("/usr/bin/gedit") ==
            W("-d Ubuntu --cd \"~\" -- /usr/bin/gedit")
  {
  }

  /** What a delete does: it succeeds exactly for a known key, and takes that entry and its two files. */
  lemma DeleteExactly(st: State, d: Msg, env: Env)
    requires d.DeleteMsg?
    ensures var key, o := Key(d.appGroup, d.appId), HandleDelete(st, d, env);
            && (o.ok <==> key in st.db && |key| < MAX_PATH) && (!o.ok ==> o.st == st)
            && (o.ok ==>
                 && o.st == st.(fs := o.st.fs, db := st.db - {key})
                 && (st.db[key].link != [] && st.db[key].icon != [] ==>
                      Files(o.st.fs) == Files(st.fs) - ({st.db[key].link, st.db[key].icon} - env.faults.undeletable))
                 && (st.db[key].link != [] && st.db[key].icon == [] ==>
                      Files(o.st.fs) == Files(st.fs) - ({st.db[key].link} - env.faults.undeletable)))
  {
    hide Key, FileSystem.Files, FileSystem.DeleteFile;
    var key := Key(d.appGroup, d.appId);
    if key in st.db {
      var paths := st.db[key];
      DeleteFiles(st.fs, paths.link, env.faults);
      DeleteFiles(DeleteFile(st.fs, paths.link, env.faults), paths.icon, env.faults);
    }
  }

  /** A window is updated only by an ASSOCIATE, after a handshake and from version 4 on. */
  lemma WindowsOnlyFromAssociate(st: State, s: seq<byte>, world: World)
    requires Step(st, s, world).st.windows != st.windows
    ensures |s| >= HEADER_SIZE && ParseHeader(s).value.cmdId == 5 && st.handshake && st.version >= 4
  {
    hide Protocol.ParseCaps, Protocol.ParseUpdate, Protocol.ParseDelete, Protocol.ParseAssociate, PrepareCaps,
         HandleUpdate, HandleDelete, HandleAssociate, FileSystem.Files;
    var h, t := ParseHeader(s).value, ParseHeader(s).rest;
    var env, st0 := world(st.handled), st.(handled := st.handled + 1);
    var r := ParseBody(h.cmdId, t, env.allocOk);
    if r.Ok? {
      match r.value
      case CapsMsg(_, _, _) => PreparingKeepsRest(st0, r.value, env);
      case UpdateMsg(_, _, _, _, _, _, _) => UpdateKeepsRest(st0, r.value, env);
      case DeleteMsg(_, _, _) => DeleteExactly(st0, r.value, env);
      case AssociateMsg(_, _, _, _, _, _) =>
    }
  }

  // ---- the provider name ----------------------------------------------------------------

  /**
   The provider name is copied over the previous one without a terminator. After a caps message
   the stored name is the one sent exactly when the old array already ended there; otherwise
   the tail of an earlier, longer name stays attached.
   */
  lemma ProviderNameExact(before: wstring, name: Field)
    requires |before| == MAX_PATH && Kept(name) && 0 !in name.text
    ensures CText(Overlay(before, name)) == name.text <==>
            (if name.length % 2 == 1 then before[|name.text|] < 0x100 else before[|name.text|] == 0)
  {
    var a, n := Overlay(before, name), |name.text|;
    assert a[..n] == name.text;
    if a[n] == 0 {
      CTextUnique(a, name.text);
    }
  }

  // A second, shorter name: "Ubuntu" followed by "Deb" is stored as "Debntu".
  lemma StaleProviderName(before: wstring)
    requires |before| == MAX_PATH && before[..7] == [0x55, 0x62, 0x75, 0x6e, 0x74, 0x75, 0]
    ensures CText(Overlay(before, Field(6, [0x44, 0x65, 0x62]))) == [0x44, 0x65, 0x62, 0x6e, 0x74, 0x75]
  {
    var a := Overlay(before, Field(6, [0x44, 0x65, 0x62]));
    assert forall i | 0 <= i < 7 :: before[i] == before[..7][i];
    CTextUnique(a, [0x44, 0x65, 0x62, 0x6e, 0x74, 0x75]);
  }
}
