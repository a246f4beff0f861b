/**
 OnDataReceived and OnClose on different threads: a closed flag that is set before the lock is
 taken and read again under it, modelled as interleaved atomic steps of any number of threads.
 */
module CloseRace {
  import opened Wire

  /** Where a thread is: R for OnDataReceived, C for OnClose. */
  datatype Pc =
    | REnter                  // about to read the flag before the lock
    | RLock                   // waiting for the critical section
    | RCheck                  // at the loop condition
    | RMessage(id: nat, uses: nat)  // in a message handler, with so many uses of m_spFileDB to come
    | RLeave                  // about to leave the critical section
    | RDone
    | CFlag                   // about to set the flag
    | CLock
    | CSync                   // abandoning a running sync
    | CTable                  // about to call m_spFileDB->OnClose
    | CNull                   // about to null m_spFileDB
    | CLeave
    | CDone

  type Tid = nat

  /** started counts the messages begun so far; each takes its number as its id. */
  datatype Config = Config(closed: bool, table: bool, lock: Option<Tid>, pcs: map<Tid, Pc>, crashed: bool, started: nat)

  predicate IsCloser(pc: Pc) {
    pc.CFlag? || pc.CLock? || pc.CSync? || pc.CTable? || pc.CNull? || pc.CLeave? || pc.CDone?
  }

  predicate InCritical(pc: Pc) {
    pc.RCheck? || pc.RMessage? || pc.RLeave? || pc.CSync? || pc.CTable? || pc.CNull? || pc.CLeave?
  }

  function Goto(s: Config, t: Tid, pc: Pc): Config { s.(pcs := s.pcs[t := pc]) }

  function Begin(s: Config, t: Tid, uses: nat): Config {
    Goto(s, t, RMessage(s.started, uses)).(started := s.started + 1)
  }

  // Using the table through a null pointer is the failure the flag is there to prevent.
  function UseTable(s: Config): Config { s.(crashed := s.crashed || !s.table) }

  /** One atomic step of thread t. */
  ghost predicate Acts(s: Config, s': Config, t: Tid) {
    t in s.pcs &&
    match s.pcs[t]
    case REnter => s' == Goto(s, t, if s.closed then RDone else RLock)
    case RLock => s.lock.None? && s' == Goto(s, t, RCheck).(lock := Some(t))
    case RCheck =>
      s' == Goto(s, t, RLeave) ||
      (!s.closed && t in s'.pcs && s'.pcs[t].RMessage? && s' == Begin(s, t, s'.pcs[t].uses))
    case RMessage(id, k) =>
      if k > 0 then s' == Goto(UseTable(s), t, RMessage(id, k - 1))
      else s' == Goto(s, t, RCheck) || s' == Goto(s, t, RLeave)
    case RLeave => s' == Goto(s, t, RDone).(lock := None)
    case CFlag => s' == Goto(s, t, CLock).(closed := true)
    case CLock => s.lock.None? && s' == Goto(s, t, CSync).(lock := Some(t))
    case CSync => s' == Goto(s, t, CTable)
    case CTable => s' == Goto(UseTable(s), t, CNull)
    case CNull => s' == Goto(s, t, CLeave).(table := false)
    case CLeave => s' == Goto(s, t, CDone).(lock := None)
    case RDone => false
    case CDone => false
  }

  /** More data arrives on a new thread. */
  ghost predicate Arrives(s: Config, s': Config, t: Tid) {
    t !in s.pcs && s' == Goto(s, t, REnter)
  }

  ghost predicate Next(s: Config, s': Config) {
    exists t :: Acts(s, s', t) || Arrives(s, s', t)
  }

  ghost predicate Start(s: Config) {
    !s.closed && s.table && s.lock.None? && !s.crashed &&
    forall t | t in s.pcs :: s.pcs[t] == REnter || s.pcs[t] == CFlag
  }

  /** A run: every state follows from the one before by some thread's step. */
  ghost predicate Run(ss: seq<Config>) {
    ss != [] && (|ss| == 1 || (Run(ss[..|ss| - 1]) && Next(ss[|ss| - 2], ss[|ss| - 1])))
  }

  ghost predicate OneCloser(s: Config) {
    forall t, u | t in s.pcs && u in s.pcs && IsCloser(s.pcs[t]) && IsCloser(s.pcs[u]) :: t == u
  }

  ghost predicate Locked(s: Config) {
    && (s.lock.Some? ==> s.lock.value in s.pcs)
    && (forall t | t in s.pcs :: InCritical(s.pcs[t]) <==> s.lock == Some(t))
  }

  /** The table is null only once the channel is closed and nobody can be using it. */
  ghost predicate Safe(s: Config) {
    && Locked(s) && OneCloser(s) && !s.crashed
    && (forall t | t in s.pcs && IsCloser(s.pcs[t]) && !s.pcs[t].CFlag? :: s.closed)
    && (!s.table ==> s.closed)
    && (!s.table ==>
         forall t | t in s.pcs :: !s.pcs[t].RMessage? && (IsCloser(s.pcs[t]) ==> s.pcs[t].CLeave? || s.pcs[t].CDone?))
  }

  // A step moves one thread, which stays on its side and takes or leaves the lock openly.
  lemma ActsShape(s: Config, s': Config, t: Tid)
    requires Acts(s, s', t)
    ensures t in s'.pcs && s'.pcs == s.pcs[t := s'.pcs[t]]
    ensures IsCloser(s'.pcs[t]) == IsCloser(s.pcs[t])
    ensures || (s'.lock == s.lock && InCritical(s'.pcs[t]) == InCritical(s.pcs[t]))
            || (s.lock.None? && s'.lock == Some(t) && InCritical(s'.pcs[t]))
            || (InCritical(s.pcs[t]) && s'.lock.None? && !InCritical(s'.pcs[t]))
  {
    match s.pcs[t]
    case RMessage(_, _) =>
    case _ =>
  }

  lemma NextKeepsLocked(s: Config, s': Config)
    requires Locked(s) && Next(s, s')
    ensures Locked(s')
  {
    hide Acts, IsCloser;
    var t :| Acts(s, s', t) || Arrives(s, s', t);
    if Acts(s, s', t) {
      assert t in s.pcs by { ActsHasThread(s, s', t); }
      ActsShape(s, s', t);
      forall u | u in s'.pcs ensures InCritical(s'.pcs[u]) <==> s'.lock == Some(u) {
        assert InCritical(s.pcs[u]) <==> s.lock == Some(u);
      }
    }
  }

  lemma ActsHasThread(s: Config, s': Config, t: Tid)
    requires Acts(s, s', t)
    ensures t in s.pcs
  {
  }

  // The flags after a step of one thread.
  lemma ActsFlags(s: Config, s': Config, t: Tid)
    requires Acts(s, s', t) && Safe(s)
    ensures s.closed ==> s'.closed
    ensures !s'.crashed
    ensures IsCloser(s'.pcs[t]) && !s'.pcs[t].CFlag? ==> s'.closed
    ensures s'.pcs[t].RMessage? ==> s.pcs[t].RMessage? || !s.closed
    ensures s'.table == s.table || (s.pcs[t].CNull? && s'.pcs[t].CLeave? && !s'.table)
    ensures IsCloser(s'.pcs[t]) && (s.pcs[t].CLeave? || s.pcs[t].CDone?) ==> s'.pcs[t].CDone?
  {
    match s.pcs[t]
    case RMessage(_, _) =>
    case _ =>
  }

  lemma NextKeepsSafe(s: Config, s': Config)
    requires Safe(s) && Next(s, s')
    ensures Safe(s')
  {
    hide Acts;
    NextKeepsLocked(s, s');
    var t :| Acts(s, s', t) || Arrives(s, s', t);
    if Acts(s, s', t) {
      ActsHasThread(s, s', t);
      ActsShape(s, s', t);
      ActsFlags(s, s', t);
      assert forall u | u in s'.pcs && u != t :: s'.pcs[u] == s.pcs[u];
    }
  }

  lemma {:induction false} RunKeepsSafe(ss: seq<Config>)
    requires Run(ss) && Safe(ss[0])
    ensures Safe(ss[|ss| - 1])
  {
    hide Safe, Next;
    if |ss| > 1 {
      RunKeepsSafe(ss[..|ss| - 1]);
      NextKeepsSafe(ss[|ss| - 2], ss[|ss| - 1]);
    }
  }

  /**
   With any number of receiving threads and at most one closing thread, no interleaving uses
   the table after it was nulled.
   */
  lemma CloseIsSafe(ss: seq<Config>)
    requires Run(ss) && Start(ss[0]) && OneCloser(ss[0])
    ensures !ss[|ss| - 1].crashed
  {
    RunKeepsSafe(ss);
  }

  // One thread acting alone.
  lemma Extend(ss: seq<Config>, s': Config, t: Tid)
    requires Run(ss) && Acts(ss[|ss| - 1], s', t)
    ensures Run(ss + [s'])
  {
    var rs := ss + [s'];
    assert rs[..|rs| - 1] == ss;
    assert Next(rs[|rs| - 2], rs[|rs| - 1]);
  }

  // A closer that finds the lock free can go up to its use of the table.
  lemma CloserReachesTable(ss: seq<Config>, t: Tid) returns (rs: seq<Config>)
    requires Run(ss)
    requires var s := ss[|ss| - 1]; t in s.pcs && s.pcs[t] == CFlag && s.lock.None?
    ensures Run(rs) && rs[0] == ss[0]
    ensures rs[|rs| - 1] == Goto(ss[|ss| - 1], t, CTable).(closed := true, lock := Some(t))
  {
    var s := ss[|ss| - 1];
    var s1 := Goto(s, t, CLock).(closed := true);
    var s2 := Goto(s1, t, CSync).(lock := Some(t));
    var s3 := Goto(s2, t, CTable);
    Extend(ss, s1, t);
    Extend(ss + [s1], s2, t);
    Extend(ss + [s1] + [s2], s3, t);
    rs := ss + [s1] + [s2] + [s3];
    assert s3.pcs == s.pcs[t := CTable];
  }

  /** Two closing threads are one too many: the second uses a table the first has nulled. */
  lemma TwoClosersCrash(s: Config, t: Tid, u: Tid) returns (rs: seq<Config>)
    requires Start(s) && t != u && t in s.pcs && u in s.pcs && s.pcs[t] == s.pcs[u] == CFlag
    ensures Run(rs) && rs[0] == s && rs[|rs| - 1].crashed
  {
    rs := CloserReachesTable([s], t);
    var s3 := rs[|rs| - 1];
    var s4 := Goto(UseTable(s3), t, CNull);
    var s5 := Goto(s4, t, CLeave).(table := false);
    var s6 := Goto(s5, t, CDone).(lock := None);
    Extend(rs, s4, t);
    Extend(rs + [s4], s5, t);
    Extend(rs + [s4] + [s5], s6, t);
    rs := CloserReachesTable(rs + [s4] + [s5] + [s6], u);
    var s9 := rs[|rs| - 1];
    var s10 := Goto(UseTable(s9), u, CNull);
    Extend(rs, s10, u);
    rs := rs + [s10];
  }

  ghost predicate CanCrash(s: Config) {
    exists rs: seq<Config> :: Run(rs) && rs[0] == s && rs[|rs| - 1].crashed
  }

  /** The exact condition: some interleaving crashes if and only if OnClose is called twice. */
  lemma CrashExactlyWithTwoClosers(s: Config)
    requires Start(s)
    ensures CanCrash(s) <==> !OneCloser(s)
  {
    if OneCloser(s) {
      forall rs: seq<Config> | Run(rs) && rs[0] == s ensures !rs[|rs| - 1].crashed {
        CloseIsSafe(rs);
      }
    } else {
      var t, u :| t in s.pcs && u in s.pcs && IsCloser(s.pcs[t]) && IsCloser(s.pcs[u]) && t != u;
      var rs := TwoClosersCrash(s, t, u);
    }
  }

  // ---- messages after the flag ----------------------------------------------------------

  ghost function InMessage(s: Config): set<Tid> {
    set t | t in s.pcs && s.pcs[t].RMessage?
  }

  /**
   Where a message can come from: a thread is in one after a step because it was in that very
   message before, with fewer uses left if it was the one to act, or because it just read the
   flag, found it clear and began the next one.
   */
  lemma MessageOrigin(s: Config, s': Config, t: Tid, u: Tid)
    requires Acts(s, s', u) || Arrives(s, s', u)
    requires t in InMessage(s')
    ensures || (t in InMessage(s) && s'.pcs[t] == s.pcs[t] && t != u)
            || (t in InMessage(s) && s'.pcs[t].id == s.pcs[t].id && s'.pcs[t].uses < s.pcs[t].uses && t == u)
            || (t == u && t in s.pcs && s.pcs[t] == RCheck && !s.closed && s'.pcs[t].id == s.started &&
                s'.started == s.started + 1)
  {
    if Acts(s, s', u) {
      ActsHasThread(s, s', u);
      ActsShape(s, s', u);
      if t == u {
        ActorsMessage(s, s', u);
      }
    }
  }

  lemma ActorsMessage(s: Config, s': Config, t: Tid)
    requires Acts(s, s', t) && t in InMessage(s')
    ensures t in s.pcs
    ensures || (s.pcs[t].RMessage? && s'.pcs[t].id == s.pcs[t].id && s'.pcs[t].uses < s.pcs[t].uses)
            || (s.pcs[t] == RCheck && !s.closed && s'.pcs[t].id == s.started && s'.started == s.started + 1)
  {
  }

  /** The count of messages begun goes up only where the flag was read and found clear. */
  lemma StartsOnlyWhenOpen(s: Config, s': Config)
    requires Next(s, s')
    ensures s'.started == s.started || (s'.started == s.started + 1 && !s.closed)
  {
  }

  // The messages under way later are among those under way before, no younger and no further back.
  ghost predicate OnlyContinued(before: Config, after: Config) {
    && after.started == before.started
    && forall t | t in InMessage(after) ::
         t in InMessage(before) && after.pcs[t].id == before.pcs[t].id && after.pcs[t].uses <= before.pcs[t].uses
  }

  lemma NextAfterFlag(s: Config, s': Config)
    requires Next(s, s') && s.closed
    ensures s'.closed && OnlyContinued(s, s')
  {
    var u :| Acts(s, s', u) || Arrives(s, s', u);
    forall t | t in InMessage(s')
      ensures t in InMessage(s) && s'.pcs[t].id == s.pcs[t].id && s'.pcs[t].uses <= s.pcs[t].uses
    {
      MessageOrigin(s, s', t, u);
    }
    StartsOnlyWhenOpen(s, s');
    if Acts(s, s', u) {
      FlagStays(s, s', u);
    }
  }

  lemma FlagStays(s: Config, s': Config, t: Tid)
    requires Acts(s, s', t) && s.closed
    ensures s'.closed
  {
  }

  lemma {:induction false} AfterFlag(ss: seq<Config>)
    requires Run(ss) && ss[0].closed && Locked(ss[0])
    ensures var end := ss[|ss| - 1];
            end.closed && Locked(end) && OnlyContinued(ss[0], end)
  {
    hide Next;
    if |ss| > 1 {
      AfterFlag(ss[..|ss| - 1]);
      NextAfterFlag(ss[|ss| - 2], ss[|ss| - 1]);
      NextKeepsLocked(ss[|ss| - 2], ss[|ss| - 1]);
    }
  }

  lemma {:induction false} RunKeepsLocked(ss: seq<Config>)
    requires Run(ss) && Locked(ss[0])
    ensures Locked(ss[|ss| - 1])
  {
    if |ss| > 1 {
      RunKeepsLocked(ss[..|ss| - 1]);
      NextKeepsLocked(ss[|ss| - 2], ss[|ss| - 1]);
    }
  }

  /**
   Once the flag is set no message starts on any thread: the count of messages begun never moves
   again, and whoever is in a message later is in the very one it was in when the flag was set,
   with no more of it to do. That is at most one thread.
   */
  lemma NoMessageStartsAfterClose(before: seq<Config>, after: seq<Config>)
    requires Run(before) && Start(before[0])
    requires Run(after) && after[0] == before[|before| - 1] && after[0].closed
    ensures var end := after[|after| - 1];
            && end.started == after[0].started
            && (forall t | t in InMessage(end) ::
                  t in InMessage(after[0]) && end.pcs[t].id == after[0].pcs[t].id &&
                  end.pcs[t].uses <= after[0].pcs[t].uses)
            && (forall t, u | t in InMessage(end) && u in InMessage(end) :: t == u)
  {
    RunKeepsLocked(before);
    AfterFlag(after);
  }
}
