/**
 The process monitor: a table of children that are launched again when they exit, unless their
 command exited too often within the last minute.
 */
module ProcessMonitor {
  import opened Wire

  type Pid = int
  type Time = int

  const WINDOW: int := 60
  const LIMIT: int := 10

  datatype ProcessInfo = ProcessInfo(argv: seq<string>, capabilities: seq<int>, env: seq<string>)

  /** The C string of an argument: everything before its first NUL. */
  function CStr(s: string): string {
    if s == [] || s[0] == '\0' then [] else [s[0]] + CStr(s[1..])
  }

  /** The command line a child is known by in the crash table. */
  function Command(argv: seq<string>): string {
    if argv == [] then [] else Command(argv[..|argv| - 1]) + CStr(argv[|argv| - 1]) + " "
  }

  /**
   One return of waitpid: the pid reaped, the time read afterwards, and the pid a following
   fork would give, none if it fails.
   */
  datatype Exit = Exit(pid: Pid, now: Time, forked: Option<Pid>)

  // ---- the sliding window ---------------------------------------------------------------

  function Still(t: Time, now: Time): seq<Time> { if t < now - WINDOW then [] else [t] }

  /** erase(remove_if(ts < now - 60)): the timestamps still within the window, in order. */
  function Recent(ts: seq<Time>, now: Time): seq<Time> {
    if ts == [] then []
    else Still(ts[0], now) + Recent(ts[1..], now)
  }

  function CrashesOf(crashes: map<string, seq<Time>>, cmd: string): seq<Time> {
    if cmd in crashes then crashes[cmd] else []
  }

  // ---- the state and one exit -----------------------------------------------------------

  datatype State = State(children: map<Pid, ProcessInfo>, crashes: map<string, seq<Time>>)

  predicate Tracked(st: State, e: Exit) {
    e.pid in st.children && st.children[e.pid].argv != []
  }

  function CommandOf(st: State, e: Exit): string
    requires Tracked(st, e)
  {
    Command(st.children[e.pid].argv)
  }

  /** The timestamps of the exiting command after this exit. */
  function Window(st: State, e: Exit): seq<Time>
    requires Tracked(st, e)
  {
    Recent(CrashesOf(st.crashes, CommandOf(st, e)), e.now) + [e.now]
  }

  predicate Relaunches(st: State, e: Exit) {
    Tracked(st, e) && |Window(st, e)| <= LIMIT
  }

  /** What Run does with one exit; the loop ends when a wanted fork fails. */
  function AfterExit(st: State, e: Exit): State {
    if e.pid !in st.children then st
    else if !Tracked(st, e) then st.(children := st.children - {e.pid})
    else
      var counted := st.(crashes := st.crashes[CommandOf(st, e) := Window(st, e)]);
      if !Relaunches(st, e) then counted.(children := st.children - {e.pid})
      else if e.forked.None? then counted
      // The new entry is inserted before the old one is erased.
      else counted.(children := st.children[e.forked.value := st.children[e.pid]] - {e.pid})
  }

  predicate Stops(st: State, e: Exit) {
    Relaunches(st, e) && e.forked.None?
  }

  /** The states before each exit of a run, and the final one. */
  function RunFrom(st: State, exits: seq<Exit>): State {
    if exits == [] then st
    else if Stops(RunFrom(st, exits[..|exits| - 1]), exits[|exits| - 1]) then RunFrom(st, exits[..|exits| - 1])
    else AfterExit(RunFrom(st, exits[..|exits| - 1]), exits[|exits| - 1])
  }

  // ---- the class ------------------------------------------------------------------------

  class Monitor {
    var children: map<Pid, ProcessInfo>

    constructor ()
      ensures children == map[]
    {
      children := map[];
    }

    method LaunchProcess(info: ProcessInfo, forked: Option<Pid>) returns (pid: Option<Pid>)
      modifies this
      ensures pid == forked
      ensures children == if forked.Some? then old(children)[forked.value := info] else old(children)
    {
      if forked.Some? {
        children := children[forked.value := info];
      }
      pid := forked;
    }

    /** Reap children until waitpid fails, which the end of the list stands for. */
    method Run(exits: seq<Exit>) returns (crashes: map<string, seq<Time>>, handled: nat)
      modifies this
      ensures handled <= |exits|
      ensures handled < |exits| ==> Stops(RunFrom(State(old(children), map[]), exits[..handled]), exits[handled])
      ensures children == RunFrom(State(old(children), map[]), exits[..handled]).children
      ensures handled == |exits| ==> crashes == RunFrom(State(old(children), map[]), exits).crashes
    {
      ghost var start := State(children, map[]);
      crashes, handled := map[], 0;
      assert exits[..0] == [];
      while handled < |exits|
        invariant handled <= |exits|
        invariant State(children, crashes) == RunFrom(start, exits[..handled])
      {
        var e := exits[handled];
        ghost var st := State(children, crashes);
        assert exits[..handled + 1][..handled] == exits[..handled];
        if e.pid in children {
          var info := children[e.pid];
          if info.argv != [] {
            var cmd := CommandLine(info.argv);
            var timestamps := Recent(CrashesOf(crashes, cmd), e.now) + [e.now];
            crashes := crashes[cmd := timestamps];
            if |timestamps| <= LIMIT {
              var launched := LaunchProcess(info, e.forked);
              if launched.None? {
                return;
              }
            }
          }
          children := children - {e.pid};
        }
        assert State(children, crashes) == AfterExit(st, e);
        handled := handled + 1;
      }
      assert exits[..|exits|] == exits;
    }

    method CommandLine(argv: seq<string>) returns (cmd: string)
      ensures cmd == Command(argv)
    {
      cmd := "";
      for i := 0 to |argv|
        invariant cmd == Command(argv[..i])
      {
        assert argv[..i + 1][..i] == argv[..i];
        cmd := cmd + CStr(argv[i]);
        cmd := cmd + " ";
      }
      assert argv[..|argv|] == argv;
    }
  }

  // ---- the key of the crash table -------------------------------------------------------

  /** Where an argument begins in the key: behind those before it, each with one space. */
  function Offset(argv: seq<string>, i: nat): nat
    requires i <= |argv|
  {
    if i == 0 then 0 else Offset(argv, i - 1) + |CStr(argv[i - 1])| + 1
  }

  lemma {:induction false} CStrExact(s: string)
    ensures CStr(s) <= s && '\0' !in CStr(s) && (CStr(s) == s || s[|CStr(s)|] == '\0')
  {
    if s != [] && s[0] != '\0' {
      CStrExact(s[1..]);
    }
  }

  lemma {:induction false} OffsetOfPrefix(argv: seq<string>, n: nat, i: nat)
    requires i <= n <= |argv|
    ensures Offset(argv[..n], i) == Offset(argv, i)
  {
    if i > 0 {
      OffsetOfPrefix(argv, n, i - 1);
    }
  }

  /** Every argument stands in the key in full, up to its first NUL, with one space behind it. */
  lemma {:induction false} CommandSpelled(argv: seq<string>, i: nat)
    requires i < |argv|
    ensures |Command(argv)| == Offset(argv, |argv|)
    ensures var from, c := Offset(argv, i), CStr(argv[i]);
            from + |c| < |Command(argv)| && Command(argv)[from..from + |c|] == c && Command(argv)[from + |c|] == ' '
    decreases |argv|
  {
    hide CStr;
    var n := |argv| - 1;
    var front := argv[..n];
    OffsetOfPrefix(argv, n, n);
    OffsetOfPrefix(argv, n, i);
    if n == 0 {
      assert Command(front) == [];
    } else {
      CommandSpelled(front, if i < n then i else 0);
    }
    assert |Command(front)| == Offset(argv, n);
  }

  // Arguments a command line can tell apart.
  predicate Plain(argv: seq<string>) {
    forall i | 0 <= i < |argv| :: ' ' !in argv[i] && '\0' !in argv[i]
  }

  // A key that is not empty ends in a space.
  lemma CommandEnds(argv: seq<string>)
    requires argv != []
    ensures |Command(argv)| > 0 && Command(argv)[|Command(argv)| - 1] == ' '
  {
  }

  // Where the one front ends in a space, the other's last argument would hold it.
  lemma SpaceInside(front: string, x: string, front': string, y: string)
    requires front + x == front' + y && |front| < |front'| && front'[|front'| - 1] == ' '
    ensures ' ' in x
  {
    assert (front' + y)[|front'| - 1] == ' ' && (front + x)[|front'| - 1] == x[|front'| - 1 - |front|];
  }

  lemma LastArgument(front: string, x: string, front': string, y: string)
    requires front + x == front' + y && ' ' !in x && ' ' !in y
    requires front == "" || front[|front| - 1] == ' '
    requires front' == "" || front'[|front'| - 1] == ' '
    ensures front == front' && x == y
  {
    if |front| < |front'| {
      SpaceInside(front, x, front', y);
    } else if |front'| < |front| {
      SpaceInside(front', y, front, x);
    }
    assert (front + x)[..|front|] == front && (front' + y)[..|front'|] == front';
    assert (front + x)[|front|..] == x && (front' + y)[|front'|..] == y;
  }

  /** Argument lists without spaces and NULs share a restart budget only if they are the same. */
  lemma {:induction false} CommandInjective(a: seq<string>, b: seq<string>)
    requires Plain(a) && Plain(b) && Command(a) == Command(b)
    ensures a == b
    decreases |a|
  {
    if a == [] || b == [] {
      if a != [] {
        CommandEnds(a);
      }
      if b != [] {
        CommandEnds(b);
      }
    } else {
      var x, y := a[|a| - 1], b[|b| - 1];
      var fa, fb := a[..|a| - 1], b[..|b| - 1];
      PlainArgument(x);
      PlainArgument(y);
      assert Command(a)[..|Command(a)| - 1] == Command(fa) + x;
      assert Command(b)[..|Command(b)| - 1] == Command(fb) + y;
      if fa != [] {
        CommandEnds(fa);
      }
      if fb != [] {
        CommandEnds(fb);
      }
      LastArgument(Command(fa), x, Command(fb), y);
      CommandInjective(fa, fb);
      assert a == fa + [x] && b == fb + [y];
    }
  }

  lemma NulInside(s: string)
    requires CStr(s) != s
    ensures '\0' in s
  {
    CStrExact(s);
  }

  lemma PlainArgument(s: string)
    requires '\0' !in s
    ensures CStr(s) == s
  {
    if CStr(s) != s {
      NulInside(s);
    }
  }

  // ---- the window is the full history ---------------------------------------------------

  /** A run in which every fork that is needed succeeds. */
  predicate Completes(st: State, exits: seq<Exit>)
    decreases |exits|
  {
    exits == [] ||
    (Completes(st, exits[..|exits| - 1]) && !Stops(RunFrom(st, exits[..|exits| - 1]), exits[|exits| - 1]))
  }

  predicate Monotone(exits: seq<Exit>) {
    forall i, j | 0 <= i <= j < |exits| :: exits[i].now <= exits[j].now
  }

  /** Every exit time of one command in a run, the oldest first. */
  function History(st: State, exits: seq<Exit>, cmd: string): seq<Time>
    decreases |exits|
  {
    if exits == [] then []
    else
      var front, e := exits[..|exits| - 1], exits[|exits| - 1];
      var before := RunFrom(st, front);
      History(st, front, cmd) + if Tracked(before, e) && CommandOf(before, e) == cmd then [e.now] else []
  }

  /** The times at which one command was launched again. */
  function Relaunched(st: State, exits: seq<Exit>, cmd: string): seq<Time>
    decreases |exits|
  {
    if exits == [] then []
    else
      var front, e := exits[..|exits| - 1], exits[|exits| - 1];
      var before := RunFrom(st, front);
      Relaunched(st, front, cmd) + if Relaunches(before, e) && CommandOf(before, e) == cmd then [e.now] else []
  }

  predicate SortedTimes(ts: seq<Time>) {
    forall i, j | 0 <= i <= j < |ts| :: ts[i] <= ts[j]
  }

  lemma RecentCons(t: Time, ts: seq<Time>, now: Time)
    ensures Recent([t] + ts, now) == Still(t, now) + Recent(ts, now)
  {
    assert ([t] + ts)[1..] == ts;
  }

  // The first of a list is the first of a longer one.
  lemma SplitFirst(a: seq<Time>, b: seq<Time>)
    requires a != []
    ensures a == [a[0]] + a[1..] && a + b == [a[0]] + (a[1..] + b)
  {
  }

  lemma {:induction false} RecentConcat(a: seq<Time>, b: seq<Time>, now: Time)
    ensures Recent(a + b, now) == Recent(a, now) + Recent(b, now)
  {
    if a == [] {
      assert a + b == b;
    } else {
      hide Recent, Still;
      var head, tail := a[0], a[1..];
      SplitFirst(a, b);
      calc {
        Recent(a + b, now);
        { RecentCons(head, tail + b, now); }
        Still(head, now) + Recent(tail + b, now);
        { RecentConcat(tail, b, now); }
        Still(head, now) + (Recent(tail, now) + Recent(b, now));
        (Still(head, now) + Recent(tail, now)) + Recent(b, now);
        { RecentCons(head, tail, now); }
        Recent(a, now) + Recent(b, now);
      }
    }
  }

  lemma {:induction false} RecentTwice(ts: seq<Time>, early: Time, late: Time)
    requires early <= late
    ensures Recent(Recent(ts, early), late) == Recent(ts, late)
  {
    if ts != [] {
      RecentTwice(ts[1..], early, late);
      RecentConcat(if ts[0] < early - WINDOW then [] else [ts[0]], Recent(ts[1..], early), late);
      assert Recent([ts[0]], late) == if ts[0] < late - WINDOW then [] else [ts[0]];
    }
  }

  // The history only holds times of this run, in order.
  lemma {:induction false} HistoryOrdered(st: State, exits: seq<Exit>, cmd: string)
    requires Monotone(exits)
    ensures SortedTimes(History(st, exits, cmd))
    ensures exits != [] ==> forall t | t in History(st, exits, cmd) :: t <= exits[|exits| - 1].now
    ensures History(st, exits, cmd) != [] ==> exits != []
    decreases |exits|
  {
    if exits != [] {
      var front := exits[..|exits| - 1];
      var now := exits[|exits| - 1].now;
      var h, all := History(st, front, cmd), History(st, exits, cmd);
      HistoryOrdered(st, front, cmd);
      assert front != [] ==> front[|front| - 1].now <= now;
      assert forall t | t in h :: t <= now;
      forall i, j | 0 <= i <= j < |all| ensures all[i] <= all[j] {
        if i < |h| {
          assert h[i] in h && all[i] == h[i];
        }
      }
    }
  }

  lemma {:induction false} RecentSorted(ts: seq<Time>, now: Time)
    requires SortedTimes(ts)
    ensures SortedTimes(Recent(ts, now))
    ensures forall t | t in Recent(ts, now) :: t in ts
  {
    if ts != [] {
      RecentSorted(ts[1..], now);
      var rest := Recent(ts[1..], now);
      forall i | 0 <= i < |rest| ensures ts[0] <= rest[i] {
        assert rest[i] in rest && rest[i] in ts[1..];
      }
    }
  }

  /** The times of a list that fall in a closed interval. */
  function Within(ts: seq<Time>, from: Time, to: Time): seq<Time> {
    if ts == [] then []
    else (if from <= ts[0] <= to then [ts[0]] else []) + Within(ts[1..], from, to)
  }

  lemma {:induction false} WithinExact(ts: seq<Time>, from: Time, to: Time, t: Time)
    ensures multiset(Within(ts, from, to))[t] == if from <= t <= to then multiset(ts)[t] else 0
  {
    if ts != [] {
      var rest := ts[1..];
      WithinExact(rest, from, to, t);
      assert ts == [ts[0]] + rest;
    }
  }

  // Up to the present, the recent part is what lies in the last 60 seconds.
  lemma {:induction false} RecentIsWithin(ts: seq<Time>, now: Time)
    requires forall t | t in ts :: t <= now
    ensures Recent(ts, now) == Within(ts, now - 60, now)
  {
    if ts != [] {
      assert ts[0] in ts && forall t | t in ts[1..] :: t in ts;
      RecentIsWithin(ts[1..], now);
    }
  }

  // The time of the last exit counted for a command, or 0.
  function LastTime(ts: seq<Time>): Time { if ts == [] then 0 else ts[|ts| - 1] }

  /**
   The stored vector refines the full history: it is the part of all past exits of the command
   that lies within 60 seconds of the last one, in ascending order.
   */
  lemma WindowIsHistory(st: State, exits: seq<Exit>, cmd: string)
    requires st.crashes == map[] && Monotone(exits) && Completes(st, exits)
    ensures var h := History(st, exits, cmd);
            CrashesOf(RunFrom(st, exits).crashes, cmd) == Within(h, LastTime(h) - 60, LastTime(h))
    ensures SortedTimes(CrashesOf(RunFrom(st, exits).crashes, cmd))
  {
    hide Recent, History, RunFrom;
    WindowIsRecent(st, exits, cmd);
    HistoryOrdered(st, exits, cmd);
    RecentSorted(History(st, exits, cmd), LastTime(History(st, exits, cmd)));
    LastIsLatest(History(st, exits, cmd));
    RecentIsWithin(History(st, exits, cmd), LastTime(History(st, exits, cmd)));
  }

  lemma LastIsLatest(ts: seq<Time>)
    requires SortedTimes(ts)
    ensures forall t | t in ts :: t <= LastTime(ts)
  {
  }

  lemma {:induction false} WindowIsRecent(st: State, exits: seq<Exit>, cmd: string)
    requires st.crashes == map[] && Monotone(exits) && Completes(st, exits)
    ensures var h := History(st, exits, cmd);
            CrashesOf(RunFrom(st, exits).crashes, cmd) == Recent(h, LastTime(h))
    decreases |exits|
  {
    if exits != [] {
      var front, e := exits[..|exits| - 1], exits[|exits| - 1];
      var before := RunFrom(st, front);
      WindowIsRecent(st, front, cmd);
      assert RunFrom(st, exits) == AfterExit(before, e);
      if Tracked(before, e) && CommandOf(before, e) == cmd {
        WindowStep(st, exits, cmd);
        CrashesAfterExit(before, e, cmd);
      } else {
        CrashesAfterExit(before, e, cmd);
        assert History(st, exits, cmd) == History(st, front, cmd) + [] == History(st, front, cmd);
      }
    }
  }

  lemma CrashesAfterExit(st: State, e: Exit, cmd: string)
    ensures CrashesOf(AfterExit(st, e).crashes, cmd) ==
            if Tracked(st, e) && CommandOf(st, e) == cmd then Window(st, e) else CrashesOf(st.crashes, cmd)
  {
    hide Window, Command;
  }

  // At an exit of the command, the window is the recent part of its whole history.
  lemma WindowStep(st: State, exits: seq<Exit>, cmd: string)
    requires Monotone(exits) && exits != []
    requires var front := exits[..|exits| - 1];
             var h := History(st, front, cmd);
             CrashesOf(RunFrom(st, front).crashes, cmd) == Recent(h, LastTime(h))
    requires var before := RunFrom(st, exits[..|exits| - 1]);
             Tracked(before, exits[|exits| - 1]) && CommandOf(before, exits[|exits| - 1]) == cmd
    ensures Window(RunFrom(st, exits[..|exits| - 1]), exits[|exits| - 1]) ==
            Recent(History(st, exits, cmd), exits[|exits| - 1].now)
  {
    hide RunFrom, AfterExit, Command, CommandOf, Recent;
    var front, e := exits[..|exits| - 1], exits[|exits| - 1];
    HistoryOrdered(st, front, cmd);
    assert front != [] ==> front[|front| - 1].now <= e.now;
    RecentAppend(History(st, front, cmd), e.now);
  }

  lemma RecentAppend(h: seq<Time>, now: Time)
    requires forall t | t in h :: t <= now
    ensures Recent(Recent(h, LastTime(h)), now) + [now] == Recent(h + [now], now)
  {
    if h != [] {
      assert h[|h| - 1] in h;
      RecentTwice(h, LastTime(h), now);
    }
    RecentConcat(h, [now], now);
    assert Recent([now], now) == [now];
  }

  /** A tracked exit leads to a relaunch exactly if at most ten exits lie in the last minute. */
  lemma RelaunchExactly(st: State, exits: seq<Exit>, e: Exit)
    requires st.crashes == map[] && Monotone(exits + [e]) && Completes(st, exits)
    requires Tracked(RunFrom(st, exits), e)
    ensures var h := History(st, exits + [e], CommandOf(RunFrom(st, exits), e));
            Relaunches(RunFrom(st, exits), e) <==> |Within(h, e.now - 60, e.now)| <= 10
  {
    hide RunFrom, History, Recent, Within, Command, AfterExit, Completes;
    var all := exits + [e];
    assert all[..|all| - 1] == exits && all[|all| - 1] == e;
    assert Monotone(exits) by {
      assert forall i | 0 <= i < |exits| :: all[i] == exits[i];
    }
    var cmd := CommandOf(RunFrom(st, exits), e);
    WindowIsRecent(st, exits, cmd);
    WindowStep(st, all, cmd);
    HistoryOrdered(st, all, cmd);
    RecentIsWithin(History(st, all, cmd), e.now);
  }

  /** A relaunch counted is a child started: with a fresh pid, one is recorded exactly if the other is there. */
  lemma RelaunchIsRecorded(st: State, exits: seq<Exit>, e: Exit)
    requires Tracked(RunFrom(st, exits), e) && e.forked.Some? && FreshFork(RunFrom(st, exits), e)
    ensures var cmd := CommandOf(RunFrom(st, exits), e);
            e.forked.value in RunFrom(st, exits + [e]).children <==>
              Relaunched(st, exits + [e], cmd) == Relaunched(st, exits, cmd) + [e.now]
  {
    hide Window, Command;
    var all := exits + [e];
    assert all[..|all| - 1] == exits && all[|all| - 1] == e;
    var cmd := CommandOf(RunFrom(st, exits), e);
    assert |Relaunched(st, exits, cmd) + [e.now]| == |Relaunched(st, exits, cmd)| + 1;
  }

  // ---- the rate bound -------------------------------------------------------------------

  lemma {:induction false} WithinConcat(a: seq<Time>, b: seq<Time>, from: Time, to: Time)
    ensures Within(a + b, from, to) == Within(a, from, to) + Within(b, from, to)
  {
    if a == [] {
      assert a + b == b;
    } else {
      assert (a + b)[1..] == a[1..] + b;
      WithinConcat(a[1..], b, from, to);
    }
  }

  // Up to the present, an interval of a minute holds no more than the recent part.
  lemma {:induction false} WithinRecent(ts: seq<Time>, from: Time, to: Time, now: Time)
    requires now - WINDOW <= from
    ensures |Within(ts, from, to)| <= |Recent(ts, now)|
  {
    if ts != [] {
      WithinRecent(ts[1..], from, to, now);
    }
  }

  // Every relaunch is an exit, so relaunches in an interval are at most the exits in it.
  lemma {:induction false} RelaunchesAreExits(st: State, exits: seq<Exit>, cmd: string, from: Time, to: Time)
    ensures |Within(Relaunched(st, exits, cmd), from, to)| <= |Within(History(st, exits, cmd), from, to)|
    decreases |exits|
  {
    if exits != [] {
      var front, e := exits[..|exits| - 1], exits[|exits| - 1];
      var before := RunFrom(st, front);
      RelaunchesAreExits(st, front, cmd, from, to);
      WithinConcat(Relaunched(st, front, cmd), if Relaunches(before, e) && CommandOf(before, e) == cmd then [e.now] else [],
                   from, to);
      WithinConcat(History(st, front, cmd), if Tracked(before, e) && CommandOf(before, e) == cmd then [e.now] else [],
                   from, to);
    }
  }

  // At a relaunch inside the interval, the window of that exit bounds all relaunches in it.
  lemma RateAtRelaunch(st: State, exits: seq<Exit>, cmd: string, from: Time)
    requires st.crashes == map[] && Monotone(exits) && Completes(st, exits) && exits != []
    requires var before, e := RunFrom(st, exits[..|exits| - 1]), exits[|exits| - 1];
             Relaunches(before, e) && CommandOf(before, e) == cmd && from <= e.now <= from + WINDOW
    ensures |Within(Relaunched(st, exits, cmd), from, from + WINDOW)| <= LIMIT
  {
    hide Recent, Within, Command, AfterExit, History, Relaunched, RunFrom;
    var front, e := exits[..|exits| - 1], exits[|exits| - 1];
    assert Completes(st, front) && Monotone(front);
    WindowIsRecent(st, front, cmd);
    WindowStep(st, exits, cmd);
    RelaunchesAreExits(st, exits, cmd, from, from + WINDOW);
    WithinRecent(History(st, exits, cmd), from, from + WINDOW, e.now);
  }

  // Any other exit adds no relaunch to the interval.
  lemma RateElsewhere(st: State, exits: seq<Exit>, cmd: string, from: Time, to: Time)
    requires exits != []
    requires var before, e := RunFrom(st, exits[..|exits| - 1]), exits[|exits| - 1];
             !(Relaunches(before, e) && CommandOf(before, e) == cmd && from <= e.now <= to)
    ensures Within(Relaunched(st, exits, cmd), from, to) == Within(Relaunched(st, exits[..|exits| - 1], cmd), from, to)
  {
    hide Recent, Command, AfterExit, History, RunFrom, Window;
    var front, e := exits[..|exits| - 1], exits[|exits| - 1];
    var before := RunFrom(st, front);
    var last := if Relaunches(before, e) && CommandOf(before, e) == cmd then [e.now] else [];
    WithinConcat(Relaunched(st, front, cmd), last, from, to);
    assert Within(last, from, to) == [];
  }

  /**
   The rate bound: with a clock that does not run backwards, in every run and for every command,
   no closed interval of 60 seconds contains more than ten relaunches.
   */
  lemma {:induction false} RestartRateBound(st: State, exits: seq<Exit>, cmd: string, from: Time)
    requires st.crashes == map[] && Monotone(exits) && Completes(st, exits)
    ensures |Within(Relaunched(st, exits, cmd), from, from + 60)| <= 10
    decreases |exits|
  {
    if exits != [] {
      var front, e := exits[..|exits| - 1], exits[|exits| - 1];
      var before := RunFrom(st, front);
      if Relaunches(before, e) && CommandOf(before, e) == cmd && from <= e.now <= from + WINDOW {
        RateAtRelaunch(st, exits, cmd, from);
      } else {
        hide Within, Relaunched, RunFrom, Relaunches;
        RestartRateBound(st, front, cmd, from);
        RateElsewhere(st, exits, cmd, from, from + WINDOW);
      }
    }
  }

  // ---- conservation of children ---------------------------------------------------------

  /** fork returns neither the pid just reaped nor one in the table. */
  predicate FreshFork(st: State, e: Exit) {
    e.forked.Some? ==> e.forked.value !in st.children
  }

  /**
   A relaunch keeps the number of children exactly if the new pid is fresh. With the pid just
   reaped the new child is forgotten, with another tracked pid an old one is.
   */
  lemma RelaunchKeepsCountExactly(st: State, e: Exit)
    requires Relaunches(st, e) && e.forked.Some?
    ensures |AfterExit(st, e).children| == |st.children| <==> FreshFork(st, e)
    ensures !FreshFork(st, e) ==> |AfterExit(st, e).children| == |st.children| - 1
  {
    hide Window, Command;
    var added := st.children[e.forked.value := st.children[e.pid]];
    var after := added - {e.pid};
    assert added.Keys == st.children.Keys + {e.forked.value};
    assert after.Keys == added.Keys - {e.pid};
    assert |after.Keys| == |added.Keys| - 1;
    if e.forked.value in st.children {
      assert added.Keys == st.children.Keys;
    }
  }

  /** What becomes of a child that is not launched again, and of a pid that is not tracked. */
  lemma NotRelaunched(st: State, e: Exit)
    requires !Relaunches(st, e)
    ensures AfterExit(st, e).children == st.children - {e.pid}
    ensures e.pid !in st.children || st.children[e.pid].argv == [] ==> AfterExit(st, e).crashes == st.crashes
  {
    hide Window, Command;
    assert e.pid !in st.children ==> st.children - {e.pid} == st.children;
  }

  /** With a fresh pid the exited child is replaced one for one, all others untouched. */
  lemma ReplacedOneForOne(st: State, e: Exit)
    requires Relaunches(st, e) && e.forked.Some? && FreshFork(st, e)
    ensures var after := AfterExit(st, e).children;
            && after.Keys == st.children.Keys - {e.pid} + {e.forked.value}
            && after[e.forked.value] == st.children[e.pid]
            && (forall p | p in st.children && p != e.pid :: after[p] == st.children[p])
  {
    hide Window, Command;
  }

  /** Number of table entries with a given description. */
  ghost function Copies(children: map<Pid, ProcessInfo>, info: ProcessInfo): nat {
    |set p | p in children && children[p] == info|
  }

  /** Exits of a run after which a child with this description was not launched again. */
  function Retired(st: State, exits: seq<Exit>, info: ProcessInfo): nat
    decreases |exits|
  {
    if exits == [] then 0
    else
      var front, e := exits[..|exits| - 1], exits[|exits| - 1];
      var before := RunFrom(st, front);
      Retired(st, front, info) +
      if e.pid in before.children && before.children[e.pid] == info && !Relaunches(before, e) then 1 else 0
  }

  predicate FreshForks(st: State, exits: seq<Exit>)
    decreases |exits|
  {
    exits == [] ||
    (FreshForks(st, exits[..|exits| - 1]) && FreshFork(RunFrom(st, exits[..|exits| - 1]), exits[|exits| - 1]))
  }

  lemma CopiesAfterExit(st: State, e: Exit, info: ProcessInfo)
    requires FreshFork(st, e) && !Stops(st, e)
    ensures Copies(AfterExit(st, e).children, info) ==
            Copies(st.children, info) -
            if e.pid in st.children && st.children[e.pid] == info && !Relaunches(st, e) then 1 else 0
  {
    hide Window, Command;
    var after := AfterExit(st, e).children;
    var gone := e.pid in st.children && st.children[e.pid] == info;
    var again := Relaunches(st, e) && e.forked.Some?;
    assert again ==> after == st.children[e.forked.value := st.children[e.pid]] - {e.pid};
    assert e.pid in st.children && !again ==> after == st.children - {e.pid};
    assert e.pid !in st.children ==> after == st.children;
    if again {
      CopiesReplaced(st.children, e.pid, e.forked.value, info);
    } else if e.pid in st.children {
      CopiesRemoved(st.children, e.pid, info);
    }
  }

  lemma CopiesRemoved(m: map<Pid, ProcessInfo>, pid: Pid, info: ProcessInfo)
    requires pid in m
    ensures Copies(m - {pid}, info) == Copies(m, info) - if m[pid] == info then 1 else 0
  {
    var rest := m - {pid};
    var held := set p | p in m && m[p] == info;
    assert (set p | p in rest && rest[p] == info) == held - {pid};
  }

  lemma CopiesReplaced(m: map<Pid, ProcessInfo>, pid: Pid, fresh': Pid, info: ProcessInfo)
    requires pid in m && fresh' !in m
    ensures Copies(m[fresh' := m[pid]] - {pid}, info) == Copies(m, info)
  {
    var more := m[fresh' := m[pid]];
    var held := set p | p in m && m[p] == info;
    assert (set p | p in more && more[p] == info) == held + if m[pid] == info then {fresh'} else {};
    CopiesRemoved(more, pid, info);
  }

  /**
   Conservation over whole runs: whatever exits and in whatever order, the children with any
   given arguments, capabilities and environment that are tracked now, together with those
   retired, are as many as were launched at the start.
   */
  lemma {:induction false} ChildrenConserved(st: State, exits: seq<Exit>, info: ProcessInfo)
    requires Completes(st, exits) && FreshForks(st, exits)
    ensures Copies(RunFrom(st, exits).children, info) + Retired(st, exits, info) == Copies(st.children, info)
    decreases |exits|
  {
    hide AfterExit, Copies, Relaunches;
    if exits != [] {
      var front, e := exits[..|exits| - 1], exits[|exits| - 1];
      ChildrenConserved(st, front, info);
      CopiesAfterExit(RunFrom(st, front), e, info);
    }
  }

  lemma Pick<T>(s: set<T>) returns (x: T)
    requires |s| > 0
    ensures x in s
  {
    x :| x in s;
  }

  /** So every tracked child is one that was launched at the start. */
  lemma OnlyOriginalChildren(st: State, exits: seq<Exit>, pid: Pid)
    requires Completes(st, exits) && FreshForks(st, exits)
    requires pid in RunFrom(st, exits).children
    ensures exists p :: p in st.children && st.children[p] == RunFrom(st, exits).children[pid]
  {
    var now := RunFrom(st, exits).children;
    var info := now[pid];
    ChildrenConserved(st, exits, info);
    var here := set p | p in now && now[p] == info;
    assert pid in here;
    var there := set p | p in st.children && st.children[p] == info;
    assert |here| > 0 && |there| == Copies(st.children, info) >= |here|;
    var p := Pick(there);
  }
}
