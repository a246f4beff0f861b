/**
 The font monitor and the font path of the X server: each tracked folder adds its path once it
 holds a fonts.dir, remembers in a flag that it did, and takes the path off again when the
 fonts.dir goes, when the folder stops being tracked, or when monitoring stops.
 */
module FontPath {
  import opened Wire

  type Path = string
  type Wd = int

  const MOUNT: Path := "/mnt/wslg/distro/usr/share/fonts"
  const ALT: Path := "/mnt/wslg/distro/usr/share/X11/fonts"
  const MOUNT_X11: Path := MOUNT + "/X11"

  // ---- the font path --------------------------------------------------------------------

  /** The font path with every occurrence of some paths taken out. */
  function Without(fp: seq<Path>, gone: set<Path>): (r: seq<Path>)
    ensures forall p :: p in r <==> p in fp && p !in gone
  {
    if fp == [] then []
    else if fp[0] in gone then Without(fp[1..], gone)
    else [fp[0]] + Without(fp[1..], gone)
  }

  /** A font path and whether one folder counts its own path as added. */
  datatype Half = Half(fontPath: seq<Path>, added: bool)

  /** xset +fp or -fp, asked for only when the flag differs; ok is xset's exit status. */
  function Toggle(h: Half, p: Path, isAdd: bool, ok: bool): Half {
    if h.added == isAdd || !ok then h
    else Half(if isAdd then [p] + h.fontPath else Without(h.fontPath, {p}), isAdd)
  }

  // ---- the monitor as a value -----------------------------------------------------------

  /** leaked: paths left behind by folders whose last -fp failed. */
  datatype View = View(fontPath: seq<Path>, flags: map<Path, bool>, leaked: set<Path>)

  /**
   What AddMonitorFolder meets at one path: whether a fonts.dir is readable, how xset and the
   watch turn out, and the directories the scan returns, each with the same.
   */
  datatype Scan = Scan(path: Path, ready: bool, setOk: bool, unsetOk: bool, wd: Wd, entries: seq<Scan>)

  /** A folder that is no longer wanted: its destructor takes its path off. */
  function Destroyed(v: View, p: Path, added: bool, ok: bool): View {
    var h := Toggle(Half(v.fontPath, added), p, false, ok);
    View(h.fontPath, v.flags, if h.added then v.leaked + {p} else if added then v.leaked - {p} else v.leaked)
  }

  // Right below the mount only X11 is followed.
  predicate Follows(path: Path, entry: Scan) { path != MOUNT || entry.path == MOUNT_X11 }

  /** The new folder itself, without its entries. */
  function Admit(v: View, s: Scan): View {
    var h := if s.ready then Toggle(Half(v.fontPath, false), s.path, true, s.setOk) else Half(v.fontPath, false);
    if s.wd >= 0 then View(h.fontPath, v.flags[s.path := h.added], v.leaked)
    else Destroyed(v.(fontPath := h.fontPath), s.path, h.added, s.unsetOk)
  }

  function Track(v: View, s: Scan): View
    decreases s, 1
  {
    if s.path in v.flags then v
    else if s.wd < 0 then Admit(v, s)
    else TrackAll(Admit(v, s), s, |s.entries|)
  }

  /** The first n entries of a scan, in the order the scan returns them. */
  function TrackAll(v: View, s: Scan, n: nat): View
    requires n <= |s.entries|
    decreases s, 0, n
  {
    if n == 0 then v
    else
      var before := TrackAll(v, s, n - 1);
      if Follows(s.path, s.entries[n - 1]) then Track(before, s.entries[n - 1]) else before
  }

  function Untrack(v: View, p: Path, ok: bool): View {
    if p in v.flags then Destroyed(v.(flags := v.flags - {p}), p, v.flags[p], ok) else v
  }

  /** A fonts.dir has come or gone in a tracked folder. */
  function FontsDir(v: View, p: Path, isAdd: bool, readable: bool, ok: bool): View {
    if p !in v.flags || (isAdd && !readable) then v
    else
      var h := Toggle(Half(v.fontPath, v.flags[p]), p, isAdd, ok);
      View(h.fontPath, v.flags[p := h.added], if h.added || !v.flags[p] then v.leaked else v.leaked - {p})
  }

  function Added(v: View): set<Path> { set p | p in v.flags && v.flags[p] }

  /** Stop, where stuck are the paths whose removal fails. */
  function Stopped(v: View, stuck: set<Path>): View {
    View(Without(v.fontPath, Added(v) - stuck), map[], (v.leaked - Added(v)) + (Added(v) * stuck))
  }

  datatype Op =
    | Found(scan: Scan)                                             // a directory to track
    | Gone(path: Path, ok: bool)                                    // a directory that went
    | Fonts(path: Path, isAdd: bool, readable: bool, ok: bool)      // a fonts.dir that came or went

  function Apply(v: View, op: Op): View {
    match op
    case Found(s) => Track(v, s)
    case Gone(p, ok) => Untrack(v, p, ok)
    case Fonts(p, isAdd, readable, ok) => FontsDir(v, p, isAdd, readable, ok)
  }

  function Run(v: View, ops: seq<Op>): View
    decreases |ops|
  {
    if ops == [] then v else Apply(Run(v, ops[..|ops| - 1]), ops[|ops| - 1])
  }

  // ---- the classes ----------------------------------------------------------------------

  class XServer {
    var fontPath: seq<Path>

    constructor (fp: seq<Path>)
      ensures fontPath == fp
    {
      fontPath := fp;
    }

    /** xset, whose exit status tells the truth. */
    method Xset(isAdd: bool, p: Path, ok: bool)
      modifies this
      ensures fontPath == if !ok then old(fontPath) else if isAdd then [p] + old(fontPath) else Without(old(fontPath), {p})
    {
      if ok {
        if isAdd {
          fontPath := [p] + fontPath;
        } else {
          fontPath := Without(fontPath, {p});
        }
      }
    }
  }

  class FontFolder {
    const server: XServer
    const path: Path
    var wd: Wd
    var isPathAdded: bool

    constructor (server: XServer, s: Scan)
      modifies server
      ensures this.server == server && path == s.path && wd == s.wd
      ensures Half(server.fontPath, isPathAdded) ==
              if s.ready then Toggle(Half(old(server.fontPath), false), s.path, true, s.setOk)
              else Half(old(server.fontPath), false)
    {
      this.server := server;
      path := s.path;
      wd := -1;
      isPathAdded := false;
      new;
      if s.ready {
        ModifyX11FontPath(true, s.setOk);
      }
      wd := s.wd;
    }

    method ModifyX11FontPath(isAdd: bool, ok: bool)
      modifies `isPathAdded, server
      ensures Half(server.fontPath, isPathAdded) ==
              Toggle(Half(old(server.fontPath), old(isPathAdded)), path, isAdd, ok)
    {
      if isPathAdded != isAdd {
        server.Xset(isAdd, path, ok);
        if ok {
          isPathAdded := isAdd;
        }
      }
    }

    /** The destructor. */
    method Destroy(ok: bool)
      modifies this, server
      ensures Half(server.fontPath, isPathAdded) ==
              Toggle(Half(old(server.fontPath), old(isPathAdded)), path, false, ok)
    {
      ModifyX11FontPath(false, ok);
      wd := -1;
    }
  }

  class FontMonitor {
    const server: XServer
    var folders: map<Path, FontFolder>
    ghost var leaked: set<Path>

    constructor (server: XServer)
      ensures Valid() && this.server == server && folders == map[]
      ensures Value() == View(server.fontPath, map[], {})
    {
      this.server := server;
      folders := map[];
      leaked := {};
    }

    ghost predicate Valid()
      reads this, folders.Values
    {
      forall p | p in folders :: folders[p].path == p && folders[p].server == server
    }

    ghost function Value(): View
      reads this, server, folders.Values
    {
      View(server.fontPath, map p | p in folders :: folders[p].isPathAdded, leaked)
    }

    // Construct a folder, and keep it if it could be watched.
    method Create(s: Scan) returns (kept: bool)
      requires Valid() && s.path !in folders
      modifies this, server
      ensures Valid() && Value() == Admit(old(Value()), s) && kept == (s.wd >= 0)
      ensures forall f | f in folders.Values :: f in old(folders.Values) || fresh(f)
    {
      ghost var v := Value();
      var folder := new FontFolder(server, s);
      kept := folder.wd >= 0;
      if kept {
        folders := folders[s.path := folder];
        assert Value().flags == Admit(v, s).flags;
      } else {
        leaked := if folder.isPathAdded then (if s.unsetOk then leaked - {s.path} else leaked + {s.path}) else leaked;
        folder.Destroy(s.unsetOk);
        assert Value().flags == v.flags;
      }
    }

    method AddMonitorFolder(s: Scan)
      requires Valid()
      modifies this, server, folders.Values
      ensures Valid() && Value() == Track(old(Value()), s)
      ensures forall f | f in folders.Values :: f in old(folders.Values) || fresh(f)
      decreases s
    {
      if s.path !in folders {
        var kept := Create(s);
        if kept {
          ghost var admitted := Value();
          hide Admit, Value;
          var i := 0;
          while i < |s.entries|
            invariant 0 <= i <= |s.entries|
            invariant Valid() && Value() == TrackAll(admitted, s, i)
            invariant forall f | f in folders.Values :: f in old(folders.Values) || fresh(f)
          {
            if Follows(s.path, s.entries[i]) {
              AddMonitorFolder(s.entries[i]);
            }
            i := i + 1;
          }
        }
      }
    }

    method RemoveMonitorFolder(p: Path, ok: bool)
      requires Valid()
      modifies this, server, folders.Values
      ensures Valid() && Value() == Untrack(old(Value()), p, ok)
      ensures folders == old(folders) - {p}
    {
      if p in folders {
        var folder := folders[p];
        leaked := if folder.isPathAdded then (if ok then leaked - {p} else leaked + {p}) else leaked;
        folders := folders - {p};
        folder.Destroy(ok);
      }
    }

    /** The tracked folder that an event's descriptor belongs to. */
    method FolderOf(wd: Wd) returns (r: Option<Path>)
      requires Valid()
      ensures r.Some? ==> r.value in folders && folders[r.value].wd == wd
      ensures r.None? ==> forall p | p in folders :: folders[p].wd != wd
    {
      var rest := folders.Keys;
      while rest != {}
        invariant rest <= folders.Keys
        invariant forall p | p in folders && p !in rest :: folders[p].wd != wd
      {
        var p :| p in rest;
        if folders[p].wd == wd {
          return Some(p);
        }
        rest := rest - {p};
      }
      return None;
    }

    /** An event about a directory; s is what tracking it would meet, ok how taking it off goes. */
    method HandleFolderEvent(wd: Wd, isAdd: bool, name: string, s: Scan, ok: bool)
      requires Valid()
      modifies this, server, folders.Values
      ensures Valid()
      ensures (forall p | p in old(folders) :: old(folders[p].wd) != wd) ==> Value() == old(Value())
      ensures (exists p | p in old(folders) :: old(folders[p].wd) == wd) ==>
                exists p | p in old(folders) && old(folders[p].wd) == wd ::
                  Value() == AfterFolderEvent(old(Value()), p, isAdd, name, s, ok)
    {
      var owner := FolderOf(wd);
      if owner.Some? {
        var full := owner.value + "/" + name;
        if isAdd {
          if owner.value != MOUNT || name == "X11" {
            AddMonitorFolder(s.(path := full));
          }
        } else {
          RemoveMonitorFolder(full, ok);
        }
      }
    }

    /** An event about a fonts.dir. */
    method HandleFontsDirEvent(wd: Wd, isAdd: bool, readable: bool, ok: bool)
      requires Valid()
      modifies this, server, folders.Values
      ensures Valid()
      ensures (forall p | p in old(folders) :: old(folders[p].wd) != wd) ==> Value() == old(Value())
      ensures (exists p | p in old(folders) :: old(folders[p].wd) == wd) ==>
                exists p | p in old(folders) && old(folders[p].wd) == wd ::
                  Value() == FontsDir(old(Value()), p, isAdd, readable, ok)
    {
      var owner := FolderOf(wd);
      if owner.Some? && (!isAdd || readable) {
        var p := owner.value;
        var folder := folders[p];
        ghost var v := Value();
        var was := folder.isPathAdded;
        folder.ModifyX11FontPath(isAdd, ok);
        leaked := if folder.isPathAdded || !was then leaked else leaked - {p};
        assert Value().flags == v.flags[p := folder.isPathAdded];
        assert Value() == FontsDir(v, p, isAdd, readable, ok);
      }
    }

    // One folder goes while stopping.
    method StopOne(p: Path, stuck: set<Path>, ghost v: View, ghost done: set<Path>)
      requires Valid() && Partly(v, Value(), done, stuck) && p in folders
      modifies this, server, folders.Values
      ensures Valid() && Partly(v, Value(), done + {p}, stuck) && folders == old(folders) - {p}
    {
      ghost var w := Value();
      assert p in w.flags;
      hide Partly, Untrack;
      RemoveMonitorFolder(p, p !in stuck);
      UntrackStops(v, w, done, p, stuck);
    }

    /** Both roots first, then whatever is left, in any order. */
    method Stop(stuck: set<Path>)
      requires Valid()
      modifies this, server, folders.Values
      ensures Valid() && folders == map[] && Value() == Stopped(old(Value()), stuck)
    {
      hide Partly, Stopped;
      ghost var v, done := Value(), {};
      PartlyStarts(v, stuck);
      if MOUNT in folders {
        StopOne(MOUNT, stuck, v, done);
        done := done + {MOUNT};
      }
      if ALT in folders {
        StopOne(ALT, stuck, v, done);
        done := done + {ALT};
      }
      while folders.Keys != {}
        invariant Valid() && Partly(v, Value(), done, stuck)
        invariant folders.Values <= old(folders.Values)
        decreases |folders.Keys|
      {
        var p :| p in folders.Keys;
        ghost var before := folders.Keys;
        StopOne(p, stuck, v, done);
        assert folders.Keys == before - {p};
        done := done + {p};
      }
      assert Value().flags.Keys == {};
      AllDone(v, Value(), done, stuck);
    }
  }

  function AfterFolderEvent(v: View, p: Path, isAdd: bool, name: string, s: Scan, ok: bool): View {
    var full := p + "/" + name;
    if !isAdd then Untrack(v, full, ok)
    else if p != MOUNT || name == "X11" then Track(v, s.(path := full))
    else v
  }

  // ---- taking paths off -----------------------------------------------------------------

  lemma {:induction false} WithoutNothing(fp: seq<Path>, gone: set<Path>)
    requires forall p | p in fp :: p !in gone
    ensures Without(fp, gone) == fp
  {
    if fp != [] {
      WithoutNothing(fp[1..], gone);
      assert fp == [fp[0]] + fp[1..];
    }
  }

  lemma {:induction false} WithoutJoin(a: seq<Path>, b: seq<Path>, gone: set<Path>)
    ensures Without(a + b, gone) == Without(a, gone) + Without(b, gone)
  {
    if a == [] {
      assert a + b == b;
    } else {
      assert (a + b)[1..] == a[1..] + b;
      WithoutJoin(a[1..], b, gone);
    }
  }

  lemma {:induction false} WithoutTwice(fp: seq<Path>, a: set<Path>, b: set<Path>)
    ensures Without(Without(fp, a), b) == Without(fp, a + b)
  {
    if fp != [] {
      WithoutTwice(fp[1..], a, b);
      if fp[0] !in a {
        assert ([fp[0]] + Without(fp[1..], a))[1..] == Without(fp[1..], a);
      }
    }
  }

  /** A path that is added and taken off again leaves the font path as it was, just if it was not there. */
  lemma ToggleBack(fp: seq<Path>, p: Path)
    ensures Toggle(Toggle(Half(fp, false), p, true, true), p, false, true) == Half(fp, false) <==> p !in fp
  {
    assert ([p] + fp)[1..] == fp;
    if p !in fp {
      WithoutNothing(fp, {p});
    }
  }

  // ---- stopping -------------------------------------------------------------------------

  // Stop has got as far as the folders in done.
  ghost predicate Partly(v: View, w: View, done: set<Path>, stuck: set<Path>) {
    && done <= v.flags.Keys
    && w.flags == v.flags - done
    && w.fontPath == Without(v.fontPath, (Added(v) * done) - stuck)
    && w.leaked == (v.leaked - ((Added(v) * done) - stuck)) + (Added(v) * done * stuck)
  }

  lemma PartlyStarts(v: View, stuck: set<Path>)
    ensures Partly(v, v, {}, stuck)
  {
    assert (Added(v) * {}) - stuck == {};
    WithoutNothing(v.fontPath, {});
  }

  lemma UntrackStops(v: View, w: View, done: set<Path>, p: Path, stuck: set<Path>)
    requires Partly(v, w, done, stuck) && p in w.flags
    ensures Partly(v, Untrack(w, p, p !in stuck), done + {p}, stuck)
  {
    var a, b := (Added(v) * done) - stuck, (Added(v) * (done + {p})) - stuck;
    WithoutTwice(v.fontPath, a, {p});
    if p in Added(v) && p !in stuck {
      assert b == a + {p};
      assert Added(v) * (done + {p}) * stuck == Added(v) * done * stuck;
    } else {
      assert b == a;
    }
    assert w.flags - {p} == v.flags - (done + {p});
  }

  lemma AllDone(v: View, w: View, done: set<Path>, stuck: set<Path>)
    requires Partly(v, w, done, stuck) && w.flags.Keys == {}
    ensures w == Stopped(v, stuck)
  {
    assert v.flags.Keys - done == w.flags.Keys;
    forall p | p in v.flags ensures p in done {
      assert p in v.flags.Keys - done || p in done;
    }
    assert w.flags == map[];
    assert Added(v) * done == Added(v);
  }

  // ---- agreement over every run ---------------------------------------------------------

  /** Every path a scan may track. */
  predicate Within(s: Scan, all: set<Path>) {
    s.path in all && forall i | 0 <= i < |s.entries| :: Within(s.entries[i], all)
  }

  predicate OpWithin(op: Op, all: set<Path>) {
    match op
    case Found(s) => Within(s, all)
    case Gone(p, _) => p in all
    case Fonts(p, _, _, _) => p in all
  }

  // The original font path is still there, after the paths of the folders that added theirs.
  ghost predicate Agrees(v: View, orig: seq<Path>, all: set<Path>, added: seq<Path>) {
    && v.fontPath == added + orig
    && (forall p :: p in added <==> p in Added(v) || p in v.leaked)
    && v.flags.Keys <= all && v.leaked <= all
    && (forall p | p in orig :: p !in all)
  }

  ghost predicate Agreed(v: View, orig: seq<Path>, all: set<Path>) {
    exists added :: Agrees(v, orig, all, added)
  }

  // Taking one monitored path off leaves the original ones.
  lemma TakenOff(v: View, orig: seq<Path>, all: set<Path>, added: seq<Path>, p: Path)
    requires Agrees(v, orig, all, added) && p in all
    ensures Without(v.fontPath, {p}) == Without(added, {p}) + orig
  {
    WithoutJoin(added, orig, {p});
    WithoutNothing(orig, {p});
  }

  lemma DestroyedAgrees(v: View, orig: seq<Path>, all: set<Path>, added: seq<Path>, p: Path, ok: bool)
    requires Agrees(v, orig, all, added) && p in v.flags
    ensures Agreed(Destroyed(v.(flags := v.flags - {p}), p, v.flags[p], ok), orig, all)
  {
    var w := Destroyed(v.(flags := v.flags - {p}), p, v.flags[p], ok);
    assert Added(w) == Added(v) - {p};
    if v.flags[p] && ok {
      TakenOff(v, orig, all, added, p);
      assert Agrees(w, orig, all, Without(added, {p}));
    } else {
      assert Agrees(w, orig, all, added);
    }
  }

  lemma AdmitAgrees(v: View, orig: seq<Path>, all: set<Path>, s: Scan)
    requires Agreed(v, orig, all) && s.path in all && s.path !in v.flags
    ensures Agreed(Admit(v, s), orig, all)
  {
    var added :| Agrees(v, orig, all, added);
    var h := if s.ready then Toggle(Half(v.fontPath, false), s.path, true, s.setOk) else Half(v.fontPath, false);
    var more := if h.added then [s.path] + added else added;
    var u := View(h.fontPath, v.flags[s.path := h.added], v.leaked);
    assert h.fontPath == more + orig;
    assert Added(u) == if h.added then Added(v) + {s.path} else Added(v);
    assert Agrees(u, orig, all, more);
    if s.wd < 0 {
      DestroyedAgrees(u, orig, all, more, s.path, s.unsetOk);
      assert u.flags - {s.path} == v.flags;
    }
  }

  lemma {:induction false} TrackAgrees(v: View, orig: seq<Path>, all: set<Path>, s: Scan)
    requires Agreed(v, orig, all) && Within(s, all)
    ensures Agreed(Track(v, s), orig, all)
    decreases s, 1
  {
    if s.path !in v.flags {
      AdmitAgrees(v, orig, all, s);
      if s.wd >= 0 {
        TrackAllAgrees(Admit(v, s), orig, all, s, |s.entries|);
      }
    }
  }

  lemma {:induction false} TrackAllAgrees(v: View, orig: seq<Path>, all: set<Path>, s: Scan, n: nat)
    requires Agreed(v, orig, all) && Within(s, all) && n <= |s.entries|
    ensures Agreed(TrackAll(v, s, n), orig, all)
    decreases s, 0, n
  {
    if n > 0 {
      TrackAllAgrees(v, orig, all, s, n - 1);
      TrackAgrees(TrackAll(v, s, n - 1), orig, all, s.entries[n - 1]);
    }
  }

  lemma PutOnAgrees(v: View, orig: seq<Path>, all: set<Path>, added: seq<Path>, p: Path)
    requires Agrees(v, orig, all, added) && p in v.flags && !v.flags[p]
    ensures Agreed(View([p] + v.fontPath, v.flags[p := true], v.leaked), orig, all)
  {
    var w := View([p] + v.fontPath, v.flags[p := true], v.leaked);
    assert [p] + (added + orig) == ([p] + added) + orig;
    assert Added(w) == Added(v) + {p};
    assert Agrees(w, orig, all, [p] + added);
  }

  lemma TakenOffAgrees(v: View, orig: seq<Path>, all: set<Path>, added: seq<Path>, p: Path)
    requires Agrees(v, orig, all, added) && p in v.flags && v.flags[p]
    ensures Agreed(View(Without(v.fontPath, {p}), v.flags[p := false], v.leaked - {p}), orig, all)
  {
    var w := View(Without(v.fontPath, {p}), v.flags[p := false], v.leaked - {p});
    TakenOff(v, orig, all, added, p);
    assert Added(w) == Added(v) - {p};
    assert Agrees(w, orig, all, Without(added, {p}));
  }

  lemma FontsDirAgrees(v: View, orig: seq<Path>, all: set<Path>, p: Path, isAdd: bool, readable: bool, ok: bool)
    requires Agreed(v, orig, all)
    ensures Agreed(FontsDir(v, p, isAdd, readable, ok), orig, all)
  {
    var w := FontsDir(v, p, isAdd, readable, ok);
    if p in v.flags && (!isAdd || readable) && v.flags[p] != isAdd && ok {
      var added :| Agrees(v, orig, all, added);
      hide Agrees;
      if isAdd {
        PutOnAgrees(v, orig, all, added, p);
      } else {
        TakenOffAgrees(v, orig, all, added, p);
      }
    } else {
      hide Agrees;
      assert p in v.flags ==> v.flags[p := v.flags[p]] == v.flags;
      assert w == v;
    }
  }

  lemma ApplyAgrees(v: View, orig: seq<Path>, all: set<Path>, op: Op)
    requires Agreed(v, orig, all) && OpWithin(op, all)
    ensures Agreed(Apply(v, op), orig, all)
  {
    hide Agrees;
    match op
    case Found(s) => TrackAgrees(v, orig, all, s);
    case Gone(p, ok) =>
      if p in v.flags {
        var added :| Agrees(v, orig, all, added);
        DestroyedAgrees(v, orig, all, added, p, ok);
      }
    case Fonts(p, isAdd, readable, ok) => FontsDirAgrees(v, orig, all, p, isAdd, readable, ok);
  }

  lemma {:induction false} RunAgrees(orig: seq<Path>, all: set<Path>, ops: seq<Op>)
    requires forall p | p in orig :: p !in all
    requires forall op | op in ops :: OpWithin(op, all)
    ensures Agreed(Run(View(orig, map[], {}), ops), orig, all)
    decreases |ops|
  {
    if ops == [] {
      assert Agrees(View(orig, map[], {}), orig, all, []);
    } else {
      RunAgrees(orig, all, ops[..|ops| - 1]);
      ApplyAgrees(Run(View(orig, map[], {}), ops[..|ops| - 1]), orig, all, ops[|ops| - 1]);
    }
  }

  /**
   In every run from a font path that holds no monitored path: a monitored path is on the font
   path just if its folder is tracked and flagged, or was let go of with a failed removal.
   */
  lemma FlagMeansOnFontPath(orig: seq<Path>, all: set<Path>, ops: seq<Op>, p: Path)
    requires forall q | q in orig :: q !in all
    requires forall op | op in ops :: OpWithin(op, all)
    ensures var v := Run(View(orig, map[], {}), ops);
            p in v.fontPath <==> p in orig || (p in v.flags && v.flags[p]) || p in v.leaked
  {
    RunAgrees(orig, all, ops);
    var v := Run(View(orig, map[], {}), ops);
    var added :| Agrees(v, orig, all, added);
  }

  // ---- nothing is left behind -----------------------------------------------------------

  /** Whether every folder found unwatchable has its path taken off again. */
  predicate Clean(s: Scan) {
    s.unsetOk && forall i | 0 <= i < |s.entries| :: Clean(s.entries[i])
  }

  predicate OpClean(op: Op) {
    match op
    case Found(s) => Clean(s)
    case Gone(_, ok) => ok
    case Fonts(_, _, _, _) => true
  }

  lemma {:induction false} CleanTrack(v: View, s: Scan)
    requires v.leaked == {} && Clean(s)
    ensures Track(v, s).leaked == {}
    decreases s, 1
  {
    if s.path !in v.flags && s.wd >= 0 {
      CleanTrackAll(Admit(v, s), s, |s.entries|);
    }
  }

  lemma {:induction false} CleanTrackAll(v: View, s: Scan, n: nat)
    requires v.leaked == {} && Clean(s) && n <= |s.entries|
    ensures TrackAll(v, s, n).leaked == {}
    decreases s, 0, n
  {
    if n > 0 {
      CleanTrackAll(v, s, n - 1);
      CleanTrack(TrackAll(v, s, n - 1), s.entries[n - 1]);
    }
  }

  lemma {:induction false} CleanRun(v: View, ops: seq<Op>)
    requires v.leaked == {} && forall op | op in ops :: OpClean(op)
    ensures Run(v, ops).leaked == {}
    decreases |ops|
  {
    if ops != [] {
      var u, op := Run(v, ops[..|ops| - 1]), ops[|ops| - 1];
      CleanRun(v, ops[..|ops| - 1]);
      assert OpClean(op);
      if op.Found? {
        CleanTrack(u, op.scan);
      }
    }
  }

  /** After Stop the font path is the original one, in its order, exactly if nothing leaked. */
  lemma StopRestoresExactly(orig: seq<Path>, all: set<Path>, ops: seq<Op>, stuck: set<Path>)
    requires forall q | q in orig :: q !in all
    requires forall op | op in ops :: OpWithin(op, all)
    ensures var w := Stopped(Run(View(orig, map[], {}), ops), stuck);
            w.fontPath == orig <==> w.leaked == {}
  {
    RunAgrees(orig, all, ops);
    var v := Run(View(orig, map[], {}), ops);
    var added :| Agrees(v, orig, all, added);
    LeftBehind(v, orig, all, added, stuck);
  }

  // What Stop leaves in front of the original paths are the leaked ones.
  lemma LeftBehind(v: View, orig: seq<Path>, all: set<Path>, added: seq<Path>, stuck: set<Path>)
    requires Agrees(v, orig, all, added)
    ensures Stopped(v, stuck).fontPath == orig <==> Stopped(v, stuck).leaked == {}
  {
    var w, gone := Stopped(v, stuck), Added(v) - stuck;
    var left := Without(added, gone);
    assert w.fontPath == left + orig by {
      WithoutJoin(added, orig, gone);
      WithoutNothing(orig, gone);
    }
    assert forall p :: p in left <==> p in w.leaked;
    if left != [] {
      assert left[0] in left;
      assert |w.fontPath| > |orig|;
    } else {
      assert w.leaked == {};
    }
  }

  /** It is when every removal succeeds, folders that could not be watched included. */
  lemma StopRestores(orig: seq<Path>, all: set<Path>, ops: seq<Op>)
    requires forall q | q in orig :: q !in all
    requires forall op | op in ops :: OpWithin(op, all) && OpClean(op)
    ensures Stopped(Run(View(orig, map[], {}), ops), {}).fontPath == orig
  {
    CleanRun(View(orig, map[], {}), ops);
    StopRestoresExactly(orig, all, ops, {});
    assert Stopped(Run(View(orig, map[], {}), ops), {}).leaked == {};
  }

  // ---- what each event does -------------------------------------------------------------

  /** The monitor after some operations on a font path that holds no monitored path. */
  ghost predicate Reached(v: View, orig: seq<Path>, all: set<Path>, ops: seq<Op>) {
    && (forall q | q in orig :: q !in all) && (forall op | op in ops :: OpWithin(op, all))
    && v == Run(View(orig, map[], {}), ops)
  }

  lemma OneMore(orig: seq<Path>, ops: seq<Op>, op: Op)
    ensures Run(View(orig, map[], {}), ops + [op]) == Apply(Run(View(orig, map[], {}), ops), op)
  {
    assert (ops + [op])[..|ops|] == ops;
  }

  // On the font path are the original paths, the flagged and the leaked ones.
  lemma Shown(v: View, orig: seq<Path>, all: set<Path>, ops: seq<Op>, q: Path)
    requires Reached(v, orig, all, ops)
    ensures q in v.fontPath <==> q in orig || (q in v.flags && v.flags[q]) || q in v.leaked
    ensures v.flags.Keys <= all
  {
    hide Run;
    FlagMeansOnFontPath(orig, all, ops, q);
    RunAgrees(orig, all, ops);
  }

  /**
   A fonts.dir that arrives in a tracked folder and can be read puts the folder's path on the font
   path if xset succeeds, and no other path moves.
   */
  lemma ArrivalPutsOn(v: View, orig: seq<Path>, all: set<Path>, ops: seq<Op>, p: Path, ok: bool)
    requires Reached(v, orig, all, ops) && p in v.flags
    ensures var w := Run(View(orig, map[], {}), ops + [Fonts(p, true, true, ok)]);
            && (ok ==> p in w.fontPath) && (!ok ==> w.fontPath == v.fontPath)
            && (forall q | q != p :: q in w.fontPath <==> q in v.fontPath)
            && w.flags.Keys == v.flags.Keys
  {
    hide Run;
    OneMore(orig, ops, Fonts(p, true, true, ok));
    Shown(v, orig, all, ops, p);
  }

  /** One that cannot be read changes nothing. */
  lemma UnreadableChangesNothing(v: View, orig: seq<Path>, all: set<Path>, ops: seq<Op>, p: Path, ok: bool)
    requires Reached(v, orig, all, ops)
    ensures Run(View(orig, map[], {}), ops + [Fonts(p, true, false, ok)]) == v
  {
    hide Run;
    OneMore(orig, ops, Fonts(p, true, false, ok));
  }

  /**
   A fonts.dir that goes takes the path off if xset succeeds. The one exception is a path that an
   earlier folder of that name left behind and this one never put on.
   */
  lemma DepartureTakesOff(v: View, orig: seq<Path>, all: set<Path>, ops: seq<Op>, p: Path, readable: bool, ok: bool)
    requires Reached(v, orig, all, ops) && p in v.flags
    ensures var w := Run(View(orig, map[], {}), ops + [Fonts(p, false, readable, ok)]);
            && (ok ==> (p in w.fontPath <==> !v.flags[p] && p in v.leaked)) && (!ok ==> w.fontPath == v.fontPath)
            && (ok && (forall op | op in ops :: OpClean(op)) ==> p !in w.fontPath)
            && (forall q | q != p :: q in w.fontPath <==> q in v.fontPath)
            && w.flags.Keys == v.flags.Keys
  {
    hide Run;
    OneMore(orig, ops, Fonts(p, false, readable, ok));
    Shown(v, orig, all, ops, p);
    if forall op | op in ops :: OpClean(op) {
      CleanRun(View(orig, map[], {}), ops);
    }
  }

  /** A folder that goes takes its path with it under the same rule, and is tracked no more. */
  lemma GoneTakesOff(v: View, orig: seq<Path>, all: set<Path>, ops: seq<Op>, p: Path, ok: bool)
    requires Reached(v, orig, all, ops) && p in v.flags
    ensures var w := Run(View(orig, map[], {}), ops + [Gone(p, ok)]);
            && w.flags == v.flags - {p}
            && (ok ==> (p in w.fontPath <==> !v.flags[p] && p in v.leaked)) && (!ok ==> w.fontPath == v.fontPath)
            && (forall q | q != p :: q in w.fontPath <==> q in v.fontPath)
  {
    hide Run;
    OneMore(orig, ops, Gone(p, ok));
    Shown(v, orig, all, ops, p);
  }

  // What happens to other folders leaves a tracked one alone.
  lemma {:induction false} TrackKeeps(v: View, s: Scan, p: Path)
    requires p in v.flags
    ensures var w := Track(v, s);
            p in w.flags && w.flags[p] == v.flags[p] && (p in w.leaked <==> p in v.leaked)
    decreases s, 1
  {
    if s.path !in v.flags && s.wd >= 0 {
      TrackAllKeeps(Admit(v, s), s, |s.entries|, p);
    }
  }

  lemma {:induction false} TrackAllKeeps(v: View, s: Scan, n: nat, p: Path)
    requires p in v.flags && n <= |s.entries|
    ensures var w := TrackAll(v, s, n);
            p in w.flags && w.flags[p] == v.flags[p] && (p in w.leaked <==> p in v.leaked)
    decreases s, 0, n
  {
    if n > 0 {
      TrackAllKeeps(v, s, n - 1, p);
      TrackKeeps(TrackAll(v, s, n - 1), s.entries[n - 1], p);
    }
  }

  /**
   A folder that is found and can be watched is tracked, and its path is on the font path if it
   holds a readable fonts.dir and xset succeeds; otherwise only if it had been left there before.
   One that cannot be watched is not tracked, and its path goes again if that succeeds.
   */
  lemma FoundPutsOn(v: View, orig: seq<Path>, all: set<Path>, ops: seq<Op>, s: Scan)
    requires Reached(v, orig, all, ops) && Within(s, all) && s.path !in v.flags
    ensures var w := Run(View(orig, map[], {}), ops + [Found(s)]);
            && (s.wd >= 0 ==> s.path in w.flags &&
                              (s.path in w.fontPath <==> (s.ready && s.setOk) || s.path in v.leaked))
            && (s.wd < 0 ==> w.flags == v.flags &&
                             (s.unsetOk ==> (s.path in w.fontPath <==> !(s.ready && s.setOk) && s.path in v.leaked)))
  {
    hide Run;
    var w := Run(View(orig, map[], {}), ops + [Found(s)]);
    OneMore(orig, ops, Found(s));
    Shown(v, orig, all, ops, s.path);
    assert Reached(w, orig, all, ops + [Found(s)]);
    Shown(w, orig, all, ops + [Found(s)], s.path);
    if s.wd >= 0 {
      TrackAllKeeps(Admit(v, s), s, |s.entries|, s.path);
    }
  }

  /** So is every directory the scan of a new folder returns and follows, if it can be watched. */
  lemma EntriesAreTracked(v: View, s: Scan, i: nat)
    requires s.path !in v.flags && s.wd >= 0 && i < |s.entries| && s.entries[i].wd >= 0
    requires s.path != "/mnt/wslg/distro/usr/share/fonts" || s.entries[i].path == "/mnt/wslg/distro/usr/share/fonts/X11"
    ensures s.entries[i].path in Track(v, s).flags
  {
    EntriesTrackedBy(Admit(v, s), s, i, |s.entries|);
  }

  lemma {:induction false} EntriesTrackedBy(v: View, s: Scan, i: nat, n: nat)
    requires i < n <= |s.entries| && s.entries[i].wd >= 0 && Follows(s.path, s.entries[i])
    ensures s.entries[i].path in TrackAll(v, s, n).flags
    decreases n
  {
    if i == n - 1 {
      NowTracked(TrackAll(v, s, n - 1), s.entries[i]);
    } else {
      EntriesTrackedBy(v, s, i, n - 1);
      TrackKeeps(TrackAll(v, s, n - 1), s.entries[n - 1], s.entries[i].path);
    }
  }

  lemma NowTracked(v: View, s: Scan)
    requires s.wd >= 0
    ensures s.path in Track(v, s).flags
  {
    if s.path !in v.flags {
      TrackAllKeeps(Admit(v, s), s, |s.entries|, s.path);
    }
  }

  /** Right below the mount nothing but X11 is looked at. */
  lemma {:induction false} MountIgnoresOthers(v: View, s: Scan, n: nat)
    requires s.path == "/mnt/wslg/distro/usr/share/fonts" && n <= |s.entries|
    requires forall i | 0 <= i < |s.entries| :: s.entries[i].path != "/mnt/wslg/distro/usr/share/fonts/X11"
    ensures TrackAll(v, s, n) == v
    decreases n
  {
    if n > 0 {
      MountIgnoresOthers(v, s, n - 1);
    }
  }

  /**
   An event about a directory: one that comes is tracked under its full path if it can be watched,
   one that goes is tracked no more, and below the mount no name but X11 is added.
   */
  lemma FolderEventTracks(v: View, p: Path, isAdd: bool, name: string, s: Scan, ok: bool)
    ensures var w, full := AfterFolderEvent(v, p, isAdd, name, s, ok), p + "/" + name;
            && (!isAdd ==> w.flags == v.flags - {full})
            && (isAdd && p == "/mnt/wslg/distro/usr/share/fonts" && name != "X11" ==> w == v)
            && (isAdd && (p != "/mnt/wslg/distro/usr/share/fonts" || name == "X11") && s.wd >= 0 ==> full in w.flags)
            && (isAdd ==> forall q | q in v.flags :: q in w.flags && w.flags[q] == v.flags[q])
  {
    var full := p + "/" + name;
    if isAdd && (p != MOUNT || name == "X11") {
      if s.wd >= 0 {
        NowTracked(v, s.(path := full));
      }
      forall q | q in v.flags ensures q in AfterFolderEvent(v, p, isAdd, name, s, ok).flags &&
                                      AfterFolderEvent(v, p, isAdd, name, s, ok).flags[q] == v.flags[q] {
        TrackKeeps(v, s.(path := full), q);
      }
    } else if !isAdd {
      assert full !in v.flags ==> v.flags - {full} == v.flags;
    }
  }
}
