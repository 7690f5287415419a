/** How the release as written can drop data that no handle has neglected. */
module DroppedData {
  import opened Wrappers
  import opened OpenFlags
  import opened DirtyTime
  import opened GrowableSlice
  import opened FileSpec
  import opened FileBuffers
  import opened Releasing
  import P = OpenProtocol
  import opened FileSystem
  import opened MountTheory

  const FILE := DevFile([], 1)

  /** Opens an existing empty file for reading and writing. */
  function Opens(path: string): Action {
    Open(path, O_RDWR, DONT_SET_PERMS, Stats(1), 1, Saves, Loads([]))
  }

  function Loaded(): Buffered {
    FileState(EMPTY, CLEAN, 1, true, Some(FILE))
  }

  /** The write, which makes the buffer dirty at time 5. */
  function Writes(): FileOp {
    FileOp.WriteAt([7], 0, 5)
  }

  function Mount(path: string, proto: P.Proto, files: map<nat, Buffered>, flags: map<nat, Flags>, owes: set<nat>): Sys {
    Sys(AsWritten, false, 0, proto, files, flags, owes, map[path := FILE], 0)
  }

  lemma FlagsOf()
    ensures CanWrite(O_RDWR) && !Contains(O_RDWR, O_CREATE | O_TRUNC) && !Contains(O_RDWR, O_CREATE | O_TRUNC | O_APPEND)
    ensures !Contains(O_RDWR, O_TRUNC)
  {
  }

  lemma LoadsTheFile(path: string)
    ensures Initialized(0, Blank(DONT_SET_PERMS, Some(FILE)), O_RDWR, Stats(1), 1, Saves, Loads([])) == (Loaded(), Opened)
  {
    FlagsOf();
    hide Contains, CanWrite;
  }

  lemma NewStep(path: string, proto: P.Proto, files: map<nat, Buffered>)
    requires path !in proto.open
    ensures var s := Mount(path, proto, files, map[], {});
            Enabled(s, Opens(path))
            && Next(RefCountOnly, s, Opens(path)) ==
                 Mount(path, P.Added(proto, path), files[proto.nextBuf := Loaded()], map[proto.nextHandle := O_RDWR], {})
  {
    FlagsOf();
    LoadsTheFile(path);
    hide Contains, CanWrite, Initialized;
    assert Put(map[path := FILE], path, Some(FILE)) == map[path := FILE];
  }

  lemma JoinStep(path: string, proto: P.Proto, files: map<nat, Buffered>)
    requires path in proto.open && proto.open[path] in proto.refs
    ensures var s := Mount(path, proto, files, map[], {});
            Enabled(s, Opens(path))
            && Next(RefCountOnly, s, Opens(path)) ==
                 Mount(path, P.Joined(proto, proto.open[path]), files, map[proto.nextHandle := O_RDWR], {})
  {
    FlagsOf();
    hide Contains, CanWrite, Initialized;
  }

  lemma CloseStep(path: string, proto: P.Proto, files: map<nat, Buffered>, h: nat)
    requires h in proto.handles && proto.handles[h] in proto.refs
    ensures var s := Mount(path, proto, files, map[h := O_RDWR], {});
            Enabled(s, Close(h))
            && Next(RefCountOnly, s, Close(h)) == Mount(path, P.Dropped(proto, h), files, map[], {})
  {
    assert map[h := O_RDWR] - {h} == map[];
  }

  function Dirty(): Buffered {
    Step(AsWritten, 0, Loaded(), Writes()).0
  }

  lemma WriteStep(path: string, proto: P.Proto, files: map<nat, Buffered>, h: nat)
    requires h in proto.handles && proto.handles[h] in proto.paths && proto.paths[proto.handles[h]] == path
    requires proto.handles[h] in files && files[proto.handles[h]] == Loaded()
    ensures var s := Mount(path, proto, files, map[h := O_RDWR], {});
            Enabled(s, Op(h, Writes()))
            && Next(RefCountOnly, s, Op(h, Writes())) ==
                 Mount(path, proto, files[proto.handles[h] := Dirty()], map[h := O_RDWR], {h})
  {
    FlagsOf();
    hide Contains, CanWrite;
    var s := Mount(path, proto, files, map[h := O_RDWR], {});
    assert ViewOf(s, proto.handles[h]) == Loaded();
    assert Put(map[path := FILE], path, Some(FILE)) == map[path := FILE];
  }

  // ----- the run -----

  /** A buffer is closed, reopened and closed again before its first release runs; the release makes way for a
      second buffer, which is written. */
  function Act(path: string, k: nat): Action {
    match k
    case 1 => Close(0)
    case 3 => Close(1)
    case 4 => Release(0)
    case 6 => Op(2, Writes())
    case _ => Opens(path)
  }

  function Protocol(path: string, k: nat): P.Proto {
    match k
    case 0 => P.INIT
    case 1 => P.Proto(map[path := 0], map[0 := path], map[0 := 1], map[0 := 0], multiset{}, 1, 1)
    case 2 => P.Proto(map[path := 0], map[0 := path], map[0 := 0], map[], multiset{0}, 1, 1)
    case 3 => P.Proto(map[path := 0], map[0 := path], map[0 := 1], map[1 := 0], multiset{0}, 1, 2)
    case 4 => P.Proto(map[path := 0], map[0 := path], map[0 := 0], map[], multiset{0, 0}, 1, 2)
    case 5 => P.Proto(map[], map[0 := path], map[0 := 0], map[], multiset{0}, 1, 2)
    case _ => P.Proto(map[path := 1], map[0 := path, 1 := path], map[0 := 0, 1 := 1], map[2 := 1], multiset{0}, 2, 3)
  }

  /** The state before action `k`. */
  function Before(path: string, k: nat): Sys {
    var files: map<nat, Buffered> :=
      if k == 0 then map[]
      else if k < 6 then map[0 := Loaded()]
      else if k == 6 then map[0 := Loaded(), 1 := Loaded()]
      else map[0 := Loaded(), 1 := Dirty()];
    var flags: map<nat, Flags> :=
      if k == 1 then map[0 := O_RDWR] else if k == 3 then map[1 := O_RDWR] else if k >= 6 then map[2 := O_RDWR] else map[];
    Mount(path, Protocol(path, k), files, flags, if k > 6 then {2} else {})
  }

  lemma OpenTransition(path: string, k: nat)
    requires k == 0 || k == 2 || k == 5
    ensures Enabled(Before(path, k), Act(path, k)) && Next(RefCountOnly, Before(path, k), Act(path, k)) == Before(path, k + 1)
  {
    hide Loaded, Next, Enabled, Dirty, Opens;
    if k == 0 {
      NewStep(path, Protocol(path, 0), map[]);
    } else if k == 2 {
      JoinStep(path, Protocol(path, 2), map[0 := Loaded()]);
    } else {
      NewStep(path, Protocol(path, 5), map[0 := Loaded()]);
    }
  }

  lemma CloseTransition(path: string, k: nat)
    requires k == 1 || k == 3
    ensures Enabled(Before(path, k), Act(path, k)) && Next(RefCountOnly, Before(path, k), Act(path, k)) == Before(path, k + 1)
  {
    hide Loaded, Next, Enabled, Dirty;
    CloseStep(path, Protocol(path, k), map[0 := Loaded()], k / 2);
  }

  lemma ReleaseTransition(path: string)
    ensures Enabled(Before(path, 4), Release(0)) && Next(RefCountOnly, Before(path, 4), Release(0)) == Before(path, 5)
  {
    hide Loaded;
  }

  lemma WriteTransition(path: string)
    ensures Enabled(Before(path, 6), Op(2, Writes()))
    ensures Next(RefCountOnly, Before(path, 6), Op(2, Writes())) == Before(path, 7)
  {
    hide Next, Enabled, Dirty;
    WriteStep(path, Protocol(path, 6), map[0 := Loaded(), 1 := Loaded()], 2);
  }

  function ActsFrom(path: string, k: nat): seq<Action>
    decreases 7 - k
  {
    if k >= 7 then [] else [Act(path, k)] + ActsFrom(path, k + 1)
  }

  lemma {:induction false} RunsFrom(path: string, k: nat)
    requires k <= 7
    ensures Runs(RefCountOnly, Before(path, k), ActsFrom(path, k))
    ensures DisciplinedRun(RefCountOnly, Before(path, k), ActsFrom(path, k))
    ensures Exec(RefCountOnly, Before(path, k), ActsFrom(path, k)) == Before(path, 7)
    decreases 7 - k
  {
    if k < 7 {
      if k == 1 || k == 3 {
        CloseTransition(path, k);
      } else if k == 4 {
        ReleaseTransition(path);
      } else if k == 6 {
        WriteTransition(path);
      } else {
        OpenTransition(path, k);
      }
      RunsFrom(path, k + 1);
      assert Act(path, k).Close? ==> Before(path, k).owes == {};
      hide Next, Enabled, Before, Act;
      assert ActsFrom(path, k)[1..] == ActsFrom(path, k + 1);
    }
  }

  /** A disciplined run from a fresh mount after which the release of `b` unmaps a dirty buffer. */
  ghost predicate Drops(s: Sys, acts: seq<Action>, b: nat, path: string) {
    Runs(RefCountOnly, s, acts) && DisciplinedRun(RefCountOnly, s, acts)
    && var t := Exec(RefCountOnly, s, acts);
       Enabled(t, Release(b)) && DropsDirt(RefCountOnly, t, Release(b), path)
  }

  /** The release still outstanding then unmaps the second buffer, which is dirty and whose handle is open:
      the one way a dirty buffer leaves the map in a disciplined run. */
  lemma StaleReleaseDropsDirtyBuffer(path: string)
    ensures Drops(Init(AsWritten, false, 0, map[path := FILE]), ActsFrom(path, 0), 0, path)
  {
    RunsFrom(path, 0);
    assert Before(path, 0) == Init(AsWritten, false, 0, map[path := FILE]);
    Unmapped(path);
  }

  lemma Unmapped(path: string)
    ensures var t := Before(path, 7);
            Enabled(t, Release(0)) && DropsDirt(RefCountOnly, t, Release(0), path)
  {
  }
}
