/** What every interleaving of opens, file operations, closes and releases guarantees on a mount. */
module MountTheory {
  import opened Wrappers
  import opened OpenFlags
  import opened DirtyTime
  import opened GrowableSlice
  import opened FileSpec
  import opened PlainFile
  import opened FileTheory
  import opened FileBuffers
  import opened Releasing
  import P = OpenProtocol
  import opened FileSystem

  /** A fresh mount is a state from which every theorem below starts. */
  lemma InitQualifies(z: Zeroing, readOnly: bool, timeout: int, device: Files)
    ensures var s := Init(z, readOnly, timeout, device);
            WellFormed(s) && P.Shared(s.proto) && DirtIsOwed(s) && MappedCoherent(s)
            && (readOnly ==> Untouched(s, device))
  {
  }

  // ----- no dirty buffer is dropped -----

  /** Handle `h` owes a flush of `b` and is able to give it. */
  predicate Owing(s: Sys, h: nat, b: nat) {
    h in s.owes && h in s.flags && h in s.proto.handles && s.proto.handles[h] == b && CanWrite(s.flags[h])
  }

  ghost predicate DirtIsOwed(s: Sys) {
    forall b | b in s.files && s.files[b].stamp != CLEAN :: exists h :: Owing(s, h, b)
  }

  /** A handle is closed only after a successful flush that follows its last write, and its opening if
      that was to create or truncate. */
  predicate Disciplined(s: Sys, a: Action) {
    a.Close? ==> a.h !in s.owes
  }

  /** Only a write makes a clean buffer dirty, and a flush that succeeds leaves it clean. */
  lemma DirtOfStep(z: Zeroing, timeout: int, s: Buffered, op: FileOp)
    requires WellTyped(op)
    ensures var (t, r) := Step(z, timeout, s, op);
            (t.stamp != CLEAN && s.stamp == CLEAN ==> op.WriteAt? || op.SetSize?)
            && (op.Flush? && r.Done? ==> t.stamp == CLEAN)
  {
  }

  /** A handle comes to owe a flush by a write or a truncation that it may make, and is quit of it by a flush
      that answers OK: one that saves, finds nothing to save, or is a no-op for want of write access. */
  lemma OwesExactly(s: Sys, h: nat, op: FileOp)
    requires Enabled(s, Op(h, op))
    ensures h in Operating(s, h, op).owes <==>
              if (op.WriteAt? || op.SetSize?) && CanWrite(s.flags[h]) then true
              else if op.Flush? then
                h in s.owes && CanWrite(s.flags[h]) && !op.save.Saves? && s.files[s.proto.handles[h]].stamp != CLEAN
              else h in s.owes
    ensures Operating(s, h, op).owes - {h} == s.owes - {h}
  {
    hide CanWrite, CanRead, Written, Resized;
  }

  lemma OwingSurvives(check: ReleaseCheck, s: Sys, a: Action, h: nat, b: nat)
    requires Enabled(s, a) && Disciplined(s, a) && Owing(s, h, b) && h != s.proto.nextHandle
    requires b in s.files && b != s.proto.nextBuf && s.files[b].stamp != CLEAN
    ensures var t := Next(check, s, a); b in t.files && t.files[b].stamp != CLEAN ==> Owing(t, h, b)
  {
    hide FirstOpen, Step;
    hide P.Counted;
    if a.Op? {
      DirtOfStep(s.zeroing, s.timeout, ViewOf(s, s.proto.handles[a.h]), a.op);
    }
  }

  lemma StepOwed(check: ReleaseCheck, s: Sys, a: Action)
    requires WellFormed(s) && Enabled(s, a) && Disciplined(s, a) && DirtIsOwed(s)
    ensures DirtIsOwed(Next(check, s, a))
  {
    var t := Next(check, s, a);
    forall b | b in t.files && t.files[b].stamp != CLEAN ensures exists h :: Owing(t, h, b) {
      if b in s.files && s.files[b].stamp != CLEAN {
        var h :| Owing(s, h, b);
        OwingSurvives(check, s, a, h, b);
      } else {
        NewDirt(check, s, a, b);
      }
    }
  }

  lemma NewDirt(check: ReleaseCheck, s: Sys, a: Action, b: nat)
    requires Enabled(s, a)
    requires b in s.files ==> s.files[b].stamp == CLEAN
    requires b in Next(check, s, a).files && Next(check, s, a).files[b].stamp != CLEAN
    ensures exists h :: Owing(Next(check, s, a), h, b)
  {
    hide Initialized, Step;
    var t := Next(check, s, a);
    if a.Open? {
      InitialDirt(s.timeout, a.perms, Get(s.device, a.path), a.flags, a.stat, a.now, a.save, a.load);
      assert Owing(t, s.proto.nextHandle, b);
    } else {
      DirtOfStep(s.zeroing, s.timeout, ViewOf(s, b), a.op);
      assert Owing(t, a.h, b);
    }
  }

  ghost predicate DisciplinedRun(check: ReleaseCheck, s: Sys, acts: seq<Action>)
    requires Runs(check, s, acts)
    decreases |acts|
  {
    acts != [] ==> Disciplined(s, acts[0]) && DisciplinedRun(check, Next(check, s, acts[0]), acts[1..])
  }

  /** In every disciplined interleaving, with either release check, a dirty buffer has an open handle
      that owes its flush, so that a buffer whose handles are all closed is clean. */
  lemma {:induction false} NoDirtyDataDropped(check: ReleaseCheck, s: Sys, acts: seq<Action>)
    requires WellFormed(s) && DirtIsOwed(s) && Runs(check, s, acts) && DisciplinedRun(check, s, acts)
    ensures var t := Exec(check, s, acts);
            WellFormed(t) && DirtIsOwed(t)
            && forall b | b in t.files && t.proto.refs[b] == 0 :: t.files[b].stamp == CLEAN
    decreases |acts|
  {
    if acts == [] {
      forall b | b in s.files && s.files[b].stamp != CLEAN ensures s.proto.refs[b] != 0 {
        var h :| Owing(s, h, b);
        P.HeldCounts(s.proto, h);
      }
    } else {
      StepWellFormed(check, s, acts[0]);
      StepOwed(check, s, acts[0]);
      NoDirtyDataDropped(check, Next(check, s, acts[0]), acts[1..]);
    }
  }

  /** The path, if any, that an action takes off the map. */
  ghost predicate Unmaps(check: ReleaseCheck, s: Sys, a: Action, path: string)
    requires Enabled(s, a)
  {
    path in s.proto.open && path !in Next(check, s, a).proto.open
  }

  lemma UnmapsUnused(check: ReleaseCheck, p: P.Proto, a: P.Action, path: string)
    requires P.Counted(p) && P.Enabled(p, a) && (check.Identity? || !P.Stale(p, a))
    requires path in p.open && path !in P.Next(check, p, a).open
    ensures p.open[path] in p.paths && p.open[path] in p.refs && p.refs[p.open[path]] == 0
  {
    hide P.HandlesOf;
  }

  /** So whatever a disciplined interleaving takes off the map is clean: always with an identity check,
      and as written unless the release is stale. */
  lemma OnlyCleanBuffersAreUnmapped(check: ReleaseCheck, s: Sys, acts: seq<Action>, a: Action, path: string)
    requires WellFormed(s) && DirtIsOwed(s) && Runs(check, s, acts) && DisciplinedRun(check, s, acts)
    requires Enabled(Exec(check, s, acts), a) && Unmaps(check, Exec(check, s, acts), a, path)
    requires check.Identity? || !P.Stale(Exec(check, s, acts).proto, Sharing(Exec(check, s, acts), a))
    ensures var t := Exec(check, s, acts);
            t.proto.open[path] in t.files && t.files[t.proto.open[path]].stamp == CLEAN
  {
    hide Next, Exec, DirtIsOwed, Sharing, P.Next, P.Stale, P.Enabled, P.Counted;
    NoDirtyDataDropped(check, s, acts);
    var t := Exec(check, s, acts);
    StepProjects(check, t, a);
    UnmapsUnused(check, t.proto, Sharing(t, a), path);
  }

  /** The action takes a dirty buffer off the map. */
  ghost predicate DropsDirt(check: ReleaseCheck, s: Sys, a: Action, path: string)
    requires Enabled(s, a)
  {
    Unmaps(check, s, a, path) && DirtyAt(s, path)
  }

  predicate DirtyAt(s: Sys, path: string) {
    path in s.proto.open && s.proto.open[path] in s.files && s.files[s.proto.open[path]].stamp != CLEAN
  }

  lemma DirtIsHeld(s: Sys, path: string)
    requires WellFormed(s) && DirtIsOwed(s) && DirtyAt(s, path)
    ensures s.proto.open[path] in s.proto.refs && s.proto.refs[s.proto.open[path]] > 0
  {
    hide P.HandlesOf;
    var b := s.proto.open[path];
    var h :| Owing(s, h, b);
    P.HeldCounts(s.proto, h);
  }

  lemma UnmapsHeld(p: P.Proto, a: P.Action, path: string)
    requires P.Counted(p) && P.Enabled(p, a) && path in p.open && p.open[path] in p.refs && p.refs[p.open[path]] > 0
    ensures path in P.Next(Identity, p, a).open
    ensures path !in P.Next(RefCountOnly, p, a).open <==> a.Finish? && P.Stale(p, a) && p.paths[a.b] == path
  {
    hide P.HandlesOf;
  }

  lemma DropsDirtExactly(s: Sys, a: Action, path: string)
    requires WellFormed(s) && DirtIsOwed(s) && Enabled(s, a)
    ensures !DropsDirt(Identity, s, a, path)
    ensures DropsDirt(RefCountOnly, s, a, path) <==>
              a.Release? && P.Stale(s.proto, P.Finish(a.b)) && s.proto.paths[a.b] == path && DirtyAt(s, path)
  {
    hide Next, P.Next, P.Stale, P.Counted, FirstOpen, DirtIsOwed;
    if DirtyAt(s, path) {
      DirtIsHeld(s, path);
      StepProjects(Identity, s, a);
      StepProjects(RefCountOnly, s, a);
      UnmapsHeld(s.proto, Sharing(s, a), path);
    }
  }

  /** In a disciplined interleaving a dirty buffer leaves the map exactly when a stale release of another
      buffer meets it, which a release could see under the map lock; with an identity check, never. */
  lemma DirtyBufferUnmappedExactly(check: ReleaseCheck, s: Sys, acts: seq<Action>, a: Action, path: string)
    requires WellFormed(s) && DirtIsOwed(s) && Runs(check, s, acts) && DisciplinedRun(check, s, acts)
    requires Enabled(Exec(check, s, acts), a)
    ensures var t := Exec(check, s, acts);
            DropsDirt(check, t, a, path) <==>
              check.RefCountOnly? && a.Release? && P.Stale(t.proto, P.Finish(a.b)) && t.proto.paths[a.b] == path
              && DirtyAt(t, path)
  {
    hide DropsDirt, Next, P.Next, P.Stale, P.Enabled, DirtIsOwed, DirtyAt, WellFormed;
    NoDirtyDataDropped(check, s, acts);
    DropsDirtExactly(Exec(check, s, acts), a, path);
  }

  // ----- read-only mounts -----

  ghost predicate Untouched(s: Sys, device: Files) {
    && s.readOnly && s.device == device && s.issued == 0
    && (forall h | h in s.flags :: !IsWriteOp(s.flags[h]))
    && (forall b | b in s.files :: s.files[b].stamp == CLEAN)
  }

  lemma StepUntouched(check: ReleaseCheck, s: Sys, a: Action, device: Files)
    requires Enabled(s, a) && Untouched(s, device)
    ensures Untouched(Next(check, s, a), device)
  {
    hide Opening, Operating, FirstOpen;
    match a
    case Open(_, flags, _, _, _, _, _) =>
      if !IsWriteOp(flags) && Sharing(s, a).Acquire? {
        OpeningUntouched(s, a, P.Acquired(s.proto, a.path), device);
      }
    case Op(h, op) => OperatingUntouched(s, h, op, device);
    case _ =>
  }

  lemma OpeningUntouched(s: Sys, a: Action, proto: P.Proto, device: Files)
    requires Untouched(s, device) && a.Open? && !IsWriteOp(a.flags)
    requires a.path in s.proto.open || FirstOpen(s, a).1 == Opened
    ensures Untouched(Opening(s, a, proto), device)
  {
    hide Initialized, IsWriteOp;
    ReadOpen(a.flags);
    OpensExactly(s.timeout, a.perms, Get(s.device, a.path), a.flags, a.stat, a.now, a.save, a.load);
    InitialDirt(s.timeout, a.perms, Get(s.device, a.path), a.flags, a.stat, a.now, a.save, a.load);
  }

  lemma OperatingUntouched(s: Sys, h: nat, op: FileOp, device: Files)
    requires Untouched(s, device) && WellTyped(op) && Holds(s, h)
    ensures Untouched(Operating(s, h, op), device)
  {
    ReadOpen(s.flags[h]);
    hide IsWriteOp, CanRead, CanWrite;
  }

  /** On a read-only mount, whatever flags the opens carry and whatever the device does: no handle can
      write, no buffer becomes dirty, no writer or modifying command is ever requested, and the device
      files stay as they were, although any handle may ask for a sync. */
  lemma {:induction false} ReadOnlyNeverWrites(check: ReleaseCheck, s: Sys, acts: seq<Action>, device: Files)
    requires Untouched(s, device) && Runs(check, s, acts)
    ensures var t := Exec(check, s, acts);
            Untouched(t, device) && forall h | h in t.flags :: CanRead(t.flags[h]) && !CanWrite(t.flags[h])
    decreases |acts|
  {
    if acts == [] {
      forall h | h in s.flags ensures CanRead(s.flags[h]) && !CanWrite(s.flags[h]) {
        ReadOpen(s.flags[h]);
      }
    } else {
      StepUntouched(check, s, acts[0], device);
      ReadOnlyNeverWrites(check, Next(check, s, acts[0]), acts[1..], device);
    }
  }

  // ----- one file per path, coherent with the device -----

  function Project(check: ReleaseCheck, s: Sys, acts: seq<Action>): seq<P.Action>
    requires Runs(check, s, acts)
    decreases |acts|
  {
    if acts == [] then []
    else [Sharing(s, acts[0])] + Project(check, Next(check, s, acts[0]), acts[1..])
  }

  /** A run of the file system is a run of the sharing protocol, whose theorems therefore hold of it. */
  lemma {:induction false} RunProjects(check: ReleaseCheck, s: Sys, acts: seq<Action>)
    requires Runs(check, s, acts)
    ensures P.Runs(check, s.proto, Project(check, s, acts))
    ensures P.Exec(check, s.proto, Project(check, s, acts)) == Exec(check, s, acts).proto
    decreases |acts|
  {
    if acts != [] {
      hide Next;
      StepProjects(check, s, acts[0]);
      RunProjects(check, Next(check, s, acts[0]), acts[1..]);
      assert Project(check, s, acts)[1..] == Project(check, Next(check, s, acts[0]), acts[1..]);
    }
  }

  /** Every state of the run has one buffer per open path. */
  ghost predicate SharedThroughout(check: ReleaseCheck, s: Sys, acts: seq<Action>)
    requires Runs(check, s, acts)
    decreases |acts|
  {
    P.Shared(s.proto) && (acts != [] ==> SharedThroughout(check, Next(check, s, acts[0]), acts[1..]))
  }

  /** A release that checks identity gives it to every run. */
  lemma {:induction false} IdentityShares(s: Sys, acts: seq<Action>)
    requires WellFormed(s) && P.Shared(s.proto) && Runs(Identity, s, acts)
    ensures SharedThroughout(Identity, s, acts)
    decreases |acts|
  {
    if acts != [] {
      hide Next, P.Shared, P.Counted;
      StepWellFormed(Identity, s, acts[0]);
      StepProjects(Identity, s, acts[0]);
      P.StepShared(Identity, s.proto, Sharing(s, acts[0]));
      IdentityShares(Next(Identity, s, acts[0]), acts[1..]);
    }
  }

  lemma {:induction false} ThroughoutProjects(s: Sys, acts: seq<Action>)
    requires Runs(RefCountOnly, s, acts)
    requires P.Runs(RefCountOnly, s.proto, Project(RefCountOnly, s, acts))
    ensures SharedThroughout(RefCountOnly, s, acts) <==>
              P.AlwaysShared(s.proto, Project(RefCountOnly, s, acts))
    decreases |acts|
  {
    if acts != [] {
      hide Next, P.Shared;
      StepProjects(RefCountOnly, s, acts[0]);
      var rest := Next(RefCountOnly, s, acts[0]);
      assert Project(RefCountOnly, s, acts)[1..] == Project(RefCountOnly, rest, acts[1..]);
      ThroughoutProjects(rest, acts[1..]);
    }
  }

  /** The code as written gives it exactly to the runs without a stale release. */
  lemma {:induction false} AsWrittenSharesExactly(s: Sys, acts: seq<Action>)
    requires Runs(RefCountOnly, s, acts) && WellFormed(s) && P.Shared(s.proto)
    ensures P.Runs(RefCountOnly, s.proto, Project(RefCountOnly, s, acts))
    ensures SharedThroughout(RefCountOnly, s, acts) <==>
              P.NoStaleRelease(s.proto, Project(RefCountOnly, s, acts))
  {
    RunProjects(RefCountOnly, s, acts);
    P.SharedExactly(s.proto, Project(RefCountOnly, s, acts));
    ThroughoutProjects(s, acts);
  }

  /** It gives it to every run in which no open joins a buffer whose count has reached zero. */
  lemma NoRevivalShares(s: Sys, acts: seq<Action>)
    requires Runs(RefCountOnly, s, acts) && WellFormed(s)
    requires P.Shared(s.proto) && P.PendingMapped(s.proto) && P.OncePending(s.proto)
    requires P.Runs(RefCountOnly, s.proto, Project(RefCountOnly, s, acts))
    requires P.NoRevival(RefCountOnly, s.proto, Project(RefCountOnly, s, acts))
    ensures SharedThroughout(RefCountOnly, s, acts)
  {
    P.NoRevivalNoSplit(s.proto, Project(RefCountOnly, s, acts));
    ThroughoutProjects(s, acts);
  }

  ghost predicate MappedCoherent(s: Sys) {
    forall b | b in s.files && P.Mapped(s.proto, b) :: Coherent(ViewOf(s, b))
  }

  /** No outside writer, and a clock that never reads the zero time. */
  predicate Inside(a: Action) {
    match a
    case Command(_) => false
    case Op(_, op) => ClockOk(op)
    case Open(_, _, _, _, now, _, _) => now != CLEAN
    case _ => true
  }

  lemma InitialCoherent(timeout: int, perms: nat, dev: Option<DevFile>, flags: Flags, stat: StatReply,
                        now: int, save: SaveIo, load: LoadIo)
    requires now != CLEAN
    ensures Coherent(Initialized(timeout, Blank(perms, dev), flags, stat, now, save, load).0)
  {
    var blank := Blank(perms, dev);
    if !stat.StatFails? {
      var current := if stat.NoSuchFile? then DEFAULT_PERMS else stat.perms;
      var p := if perms == DONT_SET_PERMS then current else perms;
      StepCoherent(AsWritten, timeout, FileState(EMPTY, if WantsNewFile(flags, stat) then now else CLEAN, p, false, dev),
                   Sync(save, load));
    }
  }

  /** What a step that only changes the file of `p` leaves as it was. */
  lemma OtherViews(s: Sys, t: Sys, b: nat, p: string)
    requires b in s.files && b in t.files && b in s.proto.paths && b in t.proto.paths
    requires s.files[b] == t.files[b] && s.proto.paths[b] == t.proto.paths[b] != p
    requires forall q | q != p :: Get(t.device, q) == Get(s.device, q)
    ensures ViewOf(t, b) == ViewOf(s, b)
  {
  }

  lemma OpMappedCoherent(s: Sys, h: nat, op: FileOp)
    requires Keyed(s) && Enabled(s, Op(h, op)) && Inside(Op(h, op)) && MappedCoherent(s)
    requires P.Mapped(s.proto, s.proto.handles[h])
    ensures MappedCoherent(Operating(s, h, op))
  {
    hide Step, Coherent;
    var t := Operating(s, h, op);
    var b := s.proto.handles[h];
    StepCoherent(s.zeroing, s.timeout, ViewOf(s, b), op);
    forall c | c in t.files && P.Mapped(t.proto, c) ensures Coherent(ViewOf(t, c)) {
      if c != b {
        OtherViews(s, t, c, s.proto.paths[b]);
      }
    }
  }

  lemma OpenMappedCoherent(s: Sys, a: Action)
    requires WellFormed(s) && a.Open? && Enabled(s, a) && Inside(a) && MappedCoherent(s)
    requires Sharing(s, a).Acquire?
    ensures MappedCoherent(Opening(s, a, P.Acquired(s.proto, a.path)))
  {
    hide Initialized, Coherent, P.HandlesOf;
    var t := Opening(s, a, P.Acquired(s.proto, a.path));
    InitialCoherent(s.timeout, a.perms, Get(s.device, a.path), a.flags, a.stat, a.now, a.save, a.load);
    forall c | c in t.files && P.Mapped(t.proto, c) ensures Coherent(ViewOf(t, c)) {
      if c in s.files {
        assert P.Mapped(s.proto, c);
        if a.path !in s.proto.open {
          OtherViews(s, t, c, a.path);
        }
      }
    }
  }

  lemma UnmappingCoherent(s: Sys, t: Sys)
    requires MappedCoherent(s) && t.files == s.files && t.device == s.device && t.proto.paths == s.proto.paths
    requires forall b | P.Mapped(t.proto, b) :: P.Mapped(s.proto, b)
    ensures MappedCoherent(t)
  {
    hide Coherent;
    forall c | c in t.files && P.Mapped(t.proto, c) ensures Coherent(ViewOf(t, c)) {
      assert ViewOf(t, c) == ViewOf(s, c);
    }
  }

  lemma StepMappedCoherent(check: ReleaseCheck, s: Sys, a: Action)
    requires WellFormed(s) && P.Shared(s.proto) && Enabled(s, a) && Inside(a) && MappedCoherent(s)
    ensures MappedCoherent(Next(check, s, a))
  {
    hide Step, FirstOpen, Coherent, P.Counted;
    match a
    case Op(h, op) => OpMappedCoherent(s, h, op);
    case Open(_, _, _, _, _, _, _) => if Sharing(s, a).Acquire? { OpenMappedCoherent(s, a); }
    case Close(_) => UnmappingCoherent(s, Next(check, s, a));
    case Release(_) => UnmappingCoherent(s, Next(check, s, a));
    case Command(_) =>
  }

  /** With no outside writer, in every run that keeps one buffer per path: through every handle, a clean
      buffer whose last load was complete holds the bytes of the device file. */
  lemma {:induction false} MountCoherent(check: ReleaseCheck, s: Sys, acts: seq<Action>)
    requires WellFormed(s) && MappedCoherent(s) && Runs(check, s, acts) && SharedThroughout(check, s, acts)
    requires forall a | a in acts :: Inside(a)
    ensures var t := Exec(check, s, acts);
            WellFormed(t) && P.Shared(t.proto)
            && forall h | h in t.flags :: Coherent(ViewOf(t, t.proto.handles[h]))
    decreases |acts|
  {
    if acts != [] {
      hide Next, MappedCoherent, P.Shared, P.Counted;
      StepWellFormed(check, s, acts[0]);
      StepMappedCoherent(check, s, acts[0]);
      MountCoherent(check, Next(check, s, acts[0]), acts[1..]);
    }
  }

  // ----- how long a buffer stays dirty -----

  /** From its first open on, by whatever flags and with whatever outcome of the first save: after every
      overdue check that reports success the buffer is clean, or the first write since it was last clean is
      no older than the timeout, or it has been dirty since that open, whose save failed, and the open is
      no older than the timeout. */
  lemma BoundedSinceOpen(z: Zeroing, timeout: int, perms: nat, dev: Option<DevFile>, flags: Flags, stat: StatReply,
                         now: int, save: SaveIo, load: LoadIo, ops: seq<FileOp>, k: nat)
    requires k < |ops| && (forall op | op in ops :: WellTyped(op)) && ops[k].SyncIfTooDirty?
    requires var s := Initialized(timeout, Blank(perms, dev), flags, stat, now, save, load).0;
             Step(z, timeout, Kth(z, timeout, s, ops, k), ops[k]).1 == Done
    ensures var s := Initialized(timeout, Blank(perms, dev), flags, stat, now, save, load).0;
            Kth(z, timeout, s, ops, k + 1).stamp == CLEAN
            || (DirtyFromStart(z, timeout, s, ops, k) && !save.Saves? && ops[k].now <= now + timeout)
            || exists j: nat | j < k :: DirtySince(z, timeout, s, ops, j, k) && ops[k].now <= ops[j].now + timeout
  {
    hide Initialized, Step, Kth, DirtySince;
    var s := Initialized(timeout, Blank(perms, dev), flags, stat, now, save, load).0;
    InitialDirt(timeout, perms, dev, flags, stat, now, save, load);
    BoundedDirtiness(z, timeout, s, ops, k);
  }
}
