/** What an open does to a path that is open already, and how that differs from a first open. */
module SharedOpens {
  import opened OpenFlags
  import opened DirtyTime
  import opened GrowableSlice
  import opened FileSpec
  import opened FileBuffers
  import opened Releasing
  import P = OpenProtocol
  import opened FileSystem
  import opened MountTheory
  import opened MountRefinement

  /** An open with `O_TRUNC` leaves the file empty exactly when the path was not open before, or was empty
      already: a joining open looks at no flag. */
  lemma TruncatesExactly(check: ReleaseCheck, s: Sys, a: Action)
    requires WellFormed(s) && a.Open? && Enabled(s, a) && Sharing(s, a).Acquire?
    requires Contains(a.flags, O_TRUNC) && a.now != CLEAN
    ensures IsOpen(Next(check, s, a), a.path)
    ensures a.path in s.proto.open ==> IsOpen(s, a.path)
    ensures BufferAt(Next(check, s, a), a.path).buf.Data() == [] <==>
              a.path !in s.proto.open || BufferAt(s, a.path).buf.Data() == []
  {
    if a.path in s.proto.open {
      JoinedBuffer(check, s, a);
    } else {
      hide *;
      NewBuffer(check, s, a);
      EmptyFirst(s, a);
    }
  }

  lemma JoinedBuffer(check: ReleaseCheck, s: Sys, a: Action)
    requires WellFormed(s) && a.Open? && Enabled(s, a) && Sharing(s, a).Acquire? && a.path in s.proto.open
    ensures IsOpen(s, a.path) && IsOpen(Next(check, s, a), a.path)
    ensures BufferAt(Next(check, s, a), a.path) == BufferAt(s, a.path)
  {
    hide FirstOpen, Opening, P.HandlesOf;
    OpeningOnPath(s, a, a.path);
  }

  lemma EmptyFirst(s: Sys, a: Action)
    requires a.Open? && Contains(a.flags, O_TRUNC) && a.now != CLEAN
    ensures FirstOpen(s, a).0.buf.Data() == []
  {
    hide Initialized, Contains;
    NewBufferIsEmpty(s.timeout, a.perms, Get(s.device, a.path), a.flags, a.stat, a.now, a.save, a.load);
  }

  /** An open that creates, truncates or appends without write access is let through exactly when the mount
      is writable and the path open already. */
  lemma UnwritableOpenExactly(s: Sys, a: Action)
    requires a.Open? && Contains(a.flags, O_CREATE | O_TRUNC | O_APPEND) && !CanWrite(a.flags)
    ensures Sharing(s, a).Acquire? <==> !s.readOnly && a.path in s.proto.open
  {
    hide Initialized, Contains, CanWrite, IsWriteOp;
    ModifyingIsWriteOp(a.flags);
    OpensExactly(s.timeout, a.perms, Get(s.device, a.path), a.flags, a.stat, a.now, a.save, a.load);
  }

  /** Which opens succeed: none that modifies on a read-only mount; then any of an open path; else those that
      find the file or may create it, and come with write access if they modify. */
  lemma OpenSucceedsExactly(s: Sys, a: Action)
    requires a.Open?
    ensures Sharing(s, a).Acquire? <==>
              && !(s.readOnly && a.flags & 0x643 != 0)
              && (a.path in s.proto.open
                  || ((a.flags & 0x640 != 0 ==> a.flags & 3 != 0)
                      && (a.stat.Stats? || (a.stat.NoSuchFile? && a.flags & 0x40 != 0))))
  {
    hide Initialized, Contains, CanWrite, IsWriteOp;
    WriteOpBits(a.flags);
    ModifyingBits(a.flags);
    CreateTruncateBits(a.flags);
    AccessMode(a.flags);
    OpensExactly(s.timeout, a.perms, Get(s.device, a.path), a.flags, a.stat, a.now, a.save, a.load);
  }

  /** What a handle may do, by the low two bits of its flags: any handle may sync, 0 and 2 read, all but 0
      write, cut, flush and check. */
  lemma PermittedExactly(f: Flags, op: FileOp)
    ensures Permitted(f, op) <==>
              match op
              case Sync(_, _) => true
              case ReadAt(_, _) => f & 3 == 0 || f & 3 == 2
              case _ => f & 3 != 0
  {
    AccessMode(f);
  }

  /** Only what counts as a request changes the device; a command is one on every writable mount. */
  lemma RequestsAreCounted(check: ReleaseCheck, s: Sys, a: Action)
    requires Enabled(s, a)
    ensures var t := Next(check, s, a);
            && (t.issued == s.issued || t.issued == s.issued + 1)
            && (t.device != s.device ==> t.issued == s.issued + 1)
            && (a.Command? && !s.readOnly ==> t.device == a.after && t.issued == s.issued + 1)
  {
    hide Initialized, Contains, IssuesWrite;
    match a
    case Open(_, _, _, _, _, _, _) => OpeningIsCounted(s, a, P.Next(check, s.proto, Sharing(s, a)));
    case Op(h, op) => OperatingIsCounted(s, h, op);
    case _ =>
  }

  lemma OpeningIsCounted(s: Sys, a: Action, proto: P.Proto)
    requires a.Open?
    ensures var t := Opening(s, a, proto); t.device == s.device || t.issued == s.issued + 1
  {
    var dev := Get(s.device, a.path);
    hide Contains, CanWrite;
    if a.path !in s.proto.open && !(WantsNewFile(a.flags, a.stat) && a.now != CLEAN) {
      assert FirstOpen(s, a).0.dev == dev;
    }
  }

  lemma OperatingIsCounted(s: Sys, h: nat, op: FileOp)
    requires WellTyped(op) && Holds(s, h)
    ensures var t := Operating(s, h, op); t.device == s.device || t.issued == s.issued + 1
  {
    var view := ViewOf(s, s.proto.handles[h]);
    if !IssuesWrite(s.timeout, view, op) {
      assert Step(s.zeroing, s.timeout, view, op).0.dev == view.dev;
    }
    hide Step, IssuesWrite;
  }

  // ----- an open that should truncate and does not -----

  function OpensWith(path: string, flags: Flags): Action {
    Open(path, flags, DONT_SET_PERMS, Stats(1), 5, Saves, Loads([]))
  }

  /** A file that holds the byte 7 is opened, and opened again with `O_TRUNC`: it still holds the byte. */
  lemma JoiningOpenDoesNotTruncate(path: string)
    ensures var s := Init(AsWritten, false, 0, map[path := DevFile([7], 1)]);
            var acts := [OpensWith(path, O_RDWR), OpensWith(path, O_RDWR | O_TRUNC)];
            Runs(RefCountOnly, s, acts) && IsOpen(Exec(RefCountOnly, s, acts), path)
            && BufferAt(Exec(RefCountOnly, s, acts), path).buf.Data() == [7]
  {
    var s := Init(AsWritten, false, 0, map[path := DevFile([7], 1)]);
    var a, b := OpensWith(path, O_RDWR), OpensWith(path, O_RDWR | O_TRUNC);
    InitQualifies(AsWritten, false, 0, map[path := DevFile([7], 1)]);
    LoadsSeven(s, path);
    NewBuffer(RefCountOnly, s, a);
    StepWellFormed(RefCountOnly, s, a);
    var t := Next(RefCountOnly, s, a);
    assert !t.readOnly && Sharing(t, b).Acquire? && Enabled(t, b);
    JoinedBuffer(RefCountOnly, t, b);
    TwoSteps(s, a, b);
  }

  lemma LoadsSeven(s: Sys, path: string)
    requires s == Init(AsWritten, false, 0, map[path := DevFile([7], 1)])
    ensures var a := OpensWith(path, O_RDWR);
            Enabled(s, a) && Sharing(s, a).Acquire? && FirstOpen(s, a).0.buf.Data() == [7]
  {
    var a := OpensWith(path, O_RDWR);
    assert !Contains(O_RDWR, O_TRUNC) && CanWrite(O_RDWR);
    hide Initialized, Contains, CanWrite;
    OpensExactly(0, a.perms, Get(s.device, path), a.flags, a.stat, a.now, a.save, a.load);
    ExistingFileIsLoaded(0, a.perms, Get(s.device, path), a.flags, a.stat, a.now, a.save, a.load);
  }

  lemma TwoSteps(s: Sys, a: Action, b: Action)
    requires Enabled(s, a) && Enabled(Next(RefCountOnly, s, a), b)
    ensures Runs(RefCountOnly, s, [a, b])
    ensures Exec(RefCountOnly, s, [a, b]) == Next(RefCountOnly, Next(RefCountOnly, s, a), b)
  {
    hide Next, Enabled;
    assert [a, b][1..] == [b] && [b][1..] == [];
    assert Exec(RefCountOnly, Next(RefCountOnly, s, a), [b]) ==
             Exec(RefCountOnly, Next(RefCountOnly, Next(RefCountOnly, s, a), b), []);
  }
}
