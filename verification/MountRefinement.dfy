/** What the handles of one path see, whatever else goes on in the mount: a single file. */
module MountRefinement {
  import opened Wrappers
  import opened Bytes
  import opened OpenFlags
  import opened DirtyTime
  import opened GrowableSlice
  import opened FileSpec
  import opened PlainFile
  import opened FileTheory
  import opened FileBuffers
  import opened Releasing
  import P = OpenProtocol
  import opened FileSystem
  import opened MountTheory

  /** The map holds a buffer for `path`. */
  predicate IsOpen(s: Sys, path: string) {
    path in s.proto.open && s.proto.open[path] in s.files && s.proto.open[path] in s.proto.paths
  }

  function BufferAt(s: Sys, path: string): Buffered
    requires IsOpen(s, path)
  {
    ViewOf(s, s.proto.open[path])
  }

  /** A permitted operation on `path`, through any handle. */
  predicate IsOn(s: Sys, a: Action, path: string) {
    a.Op? && Holds(s, a.h) && Permitted(s.flags[a.h], a.op) && s.proto.paths[s.proto.handles[a.h]] == path
  }

  /** A command that changes the device leaves this file alone. */
  predicate Spared(s: Sys, a: Action, path: string) {
    a.Command? && !s.readOnly ==> Get(a.after, path) == Get(s.device, path)
  }

  /** What the handle that issues an operation gets for an answer, from its own buffer. */
  function Answer(s: Sys, a: Action): Reply
    requires Enabled(s, a) && a.Op?
  {
    Step(s.zeroing, s.timeout, ViewOf(s, s.proto.handles[a.h]), a.op).1
  }

  /** The operations of a run on `path`, by all its handles. */
  function OpsOn(check: ReleaseCheck, s: Sys, acts: seq<Action>, path: string): (ops: seq<FileOp>)
    requires Runs(check, s, acts)
    ensures forall op | op in ops :: WellTyped(op) && InRange(op)
    decreases |acts|
  {
    if acts == [] then []
    else (if IsOn(s, acts[0], path) then [acts[0].op] else []) + OpsOn(check, Next(check, s, acts[0]), acts[1..], path)
  }

  /** And the answers that the handles got. */
  function Answers(check: ReleaseCheck, s: Sys, acts: seq<Action>, path: string): seq<Reply>
    requires Runs(check, s, acts)
    decreases |acts|
  {
    if acts == [] then []
    else
      (if IsOn(s, acts[0], path) then [Answer(s, acts[0])] else [])
      + Answers(check, Next(check, s, acts[0]), acts[1..], path)
  }

  /** `path` has a buffer throughout a run, as it has while a handle is open, and no command changes its file. */
  predicate StaysOpen(check: ReleaseCheck, s: Sys, acts: seq<Action>, path: string)
    requires Runs(check, s, acts)
    decreases |acts|
  {
    IsOpen(s, path)
    && (acts != [] ==> Spared(s, acts[0], path) && StaysOpen(check, Next(check, s, acts[0]), acts[1..], path))
  }

  // ----- one step -----

  lemma OperatingOnPath(s: Sys, h: nat, op: FileOp, path: string)
    requires WellFormed(s) && P.Shared(s.proto) && Enabled(s, Op(h, op)) && IsOpen(s, path)
    ensures var t := Operating(s, h, op);
            IsOpen(t, path)
            && if IsOn(s, Op(h, op), path)
               then (BufferAt(t, path), Answer(s, Op(h, op))) == Step(s.zeroing, s.timeout, BufferAt(s, path), op)
               else BufferAt(t, path) == BufferAt(s, path)
  {
    var b := s.proto.handles[h];
    assert P.Mapped(s.proto, b);
    assert s.proto.paths[s.proto.open[path]] == path;
    hide P.Shared, P.Counted;
    if Permitted(s.flags[h], op) {
      PermittedOnPath(s, h, op, path);
    } else {
      hide Step;
    }
  }

  lemma PermittedOnPath(s: Sys, h: nat, op: FileOp, path: string)
    requires Keyed(s) && Enabled(s, Op(h, op)) && IsOpen(s, path) && Permitted(s.flags[h], op)
    requires P.Mapped(s.proto, s.proto.handles[h]) && s.proto.paths[s.proto.open[path]] == path
    ensures var t := Operating(s, h, op);
            IsOpen(t, path)
            && if s.proto.paths[s.proto.handles[h]] == path
               then (BufferAt(t, path), Answer(s, Op(h, op))) == Step(s.zeroing, s.timeout, BufferAt(s, path), op)
               else BufferAt(t, path) == BufferAt(s, path)
  {
    hide Step, Permitted, IssuesWrite;
    var b := s.proto.handles[h];
    if s.proto.paths[b] != path {
      OtherViews(s, Operating(s, h, op), s.proto.open[path], s.proto.paths[b]);
    }
  }

  lemma OpeningOnPath(s: Sys, a: Action, path: string)
    requires WellFormed(s) && a.Open? && Enabled(s, a) && Sharing(s, a).Acquire? && IsOpen(s, path)
    ensures var t := Opening(s, a, P.Acquired(s.proto, a.path));
            IsOpen(t, path) && BufferAt(t, path) == BufferAt(s, path)
  {
    hide FirstOpen, P.HandlesOf;
    var t := Opening(s, a, P.Acquired(s.proto, a.path));
    if a.path !in s.proto.open {
      OtherViews(s, t, s.proto.open[path], a.path);
    }
  }

  /** One action, whichever it is: an operation on the path is a step of its buffer, with the same reply
      whichever handle it came through; opens, closes, releases, operations on other paths and refused
      ones leave the buffer and its file alone. */
  lemma StepOnPath(check: ReleaseCheck, s: Sys, a: Action, path: string)
    requires WellFormed(s) && P.Shared(s.proto) && Enabled(s, a) && Spared(s, a, path)
    requires IsOpen(s, path) && IsOpen(Next(check, s, a), path)
    ensures var t := Next(check, s, a);
            if IsOn(s, a, path)
            then (BufferAt(t, path), Answer(s, a)) == Step(s.zeroing, s.timeout, BufferAt(s, path), a.op)
            else BufferAt(t, path) == BufferAt(s, path)
  {
    hide Step, FirstOpen, P.Counted, P.Shared, Operating, Opening;
    match a
    case Op(h, op) => OperatingOnPath(s, h, op, path);
    case Open(_, _, _, _, _, _, _) => if Sharing(s, a).Acquire? { OpeningOnPath(s, a, path); }
    case _ =>
      assert s.proto.paths[s.proto.open[path]] == path by { MappedAtItsPath(s.proto, path); }
      RestOnPath(check, s, a, path);
  }

  lemma MappedAtItsPath(p: P.Proto, path: string)
    requires P.Counted(p) && path in p.open
    ensures p.open[path] in p.paths && p.paths[p.open[path]] == path
  {
  }

  lemma RestOnPath(check: ReleaseCheck, s: Sys, a: Action, path: string)
    requires Enabled(s, a) && Spared(s, a, path) && !a.Op? && !a.Open?
    requires s.files.Keys == s.proto.paths.Keys && IsOpen(s, path) && s.proto.paths[s.proto.open[path]] == path
    requires IsOpen(Next(check, s, a), path)
    ensures BufferAt(Next(check, s, a), path) == BufferAt(s, path)
  {
    var t := Next(check, s, a);
    RestKeeps(check, s, a, path);
    hide Next, Enabled, Spared;
    assert t.proto.open[path] == s.proto.open[path];
  }

  /** Closes, releases and commands: no buffer's contents change, nor which path a buffer has, nor what the
      map holds for a path that it keeps, nor a file that is spared. */
  lemma RestKeeps(check: ReleaseCheck, s: Sys, a: Action, path: string)
    requires Enabled(s, a) && Spared(s, a, path) && !a.Op? && !a.Open?
    ensures var t := Next(check, s, a);
            t.files == s.files && t.proto.paths == s.proto.paths && Get(t.device, path) == Get(s.device, path)
            && (path in t.proto.open ==> path in s.proto.open && t.proto.open[path] == s.proto.open[path])
  {
    hide FirstOpen, Operating, Opening, InRange, WellTyped;
    match a
    case Close(h) => assert Next(check, s, a).proto == P.Dropped(s.proto, h);
    case Release(b) => assert Next(check, s, a).proto == P.Finished(check, s.proto, b);
    case Command(_) => assert Next(check, s, a).proto == s.proto;
  }

  lemma SettingsStay(check: ReleaseCheck, s: Sys, a: Action)
    requires Enabled(s, a)
    ensures Next(check, s, a).zeroing == s.zeroing && Next(check, s, a).timeout == s.timeout
  {
    hide FirstOpen, Step;
  }

  // ----- whole runs -----

  /** A run of the mount that keeps one buffer per path is, for each path, a run of its buffered file: its
      operations, by any handles opened before or during the run, one after the other and with their
      replies. So every theorem about runs of one file holds of the path. */
  lemma {:induction false} PathRuns(check: ReleaseCheck, s: Sys, acts: seq<Action>, path: string)
    requires WellFormed(s) && Runs(check, s, acts) && SharedThroughout(check, s, acts)
    requires StaysOpen(check, s, acts, path)
    ensures IsOpen(Exec(check, s, acts), path)
    ensures (BufferAt(Exec(check, s, acts), path), Answers(check, s, acts, path)) ==
              Run(s.zeroing, s.timeout, BufferAt(s, path), OpsOn(check, s, acts, path))
    decreases |acts|
  {
    hide *;
    if acts == [] {
      NothingRuns(check, s, path);
    } else {
      var a := acts[0];
      FirstOf(check, s, acts, path);
      var t := Next(check, s, a);
      StepWellFormed(check, s, a);
      SettingsStay(check, s, a);
      PathRuns(check, t, acts[1..], path);
      StepOnPath(check, s, a, path);
      var u, rs := BufferAt(Exec(check, t, acts[1..]), path), Answers(check, t, acts[1..], path);
      if IsOn(s, a, path) {
        RunAfter(s.zeroing, s.timeout, BufferAt(s, path), a.op, Answer(s, a), BufferAt(t, path),
                 OpsOn(check, t, acts[1..], path), u, rs);
      } else {
        assert [] + OpsOn(check, t, acts[1..], path) == OpsOn(check, t, acts[1..], path) && [] + rs == rs;
      }
    }
  }

  lemma NothingRuns(check: ReleaseCheck, s: Sys, path: string)
    requires StaysOpen(check, s, [], path)
    ensures Exec(check, s, []) == s && IsOpen(s, path)
    ensures OpsOn(check, s, [], path) == [] && Answers(check, s, [], path) == []
    ensures Run(s.zeroing, s.timeout, BufferAt(s, path), []) == (BufferAt(s, path), [])
  {
  }

  /** The first action of a run and the run after it. */
  lemma FirstOf(check: ReleaseCheck, s: Sys, acts: seq<Action>, path: string)
    requires acts != [] && Runs(check, s, acts) && SharedThroughout(check, s, acts) && StaysOpen(check, s, acts, path)
    ensures Enabled(s, acts[0]) && Runs(check, Next(check, s, acts[0]), acts[1..])
    ensures P.Shared(s.proto) && SharedThroughout(check, Next(check, s, acts[0]), acts[1..])
    ensures IsOpen(s, path) && Spared(s, acts[0], path) && StaysOpen(check, Next(check, s, acts[0]), acts[1..], path)
    ensures IsOpen(Next(check, s, acts[0]), path)
    ensures Exec(check, s, acts) == Exec(check, Next(check, s, acts[0]), acts[1..])
    ensures IsOn(s, acts[0], path) ==> acts[0].Op? && WellTyped(acts[0].op)
    ensures OpsOn(check, s, acts, path) ==
              (if IsOn(s, acts[0], path) then [acts[0].op] else []) + OpsOn(check, Next(check, s, acts[0]), acts[1..], path)
    ensures Answers(check, s, acts, path) ==
              (if IsOn(s, acts[0], path) then [Answer(s, acts[0])] else [])
              + Answers(check, Next(check, s, acts[0]), acts[1..], path)
  {
    hide Next, Step, IsOpen, Spared, P.Shared, Answer;
  }

  lemma RunAfter(z: Zeroing, timeout: int, s: Buffered, op: FileOp, r: Reply, t: Buffered,
                 ops: seq<FileOp>, u: Buffered, rs: seq<Reply>)
    requires WellTyped(op) && forall o | o in ops :: WellTyped(o)
    requires (t, r) == Step(z, timeout, s, op) && (u, rs) == Run(z, timeout, t, ops)
    ensures forall o | o in [op] + ops :: WellTyped(o)
    ensures (u, [r] + rs) == Run(z, timeout, s, [op] + ops)
  {
    hide Step;
    assert ([op] + ops)[1..] == ops;
  }

  // ----- the plain file of a path -----

  /** From the open that brings its buffer on, a path is a plain byte file: whatever handles come and go,
      their operations on it form a run of the plain file, and each handle gets the plain file's replies. */
  lemma EveryOperationIsPlain(check: ReleaseCheck, s: Sys, a: Action, acts: seq<Action>)
    requires WellFormed(s) && a.Open? && a.path !in s.proto.open && Enabled(s, a) && Sharing(s, a).Acquire?
    requires Runs(check, Next(check, s, a), acts) && SharedThroughout(check, Next(check, s, a), acts)
    requires StaysOpen(check, Next(check, s, a), acts, a.path)
    requires if s.zeroing.AsIntended?
             then AllZero(Slack(a.load)) && forall op | op in OpsOn(check, Next(check, s, a), acts, a.path) :: CleanSlack(op)
             else FindsZerosThroughout(s.timeout, FirstOpen(s, a).0, OpsOn(check, Next(check, s, a), acts, a.path))
    ensures var t := Next(check, s, a);
            var u := Exec(check, t, acts);
            IsOpen(u, a.path)
            && (Plain(BufferAt(u, a.path)), Answers(check, t, acts, a.path)) ==
                 PlainRun(s.timeout, Plain(FirstOpen(s, a).0), OpsOn(check, t, acts, a.path))
  {
    hide *;
    OpenIsBenign(s, a, OpsOn(check, Next(check, s, a), acts, a.path));
    NewBuffer(check, s, a);
    StepWellFormed(check, s, a);
    SettingsStay(check, s, a);
    PathRuns(check, Next(check, s, a), acts, a.path);
    BenignRuns(s.zeroing, s.timeout, FirstOpen(s, a).0, OpsOn(check, Next(check, s, a), acts, a.path));
  }

  lemma InitialSlack(timeout: int, perms: nat, dev: Option<DevFile>, flags: Flags, stat: StatReply,
                     now: int, save: SaveIo, load: LoadIo)
    requires AllZero(Slack(load))
    ensures Initialized(timeout, Blank(perms, dev), flags, stat, now, save, load).0.buf.ZeroSlack()
  {
    hide Contains, CanWrite, Load, PlainLoad, Plain;
    assert EMPTY.ZeroSlack();
    var current := if stat.Stats? then stat.perms else DEFAULT_PERMS;
    LoadRefines(Blank(if perms == DONT_SET_PERMS then current else perms, dev), load);
  }

  lemma OpenIsBenign(s: Sys, a: Action, ops: seq<FileOp>)
    requires a.Open? && forall op | op in ops :: WellTyped(op) && InRange(op)
    requires if s.zeroing.AsIntended?
             then AllZero(Slack(a.load)) && forall op | op in ops :: CleanSlack(op)
             else FindsZerosThroughout(s.timeout, FirstOpen(s, a).0, ops)
    ensures Benign(s.zeroing, s.timeout, FirstOpen(s, a).0, ops)
  {
    hide Initialized;
    if s.zeroing.AsIntended? {
      InitialSlack(s.timeout, a.perms, Get(s.device, a.path), a.flags, a.stat, a.now, a.save, a.load);
    }
  }

  lemma NewBuffer(check: ReleaseCheck, s: Sys, a: Action)
    requires WellFormed(s) && a.Open? && a.path !in s.proto.open && Enabled(s, a) && Sharing(s, a).Acquire?
    ensures IsOpen(Next(check, s, a), a.path) && BufferAt(Next(check, s, a), a.path) == FirstOpen(s, a).0
  {
    hide FirstOpen, P.Counted;
  }

  /** At every point of the run, an operation on `path` does what the plain file does. */
  predicate PlainThroughout(check: ReleaseCheck, s: Sys, acts: seq<Action>, path: string)
    requires Runs(check, s, acts) && StaysOpen(check, s, acts, path)
    decreases |acts|
  {
    acts != [] ==>
      var t := Next(check, s, acts[0]);
      (IsOn(s, acts[0], path) ==>
        (Plain(BufferAt(t, path)), Answer(s, acts[0])) == PlainStep(s.timeout, Plain(BufferAt(s, path)), acts[0].op))
      && PlainThroughout(check, t, acts[1..], path)
  }

  /** As the code stands, that is so exactly when each truncation and each write on the path finds the zeros
      it relies on. */
  lemma {:induction false} AsWrittenIsPlainExactly(check: ReleaseCheck, s: Sys, acts: seq<Action>, path: string)
    requires WellFormed(s) && s.zeroing.AsWritten? && Runs(check, s, acts) && SharedThroughout(check, s, acts)
    requires StaysOpen(check, s, acts, path)
    ensures PlainThroughout(check, s, acts, path) <==>
              FindsZerosThroughout(s.timeout, BufferAt(s, path), OpsOn(check, s, acts, path))
    decreases |acts|
  {
    hide *;
    if acts == [] {
      NothingIsPlain(check, s, path);
    } else {
      var a := acts[0];
      FirstOf(check, s, acts, path);
      var t := Next(check, s, a);
      StepWellFormed(check, s, a);
      SettingsStay(check, s, a);
      AsWrittenIsPlainExactly(check, t, acts[1..], path);
      StepOnPath(check, s, a, path);
      FirstIsPlain(check, s, acts, path);
      if IsOn(s, a, path) {
        StepExact(s.timeout, BufferAt(s, path), a.op);
        FirstFindsZeros(s.timeout, BufferAt(s, path), a.op, BufferAt(t, path), OpsOn(check, t, acts[1..], path));
      } else {
        assert [] + OpsOn(check, t, acts[1..], path) == OpsOn(check, t, acts[1..], path);
      }
    }
  }

  lemma NothingIsPlain(check: ReleaseCheck, s: Sys, path: string)
    requires StaysOpen(check, s, [], path)
    ensures PlainThroughout(check, s, [], path) && OpsOn(check, s, [], path) == []
    ensures FindsZerosThroughout(s.timeout, BufferAt(s, path), [])
  {
  }

  lemma FirstIsPlain(check: ReleaseCheck, s: Sys, acts: seq<Action>, path: string)
    requires acts != [] && Runs(check, s, acts) && StaysOpen(check, s, acts, path)
    ensures var t := Next(check, s, acts[0]);
            PlainThroughout(check, s, acts, path) <==>
              (IsOn(s, acts[0], path) ==>
                (Plain(BufferAt(t, path)), Answer(s, acts[0])) ==
                  PlainStep(s.timeout, Plain(BufferAt(s, path)), acts[0].op))
              && PlainThroughout(check, t, acts[1..], path)
  {
    hide Next, Step, IsOpen, Spared, Answer, PlainStep, Plain, BufferAt;
  }

  lemma FirstFindsZeros(timeout: int, s: Buffered, op: FileOp, t: Buffered, ops: seq<FileOp>)
    requires WellTyped(op) && InRange(op) && forall o | o in ops :: WellTyped(o) && InRange(o)
    requires t == Step(AsWritten, timeout, s, op).0
    ensures forall o | o in [op] + ops :: WellTyped(o) && InRange(o)
    ensures FindsZerosThroughout(timeout, s, [op] + ops) <==> FindsZeros(s, op) && FindsZerosThroughout(timeout, t, ops)
  {
    hide Step, FindsZeros;
    assert ([op] + ops)[1..] == ops;
  }

  // ----- from one handle to another -----

  lemma {:induction false} SharedAtTheEnd(check: ReleaseCheck, s: Sys, acts: seq<Action>)
    requires WellFormed(s) && Runs(check, s, acts) && SharedThroughout(check, s, acts)
    ensures WellFormed(Exec(check, s, acts)) && P.Shared(Exec(check, s, acts).proto)
    ensures Exec(check, s, acts).zeroing == s.zeroing && Exec(check, s, acts).timeout == s.timeout
    decreases |acts|
  {
    if acts != [] {
      hide Next, WellFormed, P.Shared;
      StepWellFormed(check, s, acts[0]);
      SettingsStay(check, s, acts[0]);
      SharedAtTheEnd(check, Next(check, s, acts[0]), acts[1..]);
    }
  }

  /** A byte written through one handle is read through every other, opened before or since, after any
      number of saves, reloads, opens, closes and releases, until another operation spoils it. */
  lemma ReadSeesWrite(check: ReleaseCheck, s: Sys, acts: seq<Action>, path: string, read: Action, i: nat)
    requires WellFormed(s) && Runs(check, s, acts) && SharedThroughout(check, s, acts)
    requires StaysOpen(check, s, acts, path)
    requires acts != [] && IsOn(s, acts[0], path) && acts[0].op.WriteAt? && acts[0].op.now != CLEAN
    requires acts[0].op.woff <= i < acts[0].op.woff + |acts[0].op.data|
    requires var ops := OpsOn(check, s, acts, path);
             var written := PlainStep(s.timeout, Plain(BufferAt(s, path)), acts[0].op).0;
             Benign(s.zeroing, s.timeout, BufferAt(s, path), ops)
             && ops != [] && SparesThroughout(s.timeout, written, ops[1..], i)
    requires var t := Exec(check, s, acts);
             Enabled(t, read) && IsOn(t, read, path) && read.op.ReadAt? && read.op.off <= i < read.op.off + read.op.size
    ensures var r := Answer(Exec(check, s, acts), read);
            r.Data? && ByteAt(r.data, i - read.op.off, acts[0].op.data[i - acts[0].op.woff])
  {
    var v := acts[0].op.data[i - acts[0].op.woff];
    hide *;
    ByteIsThere(check, s, acts, path, i);
    SharedAtTheEnd(check, s, acts);
    ReadOfByte(Exec(check, s, acts), read, path, i, v);
  }

  lemma ByteIsThere(check: ReleaseCheck, s: Sys, acts: seq<Action>, path: string, i: nat)
    requires WellFormed(s) && Runs(check, s, acts) && SharedThroughout(check, s, acts)
    requires StaysOpen(check, s, acts, path)
    requires acts != [] && IsOn(s, acts[0], path) && acts[0].op.WriteAt? && acts[0].op.now != CLEAN
    requires acts[0].op.woff <= i < acts[0].op.woff + |acts[0].op.data|
    requires var ops := OpsOn(check, s, acts, path);
             var written := PlainStep(s.timeout, Plain(BufferAt(s, path)), acts[0].op).0;
             Benign(s.zeroing, s.timeout, BufferAt(s, path), ops)
             && ops != [] && SparesThroughout(s.timeout, written, ops[1..], i)
    ensures IsOpen(Exec(check, s, acts), path)
    ensures ByteAt(Plain(BufferAt(Exec(check, s, acts), path)).buf, i, acts[0].op.data[i - acts[0].op.woff])
  {
    var ops := OpsOn(check, s, acts, path);
    var t := Exec(check, s, acts);
    FirstOf(check, s, acts, path);
    assert ops[0] == acts[0].op;
    hide *;
    PathRuns(check, s, acts, path);
    BenignRuns(s.zeroing, s.timeout, BufferAt(s, path), ops);
    PlainRunHolds(s.timeout, Plain(BufferAt(s, path)), ops, i);
  }

  lemma PlainRunHolds(timeout: int, s: PlainState, ops: seq<FileOp>, i: nat)
    requires ops != [] && (forall op | op in ops :: InRange(op)) && ops[0].WriteAt? && ops[0].now != CLEAN
    requires ops[0].woff <= i < ops[0].woff + |ops[0].data|
    requires SparesThroughout(timeout, PlainStep(timeout, s, ops[0]).0, ops[1..], i)
    ensures ByteAt(PlainRun(timeout, s, ops).0.buf, i, ops[0].data[i - ops[0].woff])
  {
    var w := ops[0];
    assert InRange(w);
    hide ByteAt, Overlay;
    PlainRunAfter(timeout, s, ops);
    LastWriterWins(timeout, s, w.data, w.woff, w.now, ops[1..], i);
  }

  lemma ReadOfByte(s: Sys, read: Action, path: string, i: nat, v: byte)
    requires WellFormed(s) && P.Shared(s.proto) && Enabled(s, read) && IsOpen(s, path) && IsOn(s, read, path)
    requires read.op.ReadAt? && read.op.off <= i < read.op.off + read.op.size
    requires ByteAt(Plain(BufferAt(s, path)).buf, i, v)
    ensures Answer(s, read).Data? && ByteAt(Answer(s, read).data, i - read.op.off, v)
  {
    assert WellTyped(read.op) && InRange(read.op);
    hide *;
    OperatingOnPath(s, read.h, read.op, path);
    WindowHolds(s.zeroing, s.timeout, BufferAt(s, path), read.op, i, v);
  }

  lemma PlainRunAfter(timeout: int, s: PlainState, ops: seq<FileOp>)
    requires ops != [] && forall o | o in ops :: InRange(o)
    ensures PlainRun(timeout, s, ops).0 == PlainRun(timeout, PlainStep(timeout, s, ops[0]).0, ops[1..]).0
  {
  }

  lemma WindowHolds(z: Zeroing, timeout: int, s: Buffered, op: FileOp, i: nat, v: byte)
    requires op.ReadAt? && WellTyped(op) && InRange(op) && op.off <= i < op.off + op.size
    requires ByteAt(Plain(s).buf, i, v)
    ensures var r := Step(z, timeout, s, op).1; r.Data? && ByteAt(r.data, i - op.off, v)
  {
  }

  // ----- what keeps a path open -----

  predicate HeldBy(p: P.Proto, h: nat, path: string) {
    h in p.handles && p.handles[h] in p.paths && p.paths[p.handles[h]] == path
  }

  /** Some handle is open on `path`. */
  ghost predicate Held(s: Sys, path: string) {
    exists h :: HeldBy(s.proto, h, path)
  }

  lemma HandleStays(check: ReleaseCheck, p: P.Proto, a: P.Action, h: nat, path: string)
    requires P.Counted(p) && P.Enabled(p, a) && !a.Drop? && HeldBy(p, h, path)
    ensures HeldBy(P.Next(check, p, a), h, path)
  {
  }

  lemma HeldIsOpen(s: Sys, path: string)
    requires WellFormed(s) && P.Shared(s.proto) && Held(s, path)
    ensures IsOpen(s, path)
  {
    hide P.HandlesOf;
    var h :| HeldBy(s.proto, h, path);
    assert P.Mapped(s.proto, s.proto.handles[h]);
  }

  /** Only a close takes a handle away; and while sharing lasts, a handle keeps its path open. */
  lemma HeldStaysOpen(check: ReleaseCheck, s: Sys, a: Action, path: string)
    requires WellFormed(s) && P.Shared(s.proto) && Enabled(s, a) && Held(s, path)
    ensures IsOpen(s, path)
    ensures !a.Close? ==> Held(Next(check, s, a), path)
  {
    hide FirstOpen, Next, P.Counted, P.Shared, P.Next, P.Enabled, IsOpen;
    HeldIsOpen(s, path);
    var h :| HeldBy(s.proto, h, path);
    StepProjects(check, s, a);
    if !a.Close? {
      HandleStays(check, s.proto, Sharing(s, a), h, path);
      assert HeldBy(Next(check, s, a).proto, h, path);
    }
  }
}
