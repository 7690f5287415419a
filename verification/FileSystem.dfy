/** All open files of a mount: the sharing protocol together with the buffers, the flags of the
    handles and the device. */
module FileSystem {
  import opened OpenFlags
  import opened DirtyTime
  import opened GrowableSlice
  import opened FileSpec
  import opened PlainFile
  import opened FileTheory
  import opened FileBuffers
  import opened Releasing
  import P = OpenProtocol

  datatype Sys = Sys(
    zeroing: Zeroing,           // the shrink loop as written, or as intended
    readOnly: bool,
    timeout: int,
    proto: P.Proto,
    files: map<nat, Buffered>,  // the contents of every buffer ever made
    flags: map<nat, Flags>,     // the flags of every unreleased handle
    owes: set<nat>,             // handles that created, truncated or wrote and have not flushed since
    device: Files,
    issued: nat)                // writers and modifying commands requested from the device

  datatype Action =
    | Open(path: string, flags: Flags, perms: nat, stat: StatReply, now: int, save: SaveIo, load: LoadIo)
    | Op(h: nat, op: FileOp)
    | Close(h: nat)
    | Release(b: nat)
    | Command(after: Files)     // mkdir, mv, rmdir or rm, which leaves the device as `after`

  function Init(z: Zeroing, readOnly: bool, timeout: int, device: Files): Sys {
    Sys(z, readOnly, timeout, P.INIT, map[], map[], {}, device, 0)
  }

  /** Every handle has flags and a buffer, every buffer a path. */
  ghost predicate Keyed(s: Sys) {
    && s.files.Keys == s.proto.paths.Keys
    && s.flags.Keys == s.proto.handles.Keys
    && s.owes <= s.flags.Keys
  }

  ghost predicate WellFormed(s: Sys) {
    P.Counted(s.proto) && Keyed(s)
  }

  /** The buffer together with the device file behind it. */
  function ViewOf(s: Sys, b: nat): Buffered
    requires b in s.files && b in s.proto.paths
  {
    var file: Buffered := s.files[b];
    file.(dev := Get(s.device, s.proto.paths[b]))
  }

  /** The flag check of the call that leads to a locked operation; `Sync` has none. */
  predicate Permitted(flags: Flags, op: FileOp) {
    match op
    case ReadAt(_, _) => CanRead(flags)
    case Sync(_, _) => true
    case _ => CanWrite(flags)
  }

  /** Whether a handle that owed a flush, or not, owes one after an operation that replied `r`. */
  predicate Owes(before: bool, op: FileOp, r: Reply) {
    if op.WriteAt? || op.SetSize? then true
    else if op.Flush? && r.Done? then false
    else before
  }

  function Mark(owes: set<nat>, h: nat, owing: bool): set<nat> {
    if owing then owes + {h} else owes - {h}
  }

  function FirstOpen(s: Sys, a: Action): (Buffered, OpenResult)
    requires a.Open?
  {
    Initialized(s.timeout, Blank(a.perms, Get(s.device, a.path)), a.flags, a.stat, a.now, a.save, a.load)
  }

  /** What an action means to the sharing protocol. */
  function Sharing(s: Sys, a: Action): P.Action {
    match a
    case Open(path, flags, _, _, _, _, _) =>
      if s.readOnly && IsWriteOp(flags) then P.Idle
      else if path in s.proto.open || FirstOpen(s, a).1 == Opened then P.Acquire(path)
      else P.Idle
    case Close(h) => P.Drop(h)
    case Release(b) => P.Finish(b)
    case _ => P.Idle
  }

  predicate Enabled(s: Sys, a: Action) {
    && P.Enabled(s.proto, Sharing(s, a))
    && (a.Op? ==> WellTyped(a.op) && InRange(a.op) && Holds(s, a.h))
  }

  /** The handle is open, on a buffer that exists. */
  predicate Holds(s: Sys, h: nat) {
    h in s.flags && h in s.proto.handles && s.proto.handles[h] in s.files && s.proto.handles[h] in s.proto.paths
  }

  function Opening(s: Sys, a: Action, proto: P.Proto): Sys
    requires a.Open?
  {
    var h := s.proto.nextHandle;
    var joined := s.(proto := proto, flags := s.flags[h := a.flags],
                     owes := Mark(s.owes, h, Contains(a.flags, O_CREATE | O_TRUNC)));
    if a.path in s.proto.open then joined
    else
      var t := FirstOpen(s, a).0;
      joined.(files := s.files[s.proto.nextBuf := t],
              device := Put(s.device, a.path, t.dev),
              issued := s.issued + if WantsNewFile(a.flags, a.stat) && a.now != CLEAN then 1 else 0)
  }

  function Operating(s: Sys, h: nat, op: FileOp): Sys
    requires WellTyped(op) && Holds(s, h)
  {
    var b := s.proto.handles[h];
    if !Permitted(s.flags[h], op) then
      // Refused, except that a flush by a handle that cannot write succeeds and does nothing.
      s.(owes := if op.Flush? then s.owes - {h} else s.owes)
    else
      var (t, r) := Step(s.zeroing, s.timeout, ViewOf(s, b), op);
      s.(files := s.files[b := t],
         owes := Mark(s.owes, h, Owes(h in s.owes, op, r)),
         device := Put(s.device, s.proto.paths[b], t.dev),
         issued := s.issued + if IssuesWrite(s.timeout, ViewOf(s, b), op) then 1 else 0)
  }

  function Next(check: ReleaseCheck, s: Sys, a: Action): Sys
    requires Enabled(s, a)
  {
    var proto := P.Next(check, s.proto, Sharing(s, a));
    match a
    case Open(_, _, _, _, _, _, _) => if Sharing(s, a).Idle? then s else Opening(s, a, proto)
    case Op(h, op) => Operating(s, h, op)
    case Close(h) => s.(proto := proto, flags := s.flags - {h}, owes := s.owes - {h})
    case Release(_) => s.(proto := proto)
    case Command(after) => if s.readOnly then s else s.(device := after, issued := s.issued + 1)
  }

  /** An action of the file system is an action of the sharing protocol. */
  lemma StepProjects(check: ReleaseCheck, s: Sys, a: Action)
    requires Enabled(s, a)
    ensures Next(check, s, a).proto == P.Next(check, s.proto, Sharing(s, a))
  {
    hide FirstOpen, Step;
  }

  lemma OpeningKeyed(s: Sys, a: Action)
    requires Keyed(s) && a.Open? && P.Enabled(s.proto, P.Acquire(a.path))
    ensures Keyed(Opening(s, a, P.Acquired(s.proto, a.path)))
  {
    hide FirstOpen;
  }

  lemma OperatingKeyed(s: Sys, h: nat, op: FileOp)
    requires Keyed(s) && WellTyped(op) && Holds(s, h)
    ensures Keyed(Operating(s, h, op))
  {
    hide Step;
  }

  lemma StepKeyed(check: ReleaseCheck, s: Sys, a: Action)
    requires Keyed(s) && Enabled(s, a)
    ensures Keyed(Next(check, s, a))
  {
    hide Opening, Operating, WellTyped, InRange;
    match a
    case Open(path, _, _, _, _, _, _) => if Sharing(s, a).Acquire? { OpeningKeyed(s, a); }
    case Op(h, op) => OperatingKeyed(s, h, op);
    case _ =>
  }

  lemma StepWellFormed(check: ReleaseCheck, s: Sys, a: Action)
    requires WellFormed(s) && Enabled(s, a)
    ensures WellFormed(Next(check, s, a))
  {
    hide P.Counted, Keyed, Next;
    StepKeyed(check, s, a);
    StepProjects(check, s, a);
    P.StepCounted(check, s.proto, Sharing(s, a));
  }

  predicate Runs(check: ReleaseCheck, s: Sys, acts: seq<Action>)
    decreases |acts|
  {
    acts != [] ==> Enabled(s, acts[0]) && Runs(check, Next(check, s, acts[0]), acts[1..])
  }

  function Exec(check: ReleaseCheck, s: Sys, acts: seq<Action>): Sys
    requires Runs(check, s, acts)
    decreases |acts|
  {
    if acts == [] then s else Exec(check, Next(check, s, acts[0]), acts[1..])
  }

  /** In a well-formed state the guards ask for no more than the code does, except that operations on which
      the code panics end the run. */
  lemma OnlyRealGuards(s: Sys, a: Action)
    requires WellFormed(s)
    ensures Enabled(s, a) <==>
              match a
              case Op(h, op) =>
                h in s.flags && WellTyped(op) && h in s.proto.handles
                && Step(s.zeroing, s.timeout, ViewOf(s, s.proto.handles[h]), op).1 != Panicked
              case Close(h) => h in s.flags
              case Release(b) => b in s.proto.pending
              case _ => true
  {
    hide FirstOpen, Step, InRange, P.HandlesOf;
    if a.Op? && Holds(s, a.h) && WellTyped(a.op) {
      PanicsExact(s.zeroing, s.timeout, ViewOf(s, s.proto.handles[a.h]), a.op);
    }
  }
}
