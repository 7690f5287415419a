/** One file and its in-memory buffer as a state machine over the operations that take the file lock.
    Every device call may fail; what a failed call leaves behind is an input of the step. */
module FileSpec {
  import opened Wrappers
  import opened Bytes
  import opened DirtyTime
  import opened GrowableSlice

  datatype DevFile = DevFile(bytes: seq<byte>, perms: nat)

  /** The buffer of one path and the file it mirrors. `whole` says that the buffer was filled by a
      complete load or emptied into a complete save since it last held anything else. */
  datatype FileState<B> = FileState(buf: B, stamp: int, perms: nat, whole: bool, dev: Option<DevFile>)

  /** How a save goes. A write or close that fails leaves the device file in any state. */
  datatype SaveIo =
    | Saves
    | OpenWriteFails
    | WriteFails(left: Option<DevFile>)
    | CloseFails(left: Option<DevFile>)

  /** How a load goes. A read that fails has delivered `n` bytes; `slack` is the spare capacity that
      the library's read-all leaves behind the data. */
  datatype LoadIo =
    | Loads(slack: seq<byte>)
    | OpenReadFails
    | ReadFails(n: nat, slack: seq<byte>)

  datatype FileOp =
    | ReadAt(off: int, size: nat)
    | WriteAt(data: seq<byte>, woff: int, now: int)
    | SetSize(newLen: int, now: int)
    | Sync(save: SaveIo, load: LoadIo)
    | Flush(save: SaveIo)
    | SyncIfTooDirty(now: int, save: SaveIo)

  datatype Reply = Data(data: seq<byte>, eof: bool) | Count(n: nat) | Done | Failed | Panicked

  function Save<B>(s: FileState<B>, data: seq<byte>, io: SaveIo): (FileState<B>, Reply) {
    match io
    case Saves => (s.(stamp := CLEAN, whole := true, dev := Some(DevFile(data, s.perms))), Done)
    case OpenWriteFails => (s, Failed)
    case WriteFails(left) => (s.(dev := left), Failed)
    case CloseFails(left) => (s.(dev := left), Failed)
  }

  /** The bytes a load installs in the buffer, if its stream opens at all. */
  function Fetched(dev: Option<DevFile>, io: LoadIo): Option<seq<byte>> {
    match io
    case OpenReadFails => None
    case Loads(_) => if dev.Some? then Some(dev.value.bytes) else Some([])
    case ReadFails(n, _) => if dev.Some? then Some(dev.value.bytes[..Min(n, |dev.value.bytes|)]) else Some([])
  }

  function Slack(io: LoadIo): seq<byte> {
    if io.OpenReadFails? then [] else io.slack
  }

  predicate LoadSucceeds(dev: Option<DevFile>, io: LoadIo) {
    io.Loads? && dev.Some?
  }

  type Buffered = s: FileState<Backing> | s.buf.Valid() witness FileState(EMPTY, CLEAN, 0, false, None)

  function Load(s: Buffered, io: LoadIo): (Buffered, Reply) {
    match Fetched(s.dev, io)
    case None => (s, Failed)
    case Some(bytes) =>
      var done := LoadSucceeds(s.dev, io);
      (s.(buf := Backing(bytes + Slack(io), |bytes|), whole := done), if done then Done else Failed)
  }

  /** What the Go types allow an operation to carry. */
  predicate WellTyped(op: FileOp) {
    match op
    case ReadAt(off, size) => Representable(size, off)
    case WriteAt(data, off, _) => Representable(|data|, off)
    case SetSize(size, _) => FitsInt64(size)
    case _ => true
  }

  /** True when the step asks the device for a writer. */
  predicate IssuesWrite<B>(timeout: int, s: FileState<B>, op: FileOp) {
    match op
    case Sync(_, _) => s.stamp != CLEAN
    case Flush(_) => s.stamp != CLEAN
    case SyncIfTooDirty(now, _) => Overdue(s.stamp, timeout, now)
    case _ => false
  }

  function Step(z: Zeroing, timeout: int, s: Buffered, op: FileOp): (Buffered, Reply)
    requires WellTyped(op)
  {
    match op
    case ReadAt(off, size) =>
      if off >= s.buf.len then (s, Data([], true))
      else if off < 0 then (s, Panicked)
      else
        var r := Window(s.buf.Data(), off, size);
        (s, Data(r, off + |r| == s.buf.len))
    case WriteAt(data, off, now) =>
      (s.(stamp := Stamped(s.stamp, now), buf := Written(z, s.buf, data, off)),
       if WritePanics(|data|, off) then Panicked else Count(|data|))
    case SetSize(size, now) =>
      if size < 0 then (s.(stamp := Stamped(s.stamp, now)), Panicked)
      else (s.(stamp := Stamped(s.stamp, now), buf := Resized(z, s.buf, size)), Done)
    case Sync(save, load) =>
      if IssuesWrite(timeout, s, op) then Save(s, s.buf.Data(), save) else Load(s, load)
    case Flush(save) =>
      if IssuesWrite(timeout, s, op) then Save(s, s.buf.Data(), save) else (s, Done)
    case SyncIfTooDirty(now, save) =>
      if IssuesWrite(timeout, s, op) then Save(s, s.buf.Data(), save) else (s, Done)
  }

  function Run(z: Zeroing, timeout: int, s: Buffered, ops: seq<FileOp>): (Buffered, seq<Reply>)
    requires forall op | op in ops :: WellTyped(op)
    decreases |ops|
  {
    if ops == [] then (s, [])
    else
      var first := Step(z, timeout, s, ops[0]);
      var rest := Run(z, timeout, first.0, ops[1..]);
      (rest.0, [first.1] + rest.1)
  }
}
