/** The reference: a file that is nothing but a byte sequence, written back when dirty. */
module PlainFile {
  import opened Wrappers
  import opened Bytes
  import opened DirtyTime
  import opened FileSpec

  type PlainState = FileState<seq<byte>>

  /** The offsets and sizes that a signed 64-bit file API can mean. */
  predicate InRange(op: FileOp) {
    match op
    case ReadAt(off, size) => 0 <= off < TWO_63 && size < TWO_63
    case WriteAt(data, off, _) => 0 <= off && off + |data| < TWO_63
    case SetSize(newLen, _) => 0 <= newLen < TWO_63
    case _ => true
  }

  function PlainStep(timeout: int, s: PlainState, op: FileOp): (PlainState, Reply)
    requires InRange(op)
  {
    match op
    case ReadAt(off, size) => (s, Data(Window(s.buf, off, size), off + size >= |s.buf|))
    case WriteAt(data, off, now) =>
      (s.(buf := Overlay(s.buf, data, off), stamp := Stamped(s.stamp, now)), Count(|data|))
    case SetSize(newLen, now) =>
      (s.(buf := Fit(s.buf, newLen), stamp := Stamped(s.stamp, now)), Done)
    case Sync(save, load) =>
      if s.stamp != CLEAN then Save(s, s.buf, save) else PlainLoad(s, load)
    case Flush(save) =>
      if s.stamp != CLEAN then Save(s, s.buf, save) else (s, Done)
    case SyncIfTooDirty(now, save) =>
      if Overdue(s.stamp, timeout, now) then Save(s, s.buf, save) else (s, Done)
  }

  function PlainLoad(s: PlainState, io: LoadIo): (PlainState, Reply) {
    var ok := LoadSucceeds(s.dev, io);
    match Fetched(s.dev, io)
    case None => (s, Failed)
    case Some(bytes) => (s.(buf := bytes, whole := ok), if ok then Done else Failed)
  }

  function PlainRun(timeout: int, s: PlainState, ops: seq<FileOp>): (PlainState, seq<Reply>)
    requires forall op | op in ops :: InRange(op)
    decreases |ops|
  {
    if ops == [] then (s, [])
    else
      var first := PlainStep(timeout, s, ops[0]);
      var rest := PlainRun(timeout, first.0, ops[1..]);
      (rest.0, [first.1] + rest.1)
  }
}
