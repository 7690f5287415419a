/** What holds of the buffered file over every run of its operations, whichever handles issue them. */
module FileTheory {
  import opened Wrappers
  import opened Bytes
  import opened DirtyTime
  import opened GrowableSlice
  import opened ResizeTheory
  import opened FileSpec
  import opened PlainFile

  // ----- refinement -----

  /** The buffered file seen without its capacity. */
  function Plain(s: Buffered): PlainState {
    FileState(s.buf.Data(), s.stamp, s.perms, s.whole, s.dev)
  }

  /** The library's read-all leaves only zeros behind the data it returns. */
  predicate CleanSlack(op: FileOp) {
    op.Sync? ==> AllZero(Slack(op.load))
  }

  /** A truncation whose in-place loop does no harm whatever the file holds. */
  predicate SafeOp(s: Buffered, op: FileOp) {
    op.SetSize? && op.newLen >= 0 ==> SafeResize(s.buf.len, |s.buf.arr|, op.newLen)
  }

  predicate SafeRun(timeout: int, s: Buffered, ops: seq<FileOp>)
    requires forall op | op in ops :: WellTyped(op)
    decreases |ops|
  {
    ops != [] ==>
      SafeOp(s, ops[0]) && SafeRun(timeout, Step(AsWritten, timeout, s, ops[0]).0, ops[1..])
  }

  /** An operation panics exactly when its offset or size means nothing to a file API. */
  lemma PanicsExact(z: Zeroing, timeout: int, s: Buffered, op: FileOp)
    requires WellTyped(op)
    ensures Step(z, timeout, s, op).1.Panicked? <==> !InRange(op)
  {
    if op.WriteAt? {
      WritePanicsExact(|op.data|, op.woff);
    }
  }

  lemma LoadRefines(s: Buffered, io: LoadIo)
    requires s.buf.ZeroSlack() && AllZero(Slack(io))
    ensures Plain(Load(s, io).0) == PlainLoad(Plain(s), io).0
    ensures Load(s, io).1 == PlainLoad(Plain(s), io).1
    ensures Load(s, io).0.buf.ZeroSlack()
  {
    match Fetched(s.dev, io)
    case None =>
    case Some(bytes) =>
      assert (bytes + Slack(io))[|bytes|..] == Slack(io);
      assert (bytes + Slack(io))[..|bytes|] == bytes;
  }

  /** One step of the buffered file is one step of the plain file, and gives the same reply. */
  lemma StepRefines(z: Zeroing, timeout: int, s: Buffered, op: FileOp)
    requires WellTyped(op) && InRange(op) && CleanSlack(op) && s.buf.ZeroSlack()
    requires z.AsIntended? || SafeOp(s, op)
    ensures var (t, r) := Step(z, timeout, s, op);
            t.buf.ZeroSlack() && (Plain(t), r) == PlainStep(timeout, Plain(s), op)
  {
    match op
    case WriteAt(data, off, _) =>
      WritePanicsExact(|data|, off);
      WriteOverlays(z, s.buf, data, off);
    case SetSize(newLen, _) =>
      ResizeSound(z, s.buf, newLen);
    case Sync(_, load) =>
      if s.stamp == CLEAN {
        LoadRefines(s, load);
      }
    case _ =>
  }

  /** Every run of the buffered file, by any handles, is a run of the plain file with the same replies:
      always when a shrink clears the tail it drops, and as the code stands when every truncation of
      the run is safe. */
  lemma {:induction false} RunRefines(z: Zeroing, timeout: int, s: Buffered, ops: seq<FileOp>)
    requires forall op | op in ops :: WellTyped(op) && InRange(op) && CleanSlack(op)
    requires s.buf.ZeroSlack()
    requires z.AsIntended? || SafeRun(timeout, s, ops)
    ensures var (t, rs) := Run(z, timeout, s, ops);
            t.buf.ZeroSlack() && (Plain(t), rs) == PlainRun(timeout, Plain(s), ops)
    decreases |ops|
  {
    if ops != [] {
      StepRefines(z, timeout, s, ops[0]);
      RunRefines(z, timeout, Step(z, timeout, s, ops[0]).0, ops[1..]);
    }
  }

  /** What a step of the code as it stands must find in the backing array to do what the plain file
      does: zeros where its shrink loop will clear by mistake, and zeros in the slack that it will expose. */
  predicate FindsZeros(s: Buffered, op: FileOp)
    requires InRange(op)
  {
    var b := s.buf;
    match op
    case SetSize(n, _) =>
      if n < b.len && b.len >= |b.arr| / 3 then AllZero(b.arr[..Min(n, b.len - n)])
      else if b.len < n <= |b.arr| then AllZero(b.arr[b.len..n])
      else true
    case WriteAt(data, off, _) =>
      if b.len < off + |data| <= |b.arr| then AllZero(b.arr[b.len..Max(b.len, off)]) else true
    case _ => true
  }

  /** As the code stands, one operation is a step of the plain file exactly when it finds those zeros. */
  lemma StepExact(timeout: int, s: Buffered, op: FileOp)
    requires WellTyped(op) && InRange(op)
    ensures var (t, r) := Step(AsWritten, timeout, s, op);
            (Plain(t), r) == PlainStep(timeout, Plain(s), op) <==> FindsZeros(s, op)
  {
    match op
    case WriteAt(data, off, _) =>
      WritePanicsExact(|data|, off);
      WriteExact(s.buf, data, off);
    case SetSize(newLen, _) =>
      ResizeExact(s.buf, newLen);
    case Sync(_, load) =>
      if s.stamp == CLEAN && Fetched(s.dev, load).Some? {
        var bytes := Fetched(s.dev, load).value;
        assert (bytes + Slack(load))[..|bytes|] == bytes;
      }
    case _ =>
  }

  predicate Agrees(timeout: int, s: Buffered, ops: seq<FileOp>)
    requires forall op | op in ops :: WellTyped(op) && InRange(op)
    decreases |ops|
  {
    ops != [] ==>
      var (t, r) := Step(AsWritten, timeout, s, ops[0]);
      (Plain(t), r) == PlainStep(timeout, Plain(s), ops[0]) && Agrees(timeout, t, ops[1..])
  }

  predicate FindsZerosThroughout(timeout: int, s: Buffered, ops: seq<FileOp>)
    requires forall op | op in ops :: WellTyped(op) && InRange(op)
    decreases |ops|
  {
    ops != [] ==>
      FindsZeros(s, ops[0]) && FindsZerosThroughout(timeout, Step(AsWritten, timeout, s, ops[0]).0, ops[1..])
  }

  /** The code as it stands does what the plain file does at every step of a run exactly when every
      truncation and every write of the run finds zeros where it needs them. */
  lemma {:induction false} RunExact(timeout: int, s: Buffered, ops: seq<FileOp>)
    requires forall op | op in ops :: WellTyped(op) && InRange(op)
    ensures Agrees(timeout, s, ops) <==> FindsZerosThroughout(timeout, s, ops)
    decreases |ops|
  {
    if ops != [] {
      StepExact(timeout, s, ops[0]);
      RunExact(timeout, Step(AsWritten, timeout, s, ops[0]).0, ops[1..]);
    }
  }

  lemma {:induction false} AgreesThenRuns(timeout: int, s: Buffered, ops: seq<FileOp>)
    requires forall op | op in ops :: WellTyped(op) && InRange(op)
    requires Agrees(timeout, s, ops)
    ensures var (t, rs) := Run(AsWritten, timeout, s, ops); (Plain(t), rs) == PlainRun(timeout, Plain(s), ops)
    decreases |ops|
  {
    if ops != [] {
      AgreesThenRuns(timeout, Step(AsWritten, timeout, s, ops[0]).0, ops[1..]);
    }
  }

  /** What a run needs to be one of the plain file: with the shrink loop as intended, only that the library
      leaves clean slack; as it stands, the zeros it relies on. */
  predicate Benign(z: Zeroing, timeout: int, s: Buffered, ops: seq<FileOp>)
    requires forall op | op in ops :: WellTyped(op) && InRange(op)
  {
    match z
    case AsIntended => AllZero(s.buf.arr[s.buf.len..]) && forall op | op in ops :: CleanSlack(op)
    case AsWritten => FindsZerosThroughout(timeout, s, ops)
  }

  lemma BenignRuns(z: Zeroing, timeout: int, s: Buffered, ops: seq<FileOp>)
    requires forall op | op in ops :: WellTyped(op) && InRange(op)
    requires Benign(z, timeout, s, ops)
    ensures var (t, rs) := Run(z, timeout, s, ops); (Plain(t), rs) == PlainRun(timeout, Plain(s), ops)
  {
    match z
    case AsIntended => RunRefines(z, timeout, s, ops);
    case AsWritten =>
      RunExact(timeout, s, ops);
      AgreesThenRuns(timeout, s, ops);
  }

  predicate ByteAt(bytes: seq<byte>, i: nat, v: byte) {
    i < |bytes| && bytes[i] == v
  }

  /** A run that loses a byte: of 342 bytes written into an empty buffer, one is cut off; the plain file
      keeps the first byte, the code as it stands clears it. */
  lemma TruncateLosesData(timeout: int, s: Buffered, now: int)
    requires s.buf == EMPTY
    ensures var ops := [FileOp.WriteAt(Ones(342, 342).Data(), 0, now), SetSize(341, now)];
            ByteAt(PlainRun(timeout, Plain(s), ops).0.buf, 0, 1)
            && ByteAt(Run(AsWritten, timeout, s, ops).0.buf.Data(), 0, 0)
  {
    var data := Ones(342, 342).Data();
    var ops := [FileOp.WriteAt(data, 0, now), SetSize(341, now)];
    assert ops[1..] == [ops[1]] && ops[1..][1..] == [];
    var t := Step(AsWritten, timeout, s, ops[0]).0;
    assert Resized(AsWritten, EMPTY, 342) == Reallocated(EMPTY, 342);
    assert |t.buf.arr| == 1024 && t.buf.len == 342;
    assert Resized(AsWritten, t.buf, 341) == ShrunkInPlace(AsWritten, t.buf, 341);
    assert Run(AsWritten, timeout, t, [ops[1]]).0 == Step(AsWritten, timeout, t, ops[1]).0;
    assert Resized(AsWritten, t.buf, 341).arr[0] == 0;
    var u := PlainStep(timeout, Plain(s), ops[0]).0;
    assert ByteAt(u.buf, 0, 1);
    assert PlainRun(timeout, u, [ops[1]]).0 == PlainStep(timeout, u, ops[1]).0;
  }

  // ----- coherence with the device -----

  /** A clean buffer whose last load was complete holds the bytes of the device file. */
  ghost predicate Coherent(s: Buffered) {
    s.stamp == CLEAN && s.whole ==> s.dev.Some? && s.dev.value.bytes == s.buf.Data()
  }

  /** The clock never reads the zero time. */
  predicate ClockOk(op: FileOp) {
    match op
    case WriteAt(_, _, now) => now != CLEAN
    case SetSize(_, now) => now != CLEAN
    case _ => true
  }

  lemma StepCoherent(z: Zeroing, timeout: int, s: Buffered, op: FileOp)
    requires WellTyped(op) && ClockOk(op) && Coherent(s)
    ensures Coherent(Step(z, timeout, s, op).0)
  {
    if op.Sync? && s.stamp == CLEAN && Fetched(s.dev, op.load).Some? {
      var bytes := Fetched(s.dev, op.load).value;
      assert (bytes + Slack(op.load))[..|bytes|] == bytes;
    }
  }

  /** With no outside writer, coherence survives every run: any mix of writes, truncations, saves and
      loads, each of which may fail in any way, with the shrink loop as written or as intended. */
  lemma {:induction false} RunCoherent(z: Zeroing, timeout: int, s: Buffered, ops: seq<FileOp>)
    requires forall op | op in ops :: WellTyped(op) && ClockOk(op)
    requires Coherent(s)
    ensures Coherent(Run(z, timeout, s, ops).0)
    decreases |ops|
  {
    if ops != [] {
      StepCoherent(z, timeout, s, ops[0]);
      RunCoherent(z, timeout, Step(z, timeout, s, ops[0]).0, ops[1..]);
    }
  }

  /** A successful `Sync` always leaves buffer and device equal; a successful `Flush` does so when the
      buffer was dirty or its last load complete. Either way the buffer bytes are untouched by a save. */
  lemma SavedMeansEqual(z: Zeroing, timeout: int, s: Buffered, op: FileOp)
    requires Coherent(s) && (op.Sync? || op.Flush?)
    requires Step(z, timeout, s, op).1 == Done
    requires op.Sync? || s.stamp != CLEAN || s.whole
    ensures var t := Step(z, timeout, s, op).0;
            t.stamp == CLEAN && t.dev.Some? && t.dev.value.bytes == t.buf.Data()
            && (s.stamp != CLEAN ==> t.buf == s.buf)
  {
    StepCoherent(z, timeout, s, op);
  }

  /** A buffer filled by the load that opens an existing file equals it exactly when the load was
      complete, or failed without missing a byte. The error of that load is dropped by the caller, so
      the buffer counts as clean either way. */
  lemma InitialLoadExact(s: Buffered, io: LoadIo)
    requires s.buf == EMPTY && s.dev.Some?
    ensures Load(s, io).0.stamp == s.stamp
    ensures Load(s, io).0.buf.Data() == s.dev.value.bytes <==>
              match io
              case Loads(_) => true
              case OpenReadFails => s.dev.value.bytes == []
              case ReadFails(n, _) => n >= |s.dev.value.bytes|
  {
    var bytes := s.dev.value.bytes;
    if io.Loads? || io.ReadFails? {
      var got := Fetched(s.dev, io).value;
      assert Load(s, io).0.buf.Data() == got;
      if io.ReadFails? && io.n < |bytes| {
        assert |got| < |bytes|;
      }
    }
  }

  /** When a save is made, and what one that fails may leave behind: anything on the device, and the buffer as
      it was. An overdue check saves exactly when the buffer has been dirty for longer than the timeout. */
  lemma SaveHappensExactly(z: Zeroing, timeout: int, s: Buffered, left: Option<DevFile>, now: int, save: SaveIo, load: LoadIo)
    ensures s.stamp == CLEAN ==> Step(z, timeout, s, Flush(save)) == (s, Done)
    ensures s.stamp != CLEAN ==>
              Step(z, timeout, s, Flush(OpenWriteFails)) == (s, Failed)
              && Step(z, timeout, s, Flush(WriteFails(left))) == (s.(dev := left), Failed)
              && Step(z, timeout, s, Flush(CloseFails(left))) == (s.(dev := left), Failed)
              && Step(z, timeout, s, Sync(save, load)) == Step(z, timeout, s, Flush(save))
    ensures Step(z, timeout, s, SyncIfTooDirty(now, save)) ==
              if s.stamp != CLEAN && now > s.stamp + timeout then Step(z, timeout, s, Flush(save)) else (s, Done)
  {
  }

  /** A step asks the device for a writer exactly when it makes a difference what a failing write leaves. */
  lemma WriterIsAskedForExactly(z: Zeroing, timeout: int, s: Buffered, left: Option<DevFile>, now: int, load: LoadIo)
    requires left != s.dev
    ensures forall op | op in [Sync(WriteFails(left), load), Flush(WriteFails(left)), SyncIfTooDirty(now, WriteFails(left))] ::
              IssuesWrite(timeout, s, op) <==> Step(z, timeout, s, op).0.dev == left
    ensures forall op: FileOp | WellTyped(op) && (op.ReadAt? || op.WriteAt? || op.SetSize?) ::
              !IssuesWrite(timeout, s, op) && Step(z, timeout, s, op).0.dev == s.dev
  {
  }

  /** What a sync of a clean buffer loads: as much of the file as the read delivers, and the library's slack. */
  lemma LoadHappensExactly(z: Zeroing, timeout: int, s: Buffered, save: SaveIo, load: LoadIo)
    requires s.stamp == CLEAN
    ensures var (t, r) := Step(z, timeout, s, Sync(save, load));
            var bytes := if s.dev.Some? then s.dev.value.bytes else [];
            && t == s.(buf := t.buf, whole := t.whole)
            && (r == if load.Loads? && s.dev.Some? then Done else Failed)
            && (load.OpenReadFails? ==> t == s)
            && (!load.OpenReadFails? ==>
                  t.buf == Backing(bytes[..Delivered(|bytes|, load)] + load.slack, Delivered(|bytes|, load))
                  && (t.whole <==> r == Done))
  {
    if load.Loads? && s.dev.Some? {
      assert s.dev.value.bytes[..|s.dev.value.bytes|] == s.dev.value.bytes;
    }
  }

  /** Operations that read, or try to save and fail. */
  predicate FailedSave(op: FileOp) {
    op.ReadAt? || ((op.Sync? || op.Flush? || op.SyncIfTooDirty?) && !op.save.Saves?)
  }

  /** However many saves of a dirty buffer fail, and however they leave the device, the buffer and its
      dirty mark stay as they were, and the next save that succeeds puts the same bytes there. */
  lemma {:induction false} FailedSavesAreRetried(z: Zeroing, timeout: int, s: Buffered, ops: seq<FileOp>)
    requires s.stamp != CLEAN && forall op | op in ops :: WellTyped(op) && FailedSave(op)
    ensures var t := Run(z, timeout, s, ops).0;
            t == s.(dev := t.dev)
            && Step(z, timeout, t, Flush(Saves)) ==
                 (s.(stamp := CLEAN, whole := true, dev := Some(DevFile(s.buf.Data(), s.perms))), Done)
    decreases |ops|
  {
    if ops != [] {
      FailedSavesAreRetried(z, timeout, Step(z, timeout, s, ops[0]).0, ops[1..]);
    }
  }

  // ----- reading back what was written -----

  /** On a file whose buffer is in state `s`, `op` neither overwrites byte `i`, nor cuts it off, nor
      reloads so little that the byte is lost. */
  predicate Spares(s: PlainState, op: FileOp, i: nat) {
    match op
    case WriteAt(data, off, now) => now != CLEAN && !(off <= i < off + |data|)
    case SetSize(newLen, now) => now != CLEAN && newLen > i
    case Sync(_, load) => s.stamp == CLEAN && load.ReadFails? ==> load.n > i
    case _ => true
  }

  /** Reads, saves and checks spare every byte, and so do a sync of a dirty buffer, a load that is complete or
      does not start, growth, and a write beside the byte. */
  lemma WhatSpares(s: PlainState, op: FileOp, i: nat)
    ensures op.ReadAt? || op.Flush? || op.SyncIfTooDirty? ==> Spares(s, op, i)
    ensures op.Sync? && (s.stamp != CLEAN || op.load.Loads? || op.load.OpenReadFails? || i < op.load.n) ==> Spares(s, op, i)
    ensures op.SetSize? && op.now != CLEAN && i < op.newLen ==> Spares(s, op, i)
    ensures op.WriteAt? && op.now != CLEAN && (i < op.woff || op.woff + |op.data| <= i) ==> Spares(s, op, i)
  {
  }

  predicate SparesThroughout(timeout: int, s: PlainState, ops: seq<FileOp>, i: nat)
    requires forall op | op in ops :: InRange(op)
    decreases |ops|
  {
    ops != [] ==>
      Spares(s, ops[0], i) && SparesThroughout(timeout, PlainStep(timeout, s, ops[0]).0, ops[1..], i)
  }

  /** Byte `i` is `v` in the buffer, or is not, and the same on the device if the buffer may be reloaded. */
  ghost predicate Settled(s: PlainState, i: nat, v: byte, held: bool) {
    && (ByteAt(s.buf, i, v) <==> held)
    && (s.stamp == CLEAN ==> s.dev.Some? && (ByteAt(s.dev.value.bytes, i, v) <==> held))
  }

  /** A settled byte stays so: one that is there is not lost, and a nonzero one that is not there does not
      come back. */
  lemma {:induction false} ByteStays(timeout: int, s: PlainState, ops: seq<FileOp>, i: nat, v: byte, held: bool)
    requires forall op | op in ops :: InRange(op)
    requires SparesThroughout(timeout, s, ops, i) && Settled(s, i, v, held) && (held || v != 0)
    ensures Settled(PlainRun(timeout, s, ops).0, i, v, held)
    decreases |ops|
  {
    if ops != [] {
      ByteStaysAtStep(timeout, s, ops[0], i, v, held);
      hide Settled, PlainStep, Spares;
      ByteStays(timeout, PlainStep(timeout, s, ops[0]).0, ops[1..], i, v, held);
    }
  }

  lemma ByteStaysAtStep(timeout: int, s: PlainState, op: FileOp, i: nat, v: byte, held: bool)
    requires InRange(op) && Spares(s, op, i) && Settled(s, i, v, held) && (held || v != 0)
    ensures Settled(PlainStep(timeout, s, op).0, i, v, held)
  {
  }

  /** The last writer wins: after a write of `data`, every byte of it is what the file holds through
      any later run that spares that byte, saves and reloads included. */
  lemma LastWriterWins(timeout: int, s: PlainState, data: seq<byte>, off: nat, now: int,
                       later: seq<FileOp>, i: nat)
    requires now != CLEAN && off + |data| < TWO_63 && off <= i < off + |data|
    requires forall op | op in later :: InRange(op)
    requires SparesThroughout(timeout, PlainStep(timeout, s, FileOp.WriteAt(data, off, now)).0, later, i)
    ensures ByteAt(PlainRun(timeout, PlainStep(timeout, s, FileOp.WriteAt(data, off, now)).0, later).0.buf, i, data[i - off])
  {
    var t := PlainStep(timeout, s, FileOp.WriteAt(data, off, now)).0;
    ByteStays(timeout, t, later, i, data[i - off], true);
  }

  /** How many bytes a load brings of a file that has `size`. */
  function Delivered(size: nat, io: LoadIo): nat {
    match io
    case Loads(_) => size
    case OpenReadFails => 0
    case ReadFails(n, _) => Min(n, size)
  }

  /** The price of the dropped error: a file is opened with any load, then changed in any run that spares a
      nonzero byte of it, and saved. The byte is still on the device exactly when that first load delivered
      it, and the buffer counts as clean and whole. */
  lemma UndeliveredBytesAreLostExactly(timeout: int, s: Buffered, load: LoadIo, ops: seq<FileOp>, i: nat)
    requires s.buf == EMPTY && s.stamp == CLEAN && s.dev.Some? && i < |s.dev.value.bytes| && s.dev.value.bytes[i] != 0
    requires ops != [] && (ops[0].WriteAt? || ops[0].SetSize?) && forall op | op in ops :: InRange(op)
    requires SparesThroughout(timeout, Plain(Load(s, load).0), ops, i)
    ensures var t := PlainStep(timeout, PlainRun(timeout, Plain(Load(s, load).0), ops).0, Flush(Saves)).0;
            t.stamp == CLEAN && t.dev.Some?
            && (ByteAt(t.dev.value.bytes, i, s.dev.value.bytes[i]) <==> i < Delivered(|s.dev.value.bytes|, load))
  {
    var v, held := s.dev.value.bytes[i], i < Delivered(|s.dev.value.bytes|, load);
    var loaded := Plain(Load(s, load).0);
    LoadDelivers(s, load);
    assert ByteAt(loaded.buf, i, v) <==> held;
    var u := PlainStep(timeout, loaded, ops[0]).0;
    assert Settled(u, i, v, held);
    ByteStays(timeout, u, ops[1..], i, v, held);
  }

  lemma LoadDelivers(s: Buffered, load: LoadIo)
    requires s.buf == EMPTY && s.dev.Some?
    ensures Plain(Load(s, load).0).buf == s.dev.value.bytes[..Delivered(|s.dev.value.bytes|, load)]
  {
    if !load.OpenReadFails? {
      var got := Fetched(s.dev, load).value;
      assert (got + Slack(load))[..|got|] == got;
    }
  }

  // ----- how long a buffer stays dirty -----

  /** The `k`-th state of a run. */
  function Kth(z: Zeroing, timeout: int, s: Buffered, ops: seq<FileOp>, k: nat): Buffered
    requires k <= |ops| && forall op | op in ops :: WellTyped(op)
  {
    Run(z, timeout, s, ops[..k]).0
  }

  lemma {:induction false} RunExtends(z: Zeroing, timeout: int, s: Buffered, ops: seq<FileOp>, op: FileOp)
    requires WellTyped(op) && forall o | o in ops :: WellTyped(o)
    ensures Run(z, timeout, s, ops + [op]).0 == Step(z, timeout, Run(z, timeout, s, ops).0, op).0
    decreases |ops|
  {
    if ops == [] {
      assert ops + [op] == [op];
    } else {
      assert (ops + [op])[1..] == ops[1..] + [op];
      RunExtends(z, timeout, Step(z, timeout, s, ops[0]).0, ops[1..], op);
    }
  }

  /** `j` is the write that made the buffer dirty, and it has been dirty ever since, up to `k`. */
  ghost predicate DirtySince(z: Zeroing, timeout: int, s: Buffered, ops: seq<FileOp>, j: nat, k: nat)
    requires j < k <= |ops| && forall op | op in ops :: WellTyped(op)
  {
    Kth(z, timeout, s, ops, j).stamp == CLEAN
    && (ops[j].WriteAt? || ops[j].SetSize?)
    && forall m | j < m <= k :: Kth(z, timeout, s, ops, m).stamp == ops[j].now != CLEAN
  }

  /** The buffer has been dirty all along, with the stamp it started with. */
  ghost predicate DirtyFromStart(z: Zeroing, timeout: int, s: Buffered, ops: seq<FileOp>, k: nat)
    requires k <= |ops| && forall op | op in ops :: WellTyped(op)
  {
    s.stamp != CLEAN && forall m | 0 <= m <= k :: Kth(z, timeout, s, ops, m).stamp == s.stamp
  }

  /** The stamp of a dirty buffer is the clock reading of the first write since it was last clean; or, if
      it never was, the stamp that the run began with. */
  lemma {:induction false} StampIsFirstWrite(z: Zeroing, timeout: int, s: Buffered, ops: seq<FileOp>, k: nat)
    requires k <= |ops| && forall op | op in ops :: WellTyped(op)
    requires Kth(z, timeout, s, ops, k).stamp != CLEAN
    ensures DirtyFromStart(z, timeout, s, ops, k)
            || exists j: nat | j < k :: DirtySince(z, timeout, s, ops, j, k)
    decreases k
  {
    if k == 0 {
      assert Kth(z, timeout, s, ops, 0) == s;
    } else {
      assert ops[..k] == ops[..k - 1] + [ops[k - 1]];
      RunExtends(z, timeout, s, ops[..k - 1], ops[k - 1]);
      var before := Kth(z, timeout, s, ops, k - 1);
      if before.stamp == CLEAN {
        assert DirtySince(z, timeout, s, ops, k - 1, k);
      } else {
        var p := k - 1;
        StampIsFirstWrite(z, timeout, s, ops, p);
        assert Kth(z, timeout, s, ops, k).stamp == before.stamp;
        if j: nat :| j < p && DirtySince(z, timeout, s, ops, j, p) {
          assert DirtySince(z, timeout, s, ops, j, k);
        }
      }
    }
  }

  /** After every overdue check that reports success, whatever state the run began in, the buffer is
      clean, or what made it dirty is no older than the timeout at that check: the first write since it
      was last clean, or the stamp it began with if it never was. */
  lemma BoundedDirtiness(z: Zeroing, timeout: int, s: Buffered, ops: seq<FileOp>, k: nat)
    requires k < |ops| && forall op | op in ops :: WellTyped(op)
    requires ops[k].SyncIfTooDirty?
    requires Step(z, timeout, Kth(z, timeout, s, ops, k), ops[k]).1 == Done
    ensures Kth(z, timeout, s, ops, k + 1).stamp == CLEAN
            || (DirtyFromStart(z, timeout, s, ops, k) && ops[k].now <= s.stamp + timeout)
            || exists j: nat | j < k :: DirtySince(z, timeout, s, ops, j, k) && ops[k].now <= ops[j].now + timeout
  {
    assert ops[..k + 1] == ops[..k] + [ops[k]];
    RunExtends(z, timeout, s, ops[..k], ops[k]);
    var before := Kth(z, timeout, s, ops, k);
    if Kth(z, timeout, s, ops, k + 1).stamp != CLEAN {
      StampIsFirstWrite(z, timeout, s, ops, k);
      if j: nat :| j < k && DirtySince(z, timeout, s, ops, j, k) {
        assert before.stamp == ops[j].now;
      }
    }
  }
}
