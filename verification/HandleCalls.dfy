/** What the calls on an open handle answer, and what an answer means for the buffer and the device. */
module HandleCalls {
  import opened Wrappers
  import opened Bytes
  import opened DirtyTime
  import opened GrowableSlice
  import opened ResizeTheory
  import opened FileSpec

  datatype Status = OK | EPERM | EIO | Crashed

  function StatusOf(r: Reply): Status {
    match r
    case Failed => EIO
    case Panicked => Crashed
    case _ => OK
  }

  /** Two locked operations of one call; the second does not happen if the first panics. */
  function Twice(timeout: int, s: Buffered, first: FileOp, second: FileOp): (Buffered, Reply)
    requires WellTyped(first) && WellTyped(second)
  {
    var (t, r) := Step(AsWritten, timeout, s, first);
    if r.Panicked? then (t, r) else Step(AsWritten, timeout, t, second)
  }

  /** A flush of a dirty buffer succeeds exactly when the save does, and then the device has its bytes; when it
      does not, the buffer stays dirty. A clean buffer is left alone. */
  lemma FlushAnswers(timeout: int, s: Buffered, save: SaveIo)
    ensures var (t, r) := Step(AsWritten, timeout, s, Flush(save));
            t.buf == s.buf
            && (s.stamp == CLEAN ==> StatusOf(r) == OK && t == s)
            && (s.stamp != CLEAN ==>
                  (StatusOf(r) == if save.Saves? then OK else EIO)
                  && t.stamp == (if save.Saves? then CLEAN else s.stamp)
                  && (save.Saves? ==> t.dev == Some(DevFile(s.buf.Data(), s.perms))))
  {
  }

  /** A sync does the same for a dirty buffer; a clean one is loaded, which succeeds exactly when the file
      exists and is read to its end, and then buffer and file are equal. */
  lemma FsyncAnswers(timeout: int, s: Buffered, save: SaveIo, load: LoadIo)
    ensures var (t, r) := Step(AsWritten, timeout, s, Sync(save, load));
            && (s.stamp != CLEAN ==> Step(AsWritten, timeout, s, Flush(save)) == (t, r))
            && (s.stamp == CLEAN ==>
                  (StatusOf(r) == if load.Loads? && s.dev.Some? then OK else EIO)
                  && t.stamp == CLEAN && t.dev == s.dev
                  && (load.Loads? && s.dev.Some? ==> t.buf.Data() == s.dev.value.bytes))
  {
    if s.stamp == CLEAN && load.Loads? && s.dev.Some? {
      var bytes := s.dev.value.bytes;
      assert (bytes + load.slack)[..|bytes|] == bytes;
    }
  }

  /** After a write at `now`, a check at `check` finds the buffer dirty for longer than the timeout. */
  predicate OverdueAfterWrite(timeout: int, stamp: int, now: int, check: int) {
    var dirtied := if stamp == CLEAN then now else stamp;
    dirtied != CLEAN && dirtied + timeout < check
  }

  /** A write crashes exactly when its range is no range of an int64 file. Else its bytes are in the buffer; it
      fails exactly when the buffer was overdue and its save fails; and after a success the buffer is clean and
      on the device, or has been dirty for no longer than the timeout. */
  lemma WriteAnswers(timeout: int, s: Buffered, data: seq<byte>, off: int, now: int, check: int, save: SaveIo)
    requires Representable(|data|, off)
    ensures var (t, r) := Twice(timeout, s, FileOp.WriteAt(data, off, now), SyncIfTooDirty(check, save));
            var status := StatusOf(r);
            && (status == Crashed <==> off < 0 || off + |data| >= TWO_63)
            && (status != Crashed ==> off + |data| <= t.buf.len || data == [])
            && (status != Crashed && data != [] ==> t.buf.Data()[off..off + |data|] == data)
            && (status == EIO <==> status != Crashed && OverdueAfterWrite(timeout, s.stamp, now, check) && !save.Saves?)
            && (status == OK ==> t.stamp == CLEAN || check <= t.stamp + timeout)
            && (status == OK && OverdueAfterWrite(timeout, s.stamp, now, check) ==>
                  t.stamp == CLEAN && t.dev == Some(DevFile(t.buf.Data(), s.perms)))
            && (!OverdueAfterWrite(timeout, s.stamp, now, check) ==> t.dev == s.dev)
  {
    WritePanicsExact(|data|, off);
    if !WritePanics(|data|, off) && data != [] {
      WriteHolds(s.buf, data, off);
    }
    hide Written;
  }

  lemma WriteHolds(b: Backing, data: seq<byte>, off: nat)
    requires b.Valid() && Representable(|data|, off) && off + |data| < TWO_63 && data != []
    ensures var w := Written(AsWritten, b, data, off); off + |data| <= w.len && w.Data()[off..off + |data|] == data
  {
    hide Resized;
    var end := off + |data|;
    var grown := if end > b.len then Resized(AsWritten, b, end) else b;
    var w := Written(AsWritten, b, data, off);
    assert w.arr == grown.arr[..off] + data + grown.arr[end..];
    assert w.arr[off..end] == data && w.Data()[off..end] == w.arr[off..end];
  }

  /** A truncation succeeds exactly when its size is one of an int64 file and its save succeeds; then the
      buffer has that size, and the device holds exactly it. A size beyond int64 crashes. */
  lemma TruncateAnswers(timeout: int, s: Buffered, size: nat, now: int, save: SaveIo, load: LoadIo)
    requires size < 2 * TWO_63 && now != CLEAN
    ensures var (t, r) := Twice(timeout, s, SetSize(Wrap64(size), now), Sync(save, load));
            var status := StatusOf(r);
            && (status == Crashed <==> size >= TWO_63)
            && (status == OK <==> size < TWO_63 && save.Saves?)
            && (status != Crashed ==> t.buf.len == size && (t.stamp == CLEAN <==> status == OK))
            && (status == OK ==> t.dev == Some(DevFile(t.buf.Data(), s.perms)))
  {
  }

  /** A read crashes exactly when it starts below zero, and else hands over the window of the file. */
  lemma ReadAnswers(timeout: int, s: Buffered, off: int, size: nat)
    requires Representable(size, off)
    ensures var (t, r) := Step(AsWritten, timeout, s, ReadAt(off, size));
            && t == s && (StatusOf(r) == if off < 0 then Crashed else OK)
            && (off >= 0 ==> r.Data? && r.data == Window(s.buf.Data(), off, size))
  {
  }
}
