/** The shared buffer of one path, and the device behind it. */
module FileBuffers {
  import opened Wrappers
  import opened Bytes
  import opened OpenFlags
  import opened DirtyTime
  import opened GrowableSlice
  import opened FileSpec

  const DONT_SET_PERMS: nat := 0
  const DEFAULT_PERMS: nat := 436  // rw-rw-r--

  type Files = map<string, DevFile>

  function Get(files: Files, path: string): Option<DevFile> {
    if path in files then Some(files[path]) else None
  }

  function Put(files: Files, path: string, f: Option<DevFile>): (r: Files)
    ensures Get(r, path) == f
    ensures forall p | p != path :: Get(r, p) == Get(files, p)
    ensures f == Get(files, path) ==> r == files
  {
    match f
    case Some(file) => files[path := file]
    case None => files - {path}
  }

  /** The device: a map from paths to files, with calls that fail as their argument says. */
  class Device {
    var files: Files

    constructor (files: Files)
      ensures this.files == files
    {
      this.files := files;
    }

    method OpenRead(path: string, io: LoadIo) returns (ok: bool)
      ensures ok == !io.OpenReadFails?
    {
      ok := !io.OpenReadFails?;
    }

    /** Reads an open stream to its end or to the point where it fails. */
    method ReadAll(path: string, io: LoadIo) returns (bytes: seq<byte>, ok: bool)
      requires !io.OpenReadFails?
      ensures Some(bytes) == Fetched(Get(files, path), io) && ok == LoadSucceeds(Get(files, path), io)
    {
      if path !in files {
        return [], false;
      }
      bytes := files[path].bytes;
      assert bytes[..|bytes|] == bytes;
      if io.ReadFails? && io.n < |bytes| {
        bytes := bytes[..io.n];
      }
      ok := io.Loads?;
    }

    method OpenWrite(path: string, io: SaveIo) returns (ok: bool)
      ensures ok == !io.OpenWriteFails?
    {
      ok := !io.OpenWriteFails?;
    }

    method Write(path: string, io: SaveIo) returns (ok: bool)
      modifies this
      ensures ok == !io.WriteFails?
      ensures files == if ok then old(files) else Put(old(files), path, io.left)
    {
      ok := !io.WriteFails?;
      if io.WriteFails? {
        files := Put(files, path, io.left);
      }
    }

    /** The file changes on close. */
    method CloseWriter(path: string, file: DevFile, io: SaveIo) returns (ok: bool)
      modifies this
      ensures ok == !io.CloseFails?
      ensures files == Put(old(files), path, if ok then Some(file) else io.left)
    {
      ok := !io.CloseFails?;
      files := Put(files, path, if io.CloseFails? then io.left else Some(file));
    }
  }

  datatype StatReply = Stats(perms: nat) | NoSuchFile | StatFails

  datatype OpenResult = Opened | NotPermitted | NotFound | StatFailed

  /** The buffer of a path that has just been constructed. */
  function Blank(perms: nat, dev: Option<DevFile>): Buffered {
    FileState(EMPTY, CLEAN, perms, false, dev)
  }

  predicate WantsNewFile(flags: Flags, stat: StatReply) {
    stat.NoSuchFile? || Contains(flags, O_TRUNC)
  }

  /** The first open of a path: what it refuses, and the load or save it starts with. */
  function Initialized(timeout: int, s: Buffered, flags: Flags, stat: StatReply,
                       now: int, save: SaveIo, load: LoadIo): (Buffered, OpenResult) {
    if Contains(flags, O_CREATE | O_TRUNC | O_APPEND) && !CanWrite(flags) then (s, NotPermitted)
    else if stat.StatFails? then (s, StatFailed)
    else if stat.NoSuchFile? && !Contains(flags, O_CREATE) then (s, NotFound)
    else
      var current := if stat.NoSuchFile? then DEFAULT_PERMS else stat.perms;
      var ready := s.(perms := if s.perms == DONT_SET_PERMS then current else s.perms,
                      stamp := if WantsNewFile(flags, stat) then Stamped(s.stamp, now) else s.stamp);
      (Step(AsWritten, timeout, ready, Sync(save, load)).0, Opened)
  }

  class FileBuffer {
    const path: string
    const device: Device
    const timeout: int
    const buffer: GrowableByteSlice
    const dirty: DirtyTimestamp
    var perms: nat
    var refCount: int
    ghost var whole: bool

    ghost predicate Valid()
      reads this, buffer
    {
      buffer.Valid()
    }

    ghost function View(): Buffered
      requires Valid()
      reads this, buffer, buffer.arr, dirty, device
    {
      FileState(buffer.View(), dirty.t, perms, whole, Get(device.files, path))
    }

    constructor (path: string, device: Device, timeout: int, perms: nat)
      ensures this.path == path && this.device == device && this.timeout == timeout
      ensures Valid() && fresh(buffer) && fresh(buffer.arr) && fresh(dirty)
      ensures View() == Blank(perms, Get(device.files, path)) && refCount == 0
    {
      this.path, this.device, this.timeout, this.perms := path, device, timeout, perms;
      refCount, whole := 0, false;
      buffer := new GrowableByteSlice();
      dirty := new DirtyTimestamp();
    }

    method Initialize(flags: Flags, stat: StatReply, now: int, save: SaveIo, load: LoadIo) returns (r: OpenResult)
      requires Valid()
      modifies this`perms, this`whole, buffer, buffer.arr, dirty, device
      ensures Valid() && (buffer.arr == old(buffer.arr) || fresh(buffer.arr))
      ensures (View(), r) == Initialized(timeout, old(View()), flags, stat, now, save, load)
      ensures device.files == Put(old(device.files), path, View().dev)
    {
      hide Contains, CanWrite, Step;
      if Contains(flags, O_CREATE | O_TRUNC | O_APPEND) && !CanWrite(flags) {
        return NotPermitted;
      }
      var createNewFile, currentPerms := false, DEFAULT_PERMS;
      match stat {
        case NoSuchFile =>
          if !Contains(flags, O_CREATE) {
            return NotFound;
          }
          createNewFile := true;
        case StatFails =>
          return StatFailed;
        case Stats(p) =>
          currentPerms := p;
      }
      if perms == DONT_SET_PERMS {
        perms := currentPerms;
      }
      if createNewFile || Contains(flags, O_TRUNC) {
        dirty.Set(now);
      }
      var _ := SyncBuffer(save, load);
      r := Opened;
    }

    method ReadAt(buf: array<byte>, off: int) returns (n: nat, eof: bool, ok: bool)
      requires Valid() && buf != buffer.arr && Representable(buf.Length, off)
      modifies buf
      ensures n <= buf.Length && buf[n..] == old(buf[n..])
      ensures Step(AsWritten, timeout, View(), FileOp.ReadAt(off, buf.Length)) ==
                (View(), if ok then Data(buf[..n], eof) else Panicked)
    {
      n, eof, ok := buffer.ReadAt(buf, off);
    }

    method WriteAt(data: seq<byte>, off: int, now: int) returns (ok: bool)
      requires Valid() && Representable(|data|, off)
      modifies buffer, buffer.arr, dirty
      ensures Valid() && (buffer.arr == old(buffer.arr) || fresh(buffer.arr))
      ensures (View(), if ok then Count(|data|) else Panicked) ==
                Step(AsWritten, timeout, old(View()), FileOp.WriteAt(data, off, now))
    {
      dirty.Set(now);
      ok := buffer.WriteAt(data, off);
    }

    method SetSize(newLen: int, now: int) returns (ok: bool)
      requires Valid() && FitsInt64(newLen)
      modifies buffer, buffer.arr, dirty
      ensures Valid() && (buffer.arr == old(buffer.arr) || fresh(buffer.arr))
      ensures (View(), if ok then Done else Panicked) ==
                Step(AsWritten, timeout, old(View()), FileOp.SetSize(newLen, now))
    {
      dirty.Set(now);
      ok := buffer.Resize(newLen);
    }

    /** Saves the buffer if dirty, else reloads it. */
    method SyncBuffer(save: SaveIo, load: LoadIo) returns (ok: bool)
      requires Valid()
      modifies this`whole, buffer, dirty, device
      ensures Valid() && (buffer.arr == old(buffer.arr) || fresh(buffer.arr))
      ensures (View(), if ok then Done else Failed) == Step(AsWritten, timeout, old(View()), Sync(save, load))
      ensures device.files == Put(old(device.files), path, View().dev)
    {
      if dirty.IsSet() {
        ok := SaveToDevice(save);
      } else {
        ok := LoadFromDevice(load);
      }
    }

    /** Saves the buffer if dirty, else does nothing. */
    method FlushBuffer(save: SaveIo) returns (ok: bool)
      requires Valid()
      modifies this`whole, dirty, device
      ensures Valid() && View().buf == old(View().buf)
      ensures (View(), if ok then Done else Failed) == Step(AsWritten, timeout, old(View()), Flush(save))
      ensures device.files == Put(old(device.files), path, View().dev)
    {
      ok := true;
      if dirty.IsSet() {
        ok := SaveToDevice(save);
      }
    }

    method SyncIfTooDirty(now: int, save: SaveIo) returns (ok: bool)
      requires Valid()
      modifies this`whole, dirty, device
      ensures Valid() && View().buf == old(View().buf)
      ensures (View(), if ok then Done else Failed) ==
                Step(AsWritten, timeout, old(View()), FileOp.SyncIfTooDirty(now, save))
      ensures device.files == Put(old(device.files), path, View().dev)
    {
      ok := true;
      var overdue := dirty.HasBeenDirtyFor(timeout, now);
      if overdue {
        ok := SaveToDevice(save);
      }
    }

    method SaveToDevice(io: SaveIo) returns (ok: bool)
      requires Valid()
      modifies this`whole, dirty, device
      ensures Valid()
      ensures (View(), if ok then Done else Failed) == Save(old(View()), old(View()).buf.Data(), io)
      ensures device.files == Put(old(device.files), path, View().dev)
    {
      ok := device.OpenWrite(path, io);
      if !ok {
        return;
      }
      var data := buffer.WriteTo();
      ok := device.Write(path, io);
      if !ok {
        return;
      }
      ok := device.CloseWriter(path, DevFile(data, perms), io);
      if !ok {
        return;
      }
      dirty.Clear();
      whole := true;
    }

    method LoadFromDevice(io: LoadIo) returns (ok: bool)
      requires Valid()
      modifies this`whole, buffer
      ensures Valid() && (buffer.arr == old(buffer.arr) || fresh(buffer.arr))
      ensures (View(), if ok then Done else Failed) == Load(old(View()), io)
    {
      ok := device.OpenRead(path, io);
      if !ok {
        return;
      }
      var bytes;
      bytes, ok := device.ReadAll(path, io);
      buffer.ReadFrom(bytes, io.slack);
      whole := ok;
    }

    method IncRefCount() returns (n: int)
      modifies this`refCount
      ensures n == refCount == old(refCount) + 1
    {
      refCount := refCount + 1;
      n := refCount;
    }

    /** `ok` is false where the source panics. */
    method DecRefCount() returns (n: int, ok: bool)
      modifies this`refCount
      ensures n == refCount == old(refCount) - 1 && ok == (old(refCount) > 0)
    {
      refCount := refCount - 1;
      n, ok := refCount, refCount >= 0;
    }
  }

  /** A buffer left dirty by its first open was opened for writing, to create or to truncate, and is
      empty; an open that is not a write operation leaves it clean and the device as it was. */
  lemma InitialDirt(timeout: int, perms: nat, dev: Option<DevFile>, flags: Flags, stat: StatReply,
                    now: int, save: SaveIo, load: LoadIo)
    ensures var (s, r) := Initialized(timeout, Blank(perms, dev), flags, stat, now, save, load);
            (s.stamp != CLEAN ==> r == Opened && CanWrite(flags) && Contains(flags, O_CREATE | O_TRUNC)
                                  && s.buf == EMPTY && s.stamp == now && !save.Saves?)
            && (!IsWriteOp(flags) ==> s.stamp == CLEAN && s.dev == dev)
            && (r != Opened ==> s == Blank(perms, dev))
  {
    if !IsWriteOp(flags) {
      ReadOpen(flags);
    }
    assert Contains(flags, O_TRUNC) ==> Contains(flags, O_CREATE | O_TRUNC);
    assert Contains(flags, O_CREATE) ==> Contains(flags, O_CREATE | O_TRUNC);
    assert Contains(flags, O_CREATE | O_TRUNC) ==> Contains(flags, O_CREATE | O_TRUNC | O_APPEND);
  }

  /** A first open succeeds exactly when the file can be stat'ed or created, and the flags that modify
      it come with write access. It settles on the requested permissions, or those of the file, or the
      default. */
  lemma OpensExactly(timeout: int, perms: nat, dev: Option<DevFile>, flags: Flags, stat: StatReply,
                     now: int, save: SaveIo, load: LoadIo)
    ensures var (s, r) := Initialized(timeout, Blank(perms, dev), flags, stat, now, save, load);
            && (r == Opened <==>
                  && (Contains(flags, O_CREATE | O_TRUNC | O_APPEND) ==> CanWrite(flags))
                  && (stat.Stats? || (stat.NoSuchFile? && Contains(flags, O_CREATE))))
            && (r == Opened ==>
                  s.perms == if perms != DONT_SET_PERMS then perms else if stat.Stats? then stat.perms else DEFAULT_PERMS)
  {
    hide Contains, CanWrite;
  }

  /** A first open that creates or truncates starts from an empty buffer, whatever becomes of its save. */
  lemma NewBufferIsEmpty(timeout: int, perms: nat, dev: Option<DevFile>, flags: Flags, stat: StatReply,
                         now: int, save: SaveIo, load: LoadIo)
    requires WantsNewFile(flags, stat) && now != CLEAN
    ensures Initialized(timeout, Blank(perms, dev), flags, stat, now, save, load).0.buf == EMPTY
  {
    hide Contains, CanWrite;
  }

  /** A new or truncated file whose save succeeds is empty in the buffer and on the device, with the
      permissions of the buffer. */
  lemma NewFileIsEmpty(timeout: int, perms: nat, dev: Option<DevFile>, flags: Flags, stat: StatReply,
                       now: int, save: SaveIo, load: LoadIo)
    requires WantsNewFile(flags, stat) && now != CLEAN && save.Saves?
    ensures var (s, r) := Initialized(timeout, Blank(perms, dev), flags, stat, now, save, load);
            r == Opened ==> s == FileState(EMPTY, CLEAN, s.perms, true, Some(DevFile([], s.perms)))
  {
    hide Contains, CanWrite;
  }

  /** Any other open changes nothing on the device, and a load that succeeds puts the whole file in the
      buffer. */
  lemma ExistingFileIsLoaded(timeout: int, perms: nat, dev: Option<DevFile>, flags: Flags, stat: StatReply,
                             now: int, save: SaveIo, load: LoadIo)
    requires !WantsNewFile(flags, stat)
    ensures var (s, r) := Initialized(timeout, Blank(perms, dev), flags, stat, now, save, load);
            s.stamp == CLEAN && s.dev == dev
            && (r == Opened && LoadSucceeds(dev, load) ==> s.whole && s.buf.Data() == dev.value.bytes)
  {
    hide Contains, CanWrite;
    if LoadSucceeds(dev, load) {
      assert (dev.value.bytes + load.slack)[..|dev.value.bytes|] == dev.value.bytes;
    }
  }

  /** A buffer is dirty after a first open exactly when that open was to create or truncate and its save failed. */
  lemma DirtyAfterOpenExactly(timeout: int, perms: nat, dev: Option<DevFile>, flags: Flags, stat: StatReply,
                              now: int, save: SaveIo, load: LoadIo)
    requires now != CLEAN
    ensures var (s, r) := Initialized(timeout, Blank(perms, dev), flags, stat, now, save, load);
            r == Opened ==> s.stamp == if WantsNewFile(flags, stat) && !save.Saves? then now else CLEAN
  {
    hide Contains, CanWrite;
  }

  /** What a first open means: permissions, contents, dirt, and the device. */
  lemma FirstOpenMeans(timeout: int, perms: nat, dev: Option<DevFile>, flags: Flags, stat: StatReply,
                       now: int, save: SaveIo, load: LoadIo)
    ensures var (s, r) := Initialized(timeout, Blank(perms, dev), flags, stat, now, save, load);
            && (!IsWriteOp(flags) ==> s.stamp == CLEAN && s.dev == dev)
            && (r != Opened ==> s == Blank(perms, dev))
            && (r == Opened ==>
                  s.perms == if perms != DONT_SET_PERMS then perms else if stat.Stats? then stat.perms else DEFAULT_PERMS)
            && (r == Opened && now != CLEAN && WantsNewFile(flags, stat) ==>
                  s.buf.Data() == [] && s.stamp == (if save.Saves? then CLEAN else now)
                  && (save.Saves? ==> s.dev == Some(DevFile([], s.perms))))
            && (r == Opened && !WantsNewFile(flags, stat) ==>
                  s.stamp == CLEAN && s.dev == dev
                  && (load.Loads? && dev.Some? ==> s.buf.Data() == dev.value.bytes))
  {
    hide Initialized, Contains, CanWrite, IsWriteOp;
    InitialDirt(timeout, perms, dev, flags, stat, now, save, load);
    OpensExactly(timeout, perms, dev, flags, stat, now, save, load);
    if !WantsNewFile(flags, stat) {
      ExistingFileIsLoaded(timeout, perms, dev, flags, stat, now, save, load);
    } else if now != CLEAN {
      NewBufferIsEmpty(timeout, perms, dev, flags, stat, now, save, load);
      DirtyAfterOpenExactly(timeout, perms, dev, flags, stat, now, save, load);
      if save.Saves? {
        NewFileIsEmpty(timeout, perms, dev, flags, stat, now, save, load);
      }
    }
  }
}
