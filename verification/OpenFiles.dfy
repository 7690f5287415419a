/** The map from paths to shared buffers, and the handles that FUSE holds. */
module OpenFilesMap {
  import opened Wrappers
  import opened Bytes
  import opened OpenFlags
  import opened GrowableSlice
  import opened FileSpec
  import opened FileBuffers
  import opened Releasing
  import opened DirtyTime
  import opened HandleCalls

  class OpenFiles {
    const device: Device
    const timeout: int
    var buffersByPath: map<string, FileBuffer>

    constructor (device: Device, timeout: int)
      ensures this.device == device && this.timeout == timeout && buffersByPath == map[]
    {
      this.device, this.timeout := device, timeout;
      buffersByPath := map[];
    }

    /** Shares the buffer that the map holds for `path`, or initializes a new one. */
    method GetOrLoad(path: string, flags: Flags, perms: nat, stat: StatReply,
                     now: int, save: SaveIo, load: LoadIo) returns (file: FileBuffer?, r: OpenResult)
      modifies this`buffersByPath, device, buffersByPath.Values`refCount
      ensures (file != null) == (r == Opened)
      ensures file != null ==>
                buffersByPath == old(buffersByPath)[path := file]
                && (forall f | f in old(buffersByPath).Values && f != file :: f.refCount == old(f.refCount))
      ensures path in old(buffersByPath) ==>
                file == old(buffersByPath[path]) && file.refCount == old(buffersByPath[path].refCount) + 1
                && device.files == old(device.files)
      ensures path !in old(buffersByPath) ==>
                var (s, result) := Initialized(timeout, Blank(perms, Get(old(device.files), path)), flags, stat, now, save, load);
                r == result && device.files == Put(old(device.files), path, s.dev)
                && (file == null ==> buffersByPath == old(buffersByPath) && device.files == old(device.files))
                && (file != null ==> fresh(file) && file.Valid() && file.View() == s && file.refCount == 1
                                     && file.path == path && file.device == device && file.timeout == timeout)
    {
      if path in buffersByPath {
        file := buffersByPath[path];
        assert file in buffersByPath.Values;
        assert buffersByPath == buffersByPath[path := file];
      } else {
        var created := new FileBuffer(path, device, timeout, perms);
        r := created.Initialize(flags, stat, now, save, load);
        if r != Opened {
          InitialDirt(timeout, perms, Get(old(device.files), path), flags, stat, now, save, load);
          return null, r;
        }
        file := created;
        buffersByPath := buffersByPath[path := file];
      }
      var _ := file.IncRefCount();
      r := Opened;
    }

    /** Called when a reference count has reached zero; it may have risen again since. */
    method Release(file: FileBuffer)
      modifies this`buffersByPath
      ensures buffersByPath == Released(RefCountOnly, old(buffersByPath), file.path, file, file.refCount)
    {
      if file.refCount != 0 {
        return;
      }
      buffersByPath := buffersByPath - {file.path};
    }
  }

  /** One open handle. */
  class AdbFile {
    const flags: Flags
    const file: FileBuffer
    const files: OpenFiles

    constructor (flags: Flags, file: FileBuffer, files: OpenFiles)
      ensures this.flags == flags && this.file == file && this.files == files
    {
      this.flags, this.file, this.files := flags, file, files;
    }

    method Read(buf: array<byte>, off: int) returns (n: nat, status: Status)
      requires file.Valid() && buf != file.buffer.arr && Representable(buf.Length, off)
      modifies buf
      ensures n <= buf.Length && buf[n..] == old(buf[n..])
      ensures !CanRead(flags) ==> status == EPERM && n == 0
      ensures CanRead(flags) ==>
                var (s, r) := Step(AsWritten, file.timeout, file.View(), ReadAt(off, buf.Length));
                s == file.View() && status == StatusOf(r) && (r.Data? ==> buf[..n] == r.data)
      ensures CanRead(flags) ==> status == if off < 0 then Crashed else OK
      ensures CanRead(flags) && off >= 0 ==> buf[..n] == Window(file.View().buf.Data(), off, buf.Length)
    {
      ReadAnswers(file.timeout, file.View(), off, buf.Length);
      if !CanRead(flags) {
        return 0, EPERM;
      }
      var eof, ok;
      n, eof, ok := file.ReadAt(buf, off);
      status := if ok then OK else Crashed;
    }

    method Write(data: seq<byte>, off: int, setNow: int, checkNow: int, save: SaveIo) returns (n: nat, status: Status)
      requires file.Valid() && Representable(|data|, off)
      modifies file`whole, file.buffer, file.buffer.arr, file.dirty, file.device
      ensures file.Valid()
      ensures !CanWrite(flags) ==> status == EPERM && n == 0 && file.View() == old(file.View())
      ensures CanWrite(flags) ==>
                var (s, r) := Twice(file.timeout, old(file.View()), WriteAt(data, off, setNow), SyncIfTooDirty(checkNow, save));
                file.View() == s && status == StatusOf(r) && (status != Crashed ==> n == |data|)
      ensures CanWrite(flags) ==> (status == Crashed <==> off < 0 || off + |data| >= TWO_63)
      ensures CanWrite(flags) && status != Crashed && data != [] ==>
                off + |data| <= file.View().buf.len && file.View().buf.Data()[off..off + |data|] == data
      ensures CanWrite(flags) && status == OK ==>
                file.View().stamp == CLEAN || checkNow <= file.View().stamp + file.timeout
      ensures CanWrite(flags) && status != Crashed ==>
                var late := OverdueAfterWrite(file.timeout, old(file.View()).stamp, setNow, checkNow);
                && (status == EIO <==> late && !save.Saves?)
                && (status == OK && late ==>
                      Get(file.device.files, file.path) == Some(DevFile(file.View().buf.Data(), old(file.View()).perms)))
                && (!late ==> file.device.files == old(file.device.files))
      ensures file.device.files == Put(old(file.device.files), file.path, file.View().dev)
    {
      if !CanWrite(flags) {
        return 0, EPERM;
      }
      WriteAnswers(file.timeout, file.View(), data, off, setNow, checkNow, save);
      var ok := file.WriteAt(data, off, setNow);
      if !ok {
        return 0, Crashed;
      }
      n := |data|;
      ok := file.SyncIfTooDirty(checkNow, save);
      status := if ok then OK else EIO;
    }

    /** Called whenever a descriptor closes, so a handle that cannot write has nothing to refuse. */
    method Flush(save: SaveIo) returns (status: Status)
      requires file.Valid()
      modifies file`whole, file.dirty, file.device
      ensures file.Valid()
      ensures !CanWrite(flags) ==> status == OK && file.View() == old(file.View())
      ensures CanWrite(flags) ==>
                var (s, r) := Step(AsWritten, file.timeout, old(file.View()), FileOp.Flush(save));
                file.View() == s && status == StatusOf(r)
      ensures CanWrite(flags) && old(file.View()).stamp != CLEAN ==>
                && (status == if save.Saves? then OK else EIO)
                && file.View().buf == old(file.View()).buf
                && file.View().stamp == (if status == OK then CLEAN else old(file.View()).stamp)
                && (status == OK ==>
                      Get(file.device.files, file.path) == Some(DevFile(old(file.View()).buf.Data(), old(file.View()).perms)))
      ensures CanWrite(flags) && old(file.View()).stamp == CLEAN ==> status == OK && file.View() == old(file.View())
      ensures file.device.files == Put(old(file.device.files), file.path, file.View().dev)
    {
      if !CanWrite(flags) {
        return OK;
      }
      FlushAnswers(file.timeout, file.View(), save);
      var ok := file.FlushBuffer(save);
      status := if ok then OK else EIO;
    }

    /** Has no flag check: any handle may ask for it. */
    method Fsync(save: SaveIo, load: LoadIo) returns (status: Status)
      requires file.Valid()
      modifies file`whole, file.buffer, file.dirty, file.device
      ensures file.Valid()
      ensures var (s, r) := Step(AsWritten, file.timeout, old(file.View()), Sync(save, load));
              file.View() == s && status == StatusOf(r)
      ensures old(file.View()).stamp != CLEAN ==>
                && (status == if save.Saves? then OK else EIO)
                && file.View().buf == old(file.View()).buf
                && file.View().stamp == (if status == OK then CLEAN else old(file.View()).stamp)
                && (status == OK ==>
                      Get(file.device.files, file.path) == Some(DevFile(old(file.View()).buf.Data(), old(file.View()).perms)))
      ensures old(file.View()).stamp == CLEAN ==>
                && (status == if load.Loads? && file.path in file.device.files then OK else EIO)
                && file.View().stamp == CLEAN && file.device.files == old(file.device.files)
                && (status == OK ==> file.View().buf.Data() == file.device.files[file.path].bytes)
      ensures file.device.files == Put(old(file.device.files), file.path, file.View().dev)
    {
      FlushAnswers(file.timeout, file.View(), save);
      FsyncAnswers(file.timeout, file.View(), save, load);
      var ok := file.SyncBuffer(save, load);
      status := if ok then OK else EIO;
    }

    /** `size` is an unsigned 64-bit word that the call reads as a signed one. */
    method Truncate(size: nat, now: int, save: SaveIo, load: LoadIo) returns (status: Status)
      requires file.Valid() && size < 2 * TWO_63
      modifies file`whole, file.buffer, file.buffer.arr, file.dirty, file.device
      ensures file.Valid()
      ensures !CanWrite(flags) ==> status == EPERM && file.View() == old(file.View())
      ensures CanWrite(flags) ==>
                var (s, r) := Twice(file.timeout, old(file.View()), SetSize(Wrap64(size), now), Sync(save, load));
                file.View() == s && status == StatusOf(r)
      ensures CanWrite(flags) && now != CLEAN ==>
                && (status == Crashed <==> size >= TWO_63)
                && (status == OK <==> size < TWO_63 && save.Saves?)
                && (status != Crashed ==> file.View().buf.len == size && (file.View().stamp == CLEAN <==> status == OK))
                && (status == OK ==>
                      Get(file.device.files, file.path) == Some(DevFile(file.View().buf.Data(), old(file.View()).perms)))
      ensures file.device.files == Put(old(file.device.files), file.path, file.View().dev)
    {
      if !CanWrite(flags) {
        return EPERM;
      }
      if now != CLEAN {
        TruncateAnswers(file.timeout, file.View(), size, now, save, load);
      }
      var ok := file.SetSize(Wrap64(size), now);
      if !ok {
        return Crashed;
      }
      ok := file.SyncBuffer(save, load);
      status := if ok then OK else EIO;
    }

    /** Gives up one reference; the map is told when it was the last. Here the two steps run without
        interruption; the interleavings are the subject of the file system's transition system. */
    method Release() returns (ok: bool)
      modifies file`refCount, files`buffersByPath
      ensures file.refCount == old(file.refCount) - 1 && ok == (old(file.refCount) > 0)
      ensures files.buffersByPath ==
                if file.refCount == 0 then Released(RefCountOnly, old(files.buffersByPath), file.path, file, 0)
                else old(files.buffersByPath)
    {
      var n;
      n, ok := file.DecRefCount();
      if ok && n == 0 {
        files.Release(file);
      }
    }
  }
}
