/** The calls of the file system that open files or change the device, and their read-only guard. */
module AdbFileSystems {
  import opened Wrappers
  import opened OpenFlags
  import opened DirtyTime
  import opened FileSpec
  import opened FileBuffers
  import opened OpenFilesMap

  class AdbFileSystem {
    const readOnly: bool
    const files: OpenFiles

    constructor (readOnly: bool, files: OpenFiles)
      ensures this.readOnly == readOnly && this.files == files
    {
      this.readOnly, this.files := readOnly, files;
    }

    /** A null handle is an error: the guard's, or that of the first open. */
    method CreateFile(path: string, flags: Flags, perms: nat, stat: StatReply,
                      now: int, save: SaveIo, load: LoadIo) returns (f: AdbFile?)
      modifies files`buffersByPath, files.device, files.buffersByPath.Values`refCount
      ensures f == null ==> files.buffersByPath == old(files.buffersByPath) && files.device.files == old(files.device.files)
      ensures f != null ==>
                f.flags == flags && f.files == files
                && files.buffersByPath == old(files.buffersByPath)[path := f.file]
                && (path in old(files.buffersByPath) ==> f.file == old(files.buffersByPath[path])
                                                         && f.file.refCount == old(files.buffersByPath[path].refCount) + 1)
                && (path !in old(files.buffersByPath) ==> f.file.refCount == 1)
                && (path in old(files.buffersByPath) ==> files.device.files == old(files.device.files))
      ensures f != null && path !in old(files.buffersByPath) ==>
                f.file.Valid()
                && f.file.View() == Initialized(files.timeout, Blank(perms, Get(old(files.device.files), path)),
                                                flags, stat, now, save, load).0
                && files.device.files == Put(old(files.device.files), path, f.file.View().dev)
                && f.file.perms == (if perms != DONT_SET_PERMS then perms else if stat.Stats? then stat.perms else DEFAULT_PERMS)
      ensures f != null && path !in old(files.buffersByPath) && now != CLEAN && (stat.NoSuchFile? || Contains(flags, O_TRUNC)) ==>
                f.file.View().buf.Data() == [] && f.file.View().stamp == (if save.Saves? then CLEAN else now)
                && (save.Saves? ==> Get(files.device.files, path) == Some(DevFile([], f.file.perms)))
      ensures f != null && path !in old(files.buffersByPath) && !stat.NoSuchFile? && !Contains(flags, O_TRUNC) ==>
                f.file.View().stamp == CLEAN && files.device.files == old(files.device.files)
                && (load.Loads? && path in files.device.files ==> f.file.View().buf.Data() == files.device.files[path].bytes)
      ensures f == null <==>
                (readOnly && IsWriteOp(flags))
                || (path !in old(files.buffersByPath)
                    && Initialized(files.timeout, Blank(perms, Get(old(files.device.files), path)),
                                   flags, stat, now, save, load).1 != Opened)
      ensures readOnly ==> files.device.files == old(files.device.files)
      ensures readOnly && f != null ==> CanRead(f.flags) && !CanWrite(f.flags)
      ensures readOnly && f != null && path !in old(files.buffersByPath) ==> f.file.Valid() && f.file.View().stamp == CLEAN
    {
      if IsWriteOp(flags) && readOnly {
        return null;
      }
      FirstOpenMeans(files.timeout, perms, Get(files.device.files, path), flags, stat, now, save, load);
      if readOnly {
        ReadOpen(flags);
      }
      var file, r := files.GetOrLoad(path, flags, perms, stat, now, save, load);
      if r != Opened {
        return null;
      }
      f := new AdbFile(flags, file, files);
    }

    /** Always opens for writing, so a read-only file system refuses every one. */
    method Create(path: string, rawFlags: Flags, perms: nat, stat: StatReply,
                  now: int, save: SaveIo, load: LoadIo) returns (f: AdbFile?)
      modifies files`buffersByPath, files.device, files.buffersByPath.Values`refCount
      ensures f == null <==>
                readOnly
                || (path !in old(files.buffersByPath)
                    && Initialized(files.timeout, Blank(perms, Get(old(files.device.files), path)),
                                   CreateFlags(rawFlags), stat, now, save, load).1 != Opened)
      ensures f != null ==>
                f.flags == CreateFlags(rawFlags) && CanWrite(f.flags)
                && files.buffersByPath == old(files.buffersByPath)[path := f.file]
                && (path in old(files.buffersByPath) ==>
                      f.file == old(files.buffersByPath[path]) && files.device.files == old(files.device.files))
      ensures f != null && path !in old(files.buffersByPath) ==>
                f.file.Valid()
                && f.file.View() == Initialized(files.timeout, Blank(perms, Get(old(files.device.files), path)),
                                                CreateFlags(rawFlags), stat, now, save, load).0
                && files.device.files == Put(old(files.device.files), path, f.file.View().dev)
                && f.file.perms == (if perms != DONT_SET_PERMS then perms else if stat.Stats? then stat.perms else DEFAULT_PERMS)
      ensures f != null && path !in old(files.buffersByPath) && now != CLEAN ==>
                f.file.View().buf.Data() == [] && f.file.View().stamp == (if save.Saves? then CLEAN else now)
                && (save.Saves? ==> Get(files.device.files, path) == Some(DevFile([], f.file.perms)))
      ensures f == null ==> files.buffersByPath == old(files.buffersByPath) && files.device.files == old(files.device.files)
    {
      CreateOpensForWriting(rawFlags);
      f := CreateFile(path, CreateFlags(rawFlags), perms, stat, now, save, load);
    }

    /** Leaves the permissions to the file, or to the default. */
    method Open(path: string, flags: Flags, stat: StatReply, now: int, save: SaveIo, load: LoadIo) returns (f: AdbFile?)
      modifies files`buffersByPath, files.device, files.buffersByPath.Values`refCount
      ensures f == null ==> files.buffersByPath == old(files.buffersByPath) && files.device.files == old(files.device.files)
      ensures f == null <==>
                (readOnly && IsWriteOp(flags))
                || (path !in old(files.buffersByPath)
                    && Initialized(files.timeout, Blank(DONT_SET_PERMS, Get(old(files.device.files), path)),
                                   flags, stat, now, save, load).1 != Opened)
      ensures f != null ==>
                f.flags == flags && files.buffersByPath == old(files.buffersByPath)[path := f.file]
                && (path in old(files.buffersByPath) ==>
                      f.file == old(files.buffersByPath[path]) && files.device.files == old(files.device.files))
      ensures f != null && path !in old(files.buffersByPath) ==>
                f.file.Valid()
                && f.file.View() == Initialized(files.timeout, Blank(DONT_SET_PERMS, Get(old(files.device.files), path)),
                                                flags, stat, now, save, load).0
                && files.device.files == Put(old(files.device.files), path, f.file.View().dev)
                && f.file.perms == (if stat.Stats? then stat.perms else DEFAULT_PERMS)
    {
      f := CreateFile(path, flags, DONT_SET_PERMS, stat, now, save, load);
    }

    /** mkdir, mv, rmdir or rm, which leaves the device as `after`; false when refused. */
    method ModifyDevice(after: Files) returns (issued: bool)
      modifies files.device
      ensures issued == !readOnly
      ensures files.device.files == if issued then after else old(files.device.files)
    {
      if readOnly {
        return false;
      }
      files.device.files := after;
      issued := true;
    }
  }
}
