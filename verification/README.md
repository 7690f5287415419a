# A verified model of adbfs

adbfs keeps a whole remote file in memory, shares that buffer among the open handles of its path, and
writes it back to an Android device when it is dirty. This project models the parts of it where state,
failing device calls and concurrency meet, and proves what holds of them over every run.

| files | what they model |
|---|---|
| `Bytes`, `GrowableSlice`, `ResizeTheory` | the growable byte slice over a real backing array: resizing in place or by reallocation, writes with gaps, what a run of calls costs |
| `DirtyTime`, `FileSpec`, `PlainFile`, `FileTheory`, `FileBuffer` | the dirty stamp, the buffer with its saves and loads (each device call may fail), the plain byte file it should be, and the theorems that connect them |
| `Releasing`, `OpenFiles`, `HandleCalls`, `OpenProtocol` | the map of open buffers and the handles as classes, what their calls answer, and the sharing protocol as an interleaving transition system in which a decrement to zero and the release it schedules are separate steps |
| `AdbFileSystem`, `OpenFlags` | opening and creating files under the read-only switch |
| `FileSystem`, `MountTheory`, `MountRefinement`, `SharedOpens`, `Durability`, `ReopenedFile`, `DroppedData` | a whole mount: protocol, buffers, flags and device together; what its handles see of a path; what joining opens do; what becomes of a written byte, with a run from end to end; how the release as written can lose data |
| `DevicePaths`, `DirCache`, `CacheTheory`, `Visibility` | paths as the cache and the file system clean and split them; the directory cache, and the cache against a device that changes at any time, with loads in two steps and asynchronous deletes |
| `ProcessTracker`, `TrackerTheory` | the keyed goroutines, their wait group and cancellation |
| `ClientPool` | the client pool, the map lock and the file locks |
| `LinkResolver`, `Statfs`, `StatfsKeys`, `StatfsTheory` | the symlink resolver and the parser of `stat -f` output |

Classes and loops stand where the source has them, and each method is proved against a specification
function. The systems of a buffered file and of a whole mount step with the functions that specify
`FileBuffer`, the tracker's with those of `ProcessTracker`, the cache's with those of its class; so a theorem
about their runs is a theorem about what the methods do. The sharing protocol has only `Released` in common
with `OpenFiles`: its buffers are numbers, and joining, adding and dropping restate what `GetOrLoad` and
`DecRefCount` do to counts and map. The client pool and its locks have no class. A device call takes its
outcome as an argument, a clock reading is an argument, and a panic is an outcome; theorems that quantify over
those arguments hold for every device and clock.

## Where the code and its comments disagree

The model follows the code; the comments are then proved to hold exactly under a stated condition.

- `internal/util/growable_byte_slice.go:76-78` indexes the whole slice with the indices of the tail, so an
  in-place shrink clears the head of the file and leaves the dropped bytes behind its end.
  `ResizeExact`, `SlackExact` and `SafeResizeExact` say exactly when a resize is right all the same,
  `TruncateLosesData` is a run that loses a byte. `Zeroing` names both versions: the refinement theorems hold
  of the intended one whenever the library leaves clean slack behind what it loads, and of the code exactly
  when its truncations and writes find zeros where they need them.
- `open_files.go:80` deletes by path without looking at which buffer the map holds. `TwoBuffersForOnePath`
  is a run in which two handles of one path get different buffers; `SharedExactly` says which runs stay
  clear of it, and `NoRevivalNoSplit` that all do in which no open joins a buffer on its way out. `StaleReleaseDropsDirtyBuffer` loses data that way, and `DirtyBufferUnmappedExactly` says when
  that happens; `ReleaseCheck` names both versions.
- `file_buffer.go:115` drops the error of the first load, so a buffer can be clean and wrong.
  `InitialLoadExact` says when it is right; the flag `whole` of the model carries the condition. A later save
  then replaces the file, and `UndeliveredBytesAreLostExactly` says which bytes that costs. The same line
  drops the error of the first save, which leaves the buffer dirty since the open (`BoundedSinceOpen`).
- `adb_filesystem.go:133` tests the depth before it counts, so 65 links are followed where the constant
  says 64 (`SixtyFiveLinksResolve`, and `ResolvesPastTheLimit` for such a chain).
- `adb_filesystem.go:81-82` puts one client in the pool whatever size is configured (`DeadlockFree`).
- A second open of a path joins its buffer without looking at its flags (`open_files.go:43`), so it neither
  truncates the file nor is refused for asking to: `TruncatesExactly` and `UnwritableOpenExactly` say when an
  open does, and is; `JoiningOpenDoesNotTruncate` is a run in which it should and does not.

## Model

| member | source | states |
|---|---|---|
| GrowableSlice.GrowableByteSlice.Resize | internal/util/growable_byte_slice.go:46-62 | the new array and length are those of `Resized` with the shrink loop as written; a negative length panics and changes nothing; the bytes moved are counted |
| GrowableSlice.GrowableByteSlice.Shrink | internal/util/growable_byte_slice.go:65-81 | reallocates below a third of the capacity, else clears in place with the loop as written |
| GrowableSlice.GrowableByteSlice.Reallocate | internal/util/growable_byte_slice.go:85-94 | a fresh zeroed array of twice the length, at least 1024, with the common prefix copied |
| GrowableSlice.GrowableByteSlice.ReadAt | internal/util/growable_byte_slice.go:97-109 | fills the buffer with exactly the window at the offset, reports the end when it is reached, touches nothing else |
| GrowableSlice.GrowableByteSlice.WriteAt | internal/util/growable_byte_slice.go:112-130 | the slice after a write, including a write that panics after it has grown the slice |
| GrowableSlice.GrowableByteSlice.WriteTo | internal/util/growable_byte_slice.go:132-134 | hands over the data, not the slack |
| GrowableSlice.GrowableByteSlice.ReadFrom | internal/util/growable_byte_slice.go:137-141 | installs what was read, with any slack the library leaves |
| ResizeTheory.ResizeExact | internal/util/growable_byte_slice.go:46-81 | for every slice and size, the resize keeps the common prefix and zero-fills if and only if the bytes cleared or exposed by mistake are zero already |
| ResizeTheory.SlackExact | internal/util/growable_byte_slice.go:75-79 | the bytes behind the end stay zero if and only if the tail bytes that the loop misses are zero |
| ResizeTheory.ResizeSound | internal/util/growable_byte_slice.go:46-94 | zero slack is an invariant under which every resize meets its contract: always with the intended loop, and as written for safe sizes |
| ResizeTheory.SafeResizeExact | internal/util/growable_byte_slice.go:64-81 | the safe sizes are exactly those for which the code is right whatever the file holds |
| ResizeTheory.WritePanicsExact | internal/util/growable_byte_slice.go:112-130 | a write panics if and only if it starts below zero or ends past the largest int64 |
| ResizeTheory.WriteOverlays | internal/util/growable_byte_slice.go:112-130 | every other write overlays the data, gaps reading as zeros, and keeps the slack zero |
| ResizeTheory.WriteExact | internal/util/growable_byte_slice.go:112-130 | as written, on any slice, a write overlays the data if and only if it does not grow in place over nonzero slack before its offset |
| ResizeTheory.PanickedWriteExact | internal/util/growable_byte_slice.go:112-130 | a write that starts below zero has grown the slice by the time it panics, if it ends past it; one whose end wraps has changed nothing |
| ResizeTheory.CopyingIsAmortized | internal/util/growable_byte_slice.go:48-94 | over any N resizes and writes from empty, bytes copied or cleared are at most three per byte of length change plus 1024 per call |
| ResizeTheory.MovedCovers | internal/util/growable_byte_slice.go:65-94 | the count misses nothing: every byte that a resize changes in place or carries over is in it |
| DirtyTime.DirtyTimestamp.Set | internal/util/dirty_timestamp.go:27-31 | keeps an earlier time, else takes the clock's |
| DirtyTime.DirtyTimestamp.Clear | internal/util/dirty_timestamp.go:33-35 | clean again |
| DirtyTime.DirtyTimestamp.HasBeenDirtyFor | internal/util/dirty_timestamp.go:37-39 | dirty, and strictly longer than the duration |
| FileTheory.PanicsExact | file_buffer.go:133-189 | an operation panics if and only if its offset or size lies outside what a signed 64-bit file API means |
| FileTheory.StepRefines | file_buffer.go:133-189 | each locked operation is a step of the plain byte file, with the same reply |
| FileTheory.RunRefines | file_buffer.go:133-189 | every run of operations, by any handles and with any failures, is a run of the plain file: reads return its windows |
| FileTheory.StepExact | file_buffer.go:133-189 | as written, on any buffer, one operation agrees with the plain file if and only if a truncation clears only zeros of the head and an extension exposes only zeros of the slack |
| FileTheory.RunExact | file_buffer.go:133-189 | as written, a whole run agrees with the plain file at every step if and only if every truncation and write in it finds those zeros |
| FileTheory.TruncateLosesData | internal/util/growable_byte_slice.go:76-79 | a run that loses a byte: 342 ones written into an empty buffer and cut to 341 leave a zero in front, where the plain file has a one |
| FileTheory.RunCoherent | file_buffer.go:149-182 | with no outside writer, over every run with failing saves and loads: a clean buffer whose last load was complete equals the device file |
| FileTheory.SavedMeansEqual | file_buffer.go:149-170 | after a successful sync buffer and device are equal; after a successful flush too, if the buffer was dirty or wholly loaded; saving changes no byte of the buffer |
| FileTheory.InitialLoadExact | file_buffer.go:114-117 | after the first load, whose error is dropped, the buffer equals the file if and only if the load missed no byte |
| FileTheory.UndeliveredBytesAreLostExactly | file_buffer.go:114-117 | after a first load with any outcome, any run that changes the file and spares a nonzero byte of it, and a save: the byte is still on the device if and only if that load delivered it |
| FileTheory.FailedSavesAreRetried | file_buffer.go:235-259 | any number of failing saves leave bytes and dirty mark alone, and the next success writes exactly those bytes with their permissions |
| FileTheory.SaveHappensExactly | file_buffer.go:149-182 | a save is made if and only if the buffer is dirty, for the overdue check dirty for longer than the timeout; one that fails leaves anything on the device and the buffer as it was |
| FileTheory.WriterIsAskedForExactly | file_buffer.go:149-182 | the device is asked for a writer if and only if what a failing write leaves shows |
| FileTheory.LoadHappensExactly | file_buffer.go:221-233 | a sync of a clean buffer loads as much as the read delivers, with the slack behind it, and counts as whole if and only if it succeeds |
| FileTheory.LastWriterWins | file_buffer.go:139-145 | a written byte is read back after any later run that does not overwrite it, cut it off, or reload a clean buffer with a read that breaks off before it |
| FileTheory.StampIsFirstWrite | internal/util/dirty_timestamp.go:23-35 | in a run from any state, the stamp of a dirty buffer is the time of the first write since it was last clean, or the stamp it started with if it never was |
| FileTheory.BoundedDirtiness | file_buffer.go:174-182 | after every successful overdue check, in a run from any state, the buffer is clean, or that write, or that starting stamp, is no older than the timeout |
| MountTheory.BoundedSinceOpen | file_buffer.go:106-182 | from the first open on, the failed and dropped save of a new or truncated file included: after every successful overdue check the buffer is clean, or the first write since it was clean, or else the open that left it dirty, is no older than the timeout |
| FileBuffers.FileBuffer.Initialize | file_buffer.go:74-118 | the first open is `Initialized`, error cases and dropped sync error included |
| FileBuffers.OpensExactly | file_buffer.go:77-101 | a first open succeeds if and only if the file exists or may be created and modifying flags come with write access; which permissions it settles on |
| FileBuffers.NewFileIsEmpty | file_buffer.go:106-115 | a new or truncated file whose save succeeds is empty on both sides, with the settled permissions |
| FileBuffers.NewBufferIsEmpty | file_buffer.go:106-115 | a first open that creates or truncates starts from an empty buffer, whatever becomes of its save |
| FileBuffers.ExistingFileIsLoaded | file_buffer.go:114-117 | any other open leaves the device alone and, if its load succeeds, has the whole file |
| FileBuffers.InitialDirt | file_buffer.go:77-115 | only a creating or truncating open with write access leaves a dirty buffer, and then an empty one |
| FileBuffers.DirtyAfterOpenExactly | file_buffer.go:106-115 | a buffer is dirty after a first open if and only if that open was to create or truncate and its save failed |
| FileBuffers.FirstOpenMeans | file_buffer.go:74-118 | permissions, contents, dirt and device file after a first open, for every outcome of its save or load |
| FileBuffers.FileBuffer.ReadAt | file_buffer.go:133-137 | the read step, buffer unchanged |
| FileBuffers.FileBuffer.WriteAt | file_buffer.go:139-145 | the write step, dirty from the first write on |
| FileBuffers.FileBuffer.SetSize | file_buffer.go:184-189 | the truncate step |
| FileBuffers.FileBuffer.SyncBuffer | file_buffer.go:149-158 | saves when dirty, else reloads; other files of the device unchanged |
| FileBuffers.FileBuffer.FlushBuffer | file_buffer.go:162-170 | saves when dirty, else nothing; the buffer bytes stay |
| FileBuffers.FileBuffer.SyncIfTooDirty | file_buffer.go:174-182 | saves when overdue |
| FileBuffers.FileBuffer.SaveToDevice | file_buffer.go:235-259 | open, write, close, and clean only if all three succeed |
| FileBuffers.FileBuffer.LoadFromDevice | file_buffer.go:221-233 | a stream that does not open changes nothing; one that breaks off installs what it delivered |
| FileBuffers.FileBuffer.IncRefCount | file_buffer.go:201-203 | one more |
| FileBuffers.FileBuffer.DecRefCount | file_buffer.go:205-214 | one less, and a panic below zero |
| OpenFilesMap.OpenFiles.GetOrLoad | open_files.go:39-62 | shares the mapped buffer or initializes and maps a new one; a failed first open changes neither map nor device; no other count changes |
| OpenFilesMap.OpenFiles.Release | open_files.go:64-81 | drops the path when the count reads zero, whichever buffer is mapped |
| OpenFilesMap.AdbFile.Read | adb_file.go:77-96 | refused without read access; else the window of the file, end of file masked, and a crash if and only if it starts below zero |
| OpenFilesMap.AdbFile.Write | adb_file.go:118-137 | refused without write access; a crash if and only if its range is none of an int64 file; else the bytes are in the buffer, the answer is an error if and only if the buffer was overdue and its save failed, and after OK it is on the device or dirty for no longer than the timeout |
| OpenFilesMap.AdbFile.Flush | adb_file.go:139-152 | a successful no-op without write access; of a dirty buffer OK if and only if the save succeeds, and then the device has its bytes and permissions, else it stays dirty |
| OpenFilesMap.AdbFile.Fsync | adb_file.go:100-106 | for any handle the same of a dirty buffer; a clean one is loaded, OK if and only if the file exists and is read to its end, and then both are equal |
| OpenFilesMap.AdbFile.Truncate | adb_file.go:154-165 | OK if and only if the size is one of an int64 file and the save succeeds; then the buffer has that size and the device holds exactly it; a crash beyond int64 |
| OpenFilesMap.AdbFile.Release | adb_file.go:69-75 | one reference less, and the map told when it was the last |
| HandleCalls.FlushAnswers | adb_file.go:139-152 | what the answer to a flush means for buffer and device |
| HandleCalls.FsyncAnswers | adb_file.go:100-106 | what the answer to a sync means |
| HandleCalls.WriteAnswers | adb_file.go:118-137 | what the answer to a write means, its overdue check included |
| HandleCalls.TruncateAnswers | adb_file.go:154-165 | what the answer to a truncation means, its sync included |
| HandleCalls.ReadAnswers | adb_file.go:77-96 | what the answer to a read means |
| OpenProtocol.CountsAndNoLeaks | open_files.go:43-81 | in every interleaving counts equal unreleased handles and never go below zero, and with no handles and no outstanding releases the map is empty |
| OpenProtocol.PendingAfter | file_buffer.go:205-214 | a decrement schedules a release if and only if it takes the last handle away, a release that runs is outstanding no longer, and nothing else changes what is |
| OpenProtocol.OneBufferPerPathWithIdentity | open_files.go:64-81 | with an identity check in the release, all handles of a path share the mapped buffer in every interleaving |
| OpenProtocol.OneBufferPerPath | open_files.go:64-81 | as written, the same in every run where no release runs while its path has two outstanding |
| OpenProtocol.ReleaseExact | open_files.go:71-80 | as written, a release splits a path if and only if it removes another buffer that is in use |
| OpenProtocol.SharedExactly | open_files.go:64-81 | as written, a run keeps one buffer per path throughout if and only if none of its releases is stale |
| OpenProtocol.NoRevivalNoSplit | open_files.go:39-81 | as written, if no open joins a buffer whose count has reached zero, no buffer ever has two releases outstanding and all handles of a path share one |
| OpenProtocol.TwoBuffersForOnePath | open_files.go:64-81 | the run that breaks it |
| FileSystem.OnlyRealGuards | open_files.go:39-81 | the transition system refuses no action that the code allows, except the operations on which the code panics |
| MountTheory.RunProjects | open_files.go:39-81 | a run of the mount is a run of the sharing protocol |
| MountTheory.NoDirtyDataDropped | open_files.go:71-80 | if handles are closed only after a successful flush that follows their last write, a dirty buffer always has an open handle that owes its flush, and a buffer whose handles are all closed is clean, in every interleaving |
| MountTheory.OwesExactly | adb_file.go:118-165 | a handle owes a flush from a write or truncation that it may make until a flush that answers OK |
| MountTheory.OnlyCleanBuffersAreUnmapped | open_files.go:71-80 | in such a run every buffer that an action takes off the map is clean: always with an identity check, and as written if the action is no stale release |
| MountTheory.DirtyBufferUnmappedExactly | open_files.go:64-81 | in such a run an action takes a dirty buffer off the map if and only if it is, as written, a release whose count reads zero and which finds another buffer, in use and dirty, mapped at its path; with an identity check, never |
| DroppedData.StaleReleaseDropsDirtyBuffer | open_files.go:71-80 | such a run, as written, in which a stale release takes a dirty buffer with an open handle off the map |
| MountTheory.ReadOnlyNeverWrites | adb_filesystem.go:426-443 | on a read-only mount, for all flags and runs: no handle can write, nothing becomes dirty, no writer or modifying command is requested, the device is unchanged |
| MountTheory.AsWrittenSharesExactly | open_files.go:64-81 | which runs of the mount keep one buffer per path |
| MountTheory.IdentityShares | open_files.go:64-81 | all of them, with an identity check |
| MountTheory.NoRevivalShares | open_files.go:39-81 | so do, as written, all runs of the mount in which no open joins a buffer whose count has reached zero |
| MountTheory.MountCoherent | file_buffer.go:149-182 | while sharing lasts, every handle's clean and wholly loaded buffer equals the device file, whatever other paths do |
| MountRefinement.StepOnPath | open_files.go:39-81 | between shared states, an operation on a path through any handle is a step of the mapped buffer with that reply; opens, closes, releases, refused operations and operations on other paths leave buffer and file of the path alone |
| MountRefinement.PathRuns | file_buffer.go:133-189 | in every interleaving that keeps one buffer per path, what all handles of a path do between them, and the replies they get, is a run of its one buffered file |
| MountRefinement.EveryOperationIsPlain | adb_file.go:77-165 | from the open that maps its buffer on, by any handles opened later, a path is a plain byte file with its replies: with the shrink loop as intended whenever the library leaves clean slack behind what it loads, as written when truncations and writes find the zeros they rely on |
| MountRefinement.AsWrittenIsPlainExactly | file_buffer.go:133-189 | as written, every operation on a path during a run is a step of the plain file if and only if each of them finds those zeros |
| MountRefinement.ReadSeesWrite | adb_file.go:77-137 | a byte written through one handle is what a read through any other returns, after any opens, closes, releases, saves and reloads that spare it |
| MountRefinement.HeldStaysOpen | open_files.go:39-81 | while sharing lasts, a path with an open handle has a mapped buffer, and only a close takes a handle away |
| SharedOpens.TruncatesExactly | open_files.go:43-55 | an open with O_TRUNC leaves the file empty if and only if the path was not open before, or was empty already |
| SharedOpens.UnwritableOpenExactly | open_files.go:43-55 | an open that creates, truncates or appends without write access is let through if and only if the mount is writable and the path open already |
| SharedOpens.OpenSucceedsExactly | adb_filesystem.go:426-443 | which opens succeed, for all flag words: none that modifies on a read-only mount, any of an open path, else those that find or may create the file and have write access if they modify |
| SharedOpens.PermittedExactly | adb_file.go:77-165 | what a handle may do, by the low two bits of its flags |
| SharedOpens.RequestsAreCounted | file_buffer.go:235-259 | nothing changes the device but what counts as a request to it |
| SharedOpens.JoiningOpenDoesNotTruncate | open_files.go:43-55 | a run from a fresh mount in which an open with O_TRUNC leaves the byte of a file where it was |
| Durability.WrittenByteIsReadEver | adb_file.go:69-152 | in every disciplined interleaving that keeps one buffer per path, a byte written through one handle is read through any other, one opened after the buffer was released included, with failing saves and the shrink loop as written, as long as the other actions preserve it |
| Durability.StepKept | file_buffer.go:74-189 | which single actions preserve a byte of a path, in its buffer while it has one and on the device while it has none |
| ReopenedFile.WrittenAndReadBack | adb_file.go:69-152 | a run from a fresh mount that meets all these conditions: a file is opened, written, flushed, closed and released, opened again, and the byte is read |
| AdbFileSystems.AdbFileSystem.CreateFile | adb_filesystem.go:426-443 | a handle on the mapped buffer unless the guard or the first open refuses, which changes neither map nor device; on a first open the permissions, contents, dirt and device file are those asked for; read-only handles cannot write and their buffers start clean |
| AdbFileSystems.AdbFileSystem.Create | adb_filesystem.go:392-411 | adds flags until the handle can write, so a read-only file system refuses every call and a writable one only what the first open refuses; a new file is empty and has the permissions asked for |
| AdbFileSystems.AdbFileSystem.Open | adb_filesystem.go:413-424 | as `CreateFile`, with the permissions left to the file or the default |
| AdbFileSystems.AdbFileSystem.ModifyDevice | adb_filesystem.go:447-567 | mkdir, mv, rmdir and rm are issued if and only if the file system is writable |
| OpenFlags.ReadOpen | file_open_flags.go:31-43 | for all 2^32 flag words, an open that is no write operation can read and not write and neither creates nor truncates |
| OpenFlags.CreateOpensForWriting | adb_filesystem.go:397-403 | `Create` always yields a write handle; when it can read |
| OpenFlags.AccessMode | file_open_flags.go:31-43 | read and write access as a function of the low two bits |
| OpenFlags.WriteOpBits | adb_filesystem.go:426-431 | a read-only file system lets through exactly the flag words without the five modifying bits |
| OpenFlags.CreateFlagBits | adb_filesystem.go:397-403 | the flags that `Create` passes on, bit by bit |
| DevicePaths.SplitsBack | caching_device_client.go:46-47 | the directory key of a name is the path under which its directory is listed |
| DevicePaths.OnlyRootIsItsOwnDir | caching_device_client.go:49-52 | of the clean absolute paths, directory and base agree for the root and nothing else |
| DevicePaths.RenderIsInjective | caching_device_client.go:46-47 | different clean paths are different keys |
| DevicePaths.RelativeNamesMiss | adb_filesystem.go:139-145 | the directory of a relative name, as a link may give, is relative: no listing is cached under it |
| DevicePaths.RelativeSplitsBack | caching_device_client.go:46-47 | a clean relative name is its own cleaning and splits into its directory and base |
| DevicePaths.DotIsNothing | adb_filesystem.go:674-676 | a trailing dot makes no difference to a cleaned path |
| DevicePaths.UpUndoesDown | adb_filesystem.go:674-676 | going into a directory and up again makes none |
| DevicePaths.DevicePathIsClean | adb_filesystem.go:674-676 | the device path joined from any root and any client name is a clean absolute path |
| DevicePaths.DevicePathsKeepApart | adb_filesystem.go:674-676 | under one root, clean client names, with or without a leading slash, give the path of the root and then theirs, and the same path if and only if they are the same |
| DevicePaths.AnyRoot | adb_filesystem.go:78 | the slash a configured root ends in makes no difference, and without a root a clean client name is its own device path |
| DirCache.NewCachedDirEntries | caching_device_client.go:32-43 | the list as it is, and a table with the last entry of each name |
| DirCache.TableAgrees | caching_device_client.go:38-40 | the table of a listing answers for every name, present or absent, as the directory does |
| DirCache.LastOfItsName | caching_device_client.go:38-40 | of several entries with one name the table has the last |
| DirCache.DirEntryCache.Get | dir_entry_cache.go:49-56 | an entry that has not expired, or nothing |
| DirCache.DirEntryCache.GetOrLoad | dir_entry_cache.go:35-47 | a hit changes nothing, a failed load stores nothing, a load is stored at the time it is done |
| DirCache.DirEntryCache.RemoveEventually | dir_entry_cache.go:58-60 | only schedules the delete |
| DirCache.CachingDeviceClient.Stat | caching_device_client.go:45-70 | for any name, clean or not, absolute or not: one that is its own directory goes to the device, a cached directory answers for every name in it, anything else goes to the device |
| DirCache.CachingDeviceClient.ListDirEntries | caching_device_client.go:72-86 | the cached list, or the device's, which is then stored |
| DirCache.CachingDeviceClient.CloseWriter | caching_device_client.go:88-108 | schedules removal of the directory of the file, whether or not the close succeeds |
| CacheTheory.BoundedStaleness | caching_device_client.go:45-86 | every cached answer, positive or negative, is what the device said at an instant no longer ago than the time to live plus that load's duration |
| CacheTheory.LoadIsTimed | dir_entry_cache.go:35-47 | the duration in that bound is the time between the beginning of a load and its store |
| CacheTheory.ListingIsServed | dir_entry_cache.go:35-56 | a listing that is loaded and stored is served, with the answers the device gave |
| CacheTheory.ServedUntilExpiry | dir_entry_cache.go:49-56 | an item is served until it expires, in every run in which nobody deletes it |
| CacheTheory.DirectoryAfter | dir_entry_cache.go:35-60 | what each action does to one directory in the cache and to the deletes outstanding for it |
| CacheTheory.WriteVisibilityExact | caching_device_client.go:88-108 | once the delete after a write has run, no older listing ever enters the cache again if and only if no load that listed the directory before the write is under way |
| CacheTheory.LaterAnswersReflectTheWrite | caching_device_client.go:54-65 | then every later cached answer is one the device gave since the write |
| Visibility.FlushedLengthIsSeen | caching_device_client.go:88-108 | after a successful flush through a mount handle and the removal it schedules, with no older listing under way, every cached Stat of the file shows the flushed length |
| ProcessTracking.ProcessTracker.Go | internal/cli/process_tracker.go:46-79 | refuses after shutdown and for a running key, else registers a fresh context |
| ProcessTracking.ProcessTracker.Sweep | internal/cli/process_tracker.go:92-107 | removes the key and counts down, or panics if its context is not done |
| ProcessTracking.ProcessTracker.CancelAll | internal/cli/process_tracker.go:84-85 | every registered context is done |
| TrackerTheory.TrackerStaysInStep | internal/cli/process_tracker.go:46-107 | in every interleaving: counter = mapped keys = keys of live goroutines, one each; no sweep panics; after the cancel every registered context is done |
| TrackerTheory.ShutdownIsFinalExactly | internal/cli/process_tracker.go:47-85 | when the wait returns no process is left, and none ever starts again if and only if no `Go` call is past its first check |
| TrackerTheory.ProcessStarts | internal/cli/process_tracker.go:46-79 | a `Go` call on a fresh tracker starts its process |
| TrackerTheory.ProcessEnds | internal/cli/process_tracker.go:70-117 | when the process has returned and been swept, a shutdown has nothing to wait for |
| ClientPool.DeadlockFree | adb_filesystem.go:666-672 | however threads interleave, each making any calls in turn: clients in the pool and in use are always one, giving back never waits, and while a thread is in a call some thread can move |
| ClientPool.ProgramsRespectTheOrder | open_files.go:39-81 | what each call takes and gives back keeps to one order, a client or the map lock with empty hands and a file lock at most inside the map lock, and ends with empty hands |
| ClientPool.WhatProgramsDo | file_buffer.go:133-189 | what each call takes in all, and how often it calls the device |
| LinkResolver.ReadLinkRecursively | adb_filesystem.go:121-152 | returns a result if and only if it is how the chain of links ends, with at most 65 readlinks and one stat more than links followed |
| LinkResolver.LineIsRead | adb_filesystem.go:346-366 | the printed line is the target without its CR LF, and the two messages of the command are their errors |
| LinkResolver.EndIsUnique | adb_filesystem.go:121-152 | a chain of links ends in one place and in one way |
| LinkResolver.TooDeepExactly | adb_filesystem.go:132-136 | too deep if and only if the 66th path is a link; on every cycle |
| LinkResolver.SixtyFiveLinksResolve | adb_filesystem.go:25-136 | a chain of 65 links resolves |
| LinkResolver.ResolvesPastTheLimit | adb_filesystem.go:25-136 | such a chain, one link longer than the constant |
| Statfs.ParseStatfs | adb_filesystem.go:187-275 | the loop is a fold of the word machine, stopping at the first value that is no number |
| StatfsKeys.AcceptsExactly | adb_filesystem.go:208-266 | whatever the words are, the parser accepts them if and only if no word stands as the value of a numeric key without being a number, keys and values being told by where the colon words are; otherwise it reports the first such word and its key |
| StatfsTheory.WordsOfSpread | adb_filesystem.go:192-193 | scanning gives back the words for every amount of whitespace |
| StatfsTheory.AsciiSpaces | adb_filesystem.go:192-193 | which ASCII characters separate words |
| StatfsTheory.AtoiDecimal | adb_filesystem.go:222 | a printed number reads back if and only if it fits an int64 |
| StatfsTheory.AtoiSigned | adb_filesystem.go:222 | the same with a sign in front |
| StatfsTheory.StrayNumbersAreIgnored | adb_filesystem.go:225-261 | a number disturbs only the field of its key and scope |
| StatfsTheory.RoundTripExact | adb_filesystem.go:187-275 | parsing the documented layout returns the record if and only if its numbers are in range and the words of the quoted name put no non-number where a numeric key wants its value |
| StatfsTheory.RoundTrip | adb_filesystem.go:187-275 | for every spacing and every in-range record, when no word of the quoted name ends in a colon |
| StatfsTheory.ColonNameFails | adb_filesystem.go:208-266 | a file name that makes the parser reject the whole output, whatever else it says |

## Left out

- The adb transport, FUSE, mounting, signals, launching processes and all logging.
- The error values themselves, beyond which call failed, and their mapping to errno.
- What mkdir, mv, rmdir and rm do: on a writable mount such a command leaves the device in any state. None of them removes anything from the directory cache, so their effect is seen there only when an entry expires.
- Running out of memory in a reallocation, and a Go `int` of 32 bits.
- A run that goes on after a panic: theorems about runs take operations inside the signed 64-bit range, and `FileTheory.PanicsExact` says that these are the ones that do not panic.
- The expiring map of go-cache serves an entry up to and including its expiry time and is used with a positive time to live; what the library makes of zero or less is not modelled.
- The spare bytes behind a file that `ioutil.ReadAll` returns are arbitrary; that they are zero is a hypothesis of the refinement theorems.
- `bufio.Scanner` refuses a word of 64 KiB, upon which the parser returns neither a record nor an error; words are of any length here.
- The programs of `ClientPool` list what each call takes and gives back by its source lines; they are not extracted from the classes, whose methods run without interruption.
- Fairness: nothing is said about which goroutine runs next. Device calls are assumed to return.
- The unlocked reads of the dirty mark in `release` and of the contents for display are single atomic reads, and the warning logged when a dirty buffer is released has no effect.
- Open-flag values are those of Linux.
