/** A flush through the mount, seen through the directory cache. */
module Visibility {
  import opened Wrappers
  import opened DevicePaths
  import opened DirCache
  import opened DirtyTime
  import opened FileSpec
  import opened FileBuffers
  import opened Releasing
  import opened FileSystem
  import C = CacheTheory

  /** A successful flush of a dirty buffer puts its bytes on the device. */
  lemma FlushStores(check: ReleaseCheck, s: Sys, h: nat, save: SaveIo)
    requires Enabled(s, Op(h, Flush(save))) && Permitted(s.flags[h], Flush(save)) && save.Saves?
    requires s.files[s.proto.handles[h]].stamp != CLEAN
    ensures var path := s.proto.paths[s.proto.handles[h]];
            Get(Next(check, s, Op(h, Flush(save))).device, path) ==
              Some(DevFile(s.files[s.proto.handles[h]].buf.Data(), s.files[s.proto.handles[h]].perms))
  {
  }

  /** A handle flushes a dirty buffer, which schedules the removal of the file's directory from the cache; the
      flush is instant `w` of the device, which shows the file with its length ever after. Once the removal has run,
      with no older listing of the directory under way, every cached `Stat` of the file shows the length that
      was flushed. */
  lemma FlushedLengthIsSeen(check: ReleaseCheck, s: Sys, h: nat, names: seq<string>, c: string,
                            cache: C.State, w: nat, acts: seq<C.Action>)
    requires AllNames(names) && IsName(c)
    requires Enabled(s, Op(h, Flush(Saves))) && Permitted(s.flags[h], Flush(Saves))
    requires s.proto.paths[s.proto.handles[h]] == Render(names + [c]) && s.files[s.proto.handles[h]].stamp != CLEAN
    requires C.Sound(cache) && Dir(Render(names + [c])) in cache.deletes && w < |cache.history|
    requires C.NoStaleLoad(cache, Dir(Render(names + [c])), w)
    requires C.Enabled(cache, C.Delete(Dir(Render(names + [c]))))
    requires C.Runs(C.Next(cache, C.Delete(Dir(Render(names + [c])))), acts)
    requires var t := C.Exec(C.Next(cache, C.Delete(Dir(Render(names + [c])))), acts);
             forall i | w <= i < |t.history| ::
               var answer := C.Uncached(t.history[i].device, Render(names), c);
               var file := Get(Next(check, s, Op(h, Flush(Saves))).device, Render(names + [c]));
               file.Some? ==> answer.Exists? && answer.entry.attrs.size == |file.value.bytes|
    ensures var t := C.Exec(C.Next(cache, C.Delete(Dir(Render(names + [c])))), acts);
            var path := Render(names + [c]);
            t.history != []
            && match FromCache(t.items, t.ttl, Dir(path), Base(path), C.Now(t))
               case None => true
               case Some(answer) => answer.Exists? && answer.entry.attrs.size == |s.files[s.proto.handles[h]].buf.Data()|
  {
    var path := Render(names + [c]);
    var dir := Render(names);
    SplitsBack(names, c);
    FlushStores(check, s, h, Saves);
    C.LaterAnswersReflectTheWrite(cache, dir, w, acts, c);
    var t := C.Exec(C.Next(cache, C.Delete(dir)), acts);
    hide C.Exec, C.Next, C.Runs, C.Sound, FileSystem.Next, Dir, Base, C.NoStaleLoad, C.Enabled, FileSystem.Enabled;
    var answer := FromCache(t.items, t.ttl, dir, c, C.Now(t));
    if answer.Some? {
      var i :| w <= i < |t.history| && answer == Some(C.Uncached(t.history[i].device, dir, c));
      assert C.Uncached(t.history[i].device, dir, c) == answer.value;
    }
  }
}
