/** The cache of directory listings and the client that answers from it. */
module DirCache {
  import opened Wrappers
  import opened DevicePaths

  datatype Attrs = Attrs(mode: nat, size: nat, mtime: int)

  datatype DirEntry = DirEntry(name: string, attrs: Attrs)

  datatype CachedDirEntries = CachedDirEntries(inOrder: seq<DirEntry>, byName: map<string, DirEntry>)

  /** The last entry of each name. */
  function ByName(entries: seq<DirEntry>): map<string, DirEntry> {
    if entries == [] then map[]
    else
      var last := entries[|entries| - 1];
      ByName(entries[..|entries| - 1])[last.name := last]
  }

  method NewCachedDirEntries(entries: seq<DirEntry>) returns (r: CachedDirEntries)
    ensures r == CachedDirEntries(entries, ByName(entries))
  {
    var byName := map[];
    for i := 0 to |entries|
      invariant byName == ByName(entries[..i])
    {
      byName := byName[entries[i].name := entries[i]];
      assert entries[..i + 1][..i] == entries[..i];
    }
    assert entries[..|entries|] == entries;
    r := CachedDirEntries(entries, byName);
  }

  /** A listing holds exactly the entries of a directory, in any order. */
  ghost predicate Lists(entries: seq<DirEntry>, dir: map<string, Attrs>) {
    && (forall e | e in entries :: e.name in dir && dir[e.name] == e.attrs)
    && (forall n | n in dir :: DirEntry(n, dir[n]) in entries)
  }

  /** The table built from a listing answers for every name, present or absent, as the directory would. */
  lemma {:induction false} TableAgrees(entries: seq<DirEntry>, dir: map<string, Attrs>, n: string)
    requires Lists(entries, dir)
    ensures n in ByName(entries) <==> n in dir
    ensures n in dir ==> ByName(entries)[n] == DirEntry(n, dir[n])
  {
    TableHolds(entries, n);
    if n in dir {
      var e := DirEntry(n, dir[n]);
      assert e in entries;
    }
  }

  lemma {:induction false} TableHolds(entries: seq<DirEntry>, n: string)
    ensures n in ByName(entries) <==> exists e :: e in entries && e.name == n
    ensures n in ByName(entries) ==> ByName(entries)[n] in entries && ByName(entries)[n].name == n
  {
    if entries != [] {
      var init, last := entries[..|entries| - 1], entries[|entries| - 1];
      assert entries == init + [last];
      TableHolds(init, n);
    }
  }

  /** Of several entries with one name, the table has the last. */
  lemma {:induction false} LastOfItsName(entries: seq<DirEntry>, i: nat)
    requires i < |entries| && forall k | i < k < |entries| :: entries[k].name != entries[i].name
    ensures entries[i].name in ByName(entries) && ByName(entries)[entries[i].name] == entries[i]
    decreases |entries|
  {
    if i < |entries| - 1 {
      LastOfItsName(entries[..|entries| - 1], i);
    }
  }

  // ----- the expiring map -----

  datatype Item = Item(value: CachedDirEntries, storedAt: int)

  /** What the cache library serves: an entry no older than the time to live. */
  function Lookup(items: map<string, Item>, ttl: int, dir: string, now: int): Option<Item> {
    if dir in items && now <= items[dir].storedAt + ttl then Some(items[dir]) else None
  }

  class DirEntryCache {
    const ttl: int
    var items: map<string, Item>
    /** Deletes handed to goroutines that have not run yet. */
    var deletes: multiset<string>

    constructor (ttl: int)
      ensures this.ttl == ttl && items == map[] && deletes == multiset{}
    {
      this.ttl, items, deletes := ttl, map[], multiset{};
    }

    method Get(dir: string, now: int) returns (r: Option<CachedDirEntries>)
      ensures r == match Lookup(items, ttl, dir, now) case Some(item) => Some(item.value) case None => None
    {
      if dir in items && now <= items[dir].storedAt + ttl {
        r := Some(items[dir].value);
      } else {
        r := None;
      }
    }

    /** `loaded` is what the loader returns if it is called, `storeTime` the time when it is done. */
    method GetOrLoad(dir: string, now: int, loaded: Option<CachedDirEntries>, storeTime: int)
      returns (r: Option<CachedDirEntries>, hit: bool)
      modifies this`items
      ensures hit == Lookup(old(items), ttl, dir, now).Some?
      ensures r == if hit then Some(old(items)[dir].value) else loaded
      ensures items == if hit || loaded.None? then old(items) else old(items)[dir := Item(loaded.value, storeTime)]
    {
      r := Get(dir, now);
      hit := r.Some?;
      if hit {
        return;
      }
      r := loaded;
      if r.None? {
        return;
      }
      items := items[dir := Item(r.value, storeTime)];
    }

    method RemoveEventually(dir: string)
      modifies this`deletes
      ensures deletes == old(deletes) + multiset{dir}
    {
      deletes := deletes + multiset{dir};
    }

    /** One of the goroutines runs. */
    method RunDelete(dir: string)
      requires dir in deletes
      modifies this
      ensures deletes == old(deletes) - multiset{dir} && items == old(items) - {dir}
    {
      deletes, items := deletes - multiset{dir}, items - {dir};
    }
  }

  // ----- the caching client -----

  /** What the device, or the cache in its place, says of a name. */
  datatype StatAnswer = Exists(entry: DirEntry) | NoExist | DeviceFails

  /** The answer the cache gives for `base` in `dir`, if it gives one. */
  function FromCache(items: map<string, Item>, ttl: int, dir: string, base: string, now: int): Option<StatAnswer> {
    match Lookup(items, ttl, dir, now)
    case None => None
    case Some(item) => Some(if base in item.value.byName then Exists(item.value.byName[base]) else NoExist)
  }

  class CachingDeviceClient {
    const cache: DirEntryCache

    constructor (cache: DirEntryCache)
      ensures this.cache == cache
    {
      this.cache := cache;
    }

    /** `device` is what the wrapped client would answer now. */
    method Stat(name: string, now: int, device: StatAnswer) returns (r: StatAnswer)
      ensures r == if Dir(name) == Base(name) then device
                   else match FromCache(cache.items, cache.ttl, Dir(name), Base(name), now)
                        case Some(answer) => answer
                        case None => device
    {
      var dir, base := Dir(name), Base(name);
      if dir == base {
        return device;
      }
      var found := cache.Get(dir, now);
      match found {
        case Some(entries) =>
          return if base in entries.byName then Exists(entries.byName[base]) else NoExist;
        case None =>
          return device;
      }
    }

    /** `device` is what listing the wrapped client yields, if it is asked. */
    method ListDirEntries(dir: string, now: int, device: Option<seq<DirEntry>>, storeTime: int)
      returns (r: Option<seq<DirEntry>>)
      modifies cache`items
      ensures Lookup(old(cache.items), cache.ttl, dir, now).Some? ==>
                r == Some(old(cache.items)[dir].value.inOrder) && cache.items == old(cache.items)
      ensures Lookup(old(cache.items), cache.ttl, dir, now).None? ==>
                r == device
                && cache.items == if device.None? then old(cache.items)
                                  else old(cache.items)[dir := Item(CachedDirEntries(device.value, ByName(device.value)), storeTime)]
    {
      var loaded := None;
      if device.Some? {
        var entries := NewCachedDirEntries(device.value);
        loaded := Some(entries);
      }
      var entries, hit := cache.GetOrLoad(dir, now, loaded, storeTime);
      r := match entries case Some(e) => Some(e.inOrder) case None => None;
    }

    /** Closing a writer of `name` schedules the removal of its directory, whether or not the close
        succeeds. */
    method CloseWriter(name: string)
      modifies cache`deletes
      ensures cache.deletes == old(cache.deletes) + multiset{Dir(name)}
    {
      cache.RemoveEventually(Dir(name));
    }
  }
}
