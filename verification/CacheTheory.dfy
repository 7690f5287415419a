/** The cache against a changing device: loads take a snapshot and store it later, deletes run whenever
    their goroutine does, and the device changes at any time. */
module CacheTheory {
  import opened Wrappers
  import opened DirCache

  type Device = map<string, map<string, Attrs>>

  /** A moment in the life of the device. */
  datatype Instant = Instant(time: int, device: Device)

  /** A directory listing on its way to the cache: when it was begun, and once the device has answered,
      the moment and the content of the answer. */
  datatype Load = Begun(dir: string, startedAt: int) | Listed(dir: string, startedAt: int, snap: nat, entries: seq<DirEntry>)

  /** Where a cached item comes from. */
  datatype Origin = Origin(startedAt: int, snap: nat)

  datatype State = State(
    ttl: int,
    history: seq<Instant>,          // the last one is now
    items: map<string, Item>,
    origins: map<string, Origin>,
    loads: map<nat, Load>,
    deletes: multiset<string>)

  datatype Action =
    | Pass(time: int)               // the clock moves on
    | Change(device: Device)        // somebody changes the device
    | Begin(id: nat, dir: string)   // a listing misses the cache
    | List(id: nat, entries: seq<DirEntry>)
    | Store(id: nat)
    | Abandon(id: nat)              // the listing fails
    | Schedule(dir: string)         // a writer is closed
    | Delete(dir: string)
    | Purge(dir: string)            // the library drops an expired entry

  function Last(s: State): Instant
    requires s.history != []
  {
    s.history[|s.history| - 1]
  }

  function Now(s: State): int
    requires s.history != []
  {
    Last(s).time
  }

  function DirAt(d: Device, dir: string): map<string, Attrs> {
    if dir in d then d[dir] else map[]
  }

  /** What the device itself answers; its `Stat` and its listing agree. */
  function Uncached(d: Device, dir: string, base: string): StatAnswer {
    if base in DirAt(d, dir) then Exists(DirEntry(base, DirAt(d, dir)[base])) else NoExist
  }

  ghost predicate Enabled(s: State, a: Action) {
    s.history != [] &&
    match a
    case Pass(time) => time >= Now(s)
    case Begin(id, dir) => id !in s.loads && Lookup(s.items, s.ttl, dir, Now(s)).None?
    case List(id, entries) => id in s.loads && s.loads[id].Begun? && Lists(entries, DirAt(Last(s).device, s.loads[id].dir))
    case Store(id) => id in s.loads && s.loads[id].Listed?
    case Abandon(id) => id in s.loads
    case Delete(dir) => dir in s.deletes
    case Purge(dir) => dir in s.items && Lookup(s.items, s.ttl, dir, Now(s)).None?
    case _ => true
  }

  ghost function Next(s: State, a: Action): State
    requires Enabled(s, a)
  {
    match a
    case Pass(time) => s.(history := s.history + [Instant(time, Last(s).device)])
    case Change(device) => s.(history := s.history + [Instant(Now(s), device)])
    case Begin(id, dir) => s.(loads := s.loads[id := Begun(dir, Now(s))])
    case List(id, entries) =>
      s.(loads := s.loads[id := Listed(s.loads[id].dir, s.loads[id].startedAt, |s.history| - 1, entries)])
    case Store(id) =>
      var l := s.loads[id];
      s.(items := s.items[l.dir := Item(CachedDirEntries(l.entries, ByName(l.entries)), Now(s))],
         origins := s.origins[l.dir := Origin(l.startedAt, l.snap)],
         loads := s.loads - {id})
    case Abandon(id) => s.(loads := s.loads - {id})
    case Schedule(dir) => s.(deletes := s.deletes + multiset{dir})
    case Delete(dir) => Forget(s, dir).(deletes := s.deletes - multiset{dir})
    case Purge(dir) => Forget(s, dir)
  }

  function Forget(s: State, dir: string): State {
    s.(items := s.items - {dir}, origins := s.origins - {dir})
  }

  ghost predicate Runs(s: State, acts: seq<Action>)
    decreases |acts|
  {
    acts != [] ==> Enabled(s, acts[0]) && Runs(Next(s, acts[0]), acts[1..])
  }

  ghost function Exec(s: State, acts: seq<Action>): State
    requires Runs(s, acts)
    decreases |acts|
  {
    if acts == [] then s else Exec(Next(s, acts[0]), acts[1..])
  }

  /** The device changes when it likes, time does not go back, a load may fail, and a delete may be asked for,
      at any moment. */
  lemma WhatCanHappen(s: State, time: int, device: Device, id: nat, dir: string)
    requires s.history != []
    ensures Enabled(s, Change(device)) && Enabled(s, Schedule(dir))
    ensures Now(s) <= time ==> Enabled(s, Pass(time))
    ensures id in s.loads ==> Enabled(s, Abandon(id))
    ensures id !in s.loads && Lookup(s.items, s.ttl, dir, Now(s)).None? ==> Enabled(s, Begin(id, dir))
    ensures dir in s.deletes ==> Enabled(s, Delete(dir))
    ensures dir in s.items && Now(s) > s.items[dir].storedAt + s.ttl ==> Enabled(s, Purge(dir))
  {
  }

  /** One directory in the cache: each close schedules one delete, each delete that runs takes one of them and
      the listing away; a store puts one there; an expired one may go; nothing else touches it. */
  lemma DirectoryAfter(s: State, a: Action, dir: string)
    requires Enabled(s, a)
    ensures var t := Next(s, a);
            && t.deletes[dir] == s.deletes[dir] + (if a == Schedule(dir) then 1 else 0) - (if a == Delete(dir) then 1 else 0)
            && (a == Delete(dir) || a == Purge(dir) ==> dir !in t.items)
            && (a.Store? && s.loads[a.id].dir == dir ==> dir in t.items && t.items[dir].value.inOrder == s.loads[a.id].entries)
            && (a != Delete(dir) && a != Purge(dir) && !(a.Store? && s.loads[a.id].dir == dir) ==>
                  (dir in t.items <==> dir in s.items) && (dir in t.items ==> t.items[dir] == s.items[dir]))
  {
    hide Lists;
  }

  // ----- staleness -----

  /** A listing taken from the device at instant `snap`, no earlier than `startedAt`. */
  ghost predicate Genuine(history: seq<Instant>, dir: string, startedAt: int, snap: nat, entries: seq<DirEntry>) {
    && snap < |history|
    && history[snap].time >= startedAt
    && Lists(entries, DirAt(history[snap].device, dir))
  }

  ghost predicate Sound(s: State) {
    && s.history != []
    && (forall i | 0 <= i < |s.history| :: s.history[i].time <= Now(s))
    && s.items.Keys == s.origins.Keys
    && (forall d | d in s.items ::
          && s.items[d].value == CachedDirEntries(s.items[d].value.inOrder, ByName(s.items[d].value.inOrder))
          && Genuine(s.history, d, s.origins[d].startedAt, s.origins[d].snap, s.items[d].value.inOrder))
    && (forall l | l in s.loads :: s.loads[l].startedAt <= Now(s))
    && (forall l | l in s.loads && s.loads[l].Listed? ::
          Genuine(s.history, s.loads[l].dir, s.loads[l].startedAt, s.loads[l].snap, s.loads[l].entries))
  }

  /** An empty cache is sound. */
  lemma InitQualifies(ttl: int, now: Instant)
    ensures Sound(State(ttl, [now], map[], map[], map[], multiset{}))
  {
  }

  lemma HistoryGrows(s: State, i: Instant)
    requires Sound(s) && i.time >= Now(s)
    ensures Sound(s.(history := s.history + [i]))
  {
    hide Lists;
  }

  lemma LoadSound(s: State, id: nat, entries: seq<DirEntry>)
    requires Sound(s) && Enabled(s, List(id, entries))
    ensures Sound(Next(s, List(id, entries)))
  {
    hide Lists;
  }

  lemma StoreSound(s: State, id: nat)
    requires Sound(s) && Enabled(s, Store(id))
    ensures Sound(Next(s, Store(id)))
  {
    hide Genuine;
  }

  lemma RestSound(s: State, a: Action)
    requires Sound(s) && Enabled(s, a) && !a.List? && !a.Store? && !a.Pass? && !a.Change?
    ensures Sound(Next(s, a))
  {
    hide Genuine, Lists;
  }

  lemma StepSound(s: State, a: Action)
    requires Sound(s) && Enabled(s, a)
    ensures Sound(Next(s, a))
  {
    hide Genuine, Lists, Sound;
    match a
    case List(id, entries) => LoadSound(s, id, entries);
    case Store(id) => StoreSound(s, id);
    case Pass(time) => HistoryGrows(s, Instant(time, Last(s).device));
    case Change(device) => HistoryGrows(s, Instant(Now(s), device));
    case _ => RestSound(s, a);
  }

  lemma {:induction false} RunSound(s: State, acts: seq<Action>)
    requires Sound(s) && Runs(s, acts)
    ensures Sound(Exec(s, acts))
    decreases |acts|
  {
    if acts != [] {
      hide Sound, Next;
      StepSound(s, acts[0]);
      RunSound(Next(s, acts[0]), acts[1..]);
    }
  }

  /** A cached answer for `base` in `dir` is the one the device gives at the snapshot of its item. */
  lemma AnswerOfSnapshot(s: State, dir: string, base: string)
    requires Sound(s) && FromCache(s.items, s.ttl, dir, base, Now(s)).Some?
    ensures FromCache(s.items, s.ttl, dir, base, Now(s)).value ==
              Uncached(s.history[s.origins[dir].snap].device, dir, base)
  {
    var snap := s.origins[dir].snap;
    TableAgrees(s.items[dir].value.inOrder, DirAt(s.history[snap].device, dir), base);
  }

  /** In every run, each answer the cache gives, positive or negative, is the answer the device itself
      gave at some instant no longer ago than the time to live plus the time its load took. */
  lemma BoundedStaleness(s: State, acts: seq<Action>, dir: string, base: string)
    requires Sound(s) && Runs(s, acts)
    ensures var t := Exec(s, acts);
            Sound(t)
            && (FromCache(t.items, t.ttl, dir, base, Now(t)).Some? ==>
                  var loadTime := t.items[dir].storedAt - t.origins[dir].startedAt;
                  exists i | 0 <= i < |t.history| ::
                    FromCache(t.items, t.ttl, dir, base, Now(t)) == Some(Uncached(t.history[i].device, dir, base))
                    && Now(t) - t.history[i].time <= t.ttl + loadTime)
  {
    RunSound(s, acts);
    var t := Exec(s, acts);
    if FromCache(t.items, t.ttl, dir, base, Now(t)).Some? {
      AnswerOfSnapshot(t, dir, base);
      var i := t.origins[dir].snap;
      assert t.history[i].time >= t.origins[dir].startedAt;
    }
  }

  // ----- what the cache is for -----

  /** A listing of the device that is begun, answered and stored is served from then on, with the answer that
      the device gave. */
  lemma ListingIsServed(ttl: int, now: Instant, dir: string, base: string, entries: seq<DirEntry>)
    requires ttl >= 0 && Lists(entries, DirAt(now.device, dir))
    ensures var s := State(ttl, [now], map[], map[], map[], multiset{});
            var acts := [Begin(0, dir), List(0, entries), Store(0)];
            Runs(s, acts)
            && var t := Exec(s, acts);
               t.history == [now]
               && FromCache(t.items, ttl, dir, base, now.time) == Some(Uncached(now.device, dir, base))
  {
    var s := State(ttl, [now], map[], map[], map[], multiset{});
    var t1 := s.(loads := map[0 := Begun(dir, now.time)]);
    var t2 := s.(loads := map[0 := Listed(dir, now.time, 0, entries)]);
    var t3 := s.(items := map[dir := Item(CachedDirEntries(entries, ByName(entries)), now.time)],
                 origins := map[dir := Origin(now.time, 0)]);
    assert Next(s, Begin(0, dir)) == t1;
    assert Next(t1, List(0, entries)) == t2;
    assert Next(t2, Store(0)) == t3;
    TableAgrees(entries, DirAt(now.device, dir), base);
    assert [Begin(0, dir), List(0, entries), Store(0)][1..] == [List(0, entries), Store(0)];
    assert [List(0, entries), Store(0)][1..] == [Store(0)] && [Store(0)][1..] == [];
    assert Runs(t3, []) && Exec(t3, []) == t3;
    assert Runs(t2, [Store(0)]) && Exec(t2, [Store(0)]) == t3;
    assert Runs(t1, [List(0, entries), Store(0)]) && Exec(t1, [List(0, entries), Store(0)]) == t3;
  }

  /** An item stored at `storedAt` is in the cache, or a later one is, or its time has run out. */
  ghost predicate ServedOrExpired(s: State, dir: string, storedAt: int) {
    s.history != []
    && storedAt <= Now(s)
    && ((dir in s.items && s.items[dir].storedAt >= storedAt) || Now(s) > storedAt + s.ttl)
  }

  lemma StepServed(s: State, a: Action, dir: string, storedAt: int)
    requires Enabled(s, a) && a != Delete(dir) && ServedOrExpired(s, dir, storedAt)
    ensures ServedOrExpired(Next(s, a), dir, storedAt) && Next(s, a).ttl == s.ttl
  {
    hide Lists;
  }

  /** An item is served until it expires, in every run in which nobody deletes it. */
  lemma {:induction false} ServedUntilExpiry(s: State, acts: seq<Action>, dir: string, base: string, storedAt: int)
    requires Runs(s, acts) && (forall a | a in acts :: a != Delete(dir)) && ServedOrExpired(s, dir, storedAt)
    ensures var t := Exec(s, acts);
            t.history != []
            && (Now(t) <= storedAt + s.ttl ==> FromCache(t.items, t.ttl, dir, base, Now(t)).Some?)
    decreases |acts|
  {
    if acts != [] {
      hide Next, ServedOrExpired;
      assert acts[0] in acts && forall a | a in acts[1..] :: a in acts;
      StepServed(s, acts[0], dir, storedAt);
      ServedUntilExpiry(Next(s, acts[0]), acts[1..], dir, base, storedAt);
    }
  }

  lemma StepKeepsLoad(s: State, a: Action, id: nat)
    requires Enabled(s, a) && id in s.loads && a != Store(id) && a != Abandon(id)
    ensures var t := Next(s, a);
            id in t.loads && t.loads[id].startedAt == s.loads[id].startedAt && t.loads[id].dir == s.loads[id].dir
  {
    hide Lists;
  }

  /** A load is timed from the moment it begins, whatever happens until it is stored: the duration in the bound
      above is the time that passes between. */
  lemma {:induction false} LoadIsTimed(s: State, acts: seq<Action>, id: nat)
    requires Runs(s, acts) && id in s.loads && (forall a | a in acts :: a != Store(id) && a != Abandon(id))
    requires id in Exec(s, acts).loads && Enabled(Exec(s, acts), Store(id))
    ensures var t := Exec(s, acts);
            var u := Next(t, Store(id));
            var dir := s.loads[id].dir;
            dir in u.items && dir in u.origins && u.items[dir].storedAt == Now(t) && u.origins[dir].startedAt == s.loads[id].startedAt
    decreases |acts|
  {
    if acts != [] {
      assert acts[0] in acts && forall a | a in acts[1..] :: a in acts;
      StepKeepsLoad(s, acts[0], id);
      hide Next, Enabled;
      LoadIsTimed(Next(s, acts[0]), acts[1..], id);
    }
  }

  lemma LoadBeginsNow(s: State, id: nat, dir: string)
    requires Enabled(s, Begin(id, dir))
    ensures Next(s, Begin(id, dir)).loads[id] == Begun(dir, Now(s))
  {
  }

  // ----- visibility of writes -----

  /** The cache and the loads under way know nothing of `dir` from before instant `w`. */
  ghost predicate FreshSince(s: State, dir: string, w: nat) {
    && (dir in s.origins ==> s.origins[dir].snap >= w)
    && NoStaleLoad(s, dir, w)
  }

  /** No load of `dir` that listed the device before instant `w` is still under way. */
  ghost predicate NoStaleLoad(s: State, dir: string, w: nat) {
    forall l | l in s.loads && s.loads[l].Listed? && s.loads[l].dir == dir :: s.loads[l].snap >= w
  }

  lemma StepFresh(s: State, a: Action, dir: string, w: nat)
    requires Enabled(s, a) && w < |s.history| && FreshSince(s, dir, w)
    ensures FreshSince(Next(s, a), dir, w) && w < |Next(s, a).history|
  {
    hide Lists;
  }

  lemma {:induction false} RunFresh(s: State, acts: seq<Action>, dir: string, w: nat)
    requires Runs(s, acts) && w < |s.history| && FreshSince(s, dir, w)
    ensures FreshSince(Exec(s, acts), dir, w)
    decreases |acts|
  {
    if acts != [] {
      hide FreshSince, Next;
      StepFresh(s, acts[0], dir, w);
      RunFresh(Next(s, acts[0]), acts[1..], dir, w);
    }
  }

  /** Whatever happens next, an item of `dir` in the cache comes from instant `w` or later. */
  ghost predicate WriteStaysVisible(s: State, dir: string, w: nat) {
    forall acts | Runs(s, acts) :: var t := Exec(s, acts); dir in t.origins ==> t.origins[dir].snap >= w
  }

  /** Once the delete that follows a write at instant `w` has run, the write stays visible through the
      cache for ever exactly when no load that listed the directory before the write is under way. */
  lemma WriteVisibilityExact(s: State, dir: string, w: nat)
    requires Sound(s) && dir in s.deletes && w < |s.history|
    ensures Enabled(s, Delete(dir))
    ensures var t := Next(s, Delete(dir)); WriteStaysVisible(t, dir, w) <==> NoStaleLoad(s, dir, w)
  {
    var t := Next(s, Delete(dir));
    if NoStaleLoad(s, dir, w) {
      forall acts | Runs(t, acts)
        ensures var u := Exec(t, acts); dir in u.origins ==> u.origins[dir].snap >= w
      {
        RunFresh(t, acts, dir, w);
      }
    } else {
      var l :| l in s.loads && s.loads[l].Listed? && s.loads[l].dir == dir && s.loads[l].snap < w;
      StaleStore(t, l);
    }
  }

  /** A load that has listed the directory may store its listing at once. */
  lemma StaleStore(s: State, l: nat)
    requires s.history != [] && l in s.loads && s.loads[l].Listed?
    ensures Runs(s, [Store(l)])
    ensures var t := Exec(s, [Store(l)]);
            s.loads[l].dir in t.origins && t.origins[s.loads[l].dir].snap == s.loads[l].snap
  {
    assert [Store(l)][1..] == [];
    assert Exec(s, [Store(l)]) == Exec(Next(s, Store(l)), []);
  }

  /** Then every later answer from the cache is one the device gave at instant `w` or later. */
  lemma LaterAnswersReflectTheWrite(s: State, dir: string, w: nat, acts: seq<Action>, base: string)
    requires Sound(s) && dir in s.deletes && w < |s.history| && NoStaleLoad(s, dir, w)
    requires Enabled(s, Delete(dir)) && Runs(Next(s, Delete(dir)), acts)
    ensures var t := Exec(Next(s, Delete(dir)), acts);
            t.history != []
            && (FromCache(t.items, t.ttl, dir, base, Now(t)).Some? ==>
                  exists i | w <= i < |t.history| ::
                    FromCache(t.items, t.ttl, dir, base, Now(t)) == Some(Uncached(t.history[i].device, dir, base)))
  {
    WriteVisibilityExact(s, dir, w);
    StepSound(s, Delete(dir));
    var start := Next(s, Delete(dir));
    RunSound(start, acts);
    var t := Exec(start, acts);
    if FromCache(t.items, t.ttl, dir, base, Now(t)).Some? {
      AnswerOfSnapshot(t, dir, base);
      assert t.origins[dir].snap >= w;
    }
  }
}
