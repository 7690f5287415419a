/** Sharing one buffer per path, as an interleaving protocol. A decrement to zero happens outside the
    map lock and only schedules a release; the release runs later, under the lock. */
module OpenProtocol {
  import opened Releasing

  datatype Proto = Proto(
    open: map<string, nat>,    // buffersByPath
    paths: map<nat, string>,   // the path of every buffer ever made
    refs: map<nat, int>,       // and its reference count
    handles: map<nat, nat>,    // the buffer of every unreleased handle
    pending: multiset<nat>,    // releases scheduled and not yet run
    nextBuf: nat,
    nextHandle: nat)

  datatype Action = Acquire(path: string) | Drop(h: nat) | Finish(b: nat) | Idle

  const INIT := Proto(map[], map[], map[], map[], multiset{}, 0, 0)

  ghost predicate WellFormed(p: Proto) {
    && p.refs.Keys == p.paths.Keys
    && (forall h | h in p.handles :: h < p.nextHandle && p.handles[h] in p.paths)
    && (forall b | b in p.paths :: b < p.nextBuf)
    && (forall f | f in p.open :: p.open[f] in p.paths && p.paths[p.open[f]] == f)
    && (forall b | b in p.pending :: b in p.paths)
  }

  predicate Enabled(p: Proto, a: Action) {
    match a
    case Acquire(path) => path in p.open ==> p.open[path] in p.refs
    case Drop(h) => h in p.handles && p.handles[h] in p.refs
    case Finish(b) => b in p.pending && b in p.paths && b in p.refs
    case Idle => true
  }

  function Joined(p: Proto, b: nat): Proto
    requires b in p.refs
  {
    p.(refs := p.refs[b := p.refs[b] + 1], handles := p.handles[p.nextHandle := b], nextHandle := p.nextHandle + 1)
  }

  function Added(p: Proto, path: string): Proto {
    var b := p.nextBuf;
    p.(open := p.open[path := b], paths := p.paths[b := path], refs := p.refs[b := 1], nextBuf := b + 1,
       handles := p.handles[p.nextHandle := b], nextHandle := p.nextHandle + 1)
  }

  /** `GetOrLoad`, when it succeeds: the handle joins the mapped buffer or brings a new one. */
  function Acquired(p: Proto, path: string): Proto
    requires path in p.open ==> p.open[path] in p.refs
  {
    if path in p.open then Joined(p, p.open[path]) else Added(p, path)
  }

  /** `DecRefCount`. */
  function Dropped(p: Proto, h: nat): Proto
    requires h in p.handles && p.handles[h] in p.refs
  {
    var b := p.handles[h];
    p.(handles := p.handles - {h},
       refs := p.refs[b := p.refs[b] - 1],
       pending := p.pending + if p.refs[b] == 1 then multiset{b} else multiset{})
  }

  /** `release`. */
  function Finished(check: ReleaseCheck, p: Proto, b: nat): Proto
    requires b in p.paths && b in p.refs
  {
    p.(pending := p.pending - multiset{b}, open := Released(check, p.open, p.paths[b], b, p.refs[b]))
  }

  function Next(check: ReleaseCheck, p: Proto, a: Action): Proto
    requires Enabled(p, a)
  {
    match a
    case Acquire(path) => Acquired(p, path)
    case Drop(h) => Dropped(p, h)
    case Finish(b) => Finished(check, p, b)
    case Idle => p
  }

  predicate Runs(check: ReleaseCheck, p: Proto, acts: seq<Action>)
    decreases |acts|
  {
    acts != [] ==> Enabled(p, acts[0]) && Runs(check, Next(check, p, acts[0]), acts[1..])
  }

  function Exec(check: ReleaseCheck, p: Proto, acts: seq<Action>): Proto
    requires Runs(check, p, acts)
    decreases |acts|
  {
    if acts == [] then p else Exec(check, Next(check, p, acts[0]), acts[1..])
  }

  // ----- reference counts -----

  ghost function HandlesOf(p: Proto, b: nat): set<nat> {
    set h | h in p.handles && p.handles[h] == b
  }

  /** Every count is the number of unreleased handles, and a mapped buffer that nobody holds has a
      release on its way. */
  ghost predicate Counted(p: Proto) {
    && WellFormed(p)
    && (forall b | b in p.refs :: p.refs[b] == |HandlesOf(p, b)|)
    && (forall f | f in p.open :: p.refs[p.open[f]] == 0 ==> p.open[f] in p.pending)
  }

  lemma InitQualifies()
    ensures Counted(INIT) && Shared(INIT) && PendingMapped(INIT) && OncePending(INIT)
  {
  }

  lemma JoinWellFormed(p: Proto, b: nat)
    requires WellFormed(p) && b in p.refs
    ensures WellFormed(Joined(p, b))
  {
  }

  lemma AddWellFormed(p: Proto, path: string)
    requires WellFormed(p)
    ensures WellFormed(Added(p, path))
  {
  }

  lemma HandleAdded(p: Proto, q: Proto, h: nat, b: nat)
    requires h !in p.handles && q.handles == p.handles[h := b]
    ensures |HandlesOf(q, b)| == |HandlesOf(p, b)| + 1
    ensures forall c | c != b :: HandlesOf(q, c) == HandlesOf(p, c)
  {
    assert HandlesOf(q, b) == HandlesOf(p, b) + {h};
  }

  lemma HandleRemoved(p: Proto, q: Proto, h: nat)
    requires h in p.handles && q.handles == p.handles - {h}
    ensures |HandlesOf(q, p.handles[h])| == |HandlesOf(p, p.handles[h])| - 1
    ensures forall c | c != p.handles[h] :: HandlesOf(q, c) == HandlesOf(p, c)
  {
    assert HandlesOf(q, p.handles[h]) == HandlesOf(p, p.handles[h]) - {h};
  }

  lemma JoinCounted(p: Proto, b: nat)
    requires Counted(p) && b in p.refs
    ensures Counted(Joined(p, b))
  {
    hide HandlesOf;
    JoinWellFormed(p, b);
    assert p.nextHandle !in p.handles;
    HandleAdded(p, Joined(p, b), p.nextHandle, b);
  }

  lemma AddCounts(p: Proto, path: string)
    requires WellFormed(p) && forall b | b in p.refs :: p.refs[b] == |HandlesOf(p, b)|
    ensures var q := Added(p, path); forall b | b in q.refs :: q.refs[b] == |HandlesOf(q, b)|
  {
    assert HandlesOf(p, p.nextBuf) == {};
    hide HandlesOf;
    HandleAdded(p, Added(p, path), p.nextHandle, p.nextBuf);
  }

  lemma AddCounted(p: Proto, path: string)
    requires Counted(p) && path !in p.open
    ensures Counted(Added(p, path))
  {
    hide HandlesOf;
    AddWellFormed(p, path);
    AddCounts(p, path);
  }

  lemma DropCounted(p: Proto, h: nat)
    requires Counted(p) && h in p.handles
    ensures Counted(Dropped(p, h)) && p.refs[p.handles[h]] >= 1
  {
    assert h in HandlesOf(p, p.handles[h]);
    hide HandlesOf;
    HandleRemoved(p, Dropped(p, h), h);
  }

  lemma HeldCounts(p: Proto, h: nat)
    requires Counted(p) && h in p.handles
    ensures p.handles[h] in p.refs && p.refs[p.handles[h]] >= 1
  {
    assert h in HandlesOf(p, p.handles[h]);
  }

  lemma FinishCounted(check: ReleaseCheck, p: Proto, b: nat)
    requires Counted(p) && b in p.pending
    ensures Counted(Finished(check, p, b))
  {
    var q := Finished(check, p, b);
    forall c | c in q.refs ensures q.refs[c] == |HandlesOf(q, c)| {
      assert HandlesOf(q, c) == HandlesOf(p, c);
    }
  }

  lemma StepCounted(check: ReleaseCheck, p: Proto, a: Action)
    requires Counted(p) && Enabled(p, a)
    ensures Counted(Next(check, p, a))
  {
    match a
    case Acquire(path) =>
      if path in p.open { JoinCounted(p, p.open[path]); } else { AddCounted(p, path); }
    case Drop(h) => DropCounted(p, h);
    case Finish(b) => FinishCounted(check, p, b);
    case Idle =>
  }

  /** In every interleaving, with either release check: counts equal unreleased handles, so that no
      decrement goes below zero; and when no handle is open and no release is outstanding, the map is
      empty. */
  lemma {:induction false} CountsAndNoLeaks(check: ReleaseCheck, p: Proto, acts: seq<Action>)
    requires Counted(p) && Runs(check, p, acts)
    ensures var q := Exec(check, p, acts);
            Counted(q)
            && (forall h | h in q.handles :: q.refs[q.handles[h]] >= 1)
            && (q.handles == map[] && q.pending == multiset{} ==> q.open == map[])
    decreases |acts|
  {
    if acts == [] {
      forall h | h in p.handles ensures p.refs[p.handles[h]] >= 1 {
        HeldCounts(p, h);
      }
      forall f | f in p.open ensures p.handles != map[] || p.pending != multiset{} {
        assert p.handles == map[] ==> HandlesOf(p, p.open[f]) == {};
      }
    } else {
      StepCounted(check, p, acts[0]);
      CountsAndNoLeaks(check, Next(check, p, acts[0]), acts[1..]);
    }
  }

  // ----- one buffer per path -----

  predicate Mapped(p: Proto, b: nat) {
    b in p.paths && p.paths[b] in p.open && p.open[p.paths[b]] == b
  }

  /** Every open handle uses the buffer that the map holds for its path. */
  ghost predicate Shared(p: Proto) {
    forall h | h in p.handles :: Mapped(p, p.handles[h])
  }

  ghost predicate PendingMapped(p: Proto) {
    forall b | b in p.pending :: Mapped(p, b)
  }

  /** No path has two releases outstanding. */
  ghost predicate SinglePending(p: Proto) {
    && (forall b | b in p.pending :: p.pending[b] == 1)
    && (forall b, c | b in p.pending && c in p.pending && b in p.paths && c in p.paths ::
          p.paths[b] == p.paths[c] ==> b == c)
  }

  lemma FinishShared(check: ReleaseCheck, p: Proto, b: nat)
    requires Counted(p) && Shared(p) && b in p.pending
    requires check.Identity? || Mapped(p, b)
    ensures Shared(Finished(check, p, b))
  {
    forall h | h in p.handles ensures Mapped(Finished(check, p, b), p.handles[h]) {
      hide HandlesOf;
      assert Mapped(p, p.handles[h]);
      HeldCounts(p, h);
    }
  }

  lemma FinishKeepsPendingMapped(check: ReleaseCheck, p: Proto, b: nat)
    requires WellFormed(p) && PendingMapped(p) && SinglePending(p) && b in p.pending
    ensures PendingMapped(Finished(check, p, b))
  {
    forall c | c in p.pending && c != b ensures Mapped(Finished(check, p, b), c) {
      assert Mapped(p, c) && Mapped(p, b);
    }
  }

  lemma AcquireKeepsMapped(p: Proto, path: string, b: nat)
    requires WellFormed(p) && Mapped(p, b)
    ensures Mapped(Acquired(p, path), b)
  {
  }

  lemma AcquireShared(p: Proto, path: string)
    requires Counted(p) && Shared(p)
    ensures Shared(Acquired(p, path)) && (PendingMapped(p) ==> PendingMapped(Acquired(p, path)))
  {
    hide HandlesOf;
    var q := Acquired(p, path);
    forall h | h in p.handles ensures Mapped(q, p.handles[h]) {
      AcquireKeepsMapped(p, path, p.handles[h]);
    }
    assert Mapped(q, q.handles[p.nextHandle]);
    if PendingMapped(p) {
      forall b | b in p.pending ensures Mapped(q, b) {
        AcquireKeepsMapped(p, path, b);
      }
    }
  }

  lemma DropShared(p: Proto, h: nat)
    requires Counted(p) && Shared(p) && h in p.handles
    ensures var q := Dropped(p, h);
            Shared(q) && (PendingMapped(p) ==> PendingMapped(q))
  {
    var q := Dropped(p, h);
    assert forall b :: Mapped(p, b) == Mapped(q, b);
  }

  lemma StepShared(check: ReleaseCheck, p: Proto, a: Action)
    requires Counted(p) && Enabled(p, a) && Shared(p)
    requires check.RefCountOnly? ==> PendingMapped(p)
    ensures Counted(Next(check, p, a)) && Shared(Next(check, p, a))
  {
    StepCounted(check, p, a);
    match a
    case Acquire(path) => AcquireShared(p, path);
    case Drop(h) => DropShared(p, h);
    case Finish(b) => FinishShared(check, p, b);
    case Idle =>
  }

  lemma StepKeepsPendingMapped(check: ReleaseCheck, p: Proto, a: Action)
    requires Counted(p) && Enabled(p, a) && Shared(p) && PendingMapped(p)
    requires a.Finish? ==> SinglePending(p)
    ensures PendingMapped(Next(check, p, a))
  {
    match a
    case Acquire(path) => AcquireShared(p, path);
    case Drop(h) => DropShared(p, h);
    case Finish(b) => FinishKeepsPendingMapped(check, p, b);
    case Idle =>
  }

  /** With a release that checks the identity of the buffer, all handles of a path share one buffer,
      the mapped one, in every interleaving. */
  lemma {:induction false} OneBufferPerPathWithIdentity(p: Proto, acts: seq<Action>)
    requires Counted(p) && Shared(p) && Runs(Identity, p, acts)
    ensures Shared(Exec(Identity, p, acts))
    decreases |acts|
  {
    if acts != [] {
      StepShared(Identity, p, acts[0]);
      OneBufferPerPathWithIdentity(Next(Identity, p, acts[0]), acts[1..]);
    }
  }

  /** A run in which no release starts while its path has two outstanding. */
  ghost predicate SingleRun(p: Proto, acts: seq<Action>)
    requires Runs(RefCountOnly, p, acts)
    decreases |acts|
  {
    acts != [] ==>
      (acts[0].Finish? ==> SinglePending(p)) && SingleRun(Next(RefCountOnly, p, acts[0]), acts[1..])
  }

  /** The code as written gives the same guarantee in every run where a path never has two releases
      outstanding when one of them runs. */
  lemma {:induction false} OneBufferPerPath(p: Proto, acts: seq<Action>)
    requires Counted(p) && Shared(p) && PendingMapped(p)
    requires Runs(RefCountOnly, p, acts) && SingleRun(p, acts)
    ensures Shared(Exec(RefCountOnly, p, acts))
    decreases |acts|
  {
    if acts != [] {
      StepShared(RefCountOnly, p, acts[0]);
      StepKeepsPendingMapped(RefCountOnly, p, acts[0]);
      OneBufferPerPath(Next(RefCountOnly, p, acts[0]), acts[1..]);
    }
  }

  // ----- how many releases are outstanding -----

  /** A decrement schedules a release exactly when it takes the last handle away, and a release that runs is
      outstanding no longer; nothing else changes what is. */
  lemma PendingAfter(check: ReleaseCheck, p: Proto, a: Action, b: nat)
    requires Counted(p) && Enabled(p, a)
    ensures var q := Next(check, p, a);
            q.pending[b] == p.pending[b]
                            + (if a.Drop? && p.handles[a.h] == b && HandlesOf(q, b) == {} then 1 else 0)
                            - (if a == Finish(b) then 1 else 0)
  {
    if a.Drop? && p.handles[a.h] == b {
      HandleRemoved(p, Next(check, p, a), a.h);
    }
    hide HandlesOf;
  }

  /** No release is outstanding twice, and none of a buffer that is in use. */
  ghost predicate OncePending(p: Proto) {
    forall b | b in p.refs :: p.pending[b] <= if p.refs[b] == 0 then 1 else 0
  }

  /** The open joins a buffer whose count has reached zero, ahead of its release. */
  predicate Revives(p: Proto, a: Action)
    requires Enabled(p, a)
  {
    a.Acquire? && a.path in p.open && p.refs[p.open[a.path]] == 0
  }

  predicate NoRevival(check: ReleaseCheck, p: Proto, acts: seq<Action>)
    requires Runs(check, p, acts)
    decreases |acts|
  {
    acts != [] ==> !Revives(p, acts[0]) && NoRevival(check, Next(check, p, acts[0]), acts[1..])
  }

  lemma OnceAfter(check: ReleaseCheck, p: Proto, a: Action, b: nat)
    requires Counted(p) && OncePending(p) && Enabled(p, a) && !Revives(p, a) && b in Next(check, p, a).refs
    ensures var q := Next(check, p, a); q.pending[b] <= if q.refs[b] == 0 then 1 else 0
  {
    hide HandlesOf;
    match a
    case Acquire(path) => assert b !in p.refs ==> b !in p.pending;
    case Drop(h) => HeldCounts(p, h);
    case Finish(c) =>
    case Idle =>
  }

  lemma StepOncePending(check: ReleaseCheck, p: Proto, a: Action)
    requires Counted(p) && OncePending(p) && Enabled(p, a) && !Revives(p, a)
    ensures OncePending(Next(check, p, a))
  {
    hide Next, Counted, Revives, Enabled;
    forall b | b in Next(check, p, a).refs
      ensures var q := Next(check, p, a); q.pending[b] <= if q.refs[b] == 0 then 1 else 0
    {
      OnceAfter(check, p, a, b);
    }
  }

  lemma OnceMeansSingle(p: Proto)
    requires Counted(p) && PendingMapped(p) && OncePending(p)
    ensures SinglePending(p)
  {
    hide HandlesOf;
    assert forall b | b in p.pending :: Mapped(p, b);
  }

  /** As written, if no open joins a buffer whose count has reached zero, then throughout no buffer has two
      releases outstanding, and all handles of a path share one buffer. */
  lemma {:induction false} NoRevivalNoSplit(p: Proto, acts: seq<Action>)
    requires Counted(p) && Shared(p) && PendingMapped(p) && OncePending(p)
    requires Runs(RefCountOnly, p, acts) && NoRevival(RefCountOnly, p, acts)
    ensures var q := Exec(RefCountOnly, p, acts); OncePending(q) && SinglePending(q) && Shared(q)
    ensures AlwaysShared(p, acts)
    decreases |acts|
  {
    hide Counted, Shared, PendingMapped, OncePending, SinglePending, Next, Revives, Enabled;
    OnceMeansSingle(p);
    if acts != [] {
      StepShared(RefCountOnly, p, acts[0]);
      StepKeepsPendingMapped(RefCountOnly, p, acts[0]);
      StepOncePending(RefCountOnly, p, acts[0]);
      NoRevivalNoSplit(Next(RefCountOnly, p, acts[0]), acts[1..]);
    }
  }

  /** As written, a release splits a path exactly when it removes another buffer that is in use. */
  lemma ReleaseExact(p: Proto, b: nat)
    requires Counted(p) && Shared(p) && b in p.pending
    ensures var q := Finished(RefCountOnly, p, b);
            var f := p.paths[b];
            (Shared(q) <==> !(p.refs[b] == 0 && f in p.open && p.open[f] != b && p.refs[p.open[f]] > 0))
  {
    var q := Finished(RefCountOnly, p, b);
    var f := p.paths[b];
    if p.refs[b] == 0 && f in p.open && p.open[f] != b && p.refs[p.open[f]] > 0 {
      var h :| h in HandlesOf(p, p.open[f]);
      assert !Mapped(q, q.handles[h]);
    } else {
      forall h | h in p.handles ensures Mapped(q, q.handles[h]) {
        hide HandlesOf;
        assert Mapped(p, p.handles[h]);
        HeldCounts(p, h);
      }
    }
  }

  /** A release that would remove another buffer that is in use; the map lock is held, so the caller
      could see this before it deletes. */
  predicate Stale(p: Proto, a: Action)
    requires Enabled(p, a)
  {
    a.Finish? && p.refs[a.b] == 0
    && p.paths[a.b] in p.open
    && var c := p.open[p.paths[a.b]]; c != a.b && c in p.refs && p.refs[c] > 0
  }

  predicate NoStaleRelease(p: Proto, acts: seq<Action>)
    requires Runs(RefCountOnly, p, acts)
    decreases |acts|
  {
    acts != [] ==> !Stale(p, acts[0]) && NoStaleRelease(Next(RefCountOnly, p, acts[0]), acts[1..])
  }

  ghost predicate AlwaysShared(p: Proto, acts: seq<Action>)
    requires Runs(RefCountOnly, p, acts)
    decreases |acts|
  {
    Shared(p) && (acts != [] ==> AlwaysShared(Next(RefCountOnly, p, acts[0]), acts[1..]))
  }

  lemma StepSharedExact(p: Proto, a: Action)
    requires Counted(p) && Shared(p) && Enabled(p, a)
    ensures Shared(Next(RefCountOnly, p, a)) <==> !Stale(p, a)
  {
    hide Shared;
    match a
    case Acquire(path) => AcquireShared(p, path);
    case Drop(h) => DropShared(p, h);
    case Finish(b) => ReleaseExact(p, b);
    case Idle =>
  }

  /** As written, the handles of each path share one buffer at every point of a run exactly when no
      release of the run is stale. */
  lemma {:induction false} SharedExactly(p: Proto, acts: seq<Action>)
    requires Counted(p) && Shared(p) && Runs(RefCountOnly, p, acts)
    ensures AlwaysShared(p, acts) <==> NoStaleRelease(p, acts)
    decreases |acts|
  {
    hide Shared, Stale, Next, Counted;
    if acts != [] {
      var q := Next(RefCountOnly, p, acts[0]);
      StepCounted(RefCountOnly, p, acts[0]);
      StepSharedExact(p, acts[0]);
      if Shared(q) {
        SharedExactly(q, acts[1..]);
      } else {
        assert !AlwaysShared(q, acts[1..]);
      }
    }
  }

  lemma Prepend(p: Proto, a: Action, q: Proto, acts: seq<Action>)
    requires Enabled(p, a) && Next(RefCountOnly, p, a) == q && Runs(RefCountOnly, q, acts)
    ensures Runs(RefCountOnly, p, [a] + acts) && Exec(RefCountOnly, p, [a] + acts) == Exec(RefCountOnly, q, acts)
  {
    assert ([a] + acts)[1..] == acts;
  }

  /** A buffer is closed, reopened and closed again before its first release runs. */
  lemma ClosedTwice(path: string, rest: seq<Action>)
    ensures var q := Proto(map[path := 0], map[0 := path], map[0 := 0], map[], multiset{0, 0}, 1, 2);
            Runs(RefCountOnly, q, rest) ==>
              var acts := [Acquire(path)] + ([Drop(0)] + ([Acquire(path)] + ([Drop(1)] + rest)));
              Runs(RefCountOnly, INIT, acts) && Exec(RefCountOnly, INIT, acts) == Exec(RefCountOnly, q, rest)
  {
    var p1 := Proto(map[path := 0], map[0 := path], map[0 := 1], map[0 := 0], multiset{}, 1, 1);
    var p2 := p1.(refs := map[0 := 0], handles := map[], pending := multiset{0});
    var p3 := p2.(refs := map[0 := 1], handles := map[1 := 0], nextHandle := 2);
    var p4 := p3.(refs := map[0 := 0], handles := map[], pending := multiset{0, 0});
    assert Next(RefCountOnly, INIT, Acquire(path)) == p1 && Next(RefCountOnly, p1, Drop(0)) == p2;
    assert Next(RefCountOnly, p2, Acquire(path)) == p3 && Next(RefCountOnly, p3, Drop(1)) == p4;
    hide Next, Runs, Exec;
    if Runs(RefCountOnly, p4, rest) {
      Prepend(p3, Drop(1), p4, rest);
      Prepend(p2, Acquire(path), p3, [Drop(1)] + rest);
      Prepend(p1, Drop(0), p2, [Acquire(path)] + ([Drop(1)] + rest));
      Prepend(INIT, Acquire(path), p1, [Drop(0)] + ([Acquire(path)] + ([Drop(1)] + rest)));
    }
  }

  /** Its first release makes way for a second buffer; the other release then unmaps that one while it
      is in use, so that the next open of the path gets a third. */
  lemma ReleasedTwice(path: string)
    ensures var p := Proto(map[path := 0], map[0 := path], map[0 := 0], map[], multiset{0, 0}, 1, 2);
            var acts := [Finish(0)] + ([Acquire(path)] + ([Finish(0)] + ([Acquire(path)] + [])));
            Runs(RefCountOnly, p, acts)
            && Exec(RefCountOnly, p, acts) ==
                 Proto(map[path := 2], map[0 := path, 1 := path, 2 := path], map[0 := 0, 1 := 1, 2 := 1],
                       map[2 := 1, 3 := 2], multiset{}, 3, 4)
  {
    var p4 := Proto(map[path := 0], map[0 := path], map[0 := 0], map[], multiset{0, 0}, 1, 2);
    var p5 := p4.(open := map[], pending := multiset{0});
    var p6 := Proto(map[path := 1], map[0 := path, 1 := path], map[0 := 0, 1 := 1], map[2 := 1], multiset{0}, 2, 3);
    var p7 := p6.(open := map[], pending := multiset{});
    var p8 := Proto(map[path := 2], map[0 := path, 1 := path, 2 := path], map[0 := 0, 1 := 1, 2 := 1],
                    map[2 := 1, 3 := 2], multiset{}, 3, 4);
    Prepend(p7, Acquire(path), p8, []);
    Prepend(p6, Finish(0), p7, [Acquire(path)] + []);
    Prepend(p5, Acquire(path), p6, [Finish(0)] + ([Acquire(path)] + []));
    Prepend(p4, Finish(0), p5, [Acquire(path)] + ([Finish(0)] + ([Acquire(path)] + [])));
  }

  /** The run that needs the hypothesis: two open handles of one path end up with different buffers. */
  lemma TwoBuffersForOnePath(path: string)
    ensures var acts := [Acquire(path), Drop(0), Acquire(path), Drop(1), Finish(0), Acquire(path), Finish(0), Acquire(path)];
            Runs(RefCountOnly, INIT, acts)
            && var q := Exec(RefCountOnly, INIT, acts);
               q.handles == map[2 := 1, 3 := 2] && q.paths == map[0 := path, 1 := path, 2 := path] && !Shared(q)
  {
    var last := [Finish(0)] + ([Acquire(path)] + ([Finish(0)] + ([Acquire(path)] + [])));
    ReleasedTwice(path);
    ClosedTwice(path, last);
    var acts := [Acquire(path), Drop(0), Acquire(path), Drop(1), Finish(0), Acquire(path), Finish(0), Acquire(path)];
    assert acts == [Acquire(path)] + ([Drop(0)] + ([Acquire(path)] + ([Drop(1)] + last)));
    var q := Exec(RefCountOnly, INIT, acts);
    assert q.handles[2] == 1 && !Mapped(q, 1);
  }
}
