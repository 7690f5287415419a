/** The client pool, the map lock and the file locks: what each call of the file system takes and gives back,
    and who can be made to wait for whom. */
module ClientPool {

  datatype Resource = Client | MapLock | FileLock(f: nat)

  /** A device call is assumed to return. */
  datatype Step = Take(r: Resource) | Give(r: Resource) | DeviceCall

  /** The calls, by what they take; `f` is the lock of the file's buffer. */
  datatype FsCall =
    | Quick(calls: nat)                          // a pooled client for any number of device calls
    | JoinOpen                                   // the path has a buffer already
    | RefusedOpen(stats: bool)                   // the first open fails, before or after asking the device
    | FirstOpen(f: nat)
    | Read(f: nat)
    | Write(f: nat, overdue: bool)
    | Sync(f: nat, device: bool)                 // a flush or a sync, which may find nothing to do
    | Truncate(f: nat)
    | ReleaseLast                                // the reference count has reached zero
    | Nothing                                    // refused by a flag, or one reference of many given up

  function Calls(n: nat): seq<Step> {
    seq(n, _ => DeviceCall)
  }

  function Locked(f: nat, body: seq<Step>): seq<Step> {
    [Take(FileLock(f))] + body + [Give(FileLock(f))]
  }

  function Program(call: FsCall): seq<Step> {
    match call
    case Quick(calls) => [Take(Client)] + Calls(calls) + [Give(Client)]
    case JoinOpen => [Take(MapLock), Give(MapLock)]
    case RefusedOpen(stats) => [Take(MapLock)] + Calls(if stats then 1 else 0) + [Give(MapLock)]
    case FirstOpen(f) => [Take(MapLock), DeviceCall] + Locked(f, [DeviceCall]) + [Give(MapLock)]
    case Read(f) => Locked(f, [])
    case Write(f, overdue) => Locked(f, []) + Locked(f, Calls(if overdue then 1 else 0))
    case Sync(f, device) => Locked(f, Calls(if device then 1 else 0))
    case Truncate(f) => Locked(f, []) + Locked(f, [DeviceCall])
    case ReleaseLast => [Take(MapLock), Give(MapLock)]
    case Nothing => []
  }

  // ----- the order -----

  /** A client and the map lock are only taken with empty hands, a file lock with nothing or the map lock. */
  predicate MayTake(held: set<Resource>, r: Resource) {
    if r.FileLock? then held <= {MapLock} else held == {}
  }

  /** What is left of a program keeps to the order, calls the device with something in hand, and gives
      everything back. */
  predicate Respectful(held: set<Resource>, rest: seq<Step>)
    decreases |rest|
  {
    if rest == [] then held == {}
    else
      match rest[0]
      case Take(r) => MayTake(held, r) && Respectful(held + {r}, rest[1..])
      case Give(r) => r in held && Respectful(held - {r}, rest[1..])
      case DeviceCall => held != {} && Respectful(held, rest[1..])
  }

  lemma {:induction false} CallsRespect(held: set<Resource>, n: nat, rest: seq<Step>)
    requires Respectful(held, rest) && held != {}
    ensures Respectful(held, Calls(n) + rest)
    decreases n
  {
    if n == 0 {
      assert Calls(0) + rest == rest;
    } else {
      CallsRespect(held, n - 1, rest);
      assert (Calls(n) + rest)[1..] == Calls(n - 1) + rest;
    }
  }

  lemma TakeRespects(held: set<Resource>, r: Resource, rest: seq<Step>)
    requires MayTake(held, r) && Respectful(held + {r}, rest)
    ensures Respectful(held, [Take(r)] + rest)
  {
    assert ([Take(r)] + rest)[1..] == rest;
  }

  lemma GiveRespects(held: set<Resource>, r: Resource, rest: seq<Step>)
    requires r !in held && Respectful(held, rest)
    ensures Respectful(held + {r}, [Give(r)] + rest)
  {
    assert ([Give(r)] + rest)[1..] == rest;
    assert held + {r} - {r} == held;
  }

  /** Something taken, some device calls, and given back. */
  lemma BracketRespects(held: set<Resource>, r: Resource, n: nat, rest: seq<Step>)
    requires MayTake(held, r) && r !in held && Respectful(held, rest)
    ensures Respectful(held, [Take(r)] + Calls(n) + [Give(r)] + rest)
  {
    GiveRespects(held, r, rest);
    CallsRespect(held + {r}, n, [Give(r)] + rest);
    TakeRespects(held, r, Calls(n) + ([Give(r)] + rest));
    assert [Take(r)] + Calls(n) + [Give(r)] + rest == [Take(r)] + (Calls(n) + ([Give(r)] + rest));
  }

  lemma FirstOpenRespects(f: nat)
    ensures Respectful({}, Program(FirstOpen(f)))
  {
    GiveRespects({}, MapLock, []);
    BracketRespects({MapLock}, FileLock(f), 1, [Give(MapLock)]);
    var inner := [Take(FileLock(f))] + Calls(1) + [Give(FileLock(f))] + [Give(MapLock)];
    assert {} + {MapLock} == {MapLock} && [Give(MapLock)] + [] == [Give(MapLock)];
    CallsRespect({MapLock}, 1, inner);
    TakeRespects({}, MapLock, Calls(1) + inner);
    assert Calls(1) == [DeviceCall];
    assert Program(FirstOpen(f)) == [Take(MapLock)] + (Calls(1) + inner);
  }

  /** Every call of the file system keeps to the order, calls the device with a client or a lock in hand, and
      ends with empty hands. */
  lemma ProgramsRespectTheOrder(call: FsCall)
    ensures Respectful({}, Program(call))
  {
    assert Calls(0) == [] && Calls(1) == [DeviceCall];
    hide Respectful, MayTake, Calls;
    var none: seq<Step> := [];
    assert Respectful({}, none) by { Done(); }
    match call
    case Quick(calls) => Bracket(Client, calls, none);
    case JoinOpen => Bracket(MapLock, 0, none);
    case RefusedOpen(stats) => Bracket(MapLock, if stats then 1 else 0, none);
    case FirstOpen(f) => FirstOpenRespects(f);
    case Read(f) => Bracket(FileLock(f), 0, none);
    case Write(f, overdue) =>
      Bracket(FileLock(f), if overdue then 1 else 0, none);
      Bracket(FileLock(f), 0, Locked(f, Calls(if overdue then 1 else 0)));
    case Sync(f, device) => Bracket(FileLock(f), if device then 1 else 0, none);
    case Truncate(f) =>
      Bracket(FileLock(f), 1, none);
      Bracket(FileLock(f), 0, Locked(f, [DeviceCall]));
    case ReleaseLast => Bracket(MapLock, 0, none);
    case Nothing =>
  }

  lemma Done()
    ensures Respectful({}, [])
  {
  }

  lemma Bracket(r: Resource, n: nat, rest: seq<Step>)
    requires Respectful({}, rest)
    ensures Respectful({}, [Take(r)] + Calls(n) + [Give(r)] + rest)
    ensures rest == [] ==> Respectful({}, [Take(r)] + Calls(n) + [Give(r)])
  {
    BracketRespects({}, r, n, rest);
    assert rest == [] ==> [Take(r)] + Calls(n) + [Give(r)] + rest == [Take(r)] + Calls(n) + [Give(r)];
  }

  // ----- what the calls take -----

  function Takes(rest: seq<Step>): multiset<Resource> {
    if rest == [] then multiset{}
    else (if rest[0].Take? then multiset{rest[0].r} else multiset{}) + Takes(rest[1..])
  }

  function DeviceCalls(rest: seq<Step>): nat {
    if rest == [] then 0
    else (if rest[0].DeviceCall? then 1 else 0) + DeviceCalls(rest[1..])
  }

  lemma {:induction false} DoesBoth(a: seq<Step>, b: seq<Step>)
    ensures Takes(a + b) == Takes(a) + Takes(b) && DeviceCalls(a + b) == DeviceCalls(a) + DeviceCalls(b)
    decreases |a|
  {
    if a == [] {
      assert a + b == b;
    } else {
      assert (a + b)[0] == a[0] && (a + b)[1..] == a[1..] + b;
      DoesBoth(a[1..], b);
    }
  }

  lemma {:induction false} CallsOnlyCall(n: nat)
    ensures Takes(Calls(n)) == multiset{} && DeviceCalls(Calls(n)) == n
    decreases n
  {
    if n > 0 {
      CallsOnlyCall(n - 1);
      assert Calls(n)[1..] == Calls(n - 1);
    }
  }

  lemma BracketDoes(r: Resource, n: nat)
    ensures var b := [Take(r)] + Calls(n) + [Give(r)]; Takes(b) == multiset{r} && DeviceCalls(b) == n
  {
    CallsOnlyCall(n);
    DoesBoth([Take(r)] + Calls(n), [Give(r)]);
    DoesBoth([Take(r)], Calls(n));
    assert Takes([Take(r)]) == multiset{r} && DeviceCalls([Take(r)]) == 0 by { assert [Take(r)][1..] == []; }
    assert Takes([Give(r)]) == multiset{} && DeviceCalls([Give(r)]) == 0 by { assert [Give(r)][1..] == []; }
  }

  /** What each call takes in all, and how often it calls the device. */
  lemma WhatProgramsDo(call: FsCall)
    ensures Takes(Program(call)) ==
              match call
              case Quick(_) => multiset{Client}
              case JoinOpen => multiset{MapLock}
              case RefusedOpen(_) => multiset{MapLock}
              case FirstOpen(f) => multiset{MapLock, FileLock(f)}
              case Read(f) => multiset{FileLock(f)}
              case Write(f, _) => multiset{FileLock(f), FileLock(f)}
              case Sync(f, _) => multiset{FileLock(f)}
              case Truncate(f) => multiset{FileLock(f), FileLock(f)}
              case ReleaseLast => multiset{MapLock}
              case Nothing => multiset{}
    ensures DeviceCalls(Program(call)) ==
              match call
              case Quick(calls) => calls
              case RefusedOpen(stats) => if stats then 1 else 0
              case FirstOpen(_) => 2
              case Write(_, overdue) => if overdue then 1 else 0
              case Sync(_, device) => if device then 1 else 0
              case Truncate(_) => 1
              case _ => 0
  {
    assert Calls(0) == [] && Calls(1) == [DeviceCall];
    CallsOnlyCall(0);
    hide Takes, DeviceCalls, Calls;
    match call
    case Quick(calls) => BracketDoes(Client, calls);
    case JoinOpen => BracketDoes(MapLock, 0);
    case RefusedOpen(stats) => BracketDoes(MapLock, if stats then 1 else 0);
    case FirstOpen(f) => FirstOpenDoes(f);
    case Read(f) => BracketDoes(FileLock(f), 0);
    case Write(f, overdue) => TwiceDoes(f, if overdue then 1 else 0);
    case Sync(f, device) => BracketDoes(FileLock(f), if device then 1 else 0);
    case Truncate(f) => TwiceDoes(f, 1);
    case ReleaseLast => BracketDoes(MapLock, 0);
    case Nothing =>
  }

  lemma TwiceDoes(f: nat, n: nat)
    ensures var p := Locked(f, []) + Locked(f, Calls(n));
            Takes(p) == multiset{FileLock(f), FileLock(f)} && DeviceCalls(p) == n
  {
    assert Calls(0) == [];
    hide Takes, DeviceCalls, Calls;
    BracketDoes(FileLock(f), 0);
    BracketDoes(FileLock(f), n);
    DoesBoth(Locked(f, []), Locked(f, Calls(n)));
  }

  lemma FirstOpenDoes(f: nat)
    ensures Takes(Program(FirstOpen(f))) == multiset{MapLock, FileLock(f)} && DeviceCalls(Program(FirstOpen(f))) == 2
  {
    assert Calls(1) == [DeviceCall];
    BracketDoes(FileLock(f), 1);
    var before, inner, after := [Take(MapLock), DeviceCall], Locked(f, [DeviceCall]), [Give(MapLock)];
    DoesBoth(before + inner, after);
    DoesBoth(before, inner);
    assert before[1..] == [DeviceCall] && [DeviceCall][1..] == [] && after[1..] == [];
  }

  // ----- threads -----

  /** What a thread of the file system holds, and what it has still to do for its call. */
  datatype Thread = Thread(held: set<Resource>, rest: seq<Step>)

  datatype State = State(threads: map<nat, Thread>, pool: nat, capacity: nat)

  datatype Move = Begin(t: nat, call: FsCall) | Go(t: nat)

  /** A configured size below one counts as one, and the pool is filled with one client. */
  function Init(configured: int, threads: set<nat>): State {
    State(map t | t in threads :: Thread({}, []), 1, if configured < 1 then 1 else configured)
  }

  predicate Busy(s: State, t: nat) {
    t in s.threads && s.threads[t].rest != []
  }

  ghost predicate Holds(s: State, t: nat, r: Resource) {
    t in s.threads && r in s.threads[t].held
  }

  ghost predicate Blocked(s: State, t: nat)
    requires Busy(s, t)
  {
    match s.threads[t].rest[0]
    case Take(r) => if r.Client? then s.pool == 0 else exists u :: Holds(s, u, r)
    case Give(r) => r.Client? && s.pool == s.capacity
    case DeviceCall => false
  }

  ghost predicate Enabled(s: State, m: Move) {
    match m
    case Begin(t, _) => t in s.threads && s.threads[t].rest == []
    case Go(t) => Busy(s, t) && !Blocked(s, t)
  }

  ghost function Next(s: State, m: Move): State
    requires Enabled(s, m)
  {
    match m
    case Begin(t, call) => s.(threads := s.threads[t := Thread(s.threads[t].held, Program(call))])
    case Go(t) =>
      var held, rest := s.threads[t].held, s.threads[t].rest[1..];
      match s.threads[t].rest[0]
      case Take(r) =>
        s.(threads := s.threads[t := Thread(held + {r}, rest)], pool := if r.Client? then s.pool - 1 else s.pool)
      case Give(r) =>
        s.(threads := s.threads[t := Thread(held - {r}, rest)], pool := if r.Client? then s.pool + 1 else s.pool)
      case DeviceCall => s.(threads := s.threads[t := Thread(held, rest)])
  }

  ghost predicate Runs(s: State, moves: seq<Move>)
    decreases |moves|
  {
    moves != [] ==> Enabled(s, moves[0]) && Runs(Next(s, moves[0]), moves[1..])
  }

  ghost function Exec(s: State, moves: seq<Move>): State
    requires Runs(s, moves)
    decreases |moves|
  {
    if moves == [] then s else Exec(Next(s, moves[0]), moves[1..])
  }

  // ----- what every run keeps -----

  ghost function ClientHolders(threads: map<nat, Thread>): set<nat> {
    set t | t in threads && Client in threads[t].held
  }

  predicate Tidy(t: Thread) {
    && Respectful(t.held, t.rest)
    && (Client in t.held ==> t.held == {Client})
    && (forall r | r in t.held && r.FileLock? :: t.held <= {MapLock, r})
  }

  /** One client in all, and each lock in one hand at most. */
  ghost predicate Orderly(s: State) {
    && s.capacity >= 1
    && s.pool + |ClientHolders(s.threads)| == 1
    && (forall t | t in s.threads :: Tidy(s.threads[t]))
    && (forall t, u, r | Holds(s, t, r) && Holds(s, u, r) && r != Client :: t == u)
  }

  lemma TidyAfter(th: Thread)
    requires Tidy(th) && th.rest != []
    ensures match th.rest[0]
            case Take(r) => r !in th.held && Tidy(Thread(th.held + {r}, th.rest[1..]))
            case Give(r) => r in th.held && Tidy(Thread(th.held - {r}, th.rest[1..]))
            case DeviceCall => Tidy(Thread(th.held, th.rest[1..]))
  {
  }

  function Clients(held: set<Resource>): nat {
    if Client in held then 1 else 0
  }

  lemma HoldersAfter(threads: map<nat, Thread>, t: nat, th: Thread)
    requires t in threads
    ensures |ClientHolders(threads[t := th])| == |ClientHolders(threads)| - Clients(threads[t].held) + Clients(th.held)
  {
    var before, after := ClientHolders(threads), ClientHolders(threads[t := th]);
    assert t in before <==> Client in threads[t].held;
    if Client in th.held {
      assert after == before + {t};
    } else {
      assert after == before - {t};
    }
  }

  lemma StepTidy(s: State, m: Move)
    requires Orderly(s) && Enabled(s, m)
    ensures Tidy(Next(s, m).threads[m.t])
  {
    match m
    case Begin(t, call) =>
      IdleIsEmpty(s.threads[t]);
      ProgramsRespectTheOrder(call);
    case Go(t) => TidyAfter(s.threads[t]);
  }

  lemma ClientsConserved(s: State, m: Move)
    requires Orderly(s) && Enabled(s, m)
    ensures Next(s, m).pool + |ClientHolders(Next(s, m).threads)| == 1
  {
    var th := Next(s, m).threads[m.t];
    HoldersAfter(s.threads, m.t, th);
    assert Next(s, m).threads == s.threads[m.t := th];
    hide ClientHolders;
    if m.Go? {
      TidyAfter(s.threads[m.t]);
    }
  }

  /** A lock that a move leaves in a hand was there before, or free. */
  lemma HeldBeforeOrFree(s: State, m: Move, t: nat, r: Resource)
    requires Enabled(s, m) && r != Client && Holds(Next(s, m), t, r)
    ensures Holds(s, t, r) || forall u :: !Holds(s, u, r)
  {
    hide Program;
  }

  lemma LocksStayExclusive(s: State, m: Move, t: nat, u: nat, r: Resource)
    requires Orderly(s) && Enabled(s, m) && r != Client && t != m.t
    requires Holds(Next(s, m), t, r) && Holds(Next(s, m), u, r)
    ensures t == u
  {
    hide ClientHolders, Tidy, Program;
    assert Holds(s, t, r);
    HeldBeforeOrFree(s, m, u, r);
  }

  lemma StepOrderly(s: State, m: Move)
    requires Orderly(s) && Enabled(s, m)
    ensures Orderly(Next(s, m))
  {
    StepTidy(s, m);
    ClientsConserved(s, m);
    forall t, u, r | Holds(Next(s, m), t, r) && Holds(Next(s, m), u, r) && r != Client ensures t == u {
      if t != m.t {
        LocksStayExclusive(s, m, t, u, r);
      } else if u != m.t {
        LocksStayExclusive(s, m, u, t, r);
      }
    }
    hide Tidy, Program, ClientHolders;
  }

  lemma IdleIsEmpty(th: Thread)
    requires Tidy(th) && th.rest == []
    ensures th.held == {}
  {
  }

  // ----- progress -----

  /** A thread in the middle of a call that has nothing to wait for. */
  ghost predicate CanMove(s: State, t: nat) {
    Busy(s, t) && Enabled(s, Go(t))
  }

  lemma HolderIsBusy(s: State, t: nat, r: Resource)
    requires Orderly(s) && Holds(s, t, r)
    ensures Busy(s, t)
  {
    hide ClientHolders;
  }

  /** The client's holder has only to call the device and to give it back, for which there is room. */
  lemma ClientHolderCanMove(s: State, t: nat)
    requires Orderly(s) && Holds(s, t, Client)
    ensures CanMove(s, t) && s.pool == 0
  {
    HolderIsBusy(s, t, Client);
    assert t in ClientHolders(s.threads);
    hide ClientHolders;
    TidyAfter(s.threads[t]);
  }

  lemma FileHolderCanMove(s: State, t: nat, f: nat)
    requires Orderly(s) && Holds(s, t, FileLock(f))
    ensures CanMove(s, t)
  {
    HolderIsBusy(s, t, FileLock(f));
    hide ClientHolders;
    TidyAfter(s.threads[t]);
  }

  /** The map lock's holder can go on, or waits for a file lock whose holder can. */
  lemma MapHolderLeadsOn(s: State, t: nat)
    requires Orderly(s) && Holds(s, t, MapLock)
    ensures exists u :: CanMove(s, u)
  {
    HolderIsBusy(s, t, MapLock);
    TidyAfter(s.threads[t]);
    hide ClientHolders;
    if Blocked(s, t) {
      var r := s.threads[t].rest[0].r;
      var u :| Holds(s, u, r);
      FileHolderCanMove(s, u, r.f);
    } else {
      assert CanMove(s, t);
    }
  }

  lemma GivingNeverWaits(s: State, t: nat)
    requires Orderly(s) && Busy(s, t) && s.threads[t].rest[0].Give?
    ensures !Blocked(s, t)
  {
    TidyAfter(s.threads[t]);
    if Client in s.threads[t].held {
      ClientHolderCanMove(s, t);
    }
  }

  lemma SomeThreadCanMove(s: State, t: nat)
    requires Orderly(s) && Busy(s, t)
    ensures exists u :: CanMove(s, u)
  {
    if !Blocked(s, t) {
      assert CanMove(s, t);
    } else if s.threads[t].rest[0].Give? {
      GivingNeverWaits(s, t);
    } else {
      match s.threads[t].rest[0].r
      case Client =>
        var u :| u in ClientHolders(s.threads);
        ClientHolderCanMove(s, u);
      case MapLock =>
        var u :| Holds(s, u, MapLock);
        MapHolderLeadsOn(s, u);
      case FileLock(f) =>
        var u :| Holds(s, u, FileLock(f));
        FileHolderCanMove(s, u, f);
    }
  }

  lemma {:induction false} RunOrderly(s: State, moves: seq<Move>)
    requires Orderly(s) && Runs(s, moves)
    ensures Orderly(Exec(s, moves))
    decreases |moves|
  {
    if moves != [] {
      hide Orderly, Next;
      StepOrderly(s, moves[0]);
      RunOrderly(Next(s, moves[0]), moves[1..]);
    }
  }

  /** However the threads interleave, each making any calls one after the other: the clients in the pool and
      in use are always one, whatever the configured size; giving anything back never waits; as long as some
      thread is in a call, some thread can move; and one that is in none can begin any. */
  lemma DeadlockFree(configured: int, threads: set<nat>, moves: seq<Move>)
    requires Runs(Init(configured, threads), moves)
    ensures var s := Exec(Init(configured, threads), moves);
            s.pool + |ClientHolders(s.threads)| == 1
            && (forall t | Busy(s, t) && s.threads[t].rest[0].Give? :: !Blocked(s, t))
            && ((exists t :: Busy(s, t)) ==> exists u :: CanMove(s, u))
            && (forall t, call | t in s.threads && !Busy(s, t) :: Enabled(s, Begin(t, call)))
  {
    var start := Init(configured, threads);
    assert ClientHolders(start.threads) == {};
    RunOrderly(start, moves);
    var s := Exec(start, moves);
    forall t | Busy(s, t) && s.threads[t].rest[0].Give? ensures !Blocked(s, t) {
      GivingNeverWaits(s, t);
    }
    if t :| Busy(s, t) {
      SomeThreadCanMove(s, t);
    }
  }
}
