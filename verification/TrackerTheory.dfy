/** Every interleaving of `Go` calls, processes and a shutdown. */
module TrackerTheory {
  import opened ProcessTracking

  /** A process runs, has returned, or has cancelled its context and is about to be swept. */
  datatype Phase = Running | Returned | Leaving

  datatype Goroutine = Goroutine(key: string, phase: Phase)

  datatype State = State(
    t: Tracker,
    calls: map<nat, string>,        // `Go` calls that have passed the first check
    live: map<nat, Goroutine>,
    waits: bool,                    // a shutdown is waiting
    waited: bool)                   // or has returned

  datatype Action =
    | Check(c: nat, key: string)    // the first check of a `Go` call
    | Register(c: nat, g: nat)      // its locked part, which may start goroutine `g`
    | Return(g: nat)
    | Cancel(g: nat)
    | Sweep(g: nat)
    | Stop                          // `Shutdown` cancels the base context
    | WaitReturns

  const INIT := State(EMPTY, map[], map[], false, false)

  predicate Enabled(s: State, a: Action) {
    match a
    case Check(c, _) => c !in s.calls
    case Register(c, g) => c in s.calls && g !in s.live
    case Return(g) => g in s.live && s.live[g].phase.Running?
    case Cancel(g) => g in s.live && s.live[g].phase.Returned?
    case Sweep(g) => g in s.live && s.live[g].phase.Leaving?
    case Stop => true
    case WaitReturns => s.waits && s.t.waiting == 0
  }

  function Next(s: State, a: Action): State
    requires Enabled(s, a)
  {
    match a
    case Check(c, key) => if s.t.stopped then s else s.(calls := s.calls[c := key])
    case Register(c, g) =>
      var key := s.calls[c];
      s.(calls := s.calls - {c}, t := Registered(s.t, key),
         live := if key in s.t.procs then s.live else s.live[g := Goroutine(key, Running)])
    case Return(g) => s.(live := s.live[g := Goroutine(s.live[g].key, Returned)])
    case Cancel(g) => s.(live := s.live[g := Goroutine(s.live[g].key, Leaving)], t := Cancelled(s.t, s.live[g].key))
    case Sweep(g) => s.(live := s.live - {g}, t := Swept(s.t, s.live[g].key))
    case Stop => s.(t := s.t.(stopped := true), waits := true)
    case WaitReturns => s.(waits := false, waited := true)
  }

  predicate Runs(s: State, acts: seq<Action>)
    decreases |acts|
  {
    acts != [] ==> Enabled(s, acts[0]) && Runs(Next(s, acts[0]), acts[1..])
  }

  function Exec(s: State, acts: seq<Action>): State
    requires Runs(s, acts)
    decreases |acts|
  {
    if acts == [] then s else Exec(Next(s, acts[0]), acts[1..])
  }

  ghost predicate HasGoroutine(s: State, key: string) {
    exists g :: g in s.live && s.live[g].key == key
  }

  /** The wait group counts the mapped keys, which are the keys of the live goroutines, one each. */
  ghost predicate InStep(s: State) {
    && s.t.waiting == |s.t.procs|
    && (forall g | g in s.live :: s.live[g].key in s.t.procs)
    && (forall k | k in s.t.procs :: HasGoroutine(s, k))
    && (forall g, h | g in s.live && h in s.live :: s.live[g].key == s.live[h].key ==> g == h)
    && (forall g | g in s.live && s.live[g].phase.Leaving? :: s.t.procs[s.live[g].key])
    && (s.waits || s.waited ==> s.t.stopped)
  }

  lemma InitQualifies()
    ensures InStep(INIT)
  {
  }

  lemma Covers(s: State, g: nat)
    requires g in s.live
    ensures HasGoroutine(s, s.live[g].key)
  {
  }

  lemma GoroutineStays(s: State, t: State, key: string)
    requires HasGoroutine(s, key)
    requires forall g | g in s.live && s.live[g].key == key :: g in t.live && t.live[g].key == key
    ensures HasGoroutine(t, key)
  {
    var g :| g in s.live && s.live[g].key == key;
    assert g in t.live && t.live[g].key == key;
  }

  lemma RegisterInStep(s: State, c: nat, g: nat)
    requires InStep(s) && Enabled(s, Register(c, g))
    ensures InStep(Next(s, Register(c, g)))
  {
    hide HasGoroutine;
    var t := Next(s, Register(c, g));
    forall k | k in t.t.procs ensures HasGoroutine(t, k) {
      if k in s.t.procs {
        GoroutineStays(s, t, k);
      } else {
        Covers(t, g);
      }
    }
  }

  lemma SweepInStep(s: State, g: nat)
    requires InStep(s) && Enabled(s, Sweep(g))
    ensures InStep(Next(s, Sweep(g))) && !SweepPanics(s.t, s.live[g].key)
  {
    hide HasGoroutine;
    var t := Next(s, Sweep(g));
    forall k | k in t.t.procs ensures HasGoroutine(t, k) {
      GoroutineStays(s, t, k);
    }
  }

  lemma PhaseInStep(s: State, g: nat, phase: Phase, t: Tracker)
    requires InStep(s) && g in s.live && t.procs.Keys == s.t.procs.Keys
    requires t.waiting == s.t.waiting && t.stopped == s.t.stopped
    requires forall k | k in s.t.procs && s.t.procs[k] :: t.procs[k]
    requires phase.Leaving? ==> t.procs[s.live[g].key]
    ensures InStep(s.(live := s.live[g := Goroutine(s.live[g].key, phase)], t := t))
  {
    hide HasGoroutine;
    var u := s.(live := s.live[g := Goroutine(s.live[g].key, phase)], t := t);
    assert |t.procs| == |t.procs.Keys| == |s.t.procs|;
    forall k | k in u.t.procs ensures HasGoroutine(u, k) {
      GoroutineStays(s, u, k);
    }
  }

  lemma QuietInStep(s: State, t: State)
    requires InStep(s) && t.live == s.live && t.t.procs == s.t.procs && t.t.waiting == s.t.waiting
    requires t.waits || t.waited ==> t.t.stopped
    ensures InStep(t)
  {
    hide HasGoroutine;
    forall k | k in t.t.procs ensures HasGoroutine(t, k) {
      GoroutineStays(s, t, k);
    }
  }

  lemma StepInStep(s: State, a: Action)
    requires InStep(s) && Enabled(s, a)
    ensures InStep(Next(s, a))
  {
    hide HasGoroutine;
    match a
    case Register(c, g) => RegisterInStep(s, c, g);
    case Sweep(g) => SweepInStep(s, g);
    case Return(g) => PhaseInStep(s, g, Returned, s.t);
    case Cancel(g) => PhaseInStep(s, g, Leaving, Cancelled(s.t, s.live[g].key));
    case _ => QuietInStep(s, Next(s, a));
  }

  lemma StopIsFinal(s: State, a: Action)
    requires Enabled(s, a) && s.t.stopped
    ensures Next(s, a).t.stopped
  {
  }

  /** In every interleaving the counter, the map and the goroutines stay in step; no sweep can panic;
      and once the base context is cancelled, every registered context is done. */
  lemma {:induction false} TrackerStaysInStep(s: State, acts: seq<Action>)
    requires InStep(s) && Runs(s, acts)
    ensures var u := Exec(s, acts);
            InStep(u)
            && (forall g | g in u.live && Enabled(u, Sweep(g)) :: !SweepPanics(u.t, u.live[g].key))
            && (s.t.stopped ==> u.t.stopped && forall k | k in u.t.procs :: u.t.Done(k))
    decreases |acts|
  {
    hide InStep, Next, SweepPanics, HasGoroutine;
    if acts == [] {
      forall g | g in s.live && Enabled(s, Sweep(g)) ensures !SweepPanics(s.t, s.live[g].key) {
        SweepInStep(s, g);
      }
    } else {
      if s.t.stopped {
        StopIsFinal(s, acts[0]);
      }
      StepInStep(s, acts[0]);
      TrackerStaysInStep(Next(s, acts[0]), acts[1..]);
    }
  }

  ghost predicate StaysEmpty(s: State) {
    forall acts | Runs(s, acts) :: Exec(s, acts).t.procs == map[]
  }

  /** A sweep panics exactly on a process whose context nobody has cancelled, neither its own nor the base. */
  lemma SweepPanicsExactly(t: Tracker, key: string)
    ensures SweepPanics(t, key) <==> key in t.procs && !t.procs[key] && !t.stopped
  {
  }

  /** One process that runs, and nothing else. */
  function RunningAlone(key: string): State {
    State(Tracker(map[key := false], 1, false), map[], map[0 := Goroutine(key, Running)], false, false)
  }

  /** A `Go` call on a fresh tracker starts the process. */
  lemma ProcessStarts(key: string)
    ensures var acts := [Check(0, key), Register(0, 0)];
            Runs(INIT, acts) && Exec(INIT, acts) == RunningAlone(key)
  {
    var s1 := INIT.(calls := map[0 := key]);
    assert Next(INIT, Check(0, key)) == s1 && Next(s1, Register(0, 0)) == RunningAlone(key);
    hide Next, Runs, Exec;
    Ends(RunningAlone(key));
    Leads(s1, Register(0, 0), [], RunningAlone(key), RunningAlone(key));
    Leads(INIT, Check(0, key), [Register(0, 0)], s1, RunningAlone(key));
  }

  /** When it has returned, cancelled its context and been swept, a shutdown has nothing to wait for. */
  lemma ProcessEnds(key: string)
    ensures var acts := [Return(0), Cancel(0), Sweep(0), Stop, WaitReturns];
            Runs(RunningAlone(key), acts)
            && Exec(RunningAlone(key), acts) == State(Tracker(map[], 0, true), map[], map[], false, true)
  {
    var s2 := RunningAlone(key);
    var s3 := s2.(live := map[0 := Goroutine(key, Returned)]);
    var s4 := s2.(live := map[0 := Goroutine(key, Leaving)], t := Tracker(map[key := true], 1, false));
    var s5 := State(EMPTY, map[], map[], false, false);
    var s6 := State(Tracker(map[], 0, true), map[], map[], true, false);
    var s7 := State(Tracker(map[], 0, true), map[], map[], false, true);
    assert Next(s2, Return(0)) == s3 && Next(s3, Cancel(0)) == s4 && Next(s4, Sweep(0)) == s5;
    assert Next(s5, Stop) == s6 && Next(s6, WaitReturns) == s7;
    hide Next, Runs, Exec, RunningAlone;
    Ends(s7);
    Leads(s6, WaitReturns, [], s7, s7);
    Leads(s5, Stop, [WaitReturns], s6, s7);
    Leads(s4, Sweep(0), [Stop, WaitReturns], s5, s7);
    Leads(s3, Cancel(0), [Sweep(0), Stop, WaitReturns], s4, s7);
    Leads(s2, Return(0), [Cancel(0), Sweep(0), Stop, WaitReturns], s3, s7);
  }

  lemma Ends(s: State)
    ensures Runs(s, []) && Exec(s, []) == s
  {
  }

  lemma Leads(s: State, a: Action, acts: seq<Action>, t: State, u: State)
    requires Enabled(s, a) && Next(s, a) == t && Runs(t, acts) && Exec(t, acts) == u
    ensures Runs(s, [a] + acts) && Exec(s, [a] + acts) == u
  {
    assert ([a] + acts)[1..] == acts;
  }

  lemma {:induction false} NothingStarts(s: State, acts: seq<Action>)
    requires s.t.stopped && s.t.procs == map[] && s.calls == map[] && s.live == map[] && Runs(s, acts)
    ensures Exec(s, acts).t.procs == map[]
    decreases |acts|
  {
    if acts != [] {
      NothingStarts(Next(s, acts[0]), acts[1..]);
    }
  }

  /** When a shutdown's wait returns, no process is left; and none ever appears again exactly when no
      `Go` call has got past its first check. */
  lemma ShutdownIsFinalExactly(s: State)
    requires InStep(s) && Enabled(s, WaitReturns)
    ensures s.t.procs == map[] && s.live == map[]
    ensures StaysEmpty(Next(s, WaitReturns)) <==> s.calls == map[]
  {
    var t := Next(s, WaitReturns);
    assert s.t.procs == map[];
    assert s.live == map[] by {
      if g :| g in s.live {
        assert s.live[g].key in s.t.procs;
      }
    }
    if s.calls == map[] {
      forall acts | Runs(t, acts) ensures Exec(t, acts).t.procs == map[] {
        NothingStarts(t, acts);
      }
    } else {
      var c :| c in s.calls;
      var acts := [Register(c, 0)];
      assert Runs(Next(t, acts[0]), acts[1..]);
      assert Runs(t, acts) && s.calls[c] in Exec(t, acts).t.procs;
    }
  }
}
