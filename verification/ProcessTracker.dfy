/** Goroutines deduplicated by key, their wait group and their contexts. */
module ProcessTracking {

  class Context {
    const parent: Context?
    var cancelled: bool

    constructor (parent: Context?)
      ensures this.parent == parent && !cancelled
    {
      this.parent, cancelled := parent, false;
    }

    /** Done when it or the context it derives from is cancelled. */
    predicate Done()
      reads this, parent
    {
      cancelled || (parent != null && parent.cancelled)
    }
  }

  /** The tracker's own state: which keys are mapped and whether their context was cancelled on its own,
      the wait-group counter, and whether the base context is cancelled. */
  datatype Tracker = Tracker(procs: map<string, bool>, waiting: int, stopped: bool) {
    predicate Done(key: string)
      requires key in procs
    {
      procs[key] || stopped
    }
  }

  const EMPTY := Tracker(map[], 0, false)

  function Registered(t: Tracker, key: string): Tracker {
    if key in t.procs then t else t.(procs := t.procs[key := false], waiting := t.waiting + 1)
  }

  function Cancelled(t: Tracker, key: string): Tracker {
    if key in t.procs then t.(procs := t.procs[key := true]) else t
  }

  predicate SweepPanics(t: Tracker, key: string) {
    key in t.procs && !t.Done(key)
  }

  function Swept(t: Tracker, key: string): Tracker {
    if key in t.procs then t.(procs := t.procs - {key}, waiting := t.waiting - 1) else t
  }

  class ProcessTracker {
    var processesByKey: map<string, Context>
    var waiting: int
    const baseContext: Context

    ghost predicate Valid()
      reads this, processesByKey.Values
    {
      && baseContext.parent == null
      && (forall k | k in processesByKey :: processesByKey[k] != baseContext && processesByKey[k].parent == baseContext)
      && (forall j, k | j in processesByKey && k in processesByKey && j != k :: processesByKey[j] != processesByKey[k])
    }

    ghost function View(): Tracker
      reads this, processesByKey.Values, baseContext
    {
      Tracker(map k | k in processesByKey :: processesByKey[k].cancelled, waiting, baseContext.cancelled)
    }

    constructor ()
      ensures Valid() && View() == EMPTY
    {
      processesByKey, waiting := map[], 0;
      baseContext := new Context(null);
    }

    /** The check and the registration of one call, with nothing in between. A null result is an error. */
    method Go(key: string) returns (ctx: Context?)
      requires Valid()
      modifies this
      ensures Valid()
      ensures (ctx == null) == (old(View()).stopped || key in old(View()).procs)
      ensures View() == if old(View()).stopped then old(View()) else Registered(old(View()), key)
      ensures ctx != null ==> fresh(ctx) && key in processesByKey && processesByKey[key] == ctx
    {
      if baseContext.Done() || key in processesByKey {
        return null;
      }
      ctx := new Context(baseContext);
      processesByKey := processesByKey[key := ctx];
      waiting := waiting + 1;
    }

    /** The process of `key` has returned and cancels its own context. */
    method CancelProcess(key: string)
      requires Valid() && key in processesByKey
      modifies processesByKey[key]
      ensures Valid() && View() == Cancelled(old(View()), key)
    {
      processesByKey[key].cancelled := true;
    }

    /** Returns false where the source panics. */
    method Sweep(key: string) returns (ok: bool)
      requires Valid()
      modifies this
      ensures Valid() && ok == !SweepPanics(old(View()), key)
      ensures View() == if ok then Swept(old(View()), key) else old(View())
    {
      ok := true;
      if key in processesByKey {
        if !processesByKey[key].Done() {
          return false;
        }
        processesByKey := processesByKey - {key};
        waiting := waiting - 1;
      }
    }

    /** The first half of `Shutdown`; `idle` says whether the wait that follows returns at once. */
    method CancelAll() returns (idle: bool)
      requires Valid()
      modifies baseContext
      ensures Valid() && View() == old(View()).(stopped := true) && idle == (waiting == 0)
      ensures forall k | k in processesByKey :: processesByKey[k].Done()
    {
      baseContext.cancelled := true;
      idle := waiting == 0;
    }
  }
}
