/** The dirty flag that remembers when it went from clean to dirty. A time is the nanoseconds since
    the zero time, and the zero time means clean. */
module DirtyTime {

  const CLEAN: int := 0

  function Stamped(t: int, now: int): int {
    if t == CLEAN then now else t
  }

  predicate Overdue(t: int, d: int, now: int) {
    t != CLEAN && t + d < now
  }

  class DirtyTimestamp {
    var t: int

    constructor ()
      ensures t == CLEAN
    {
      t := CLEAN;
    }

    function IsSet(): bool
      reads this
    {
      t != CLEAN
    }

    method Set(now: int)
      modifies this
      ensures t == Stamped(old(t), now)
    {
      if t == CLEAN {
        t := now;
      }
    }

    method Clear()
      modifies this
      ensures t == CLEAN
    {
      t := CLEAN;
    }

    method HasBeenDirtyFor(d: int, now: int) returns (overdue: bool)
      ensures overdue == Overdue(t, d, now)
    {
      overdue := IsSet() && t + d < now;
    }
  }
}
