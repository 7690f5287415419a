/** One run from end to end: a file is opened, written, flushed, closed and released, and opened again. */
module ReopenedFile {
  import opened Wrappers
  import opened Bytes
  import opened OpenFlags
  import opened DirtyTime
  import opened GrowableSlice
  import opened FileSpec
  import opened FileTheory
  import opened FileBuffers
  import opened Releasing
  import opened HandleCalls
  import P = OpenProtocol
  import opened FileSystem
  import opened MountTheory
  import opened MountRefinement
  import opened Durability

  /** An open of an existing file for reading and writing, which is read to its end. */
  function Opens(path: string): Action {
    Open(path, O_RDWR, DONT_SET_PERMS, Stats(1), 1, Saves, Loads([]))
  }

  function Act(path: string, k: nat): Action {
    match k
    case 1 => Op(0, FileOp.WriteAt([7], 0, 5))
    case 2 => Op(0, Flush(Saves))
    case 3 => Close(0)
    case 4 => Release(0)
    case _ => Opens(path)
  }

  /** A buffer that has loaded `bytes`. */
  function Loaded(bytes: seq<byte>): Buffered {
    FileState(Backing(bytes, |bytes|), CLEAN, 1, true, Some(DevFile(bytes, 1)))
  }

  function Written(): Buffered {
    Step(AsWritten, 0, Loaded([]), FileOp.WriteAt([7], 0, 5)).0
  }

  function Flushed(): Buffered {
    Step(AsWritten, 0, Written(), Flush(Saves)).0
  }

  function Protocol(path: string, k: nat): P.Proto {
    match k
    case 0 => P.INIT
    case 4 => P.Proto(map[path := 0], map[0 := path], map[0 := 0], map[], multiset{0}, 1, 1)
    case 5 => P.Proto(map[], map[0 := path], map[0 := 0], map[], multiset{}, 1, 1)
    case 6 => P.Proto(map[path := 1], map[0 := path, 1 := path], map[0 := 0, 1 := 1], map[1 := 1], multiset{}, 2, 2)
    case _ => P.Proto(map[path := 0], map[0 := path], map[0 := 1], map[0 := 0], multiset{}, 1, 1)
  }

  /** The state before action `k`, and after the last at 6. */
  function Before(path: string, k: nat): Sys {
    var files: map<nat, Buffered> :=
      if k == 0 then map[]
      else if k == 1 then map[0 := Loaded([])]
      else if k == 2 then map[0 := Written()]
      else if k < 6 then map[0 := Flushed()]
      else map[0 := Flushed(), 1 := Loaded([7])];
    var flags: map<nat, Flags> :=
      if 1 <= k <= 3 then map[0 := O_RDWR] else if k >= 6 then map[1 := O_RDWR] else map[];
    Sys(AsWritten, false, 0, Protocol(path, k), files, flags, if k == 2 then {0} else {},
        map[path := DevFile(if k < 3 then [] else [7], 1)], if k < 3 then 0 else 1)
  }

  lemma FlagsOf()
    ensures CanWrite(O_RDWR) && CanRead(O_RDWR) && !Contains(O_RDWR, O_CREATE | O_TRUNC)
    ensures !Contains(O_RDWR, O_CREATE | O_TRUNC | O_APPEND) && !Contains(O_RDWR, O_TRUNC)
  {
  }

  lemma LoadsTheFile(bytes: seq<byte>)
    ensures Initialized(0, Blank(DONT_SET_PERMS, Some(DevFile(bytes, 1))), O_RDWR, Stats(1), 1, Saves, Loads([])) ==
              (Loaded(bytes), Opened)
  {
    FlagsOf();
    hide Contains, CanWrite;
    assert bytes + [] == bytes;
  }

  lemma WrittenIsDirty()
    ensures Written().stamp == 5 && Written().buf.Data() == [7] && Written().perms == 1
    ensures Written().dev == Some(DevFile([], 1))
    ensures Flushed() == Written().(stamp := CLEAN, whole := true, dev := Some(DevFile([7], 1)))
  {
    WriteHolds(Loaded([]).buf, [7], 0);
    assert Written().buf.len == 1;
  }

  predicate Leads(path: string, k: nat) {
    Enabled(Before(path, k), Act(path, k)) && Next(RefCountOnly, Before(path, k), Act(path, k)) == Before(path, k + 1)
  }

  lemma FirstOpens(path: string)
    ensures Leads(path, 0)
  {
    FlagsOf();
    LoadsTheFile([]);
    hide Contains, CanWrite, Initialized, Written, Flushed;
    assert Put(map[path := DevFile([], 1)], path, Some(DevFile([], 1))) == map[path := DevFile([], 1)];
  }

  lemma SecondOpens(path: string)
    ensures Leads(path, 5)
  {
    FlagsOf();
    LoadsTheFile([7]);
    hide Contains, CanWrite, Initialized, Written, Flushed;
    assert Put(map[path := DevFile([7], 1)], path, Some(DevFile([7], 1))) == map[path := DevFile([7], 1)];
  }

  lemma Writes(path: string)
    ensures Leads(path, 1)
  {
    FlagsOf();
    WrittenIsDirty();
    hide Contains, CanWrite, Flushed;
    assert ViewOf(Before(path, 1), 0) == Loaded([]);
    assert Put(map[path := DevFile([], 1)], path, Some(DevFile([], 1))) == map[path := DevFile([], 1)];
  }

  lemma Flushes(path: string)
    ensures Leads(path, 2)
  {
    FlagsOf();
    WrittenIsDirty();
    hide Contains, CanWrite;
    assert ViewOf(Before(path, 2), 0) == Written();
    assert Put(map[path := DevFile([], 1)], path, Some(DevFile([7], 1))) == map[path := DevFile([7], 1)];
  }

  lemma Closes(path: string)
    ensures Leads(path, 3)
  {
    hide Flushed, Written;
    assert map[0 := O_RDWR] - {0} == map[];
  }

  lemma Releases(path: string)
    ensures Leads(path, 4)
  {
    hide Flushed, Written;
  }

  function ActsFrom(path: string, k: nat): seq<Action>
    decreases 6 - k
  {
    if k >= 6 then [] else [Act(path, k)] + ActsFrom(path, k + 1)
  }

  lemma AllLead(path: string, k: nat)
    requires k < 6
    ensures Leads(path, k)
  {
    hide Leads;
    if k == 0 {
      FirstOpens(path);
    } else if k == 1 {
      Writes(path);
    } else if k == 2 {
      Flushes(path);
    } else if k == 3 {
      Closes(path);
    } else if k == 4 {
      Releases(path);
    } else {
      SecondOpens(path);
    }
  }

  lemma StateIsShared(path: string, k: nat)
    requires k <= 6
    ensures P.Shared(Before(path, k).proto)
    ensures k < 6 ==> Inside(Act(path, k))
    ensures k < 6 ==> Disciplined(Before(path, k), Act(path, k))
  {
    hide Loaded, Written, Flushed;
  }

  /** Closing is disciplined, no release is stale, and every state has one buffer for the path. */
  lemma {:induction false} RunsFrom(path: string, k: nat)
    requires k <= 6
    ensures Runs(RefCountOnly, Before(path, k), ActsFrom(path, k))
    ensures DisciplinedRun(RefCountOnly, Before(path, k), ActsFrom(path, k))
    ensures SharedThroughout(RefCountOnly, Before(path, k), ActsFrom(path, k))
    ensures Exec(RefCountOnly, Before(path, k), ActsFrom(path, k)) == Before(path, 6)
    decreases 6 - k
  {
    StateIsShared(path, k);
    if k < 6 {
      AllLead(path, k);
      RunsFrom(path, k + 1);
      hide Next, Enabled, Before, Act, Disciplined, P.Shared;
      assert ActsFrom(path, k)[1..] == ActsFrom(path, k + 1);
    }
  }

  lemma ByteIsPreserved(path: string, k: nat)
    requires 2 <= k < 6
    ensures Preserves(Before(path, k), Act(path, k), path, 0)
  {
    FlagsOf();
    hide Contains, Loaded, Written, Flushed;
  }

  lemma {:induction false} PreservedFrom(path: string, k: nat)
    requires 2 <= k <= 6
    ensures Runs(RefCountOnly, Before(path, k), ActsFrom(path, k))
    ensures PreservesThroughout(RefCountOnly, Before(path, k), ActsFrom(path, k), path, 0)
    decreases 6 - k
  {
    RunsFrom(path, k);
    if k < 6 {
      AllLead(path, k);
      ByteIsPreserved(path, k);
      PreservedFrom(path, k + 1);
      hide Next, Enabled, Before, Act, Preserves;
      assert ActsFrom(path, k)[1..] == ActsFrom(path, k + 1);
    }
  }

  /** The first buffer's operations are those of a plain file, as written. */
  lemma OperationsAreBenign()
    ensures Benign(AsWritten, 0, Loaded([]), [FileOp.WriteAt([7], 0, 5), Flush(Saves)])
  {
    var ops := [FileOp.WriteAt([7], 0, 5), Flush(Saves)];
    assert ops[1..] == [Flush(Saves)] && ops[1..][1..] == [];
    hide Step;
    assert FindsZerosThroughout(0, Step(AsWritten, 0, Loaded([]), ops[0]).0, ops[1..]);
  }

  /** From a fresh mount, the run meets all that is asked of a written byte, and the second handle reads it. */
  lemma WrittenAndReadBack(path: string)
    ensures Before(path, 0) == Init(AsWritten, false, 0, map[path := DevFile([], 1)])
    ensures Runs(RefCountOnly, Before(path, 0), ActsFrom(path, 0))
    ensures DisciplinedRun(RefCountOnly, Before(path, 0), ActsFrom(path, 0))
    ensures SharedThroughout(RefCountOnly, Before(path, 0), ActsFrom(path, 0))
    ensures Runs(RefCountOnly, Before(path, 2), ActsFrom(path, 2))
    ensures PreservesThroughout(RefCountOnly, Before(path, 2), ActsFrom(path, 2), path, 0)
    ensures var t := Exec(RefCountOnly, Before(path, 0), ActsFrom(path, 0));
            var read := Op(1, FileOp.ReadAt(0, 1));
            Enabled(t, read) && IsOn(t, read, path) && Answer(t, read) == Data([7], true)
  {
    RunsFrom(path, 0);
    PreservedFrom(path, 2);
    ReadsSeven(path);
    hide Enabled, IsOn, Answer, Next;
  }

  lemma ReadsSeven(path: string)
    ensures var read := Op(1, FileOp.ReadAt(0, 1));
            Enabled(Before(path, 6), read) && IsOn(Before(path, 6), read, path)
            && Answer(Before(path, 6), read) == Data([7], true)
  {
    FlagsOf();
    hide Contains, CanWrite, CanRead, Written, Flushed;
    assert ViewOf(Before(path, 6), 1) == Loaded([7]);
    assert Loaded([7]).buf.Data() == [7] && Window([7], 0, 1) == [7];
  }
}
