/** A byte that has been written, followed through saves, reloads, the release of its buffer and later opens
    of its file. */
module Durability {
  import opened Wrappers
  import opened Bytes
  import opened OpenFlags
  import opened DirtyTime
  import opened GrowableSlice
  import opened FileSpec
  import opened PlainFile
  import opened FileTheory
  import opened FileBuffers
  import opened Releasing
  import P = OpenProtocol
  import opened FileSystem
  import opened MountTheory
  import opened MountRefinement

  // ----- in one buffer -----

  /** Byte `i` is `v` in the buffer, and on the device too if the buffer is clean. */
  predicate Kept(s: Buffered, i: nat, v: byte) {
    ByteAt(s.buf.Data(), i, v) && (s.stamp == CLEAN ==> OnDevice(s.dev, i, v))
  }

  predicate OnDevice(dev: Option<DevFile>, i: nat, v: byte) {
    dev.Some? && ByteAt(dev.value.bytes, i, v)
  }

  /** `op` neither overwrites byte `i`, nor cuts it off, nor clears it by the shrink loop as written, nor
      reloads too little to bring it back. */
  predicate Keeps(z: Zeroing, s: Buffered, op: FileOp, i: nat) {
    match op
    case WriteAt(data, off, now) => now != CLEAN && !(off <= i < off + |data|)
    case SetSize(n, now) =>
      now != CLEAN && n > i
      && (z.AsWritten? && n < s.buf.len && s.buf.len >= |s.buf.arr| / 3 ==> s.buf.len - n <= i)
    case Sync(_, load) => s.stamp == CLEAN ==> Brings(load, i)
    case _ => true
  }

  /** The load reaches byte `i`, or leaves the buffer alone. */
  predicate Brings(load: LoadIo, i: nat) {
    load.ReadFails? ==> load.n > i
  }

  /** As for the plain file; a truncation as written also keeps what lies behind the bytes it clears. */
  lemma WhatKeeps(z: Zeroing, s: Buffered, op: FileOp, i: nat)
    ensures !op.SetSize? && Spares(Plain(s), op, i) ==> Keeps(z, s, op, i)
    ensures op.SetSize? && op.now != CLEAN && i < op.newLen && (z.AsIntended? || s.buf.len - op.newLen <= i) ==> Keeps(z, s, op, i)
    ensures op.SetSize? && op.now != CLEAN && i < op.newLen && s.buf.len < |s.buf.arr| / 3 ==> Keeps(z, s, op, i)
  {
  }

  lemma ResizeKeeps(z: Zeroing, b: Backing, n: nat, i: nat)
    requires b.Valid() && i < b.len && i < n
    requires z.AsWritten? && n < b.len && b.len >= |b.arr| / 3 ==> b.len - n <= i
    ensures Resized(z, b, n).Data()[i] == b.Data()[i]
  {
  }

  lemma WriteKeeps(z: Zeroing, b: Backing, data: seq<byte>, off: nat, i: nat)
    requires b.Valid() && Representable(|data|, off) && off + |data| < TWO_63 && i < b.len && !(off <= i < off + |data|)
    ensures i < Written(z, b, data, off).len && Written(z, b, data, off).Data()[i] == b.Data()[i]
  {
    var end := off + |data|;
    if end > b.len {
      ResizeKeeps(z, b, end, i);
    }
    hide Resized;
  }

  lemma WritePuts(z: Zeroing, b: Backing, data: seq<byte>, off: nat, i: nat)
    requires b.Valid() && Representable(|data|, off) && off + |data| < TWO_63 && off <= i < off + |data|
    ensures i < Written(z, b, data, off).len && Written(z, b, data, off).Data()[i] == data[i - off]
  {
    hide Resized;
  }

  lemma LoadKeeps(s: Buffered, load: LoadIo, i: nat, v: byte)
    requires OnDevice(s.dev, i, v) && Brings(load, i) && (load.OpenReadFails? ==> ByteAt(s.buf.Data(), i, v))
    ensures ByteAt(Load(s, load).0.buf.Data(), i, v) && Load(s, load).0.dev == s.dev
  {
    if !load.OpenReadFails? {
      var got := Fetched(s.dev, load).value;
      assert (got + Slack(load))[..|got|] == got;
    }
  }

  lemma StepKeeps(z: Zeroing, timeout: int, s: Buffered, op: FileOp, i: nat, v: byte)
    requires WellTyped(op) && InRange(op) && Keeps(z, s, op, i) && Kept(s, i, v)
    ensures Kept(Step(z, timeout, s, op).0, i, v)
  {
    hide Resized, Written, Load;
    match op
    case WriteAt(data, off, _) => WriteKeeps(z, s.buf, data, off, i);
    case SetSize(n, _) => ResizeKeeps(z, s.buf, n, i);
    case Sync(_, load) => if s.stamp == CLEAN { LoadKeeps(s, load, i, v); }
    case _ =>
  }

  lemma FirstOpenKeeps(timeout: int, perms: nat, dev: Option<DevFile>, flags: Flags, stat: StatReply,
                       now: int, save: SaveIo, load: LoadIo, i: nat, v: byte)
    requires !WantsNewFile(flags, stat) && Brings(load, i) && !load.OpenReadFails? && OnDevice(dev, i, v)
    requires Initialized(timeout, Blank(perms, dev), flags, stat, now, save, load).1 == Opened
    ensures Kept(Initialized(timeout, Blank(perms, dev), flags, stat, now, save, load).0, i, v)
  {
    hide Contains, CanWrite, Load;
    LoadKeeps(Blank(if perms == DONT_SET_PERMS then stat.perms else perms, dev), load, i, v);
  }

  // ----- on a mount -----

  /** Byte `i` of `path` is `v`: in its buffer while it has one, else on the device. */
  predicate KeptAt(s: Sys, path: string, i: nat, v: byte) {
    if IsOpen(s, path) then Kept(BufferAt(s, path), i, v) else OnDevice(Get(s.device, path), i, v)
  }

  /** `a` does nothing to byte `i` of `path`: operations spare it, a first open neither creates nor truncates
      and its load reaches the byte, commands leave the file alone. */
  predicate Preserves(s: Sys, a: Action, path: string, i: nat) {
    match a
    case Op(_, op) => IsOn(s, a, path) && IsOpen(s, path) ==> Keeps(s.zeroing, BufferAt(s, path), op, i)
    case Open(p, flags, _, stat, _, _, load) =>
      p == path && path !in s.proto.open ==> !WantsNewFile(flags, stat) && Brings(load, i) && !load.OpenReadFails?
    case Command(_) => Spared(s, a, path)
    case _ => true
  }

  lemma OpenIff(s: Sys, path: string)
    requires WellFormed(s)
    ensures IsOpen(s, path) <==> path in s.proto.open
    ensures path in s.proto.open ==> s.proto.paths[s.proto.open[path]] == path
  {
    hide P.HandlesOf;
  }

  lemma WhileOpen(check: ReleaseCheck, s: Sys, a: Action, path: string, i: nat, v: byte)
    requires WellFormed(s) && P.Shared(s.proto) && Enabled(s, a) && Preserves(s, a, path, i) && KeptAt(s, path, i, v)
    requires IsOpen(s, path) && IsOpen(Next(check, s, a), path)
    ensures KeptAt(Next(check, s, a), path, i, v)
  {
    hide Next, Step, Kept, Keeps, P.Counted, P.Shared, BufferAt;
    StepOnPath(check, s, a, path);
    if IsOn(s, a, path) {
      StepKeeps(s.zeroing, s.timeout, BufferAt(s, path), a.op, i, v);
    }
  }

  lemma WhenReleased(check: ReleaseCheck, s: Sys, a: Action, path: string, i: nat, v: byte)
    requires WellFormed(s) && Enabled(s, a) && KeptAt(s, path, i, v) && !DropsDirt(check, s, a, path)
    requires IsOpen(s, path) && !IsOpen(Next(check, s, a), path) && WellFormed(Next(check, s, a))
    ensures KeptAt(Next(check, s, a), path, i, v)
  {
    OpenIff(s, path);
    OpenIff(Next(check, s, a), path);
    OnlyReleasesUnmap(check, s, a, path);
    hide WellFormed, Next, ByteAt, Enabled;
  }

  lemma OnlyReleasesUnmap(check: ReleaseCheck, s: Sys, a: Action, path: string)
    requires Enabled(s, a) && path in s.proto.open && path !in Next(check, s, a).proto.open
    ensures Next(check, s, a).device == s.device
  {
    hide FirstOpen, Step;
  }

  lemma WhenOpened(check: ReleaseCheck, s: Sys, a: Action, path: string, i: nat, v: byte)
    requires WellFormed(s) && Enabled(s, a) && Preserves(s, a, path, i) && KeptAt(s, path, i, v)
    requires !IsOpen(s, path) && IsOpen(Next(check, s, a), path)
    ensures KeptAt(Next(check, s, a), path, i, v)
  {
    OpenIff(s, path);
    assert a.Open? && a.path == path && Sharing(s, a).Acquire? by { OnlyOpensMap(check, s, a, path); }
    hide P.Counted, Initialized, Kept, ByteAt, Next, Contains;
    NewBuffer(check, s, a);
    FirstOpenKeeps(s.timeout, a.perms, Get(s.device, path), a.flags, a.stat, a.now, a.save, a.load, i, v);
  }

  lemma OnlyOpensMap(check: ReleaseCheck, s: Sys, a: Action, path: string)
    requires Enabled(s, a) && path !in s.proto.open && path in Next(check, s, a).proto.open
    ensures a.Open? && a.path == path && Sharing(s, a).Acquire?
  {
    hide FirstOpen, Step;
  }

  lemma WhileClosed(check: ReleaseCheck, s: Sys, a: Action, path: string)
    requires WellFormed(s) && P.Shared(s.proto) && Enabled(s, a) && (a.Command? ==> Spared(s, a, path))
    requires path !in s.proto.open && path !in Next(check, s, a).proto.open
    ensures Get(Next(check, s, a).device, path) == Get(s.device, path)
  {
    hide FirstOpen, Step, P.HandlesOf;
    if a.Op? {
      assert P.Mapped(s.proto, s.proto.handles[a.h]);
    }
  }

  lemma StepKept(check: ReleaseCheck, s: Sys, a: Action, path: string, i: nat, v: byte)
    requires WellFormed(s) && P.Shared(s.proto) && Enabled(s, a) && Preserves(s, a, path, i) && KeptAt(s, path, i, v)
    requires !DropsDirt(check, s, a, path)
    ensures KeptAt(Next(check, s, a), path, i, v)
  {
    hide Next, DropsDirt, WellFormed, P.Shared, Kept, OnDevice, Enabled;
    var t := Next(check, s, a);
    StepWellFormed(check, s, a);
    OpenIff(s, path);
    OpenIff(t, path);
    if IsOpen(s, path) {
      if IsOpen(t, path) {
        WhileOpen(check, s, a, path, i, v);
      } else {
        WhenReleased(check, s, a, path, i, v);
      }
    } else if IsOpen(t, path) {
      WhenOpened(check, s, a, path, i, v);
    } else {
      WhileClosed(check, s, a, path);
    }
  }

  // ----- over runs -----

  predicate PreservesThroughout(check: ReleaseCheck, s: Sys, acts: seq<Action>, path: string, i: nat)
    requires Runs(check, s, acts)
    decreases |acts|
  {
    acts != [] ==>
      Preserves(s, acts[0], path, i) && PreservesThroughout(check, Next(check, s, acts[0]), acts[1..], path, i)
  }

  lemma SharingDropsNothing(check: ReleaseCheck, s: Sys, a: Action, path: string)
    requires WellFormed(s) && DirtIsOwed(s) && P.Shared(s.proto) && Enabled(s, a) && P.Shared(Next(check, s, a).proto)
    ensures !DropsDirt(check, s, a, path)
  {
    hide Next, P.Next, P.Shared, P.Stale, P.Counted, DirtIsOwed, FirstOpen, DropsDirt;
    StepProjects(check, s, a);
    DropsDirtExactly(s, a, path);
    if check.RefCountOnly? {
      P.StepSharedExact(s.proto, Sharing(s, a));
    }
  }

  lemma {:induction false} RunKept(check: ReleaseCheck, s: Sys, acts: seq<Action>, path: string, i: nat, v: byte)
    requires WellFormed(s) && DirtIsOwed(s) && Runs(check, s, acts) && DisciplinedRun(check, s, acts)
    requires SharedThroughout(check, s, acts) && PreservesThroughout(check, s, acts, path, i)
    requires KeptAt(s, path, i, v)
    ensures KeptAt(Exec(check, s, acts), path, i, v)
    decreases |acts|
  {
    hide *;
    if acts == [] {
      EmptyRun(check, s);
    } else {
      var a := acts[0];
      FirstAction(check, s, acts, path, i);
      StepWellFormed(check, s, a);
      StepOwed(check, s, a);
      SharingDropsNothing(check, s, a, path);
      StepKept(check, s, a, path, i, v);
      RunKept(check, Next(check, s, a), acts[1..], path, i, v);
    }
  }

  lemma EmptyRun(check: ReleaseCheck, s: Sys)
    ensures Runs(check, s, []) && Exec(check, s, []) == s
  {
  }

  lemma FirstAction(check: ReleaseCheck, s: Sys, acts: seq<Action>, path: string, i: nat)
    requires acts != [] && Runs(check, s, acts) && DisciplinedRun(check, s, acts)
    requires SharedThroughout(check, s, acts) && PreservesThroughout(check, s, acts, path, i)
    ensures Enabled(s, acts[0]) && Disciplined(s, acts[0]) && Preserves(s, acts[0], path, i) && P.Shared(s.proto)
    ensures var t := Next(check, s, acts[0]);
            Runs(check, t, acts[1..]) && DisciplinedRun(check, t, acts[1..]) && P.Shared(t.proto)
            && SharedThroughout(check, t, acts[1..]) && PreservesThroughout(check, t, acts[1..], path, i)
            && Exec(check, s, acts) == Exec(check, t, acts[1..])
  {
    hide Next, Enabled, P.Shared, Preserves;
  }

  /** A byte written through one handle is read through any other, even one opened after all handles were
      closed and the buffer released, in every disciplined interleaving that keeps one buffer per path and
      whose other actions preserve the byte: saves may fail in any way, the shrink loop may be as written. */
  lemma WrittenByteIsReadEver(check: ReleaseCheck, s: Sys, w: Action, acts: seq<Action>, path: string, read: Action, i: nat)
    requires WellFormed(s) && DirtIsOwed(s) && P.Shared(s.proto) && Enabled(s, w)
    requires IsOn(s, w, path) && w.op.WriteAt? && w.op.now != CLEAN && w.op.woff <= i < w.op.woff + |w.op.data|
    requires Runs(check, Next(check, s, w), acts) && DisciplinedRun(check, Next(check, s, w), acts)
    requires SharedThroughout(check, Next(check, s, w), acts) && PreservesThroughout(check, Next(check, s, w), acts, path, i)
    requires var t := Exec(check, Next(check, s, w), acts);
             Enabled(t, read) && IsOn(t, read, path) && read.op.ReadAt? && read.op.off <= i < read.op.off + read.op.size
    ensures var r := Answer(Exec(check, Next(check, s, w), acts), read);
            r.Data? && ByteAt(r.data, i - read.op.off, w.op.data[i - w.op.woff])
  {
    var u := Next(check, s, w);
    var t := Exec(check, u, acts);
    var v := w.op.data[i - w.op.woff];
    assert Disciplined(s, w);
    hide *;
    StepWellFormed(check, s, w);
    StepOwed(check, s, w);
    WriteIsKept(check, s, w, path, i);
    RunKept(check, u, acts, path, i, v);
    SharedAtTheEnd(check, u, acts);
    ReadFindsIt(t, read, path, i, v);
  }

  lemma OperatedPathIsOpen(s: Sys, a: Action, path: string)
    requires WellFormed(s) && P.Shared(s.proto) && Enabled(s, a) && IsOn(s, a, path)
    ensures IsOpen(s, path)
  {
    hide P.HandlesOf;
    assert P.Mapped(s.proto, s.proto.handles[a.h]);
  }

  lemma WriteIsKept(check: ReleaseCheck, s: Sys, w: Action, path: string, i: nat)
    requires WellFormed(s) && P.Shared(s.proto) && Enabled(s, w) && IsOn(s, w, path)
    requires w.op.WriteAt? && w.op.now != CLEAN && w.op.woff <= i < w.op.woff + |w.op.data|
    ensures KeptAt(Next(check, s, w), path, i, w.op.data[i - w.op.woff])
  {
    assert WellTyped(w.op) && InRange(w.op);
    hide *;
    OperatedPathIsOpen(s, w, path);
    NextOperates(check, s, w);
    OperatingOnPath(s, w.h, w.op, path);
    KeptWhileOpen(Next(check, s, w), path, i, w.op.data[i - w.op.woff]);
    StepPuts(s.zeroing, s.timeout, BufferAt(s, path), w.op, i);
  }

  lemma KeptWhileOpen(s: Sys, path: string, i: nat, v: byte)
    requires IsOpen(s, path)
    ensures KeptAt(s, path, i, v) <==> Kept(BufferAt(s, path), i, v)
    ensures Kept(BufferAt(s, path), i, v) ==> ByteAt(Plain(BufferAt(s, path)).buf, i, v)
  {
  }

  lemma NextOperates(check: ReleaseCheck, s: Sys, a: Action)
    requires Enabled(s, a) && a.Op?
    ensures Next(check, s, a) == Operating(s, a.h, a.op)
  {
    hide Operating;
  }

  lemma StepPuts(z: Zeroing, timeout: int, s: Buffered, op: FileOp, i: nat)
    requires WellTyped(op) && InRange(op) && op.WriteAt? && op.now != CLEAN && op.woff <= i < op.woff + |op.data|
    ensures Kept(Step(z, timeout, s, op).0, i, op.data[i - op.woff])
  {
    hide Written;
    WritePuts(z, s.buf, op.data, op.woff, i);
  }

  lemma ReadFindsIt(s: Sys, read: Action, path: string, i: nat, v: byte)
    requires WellFormed(s) && P.Shared(s.proto) && Enabled(s, read) && IsOn(s, read, path) && KeptAt(s, path, i, v)
    requires read.op.ReadAt? && read.op.off <= i < read.op.off + read.op.size
    ensures Answer(s, read).Data? && ByteAt(Answer(s, read).data, i - read.op.off, v)
  {
    hide *;
    OperatedPathIsOpen(s, read, path);
    KeptWhileOpen(s, path, i, v);
    ReadOfByte(s, read, path, i, v);
  }
}
