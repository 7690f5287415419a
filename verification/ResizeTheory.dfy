/** What resizing and writing mean: where the code meets its own contract, and what a run costs. */
module ResizeTheory {
  import opened Bytes
  import opened GrowableSlice

  /** The promise made above `Resize`: common prefix kept, new bytes zero. */
  ghost predicate MeetsContract(b: Backing, r: Backing, n: nat)
    requires b.Valid() && r.Valid()
  {
    r.Data() == Fit(b.Data(), n)
  }

  /** The sizes for which the loop in `shrink` never runs, or clears the whole slice. */
  predicate SafeResize(len: nat, cap: nat, n: nat) {
    n >= len || n == 0 || len < cap / 3
  }

  /** The code as written meets the contract on `b` exactly when the bytes it wrongly clears,
      or wrongly exposes, are zero already. */
  lemma ResizeExact(b: Backing, n: nat)
    requires b.Valid()
    ensures MeetsContract(b, Resized(AsWritten, b, n), n) <==>
              if n < b.len && b.len >= |b.arr| / 3 then AllZero(b.arr[..Min(n, b.len - n)])
              else if b.len < n <= |b.arr| then AllZero(b.arr[b.len..n])
              else true
  {
    if n < b.len && b.len >= |b.arr| / 3 {
      ShrinkExact(b, n);
    } else if b.len < n <= |b.arr| {
      GrowExact(b, n);
    } else {
      assert Resized(AsWritten, b, n).Data() == Fit(b.Data(), n);
    }
  }

  lemma ShrinkExact(b: Backing, n: nat)
    requires b.Valid() && n < b.len
    ensures ShrunkInPlace(AsWritten, b, n).Data() == Fit(b.Data(), n) <==> AllZero(b.arr[..Min(n, b.len - n)])
  {
    var m := Min(n, b.len - n);
    var head, tail := b.arr[..m], b.arr[m..n];
    ShrinkData(b, n, m);
    assert AllZero(head) <==> head == Zeros(m);
    hide *;
    if Zeros(m) + tail == head + tail {
      assert [] + head + tail == head + tail && [] + Zeros(m) + tail == Zeros(m) + tail;
      Middle([], head, Zeros(m), tail);
    }
  }

  lemma ShrinkData(b: Backing, n: nat, m: nat)
    requires b.Valid() && n < b.len && m == Min(n, b.len - n)
    ensures ShrunkInPlace(AsWritten, b, n).Data() == Zeros(m) + b.arr[m..n]
    ensures Fit(b.Data(), n) == b.arr[..m] + b.arr[m..n]
  {
    assert b.arr[..n] == b.arr[..m] + b.arr[m..n];
    assert Fit(b.Data(), n) == b.arr[..n];
    hide Fit;
    var c := b.len - n;
    var z, t := Zeros(c), b.arr[c..];
    if n <= c {
      assert (z + t)[..n] == z[..n] && z[..n] == Zeros(n) && b.arr[n..n] == [];
    } else {
      assert (z + t)[..n] == z + t[..n - c] && t[..n - c] == b.arr[c..n];
    }
  }

  lemma GrowExact(b: Backing, n: nat)
    requires b.Valid() && b.len < n <= |b.arr|
    ensures b.(len := n).Data() == Fit(b.Data(), n) <==> AllZero(b.arr[b.len..n])
  {
    var gap := b.arr[b.len..n];
    assert b.(len := n).Data() == b.Data() + gap;
    assert Fit(b.Data(), n) == b.Data() + Zeros(n - b.len);
    assert AllZero(gap) <==> gap == Zeros(n - b.len);
    hide *;
    if b.Data() + gap == b.Data() + Zeros(n - b.len) {
      assert b.Data() + gap + [] == b.Data() + gap && b.Data() + Zeros(n - b.len) + [] == b.Data() + Zeros(n - b.len);
      Middle(b.Data(), gap, Zeros(n - b.len), []);
    }
  }

  /** On a zero slack, the code as written keeps the slack zero exactly when it shrinks to nothing,
      reallocates, does not shrink, or when the tail bytes its loop misses are zero. */
  lemma SlackExact(b: Backing, n: nat)
    requires b.Valid() && b.ZeroSlack()
    ensures Resized(AsWritten, b, n).ZeroSlack() <==>
              if n < b.len && b.len >= |b.arr| / 3 then AllZero(b.arr[Max(n, b.len - n)..b.len]) else true
  {
    if n < b.len && b.len >= |b.arr| / 3 {
      var m := Max(n, b.len - n);
      var missed, slack := b.arr[m..b.len], b.arr[b.len..];
      MissedBytes(b, n, m);
      ZerosAround(Zeros(m - n), missed, slack);
    } else if n > |b.arr| || n < b.len {
      assert AllZero(Reallocated(b, n).arr[n..]);
    } else {
      assert b.arr[n..] == b.arr[b.len..][n - b.len..];
    }
  }

  lemma MissedBytes(b: Backing, n: nat, m: nat)
    requires b.Valid() && n < b.len && m == Max(n, b.len - n)
    ensures ShrunkInPlace(AsWritten, b, n).arr[n..] == Zeros(m - n) + b.arr[m..b.len] + b.arr[b.len..]
  {
    if n <= b.len - n {
      BehindAllCleared(b.arr, b.len, n);
    } else {
      BehindSomeCleared(b.arr, b.len, n);
    }
  }

  lemma BehindAllCleared(arr: seq<byte>, len: nat, n: nat)
    requires n < len <= |arr| && n <= len - n
    ensures (Zeros(len - n) + arr[len - n..])[n..] == Zeros(len - n - n) + arr[len - n..len] + arr[len..]
  {
    var z, t := Zeros(len - n), arr[len - n..];
    assert z[n..] == Zeros(len - n - n);
    assert t == arr[len - n..len] + arr[len..];
    hide Zeros;
    assert (z + t)[n..] == z[n..] + t;
  }

  lemma BehindSomeCleared(arr: seq<byte>, len: nat, n: nat)
    requires n < len <= |arr| && n > len - n
    ensures (Zeros(len - n) + arr[len - n..])[n..] == Zeros(0) + arr[n..len] + arr[len..]
  {
    var z, t := Zeros(len - n), arr[len - n..];
    assert (z + t)[n..] == t[n - |z|..];
    assert t[n - |z|..] == arr[n..];
    assert arr[n..] == arr[n..len] + arr[len..];
    assert Zeros(0) + arr[n..len] == arr[n..len];
  }

  lemma ZerosAround(x: seq<byte>, y: seq<byte>, z: seq<byte>)
    requires AllZero(x) && AllZero(z)
    ensures AllZero(x + y + z) <==> AllZero(y)
  {
    if AllZero(x + y + z) {
      forall i | 0 <= i < |y| ensures y[i] == 0 {
        assert (x + y + z)[|x| + i] == y[i];
      }
    }
  }

  /** With the tail cleared as intended, every resize of a zero-slack slice meets the contract and
      leaves zero slack; as written, so does every safe one. */
  lemma ResizeSound(z: Zeroing, b: Backing, n: nat)
    requires b.Valid() && b.ZeroSlack()
    requires z.AsIntended? || SafeResize(b.len, |b.arr|, n)
    ensures MeetsContract(b, Resized(z, b, n), n) && Resized(z, b, n).ZeroSlack()
  {
    var r := Resized(z, b, n);
    assert forall i | b.len <= i < |b.arr| :: b.arr[i] == b.arr[b.len..][i - b.len];
    assert r.Data() == Fit(b.Data(), n);
    assert forall i | n <= i < |r.arr| :: r.arr[i] == 0;
  }

  /** A slice of the given shape on which an unsafe resize goes wrong: every data byte is one. */
  function Ones(len: nat, cap: nat): Backing
    requires len <= cap
  {
    Backing(seq(len, _ => 1 as byte) + Zeros(cap - len), len)
  }

  /** The safe sizes are exactly those for which the code as written can be trusted whatever the
      file holds. */
  lemma SafeResizeExact(len: nat, cap: nat, n: nat)
    requires len <= cap
    ensures SafeResize(len, cap, n) <==>
              forall b: Backing | b.Valid() && b.len == len && |b.arr| == cap && b.ZeroSlack() ::
                MeetsContract(b, Resized(AsWritten, b, n), n) && Resized(AsWritten, b, n).ZeroSlack()
  {
    if SafeResize(len, cap, n) {
      forall b: Backing | b.Valid() && b.len == len && |b.arr| == cap && b.ZeroSlack()
        ensures MeetsContract(b, Resized(AsWritten, b, n), n) && Resized(AsWritten, b, n).ZeroSlack()
      {
        ResizeSound(AsWritten, b, n);
      }
    } else {
      var b := Ones(len, cap);
      assert b.Valid() && b.len == len && |b.arr| == cap && b.ZeroSlack();
      ResizeExact(b, n);
      assert b.arr[..Min(n, len - n)][0] == 1;
    }
  }

  /** A write panics exactly when it starts below zero or ends past the largest int64. */
  lemma WritePanicsExact(size: nat, off: int)
    requires Representable(size, off)
    ensures WritePanics(size, off) <==> off < 0 || off + size >= TWO_63
  {
  }

  /** What Go can pass: a length that is an int and any int64 offset. */
  lemma RepresentableExactly(size: nat, off: int)
    ensures Representable(size, off) <==>
              size < 0x8000_0000_0000_0000 && -0x8000_0000_0000_0000 <= off < 0x8000_0000_0000_0000
  {
  }

  /** A write that does not panic overlays the data on the file, gaps read as zeros and the slack
      stays zero: writing only ever grows a slice, so this holds of the code as written too. */
  lemma WriteOverlays(z: Zeroing, b: Backing, data: seq<byte>, off: int)
    requires b.Valid() && b.ZeroSlack() && Representable(|data|, off)
    requires !WritePanics(|data|, off)
    ensures Written(z, b, data, off).Data() == Overlay(b.Data(), data, off)
    ensures Written(z, b, data, off).ZeroSlack()
  {
    WritePanicsExact(|data|, off);
    var size := Max(b.len, off + |data|);
    ResizeSound(z, b, size);
    var grown := Resized(z, b, size);
    assert Written(z, b, data, off) == grown.(arr := grown.arr[..off] + data + grown.arr[off + |data|..]);
    hide Resized, Written;
    Overwrites(grown, b.Data(), data, off);
  }

  lemma Overwrites(grown: Backing, s: seq<byte>, data: seq<byte>, off: nat)
    requires grown.Valid() && off + |data| <= grown.len && grown.len == Max(|s|, off + |data|)
    requires grown.Data() == Fit(s, grown.len)
    ensures var w := grown.(arr := grown.arr[..off] + data + grown.arr[off + |data|..]);
            w.Data() == Overlay(s, data, off) && w.arr[w.len..] == grown.arr[grown.len..]
  {
    var base, end := Fit(s, grown.len), off + |data|;
    hide Fit;
    assert grown.arr[..off] == base[..off] && grown.arr[end..grown.len] == base[end..];
    var w := grown.(arr := grown.arr[..off] + data + grown.arr[end..]);
    assert w.Data() == grown.arr[..off] + data + grown.arr[end..grown.len];
  }

  /** As the code stands, whatever the slack holds: a write overlays the data exactly when it does not
      grow in place over a gap, or the gap is zero already. */
  lemma WriteExact(b: Backing, data: seq<byte>, off: int)
    requires b.Valid() && Representable(|data|, off) && !WritePanics(|data|, off)
    ensures Written(AsWritten, b, data, off).Data() == Overlay(b.Data(), data, off) <==>
              (b.len < off + |data| <= |b.arr| ==> AllZero(b.arr[b.len..Max(b.len, off)]))
  {
    WritePanicsExact(|data|, off);
    if b.len < off + |data| <= |b.arr| {
      WriteInPlace(b, data, off);
    } else {
      WriteElsewhere(b, data, off);
    }
  }

  lemma WriteInPlace(b: Backing, data: seq<byte>, off: nat)
    requires b.Valid() && Representable(|data|, off) && b.len < off + |data| <= |b.arr|
    requires off + |data| < TWO_63
    ensures Written(AsWritten, b, data, off).Data() == Overlay(b.Data(), data, off) <==>
              AllZero(b.arr[b.len..Max(b.len, off)])
  {
    var w := Written(AsWritten, b, data, off).Data();
    assert w == b.arr[..off] + data;
    var gap := b.arr[b.len..Max(b.len, off)];
    if off <= b.len {
      assert w == Overlay(b.Data(), data, off);
    } else {
      assert w == b.Data() + gap + data;
      assert Overlay(b.Data(), data, off) == b.Data() + Zeros(off - b.len) + data;
      assert AllZero(gap) <==> gap == Zeros(off - b.len);
      hide *;
      if b.Data() + gap + data == b.Data() + Zeros(off - b.len) + data {
        Middle(b.Data(), gap, Zeros(off - b.len), data);
      }
    }
  }

  lemma Middle(a: seq<byte>, x: seq<byte>, y: seq<byte>, c: seq<byte>)
    requires |x| == |y| && a + x + c == a + y + c
    ensures x == y
  {
    assert x == (a + x + c)[|a|..|a| + |x|];
    assert y == (a + y + c)[|a|..|a| + |y|];
  }

  lemma WriteElsewhere(b: Backing, data: seq<byte>, off: nat)
    requires b.Valid() && off + |data| < TWO_63 && !(b.len < off + |data| <= |b.arr|)
    requires Representable(|data|, off)
    ensures Written(AsWritten, b, data, off).Data() == Overlay(b.Data(), data, off)
  {
    var grown := Resized(AsWritten, b, Max(b.len, off + |data|));
    assert grown.Data() == Fit(b.Data(), grown.len);
    assert Written(AsWritten, b, data, off) == grown.(arr := grown.arr[..off] + data + grown.arr[off + |data|..]);
    hide Resized, Written;
    Overwrites(grown, b.Data(), data, off);
  }

  /** A write that starts below zero has grown the slice, if it ends past it, by the time it panics; one whose
      end wraps has changed nothing. */
  lemma PanickedWriteExact(z: Zeroing, b: Backing, data: seq<byte>, off: int)
    requires b.Valid() && Representable(|data|, off) && WritePanics(|data|, off)
    ensures Written(z, b, data, off) == if off + |data| > b.len && off < 0 then Resized(z, b, off + |data|) else b
  {
    WritePanicsExact(|data|, off);
  }

  // ----- cost -----

  /** Every byte that a resize changes in place, or carries over to a new array, is counted. */
  lemma MovedCovers(z: Zeroing, b: Backing, n: nat)
    requires b.Valid()
    ensures var r := Resized(z, b, n);
            var from := if z.AsWritten? then 0 else n;
            if n > |b.arr| || (n < b.len && b.len < |b.arr| / 3)
            then forall i | 0 <= i < |r.arr| :: r.arr[i] == if i < Moved(b, n) then b.arr[i] else 0
            else |r.arr| == |b.arr| && forall i | 0 <= i < |r.arr| && r.arr[i] != b.arr[i] :: from <= i < from + Moved(b, n)
  {
  }

  datatype SliceOp = Resize(n: nat) | WriteAt(data: seq<byte>, off: nat)

  function Target(b: Backing, op: SliceOp): nat {
    match op
    case Resize(n) => n
    case WriteAt(data, off) => Max(b.len, off + |data|)
  }

  predicate Runnable(op: SliceOp) {
    op.WriteAt? ==> Representable(|op.data|, op.off) && !WritePanics(|op.data|, op.off)
  }

  /** Every resize, and every write within an int64 file. */
  lemma RunnableExactly(op: SliceOp)
    ensures Runnable(op) <==> (op.WriteAt? ==> 0 <= op.off && op.off + |op.data| < TWO_63)
  {
    if op.WriteAt? && Representable(|op.data|, op.off) {
      WritePanicsExact(|op.data|, op.off);
    }
  }

  function Next(z: Zeroing, b: Backing, op: SliceOp): (r: Backing)
    requires b.Valid() && Runnable(op)
    ensures r.Valid()
  {
    match op
    case Resize(n) => Resized(z, b, n)
    case WriteAt(data, off) => Written(z, b, data, off)
  }

  /** Bytes moved over a run, and the total by which the length changed. */
  function Cost(z: Zeroing, b: Backing, ops: seq<SliceOp>): (int, int)
    requires b.Valid() && forall op | op in ops :: Runnable(op)
    decreases |ops|
  {
    if ops == [] then (0, 0)
    else
      var rest := Cost(z, Next(z, b, ops[0]), ops[1..]);
      (Moved(b, Target(b, ops[0])) + rest.0, Abs(Target(b, ops[0]) - b.len) + rest.1)
  }

  function Potential(b: Backing): nat {
    Abs(2 * b.len - |b.arr|)
  }

  lemma ResizeAmortized(z: Zeroing, b: Backing, n: nat)
    requires b.Valid()
    ensures Moved(b, n) + Potential(Resized(z, b, n)) <= Potential(b) + 3 * Abs(n - b.len) + MIN_CAPACITY
  {
  }

  lemma WriteCapacity(z: Zeroing, b: Backing, data: seq<byte>, off: nat)
    requires b.Valid() && off + |data| < TWO_63
    requires Representable(|data|, off)
    ensures var r := Resized(z, b, Max(b.len, off + |data|));
            var w := Written(z, b, data, off);
            |w.arr| == |r.arr| && w.len == r.len
  {
    hide Shrunk, Reallocated;
  }

  lemma StepAmortized(z: Zeroing, b: Backing, op: SliceOp)
    requires b.Valid() && Runnable(op)
    ensures var n := Target(b, op);
            Moved(b, n) + Potential(Next(z, b, op)) <= Potential(b) + 3 * Abs(n - b.len) + MIN_CAPACITY
  {
    ResizeAmortized(z, b, Target(b, op));
    if op.WriteAt? {
      WritePanicsExact(|op.data|, op.off);
      WriteCapacity(z, b, op.data, op.off);
    }
  }

  lemma {:induction false} RunAmortized(z: Zeroing, b: Backing, ops: seq<SliceOp>)
    requires b.Valid() && forall op | op in ops :: Runnable(op)
    ensures Cost(z, b, ops).0 <= Potential(b) + 3 * Cost(z, b, ops).1 + MIN_CAPACITY * |ops|
    decreases |ops|
  {
    if ops != [] {
      StepAmortized(z, b, ops[0]);
      RunAmortized(z, Next(z, b, ops[0]), ops[1..]);
    }
  }

  /** From an empty slice, `N` resizes and writes copy or clear at most three bytes for every byte
      of length change, plus 1024 per call. */
  lemma CopyingIsAmortized(z: Zeroing, ops: seq<SliceOp>)
    requires forall op | op in ops :: Runnable(op)
    ensures Cost(z, EMPTY, ops).0 <= 3 * Cost(z, EMPTY, ops).1 + MIN_CAPACITY * |ops|
  {
    RunAmortized(z, EMPTY, ops);
  }
}
