/** The in-memory file: a byte slice with capacity, resized in place or by reallocation. */
module GrowableSlice {
  import opened Bytes

  const MIN_CAPACITY: nat := 1024

  /** A slice and its backing array: `arr[..len]` is the data, `arr[len..]` the slack. */
  datatype Backing = Backing(arr: seq<byte>, len: nat) {
    ghost predicate Valid() {
      len <= |arr|
    }

    function Data(): seq<byte>
      requires Valid()
    {
      arr[..len]
    }

    ghost predicate ZeroSlack()
      requires Valid()
    {
      AllZero(arr[len..])
    }
  }

  const EMPTY := Backing([], 0)

  /** Which bytes an in-place shrink clears: the loop as it stands indexes the whole slice
      with the indices of the tail; the comments above it ask for the tail itself. */
  datatype Zeroing = AsWritten | AsIntended

  function Reallocated(b: Backing, n: nat): (r: Backing)
    requires b.Valid()
    ensures r.Valid() && r.len == n && |r.arr| == Max(2 * n, 1024)
  {
    var kept := Min(n, b.len);
    Backing(b.arr[..kept] + Zeros(Max(2 * n, MIN_CAPACITY) - kept), n)
  }

  function ShrunkInPlace(z: Zeroing, b: Backing, n: nat): (r: Backing)
    requires b.Valid() && n < b.len
    ensures r.Valid() && r.len == n && |r.arr| == |b.arr|
  {
    var cleared := b.len - n;
    match z
    case AsWritten => Backing(Zeros(cleared) + b.arr[cleared..], n)
    case AsIntended => Backing(b.arr[..n] + Zeros(cleared) + b.arr[b.len..], n)
  }

  function Shrunk(z: Zeroing, b: Backing, n: nat): (r: Backing)
    requires b.Valid() && n < b.len
    ensures r.Valid() && r.len == n
  {
    if b.len < |b.arr| / 3 then Reallocated(b, n) else ShrunkInPlace(z, b, n)
  }

  function Resized(z: Zeroing, b: Backing, n: nat): (r: Backing)
    requires b.Valid()
    ensures r.Valid() && r.len == n
  {
    if n < b.len then Shrunk(z, b, n)
    else if n == b.len then b
    else if n <= |b.arr| then b.(len := n)
    else Reallocated(b, n)
  }

  /** Bytes copied by `reallocate` plus bytes cleared by `shrink` in one resize. */
  function Moved(b: Backing, n: nat): nat
    requires b.Valid()
  {
    if n < b.len then if b.len < |b.arr| / 3 then n else b.len - n
    else if n <= |b.arr| then 0
    else b.len
  }

  /** What the Go types allow: an int64 offset and a length that is an int. */
  predicate Representable(size: nat, off: int) {
    size < TWO_63 && FitsInt64(off)
  }

  /** True when a write panics: its end wraps past the largest int64, or it starts below zero. */
  predicate WritePanics(size: nat, off: int) {
    off > Wrap64(off + size) || off < 0
  }

  /** The backing after a write. A write that starts below zero has already resized when it panics. */
  function Written(z: Zeroing, b: Backing, data: seq<byte>, off: int): (r: Backing)
    requires b.Valid() && Representable(|data|, off)
    ensures r.Valid()
  {
    var end := Wrap64(off + |data|);
    if off > end then b
    else
      var grown := if end > b.len then Resized(z, b, end) else b;
      if off < 0 then grown
      else grown.(arr := grown.arr[..off] + data + grown.arr[end..])
  }

  class GrowableByteSlice {
    var arr: array<byte>
    var len: nat
    /** Bytes copied or cleared so far. */
    ghost var moved: nat

    ghost predicate Valid()
      reads this
    {
      len <= arr.Length
    }

    ghost function View(): (b: Backing)
      requires Valid()
      reads this, arr
      ensures b.Valid()
    {
      Backing(arr[..], len)
    }

    constructor ()
      ensures Valid() && fresh(arr)
      ensures View() == EMPTY && moved == 0
    {
      arr := new byte[0];
      len := 0;
      moved := 0;
    }

    /** Returns false where the source panics. */
    method Resize(newLen: int) returns (ok: bool)
      requires Valid()
      modifies this, arr
      ensures Valid() && (arr == old(arr) || fresh(arr))
      ensures ok == (newLen >= 0)
      ensures View() == if ok then Resized(AsWritten, old(View()), newLen) else old(View())
      ensures moved == old(moved) + if ok then Moved(old(View()), newLen) else 0
    {
      if newLen < 0 {
        return false;
      }
      if newLen < len {
        Shrink(newLen);
      } else if newLen == len {
      } else if newLen <= arr.Length {
        len := newLen;
      } else {
        Reallocate(newLen);
      }
      ok := true;
    }

    method Shrink(newLen: nat)
      requires Valid() && newLen < len
      modifies this, arr
      ensures Valid() && (arr == old(arr) || fresh(arr))
      ensures View() == Shrunk(AsWritten, old(View()), newLen)
      ensures moved == old(moved) + Moved(old(View()), newLen)
    {
      if len < arr.Length / 3 {
        Reallocate(newLen);
      } else {
        for i := 0 to len - newLen
          modifies arr, `moved
          invariant arr[..] == Zeros(i) + old(arr[..])[i..]
          invariant moved == old(moved) + i
        {
          arr[i] := 0;
          moved := moved + 1;
        }
        len := newLen;
      }
    }

    method Reallocate(newLen: nat)
      requires Valid()
      modifies this
      ensures Valid() && fresh(arr)
      ensures View() == Reallocated(old(View()), newLen)
      ensures moved == old(moved) + Min(newLen, old(len))
    {
      var newCapacity := 2 * newLen;
      if newCapacity < MIN_CAPACITY {
        newCapacity := MIN_CAPACITY;
      }
      var newArr := new byte[newCapacity](_ => 0);
      var kept := if newLen < len then newLen else len;
      forall i | 0 <= i < kept {
        newArr[i] := arr[i];
      }
      moved := moved + kept;
      arr, len := newArr, newLen;
    }

    /** Fills `buf` from `off`; `ok` is false where the source panics. */
    method ReadAt(buf: array<byte>, off: int) returns (n: nat, eof: bool, ok: bool)
      requires Valid() && buf != arr
      modifies buf
      ensures ok == (off >= 0)
      ensures ok ==> n == |Window(View().Data(), off, buf.Length)| && buf[..n] == Window(View().Data(), off, buf.Length)
      ensures ok ==> eof == (off + n >= len)
      ensures !ok ==> n == 0 && !eof
      ensures buf[n..] == old(buf[n..])
    {
      n, eof := 0, false;
      if off >= len {
        return 0, true, true;
      }
      if off < 0 {
        return 0, false, false;
      }
      n := if buf.Length < len - off then buf.Length else len - off;
      forall i | 0 <= i < n {
        buf[i] := arr[off + i];
      }
      eof := n + off == len;
      ok := true;
    }

    /** Returns false where the source panics. */
    method WriteAt(data: seq<byte>, off: int) returns (ok: bool)
      requires Valid() && Representable(|data|, off)
      modifies this, arr
      ensures Valid() && (arr == old(arr) || fresh(arr))
      ensures ok == !WritePanics(|data|, off)
      ensures View() == Written(AsWritten, old(View()), data, off)
      ensures ok ==> moved == old(moved) + Moved(old(View()), Max(old(len), off + |data|))
    {
      hide Shrunk, Reallocated, Resized;
      var end := Wrap64(off + |data|);
      if off > end {
        return false;
      }
      if end > len {
        var _ := Resize(end);
      }
      if off < 0 {
        return false;
      }
      label copying:
      forall i | 0 <= i < |data| {
        arr[off + i] := data[i];
      }
      assert arr[..] == old@copying(arr[..])[..off] + data + old@copying(arr[..])[end..];
      ok := true;
    }

    /** The bytes handed to the writer. */
    method WriteTo() returns (data: seq<byte>)
      requires Valid()
      ensures data == View().Data()
    {
      data := arr[..len];
    }

    /** Installs what the reader returned; `slack` is the spare capacity it happened to leave. */
    method ReadFrom(data: seq<byte>, slack: seq<byte>)
      requires Valid()
      modifies this
      ensures Valid() && fresh(arr)
      ensures View() == Backing(data + slack, |data|) && moved == old(moved)
    {
      var all := data + slack;
      arr := new byte[|all|](i requires 0 <= i < |all| => all[i]);
      len := |data|;
      assert arr[..] == all;
    }
  }
}
