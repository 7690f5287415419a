/** Byte strings, the signed 64-bit offsets of the file API, and the three operations
    that define a plain file: overlay, fit and window. */
module Bytes {

  newtype byte = x: int | 0 <= x < 256

  const TWO_63: int := 0x8000_0000_0000_0000

  predicate FitsInt64(x: int) {
    -TWO_63 <= x < TWO_63
  }

  /** The value an int64 holds after an operation whose exact result is `x`. */
  function Wrap64(x: int): (r: int)
    ensures FitsInt64(r)
    ensures FitsInt64(x) ==> r == x
  {
    (x + TWO_63) % (2 * TWO_63) - TWO_63
  }

  /** It differs from `x` by a multiple of 2^64. */
  lemma WrapsAround(x: int)
    ensures (x - Wrap64(x)) % 0x1_0000_0000_0000_0000 == 0
  {
  }

  function Min(x: int, y: int): int {
    if x < y then x else y
  }

  function Max(x: int, y: int): int {
    if x < y then y else x
  }

  function Abs(x: int): int {
    if x < 0 then -x else x
  }

  function Zeros(n: nat): seq<byte> {
    seq(n, _ => 0 as byte)
  }

  predicate AllZero(s: seq<byte>) {
    forall i | 0 <= i < |s| :: s[i] == 0
  }

  /** `s` cut or zero-extended to `n` bytes. */
  function Fit(s: seq<byte>, n: nat): (r: seq<byte>)
    ensures |r| == n
    ensures forall i | 0 <= i < n :: r[i] == if i < |s| then s[i] else 0
  {
    if n <= |s| then s[..n] else s + Zeros(n - |s|)
  }

  /** `data` written over `s` at `off`; a gap before `off` reads as zeros. */
  function Overlay(s: seq<byte>, data: seq<byte>, off: nat): (r: seq<byte>)
    ensures |r| == Max(|s|, off + |data|)
    ensures forall i | 0 <= i < |r| ::
              r[i] == if off <= i < off + |data| then data[i - off]
                      else if i < |s| then s[i] else 0
  {
    var base := Fit(s, Max(|s|, off + |data|));
    base[..off] + data + base[off + |data|..]
  }

  /** The at most `size` bytes of `s` that start at `off`. */
  function Window(s: seq<byte>, off: nat, size: nat): (r: seq<byte>)
    ensures |r| == if off >= |s| then 0 else Min(size, |s| - off)
    ensures forall i | 0 <= i < |r| :: r[i] == s[off + i]
  {
    if off >= |s| then [] else s[off..][..Min(size, |s| - off)]
  }
}
