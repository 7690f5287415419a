/** The bits of an open call (values of the Linux ABI). */
module OpenFlags {

  type Flags = bv32

  const O_WRONLY: Flags := 0x1
  const O_RDWR: Flags := 0x2
  const O_CREATE: Flags := 0x40
  const O_TRUNC: Flags := 0x200
  const O_APPEND: Flags := 0x400

  /** True when any of `bits` is set. */
  predicate Contains(f: Flags, bits: Flags) {
    f & bits != 0
  }

  predicate CanRead(f: Flags) {
    !Contains(f, O_WRONLY)
  }

  predicate CanWrite(f: Flags) {
    Contains(f, O_WRONLY | O_RDWR)
  }

  /** Any flag for which a read-only file system refuses to open a file. */
  predicate IsWriteOp(f: Flags) {
    Contains(f, O_RDWR | O_WRONLY | O_CREATE | O_TRUNC | O_APPEND)
  }

  /** The flags `Create` passes on. */
  function CreateFlags(raw: Flags): Flags {
    var f := raw | O_CREATE | O_TRUNC;
    if Contains(f, O_RDWR) then f else f | O_WRONLY
  }

  /** For each of the 2^32 flag words: an open that is not a write operation gives a handle that reads
      and cannot write, and asks for neither creation nor truncation. */
  lemma ReadOpen(f: Flags)
    requires !IsWriteOp(f)
    ensures CanRead(f) && !CanWrite(f) && !Contains(f, O_CREATE | O_TRUNC | O_APPEND)
    ensures !Contains(f, O_CREATE) && !Contains(f, O_TRUNC)
  {
    assert f & (O_RDWR | O_WRONLY | O_CREATE | O_TRUNC | O_APPEND) == 0;
    assert f & O_WRONLY == 0 && f & (O_WRONLY | O_RDWR) == 0;
  }

  /** The flags by their bits; a read-only file system lets through exactly the words without these five. */
  lemma WriteOpBits(f: Flags)
    ensures IsWriteOp(f) <==> f & 0x643 != 0
  {
    assert O_RDWR | O_WRONLY | O_CREATE | O_TRUNC | O_APPEND == 0x643;
  }

  lemma ModifyingBits(f: Flags)
    ensures Contains(f, O_CREATE | O_TRUNC | O_APPEND) <==> f & 0x640 != 0
  {
    assert O_CREATE | O_TRUNC | O_APPEND == 0x640;
  }

  lemma CreateTruncateBits(f: Flags)
    ensures Contains(f, O_CREATE) <==> f & 0x40 != 0
    ensures Contains(f, O_TRUNC) <==> f & 0x200 != 0
  {
  }

  lemma CreateFlagBits(f: Flags)
    ensures f & 2 != 0 ==> CreateFlags(f) == f | 0x240
    ensures f & 2 == 0 ==> CreateFlags(f) == f | 0x241
  {
  }

  lemma ModifyingIsWriteOp(f: Flags)
    ensures Contains(f, O_CREATE | O_TRUNC | O_APPEND) ==> IsWriteOp(f)
  {
  }

  /** `Create` always asks for a write handle, whatever flags it was given, and keeps read access
      exactly when the caller asked for read and write. */
  lemma CreateOpensForWriting(raw: Flags)
    ensures IsWriteOp(CreateFlags(raw)) && CanWrite(CreateFlags(raw))
    ensures Contains(CreateFlags(raw), O_CREATE) && Contains(CreateFlags(raw), O_TRUNC)
    ensures CanRead(CreateFlags(raw)) <==> Contains(raw, O_RDWR) && !Contains(raw, O_WRONLY)
  {
  }

  /** The access mode is the low two bits: 0 reads, 1 writes, 2 does both, and 3 only writes. */
  lemma AccessMode(f: Flags)
    ensures CanRead(f) <==> f & 3 == 0 || f & 3 == 2
    ensures CanWrite(f) <==> f & 3 != 0
  {
  }
}
