/** The effect of a release on the map of open buffers. */
module Releasing {

  /** What a release checks under the map lock: the reference count alone, as in the code, or also
      that the map still holds the released buffer. */
  datatype ReleaseCheck = RefCountOnly | Identity

  /** The map after a release of buffer `b`, whose count reads `refs`. */
  function Released<B(==)>(check: ReleaseCheck, open: map<string, B>, path: string, b: B, refs: int): map<string, B> {
    if refs != 0 then open
    else if check.Identity? && !(path in open && open[path] == b) then open
    else open - {path}
  }
}
