/** The growing output buffer that the encoders append to. */
module Buffers {
  import opened Bytes

  const CR: byte := 13
  const LF: byte := 10
  const CRLF: Bytes := [CR, LF]

  class Buffer {
    var bytes: Bytes

    constructor ()
      ensures bytes == []
    {
      bytes := [];
    }

    method ExtendFromSlice(more: Bytes)
      modifies this
      ensures bytes == old(bytes) + more
    {
      bytes := bytes + more;
    }
  }
}
