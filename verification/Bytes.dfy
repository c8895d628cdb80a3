/** Byte strings, digests and the small failure datatypes shared by every other module. */
module Bytes {
  type byte = x: int | 0 <= x < 256

  type Bytes = seq<byte>

  type Digest = d: Bytes | |d| == 32 witness seq(32, _ => 0)

  // SHA-256 is foreign code.  Every result that hashes takes the digest function as a
  // parameter, so it holds of any function from byte strings to 32-byte digests.
  type HashFunction = Bytes -> Digest

  datatype Option<+T> = None | Some(value: T)

  datatype Result<+T> = Ok(value: T) | Err {
    predicate IsFailure() {
      Err?
    }

    function PropagateFailure<U>(): Result<U>
      requires Err?
    {
      Err
    }

    function Extract(): T
      requires Ok?
    {
      value
    }
  }

  // A pair of different inputs with one digest: the evidence a reduction hands back.
  ghost predicate IsCollision(h: HashFunction, pair: (Bytes, Bytes)) {
    pair.0 != pair.1 && h(pair.0) == h(pair.1)
  }
}
