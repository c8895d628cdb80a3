/** The HTTP/1 body encoder, against a reference decoder of the chunked coding
    (RFC 7230, section 4.1). */
module TransferEncoding {
  import opened Buffers
  import opened Bytes

  datatype Kind = Chunked(eof: bool) | Length(remaining: nat) | Eof

  // "0\r\n\r\n"
  const LAST_CHUNK: Bytes := [48, CR, LF, CR, LF]

  // ---------------------------------------------------------------- the encoder

  function HexDigit(d: nat): byte
    requires d < 16
  {
    if d < 10 then 48 + d else 55 + d
  }

  // The `{:X}` format.
  function UpperHex(n: nat): (b: Bytes)
    ensures b != []
  {
    if n < 16 then [HexDigit(n)] else UpperHex(n / 16) + [HexDigit(n % 16)]
  }

  function Chunk(msg: Bytes): Bytes {
    UpperHex(|msg|) + CRLF + msg + CRLF
  }

  function Min(a: nat, b: nat): nat {
    if a < b then a else b
  }

  // One call of `encode`: the next state, the bytes appended, and the end-of-body answer.
  function Encode(kind: Kind, msg: Bytes): (Kind, Bytes, bool) {
    match kind
    case Eof => (Eof, msg, msg == [])
    case Chunked(eof) =>
      if eof then (kind, [], true)
      else if msg == [] then (Chunked(true), LAST_CHUNK, true)
      else (kind, Chunk(msg), false)
    case Length(remaining) =>
      if remaining == 0 then (kind, [], true)
      else
        var len := Min(remaining, |msg|);
        (Length(remaining - len), msg[..len], remaining == len)
  }

  // `encode_eof`; Err is the unexpected end of a body shorter than announced.
  function EncodeEof(kind: Kind): Result<(Kind, Bytes)> {
    match kind
    case Eof => Ok((Eof, []))
    case Length(remaining) => if remaining != 0 then Err else Ok((kind, []))
    case Chunked(eof) => if eof then Ok((kind, [])) else Ok((Chunked(true), LAST_CHUNK))
  }

  class Encoder {
    var kind: Kind

    constructor (kind: Kind)
      ensures this.kind == kind
    {
      this.kind := kind;
    }

    method EncodeMessage(msg: Bytes, buf: Buffer) returns (eof: bool)
      modifies this, buf
      ensures var (k, out, e) := Encode(old(kind), msg);
        kind == k && buf.bytes == old(buf.bytes) + out && eof == e
    {
      match kind {
        case Eof =>
          buf.ExtendFromSlice(msg);
          eof := msg == [];
        case Chunked(done) =>
          if done {
            return true;
          }
          if msg == [] {
            kind := Chunked(true);
            buf.ExtendFromSlice(LAST_CHUNK);
          } else {
            buf.ExtendFromSlice(UpperHex(|msg|) + CRLF);
            buf.ExtendFromSlice(msg);
            buf.ExtendFromSlice(CRLF);
          }
          eof := kind.eof;
        case Length(remaining) =>
          if remaining > 0 {
            if msg == [] {
              return remaining == 0;
            }
            var len := Min(remaining, |msg|);
            buf.ExtendFromSlice(msg[..len]);
            kind := Length(remaining - len);
            eof := remaining - len == 0;
          } else {
            eof := true;
          }
      }
    }

    method EncodeEnd(buf: Buffer) returns (ok: bool)
      modifies this, buf
      ensures match EncodeEof(old(kind))
        case Ok((k, out)) => ok && kind == k && buf.bytes == old(buf.bytes) + out
        case Err => !ok && kind == old(kind) && buf.bytes == old(buf.bytes)
    {
      match kind {
        case Eof => ok := true;
        case Length(remaining) => ok := remaining == 0;
        case Chunked(done) =>
          if !done {
            kind := Chunked(true);
            buf.ExtendFromSlice(LAST_CHUNK);
          }
          ok := true;
      }
    }
  }

  // The state and output after a sequence of calls.
  function EncodeAll(kind: Kind, msgs: seq<Bytes>): (Kind, Bytes)
    decreases |msgs|
  {
    if msgs == [] then (kind, [])
    else
      var (k, out, _) := Encode(kind, msgs[0]);
      var (k', rest) := EncodeAll(k, msgs[1..]);
      (k', out + rest)
  }

  function Flatten(msgs: seq<Bytes>): Bytes {
    if msgs == [] then [] else msgs[0] + Flatten(msgs[1..])
  }

  // The messages before the first empty one, which ends a chunked body.
  function UpToEmpty(msgs: seq<Bytes>): seq<Bytes> {
    if msgs == [] || msgs[0] == [] then [] else [msgs[0]] + UpToEmpty(msgs[1..])
  }

  // ---------------------------------------------------------------- a reference decoder

  function HexValue(b: byte): Option<nat> {
    if 48 <= b <= 57 then Some(b - 48)
    else if 65 <= b <= 70 then Some(b - 55)
    else if 97 <= b <= 102 then Some(b - 87)
    else None
  }

  // chunk-size = 1*HEXDIG, read from the left.
  function ReadHex(b: Bytes, acc: nat): (r: (nat, Bytes))
    ensures |r.1| <= |b|
    decreases |b|
  {
    if b == [] || HexValue(b[0]).None? then (acc, b)
    else ReadHex(b[1..], acc * 16 + HexValue(b[0]).value)
  }

  function Expect(b: Bytes, prefix: Bytes): (r: Result<Bytes>)
    ensures r.Ok? ==> |r.value| == |b| - |prefix|
  {
    if prefix <= b then Ok(b[|prefix|..]) else Err
  }

  // chunked-body = *chunk last-chunk CRLF, with no extensions and no trailers; returns the
  // body and what follows it.
  function DecodeChunked(b: Bytes): Result<(Bytes, Bytes)>
    decreases |b|
  {
    if b == [] || HexValue(b[0]).None? then Err
    else
      var (size, afterSize) := ReadHex(b, 0);
      var data :- Expect(afterSize, CRLF);
      if size == 0 then
        var rest :- Expect(data, CRLF);
        Ok(([], rest))
      else if size > |data| then Err
      else
        var next :- Expect(data[size..], CRLF);
        var (body, rest) :- DecodeChunked(next);
        Ok((data[..size] + body, rest))
  }

  // ---------------------------------------------------------------- framing

  function Pow16(k: nat): nat {
    if k == 0 then 1 else 16 * Pow16(k - 1)
  }

  lemma {:induction false} ReadHexAppend(digits: Bytes, d: nat, rest: Bytes, acc: nat)
    requires d < 16 && rest != [] && HexValue(rest[0]).None?
    requires forall i :: 0 <= i < |digits| ==> HexValue(digits[i]).Some?
    ensures ReadHex(digits + [HexDigit(d)] + rest, acc) == (ReadHex(digits, acc).0 * 16 + d, rest)
  {
    var b := digits + [HexDigit(d)] + rest;
    if digits == [] {
      assert b[1..] == rest;
    } else {
      assert b[1..] == digits[1..] + [HexDigit(d)] + rest;
      ReadHexAppend(digits[1..], d, rest, acc * 16 + HexValue(digits[0]).value);
    }
  }

  lemma {:induction false} UpperHexReads(n: nat, rest: Bytes)
    requires rest != [] && HexValue(rest[0]).None?
    ensures ReadHex(UpperHex(n) + rest, 0) == (n, rest)
    ensures forall i :: 0 <= i < |UpperHex(n)| ==> HexValue(UpperHex(n)[i]).Some?
    ensures ReadHex(UpperHex(n), 0).0 == n
    decreases n
  {
    if n < 16 {
      assert UpperHex(n) + rest == [] + [HexDigit(n)] + rest;
      ReadHexAppend([], n, rest, 0);
    } else {
      UpperHexReads(n / 16, rest);
      ReadHexAppend(UpperHex(n / 16), n % 16, rest, 0);
      ReadHexEnd(UpperHex(n / 16), n % 16, 0);
    }
  }

  lemma {:induction false} ReadHexEnd(digits: Bytes, d: nat, acc: nat)
    requires d < 16
    requires forall i :: 0 <= i < |digits| ==> HexValue(digits[i]).Some?
    ensures ReadHex(digits + [HexDigit(d)], acc).0 == ReadHex(digits, acc).0 * 16 + d
  {
    var b := digits + [HexDigit(d)];
    if digits != [] {
      assert b[1..] == digits[1..] + [HexDigit(d)];
      ReadHexEnd(digits[1..], d, acc * 16 + HexValue(digits[0]).value);
    }
  }

  lemma ExpectPrefix(prefix: Bytes, rest: Bytes)
    ensures Expect(prefix + rest, prefix) == Ok(rest)
  {
    assert (prefix + rest)[|prefix|..] == rest;
  }

  // The decoder reads back one chunk, whatever follows it.
  lemma ChunkDecodes(msg: Bytes, rest: Bytes)
    requires msg != [] && DecodeChunked(rest).Ok?
    ensures DecodeChunked(Chunk(msg) + rest)
         == Ok((msg + DecodeChunked(rest).value.0, DecodeChunked(rest).value.1))
  {
    var (size, data) := (UpperHex(|msg|), msg + (CRLF + rest));
    var b := Chunk(msg) + rest;
    assert b == size + (CRLF + data);
    UpperHexReads(|msg|, CRLF + data);
    assert b[0] == size[0];
    ExpectPrefix(CRLF, data);
    ExpectPrefix(CRLF, rest);
    assert data[..|msg|] == msg && data[|msg|..] == CRLF + rest;
  }

  lemma LastChunkDecodes(rest: Bytes)
    ensures DecodeChunked(LAST_CHUNK + rest) == Ok(([], rest))
  {
    var b := LAST_CHUNK + rest;
    assert b == [48] + (CRLF + (CRLF + rest));
    assert b[1..] == CRLF + (CRLF + rest);
    assert ReadHex(b[1..], 0) == (0, b[1..]);
    ExpectPrefix(CRLF, CRLF + rest);
    ExpectPrefix(CRLF, rest);
  }

  // Everything a chunked encoder wrote for a sequence of messages and its end, followed by
  // anything, decodes to the messages before the first empty one, and the decoder stops
  // exactly at what follows: there is one terminator, and it is the last thing written.
  lemma {:induction false} ChunkedFraming(msgs: seq<Bytes>, rest: Bytes)
    ensures var (k, out) := EncodeAll(Chunked(false), msgs);
      && EncodeEof(k).Ok?
      && DecodeChunked(out + EncodeEof(k).value.1 + rest) == Ok((Flatten(UpToEmpty(msgs)), rest))
  {
    var (k, out) := EncodeAll(Chunked(false), msgs);
    if msgs == [] {
      assert out + LAST_CHUNK + rest == LAST_CHUNK + rest;
      LastChunkDecodes(rest);
    } else if msgs[0] == [] {
      ClosedWritesNothing(Chunked(true), msgs[1..]);
      assert Encode(Chunked(false), msgs[0]) == (Chunked(true), LAST_CHUNK, true);
      assert k == Chunked(true) && out == LAST_CHUNK + [];
      assert out + [] + rest == LAST_CHUNK + rest;
      LastChunkDecodes(rest);
    } else {
      var (k', tail) := EncodeAll(Chunked(false), msgs[1..]);
      assert k == k' && out == Chunk(msgs[0]) + tail;
      ChunkedFraming(msgs[1..], rest);
      var end := EncodeEof(k').value.1;
      ChunkDecodes(msgs[0], tail + end + rest);
      JoinFour(Chunk(msgs[0]), tail, end, rest);
      assert UpToEmpty(msgs)[1..] == UpToEmpty(msgs[1..]);
    }
  }

  lemma JoinFour(a: Bytes, b: Bytes, c: Bytes, d: Bytes)
    ensures a + b + c + d == a + (b + c + d)
  {}

  lemma {:induction false} ClosedWritesNothing(k: Kind, msgs: seq<Bytes>)
    requires k.Chunked? && k.eof
    ensures EncodeAll(k, msgs) == (k, [])
  {
    if msgs != [] {
      ClosedWritesNothing(k, msgs[1..]);
      var none: Bytes := [];
      assert EncodeAll(k, msgs).1 == none + none == none;
    }
  }

  // In length mode the output is exactly the first N bytes offered, and the end is accepted
  // exactly when at least N were offered.
  lemma {:induction false} LengthFraming(n: nat, msgs: seq<Bytes>)
    ensures var (k, out) := EncodeAll(Length(n), msgs);
      var offered := Flatten(msgs);
      && out == offered[..Min(n, |offered|)]
      && k == Length(n - Min(n, |offered|))
      && (EncodeEof(k).Ok? <==> |offered| >= n)
  {
    if msgs != [] {
      var len := Min(n, |msgs[0]|);
      LengthFraming(n - len, msgs[1..]);
      assert Flatten(msgs) == msgs[0] + Flatten(msgs[1..]);
    }
  }

  // Without framing the body goes out as offered.
  lemma {:induction false} EofFraming(msgs: seq<Bytes>)
    ensures EncodeAll(Eof, msgs) == (Eof, Flatten(msgs))
  {
    if msgs != [] {
      EofFraming(msgs[1..]);
    }
  }

  lemma {:induction false} FullWritesNothing(msgs: seq<Bytes>)
    ensures EncodeAll(Length(0), msgs) == (Length(0), [])
  {
    if msgs != [] {
      FullWritesNothing(msgs[1..]);
      var none: Bytes := [];
      assert EncodeAll(Length(0), msgs).1 == none + none;
    }
  }

  // The answer of a framed encoder is true exactly when the body is complete: its end is accepted
  // with nothing more to write, and whatever is offered after it is dropped.  Without framing
  // it only repeats that the message was empty.
  lemma AnswerIff(kind: Kind, msg: Bytes)
    ensures var (k, _, answer) := Encode(kind, msg);
      if kind.Eof? then answer <==> msg == []
      else
        && (answer <==> EncodeEof(k) == Ok((k, [])))
        && (answer ==> forall msgs :: EncodeAll(k, msgs) == (k, []))
  {
    var (k, _, answer) := Encode(kind, msg);
    if answer && !kind.Eof? {
      forall msgs ensures EncodeAll(k, msgs) == (k, []) {
        if k.Chunked? {
          ClosedWritesNothing(k, msgs);
        } else {
          FullWritesNothing(msgs);
        }
      }
    }
  }
}
