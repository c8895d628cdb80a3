/** Hexadecimal text: the form in which digests travel between the components. */
module Hex {
  import opened Bytes

  // The lower-case digit that `toString('hex')` and `hex::encode` print.
  function DigitOf(n: int): (c: char)
    requires 0 <= n < 16
    ensures ValueOf(c) == Some(n)
  {
    if n < 10 then '0' + n as char else 'a' + (n - 10) as char
  }

  function ValueOf(c: char): (n: Option<int>)
    ensures n.Some? ==> 0 <= n.value < 16
  {
    if '0' <= c <= '9' then Some((c - '0') as int)
    else if 'a' <= c <= 'f' then Some((c - 'a') as int + 10)
    else if 'A' <= c <= 'F' then Some((c - 'A') as int + 10)
    else None
  }

  function ToHex(b: Bytes): (s: string)
    ensures |s| == 2 * |b|
  {
    if b == [] then "" else [DigitOf(b[0] / 16), DigitOf(b[0] % 16)] + ToHex(b[1..])
  }

  // Node's `Buffer.from(s, 'hex')`: decoding stops, without an error, at the first pair
  // of characters that is not a hexadecimal byte, and an odd last character is dropped.
  function FromHexPrefix(s: string): Bytes {
    if |s| < 2 || ValueOf(s[0]).None? || ValueOf(s[1]).None? then []
    else [ValueOf(s[0]).value * 16 + ValueOf(s[1]).value] + FromHexPrefix(s[2..])
  }

  // Rust's `hex::decode`: any odd length or foreign character is an error.
  function FromHex(s: string): (r: Result<Bytes>)
    ensures r.Ok? <==> |s| % 2 == 0 && forall i :: 0 <= i < |s| ==> ValueOf(s[i]).Some?
    ensures r.Ok? ==> |s| == 2 * |r.value| && r.value == FromHexPrefix(s)
  {
    if s == "" then Ok([])
    else if |s| < 2 || ValueOf(s[0]).None? || ValueOf(s[1]).None? then Err
    else
      var rest :- FromHex(s[2..]);
      Ok([ValueOf(s[0]).value * 16 + ValueOf(s[1]).value] + rest)
  }

  lemma {:induction false} HexRoundTrip(b: Bytes)
    ensures FromHex(ToHex(b)) == Ok(b)
    ensures FromHexPrefix(ToHex(b)) == b
  {
    if b != [] {
      HexRoundTrip(b[1..]);
      assert ToHex(b)[2..] == ToHex(b[1..]);
      assert [b[0]] + b[1..] == b;
    }
  }

  lemma ToHexInjective(a: Bytes, b: Bytes)
    requires ToHex(a) == ToHex(b)
    ensures a == b
  {
    HexRoundTrip(a);
    HexRoundTrip(b);
  }
}
