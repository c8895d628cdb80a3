/** Percent coding of cookie names and values. */
module PercentCoding {
  import opened Bytes
  import Utf8

  const PERCENT: byte := 37

  // The userinfo set: controls, non-ASCII bytes, and the listed punctuation.
  predicate Escaped(b: byte) {
    b <= 32 || b >= 127 ||
    (b as char) in {'"', '<', '>', '`', '#', '?', '{', '}', '/', ':', ';', '=', '@', '[', '\\', ']', '^', '|'}
  }

  function HexChar(n: nat): byte
    requires n < 16
  {
    if n < 10 then 48 + n else 55 + n
  }

  function HexValue(b: byte): (n: Option<nat>)
    ensures n.Some? ==> n.value < 16
  {
    if 48 <= b <= 57 then Some(b - 48)
    else if 65 <= b <= 70 then Some(b - 55)
    else if 97 <= b <= 102 then Some(b - 87)
    else None
  }

  function EncodeByte(b: byte): Bytes {
    if Escaped(b) then [PERCENT, HexChar(b / 16), HexChar(b % 16)] else [b]
  }

  function EncodeBytes(b: Bytes): Bytes {
    if b == [] then [] else EncodeByte(b[0]) + EncodeBytes(b[1..])
  }

  // Two hexadecimal digits after a percent sign stand for a byte; anything else is itself.
  predicate IsTriplet(t: Bytes) {
    |t| >= 3 && t[0] == PERCENT && HexValue(t[1]).Some? && HexValue(t[2]).Some?
  }

  function DecodeBytes(t: Bytes): (b: Bytes)
    ensures |b| <= |t|
    decreases |t|
  {
    if t == [] then []
    else if IsTriplet(t) then [HexValue(t[1]).value * 16 + HexValue(t[2]).value] + DecodeBytes(t[3..])
    else [t[0]] + DecodeBytes(t[1..])
  }

  // No percent sign of the bytes is followed by two hexadecimal digits.
  predicate NoTriplet(b: Bytes) {
    forall i :: 0 <= i < |b| ==> !IsTriplet(b[i..])
  }

  lemma NoTripletTail(b: Bytes)
    requires b != [] && NoTriplet(b)
    ensures NoTriplet(b[1..]) && !IsTriplet(b)
  {
    assert b[0..] == b;
    forall i | 0 <= i < |b[1..]| ensures !IsTriplet(b[1..][i..]) {
      assert b[1..][i..] == b[i + 1..];
    }
  }

  // A triplet in the encoding starts with an escaped byte, or is already in the bytes:
  // encoding neither makes nor hides one behind a plain percent sign.
  lemma PlainPercent(b: Bytes)
    requires b != [] && !Escaped(b[0])
    ensures IsTriplet([b[0]] + EncodeBytes(b[1..])) <==> IsTriplet(b)
  {
    var t := [b[0]] + EncodeBytes(b[1..]);
    if |b| > 1 {
      assert t[1] == EncodeBytes(b[1..])[0] == EncodeByte(b[1])[0];
      if !Escaped(b[1]) && |b| > 2 {
        assert EncodeBytes(b[1..]) == [b[1]] + EncodeBytes(b[1..][1..]);
        assert b[1..][1..] == b[2..];
        assert t[2] == EncodeBytes(b[2..])[0] == EncodeByte(b[2])[0];
      }
      if !Escaped(b[1]) && |b| == 2 {
        assert EncodeBytes(b[1..]) == [b[1]] + EncodeBytes([]);
      }
    }
  }

  lemma HexByte(b: byte)
    ensures HexValue(HexChar(b / 16)) == Some(b / 16) && HexValue(HexChar(b % 16)) == Some(b % 16)
    ensures b / 16 * 16 + b % 16 == b
  {}

  // Decoding undoes encoding exactly for bytes without a triplet of their own; with one the
  // result is shorter.
  lemma {:induction false} RoundTripIff(b: Bytes)
    ensures NoTriplet(b) ==> DecodeBytes(EncodeBytes(b)) == b
    ensures !NoTriplet(b) ==> |DecodeBytes(EncodeBytes(b))| < |b|
    ensures |DecodeBytes(EncodeBytes(b))| <= |b|
    decreases |b|
  {
    if b != [] {
      var (t, rest) := (EncodeBytes(b), EncodeBytes(b[1..]));
      if Escaped(b[0]) {
        EscapedStep(b);
        RoundTripIff(b[1..]);
        TripletsBehind(b);
      } else {
        assert t == [b[0]] + rest;
        PlainPercent(b);
        if IsTriplet(b) {
          TripletEncoded(b);
          RoundTripIff(b[3..]);
          assert b[0..] == b;
        } else {
          assert t[1..] == rest;
          RoundTripIff(b[1..]);
          TripletsBehind(b);
        }
      }
    }
  }

  lemma EscapedStep(b: Bytes)
    requires b != [] && Escaped(b[0])
    ensures DecodeBytes(EncodeBytes(b)) == [b[0]] + DecodeBytes(EncodeBytes(b[1..]))
  {
    var t := EncodeBytes(b);
    HexByte(b[0]);
    assert t == EncodeByte(b[0]) + EncodeBytes(b[1..]);
    assert t[3..] == EncodeBytes(b[1..]);
  }

  lemma TripletsBehind(b: Bytes)
    requires b != [] && !IsTriplet(b)
    ensures NoTriplet(b) <==> NoTriplet(b[1..])
  {
    if NoTriplet(b) {
      NoTripletTail(b);
    }
    if NoTriplet(b[1..]) {
      forall i | 0 <= i < |b| ensures !IsTriplet(b[i..]) {
        if i == 0 {
          assert b[0..] == b;
        } else {
          assert b[i..] == b[1..][i - 1..];
        }
      }
    }
  }

  // The three bytes of a triplet are not escaped, and become one byte.
  lemma TripletEncoded(b: Bytes)
    requires IsTriplet(b)
    ensures DecodeBytes(EncodeBytes(b))
         == [HexValue(b[1]).value * 16 + HexValue(b[2]).value] + DecodeBytes(EncodeBytes(b[3..]))
  {
    ThreePlain(b);
    DecodeTriplet(b[0], b[1], b[2], EncodeBytes(b[3..]));
  }

  lemma DecodeTriplet(x: byte, y: byte, z: byte, rest: Bytes)
    requires IsTriplet([x, y, z])
    ensures DecodeBytes([x, y, z] + rest) == [HexValue(y).value * 16 + HexValue(z).value] + DecodeBytes(rest)
  {
    var t := [x, y, z] + rest;
    assert t[0] == x && t[1] == y && t[2] == z && t[3..] == rest;
  }

  lemma ThreePlain(b: Bytes)
    requires IsTriplet(b)
    ensures EncodeBytes(b) == [b[0], b[1], b[2]] + EncodeBytes(b[3..])
  {
    assert !Escaped(b[0]) && !Escaped(b[1]) && !Escaped(b[2]);
    OnePlain(b);
    OnePlain(b[1..]);
    OnePlain(b[2..]);
    assert b[1..][1..] == b[2..] && b[2..][1..] == b[3..];
  }

  lemma OnePlain(b: Bytes)
    requires b != [] && !Escaped(b[0])
    ensures EncodeBytes(b) == [b[0]] + EncodeBytes(b[1..])
  {}
}
