/** The UTF-8 encoding of text, in which strings are hashed. */
module Utf8 {
  import opened Bytes

  function EncodeChar(c: char): (b: Bytes)
    ensures b != []
  {
    var n := c as int;
    if n < 0x80 then [n]
    else if n < 0x800 then [0xC0 + n / 64, 0x80 + n % 64]
    else if n < 0x1_0000 then [0xE0 + n / 64 / 64, 0x80 + n / 64 % 64, 0x80 + n % 64]
    else [0xF0 + n / 64 / 64 / 64, 0x80 + n / 64 / 64 % 64, 0x80 + n / 64 % 64, 0x80 + n % 64]
  }

  function Encode(s: string): Bytes {
    if s == "" then [] else EncodeChar(s[0]) + Encode(s[1..])
  }

  // The scalar value that a sequence of encoding bytes spells.
  function Spelled(b: Bytes): int {
    if |b| == 1 then b[0]
    else if |b| == 2 then Base64(b[0] as int - 0xC0, b[1])
    else if |b| == 3 then Base64(Base64(b[0] as int - 0xE0, b[1]), b[2])
    else if |b| == 4 then Base64(Base64(Base64(b[0] as int - 0xF0, b[1]), b[2]), b[3])
    else 0
  }

  function Base64(high: int, continuation: byte): int {
    high * 64 + (continuation as int - 0x80)
  }

  lemma SixBits(n: nat)
    ensures Base64(n / 64, 0x80 + n % 64) == n
  {}

  lemma CharIsSpelled(c: char)
    ensures Spelled(EncodeChar(c)) == c as int
  {
    var n := c as int;
    SixBits(n);
    SixBits(n / 64);
    SixBits(n / 64 / 64);
  }

  lemma CharIsPrefixFree(c: char, d: char, x: Bytes, y: Bytes)
    requires EncodeChar(c) + x == EncodeChar(d) + y
    ensures c == d && x == y
  {
    var (p, q) := (EncodeChar(c), EncodeChar(d));
    assert (p + x)[0] == p[0] && (q + y)[0] == q[0];
    assert |p| == |q|;
    assert p == (p + x)[..|p|] && q == (q + y)[..|q|];
    CharIsSpelled(c);
    CharIsSpelled(d);
    assert (p + x)[|p|..] == x && (q + y)[|q|..] == y;
  }

  lemma {:induction false} EncodeInjective(s: string, t: string)
    requires Encode(s) == Encode(t)
    ensures s == t
  {
    if s != "" && t != "" {
      CharIsPrefixFree(s[0], t[0], Encode(s[1..]), Encode(t[1..]));
      EncodeInjective(s[1..], t[1..]);
      assert s == [s[0]] + s[1..] && t == [t[0]] + t[1..];
    }
  }

  // ---------------------------------------------------------------- decoding

  predicate IsScalar(n: int) {
    0 <= n < 0xD800 || 0xE000 <= n < 0x11_0000
  }

  // The length that a leading byte announces.
  function Announced(b: byte): nat {
    if b < 0x80 then 1 else if b < 0xE0 then 2 else if b < 0xF0 then 3 else 4
  }

  // The first character, if its shortest encoding is what stands there.
  function DecodeChar(b: Bytes): (c: Option<char>)
    requires b != []
    ensures c.Some? ==> EncodeChar(c.value) <= b
  {
    var k := Announced(b[0]);
    if k > |b| then None
    else
      var n := Spelled(b[..k]);
      if IsScalar(n) && EncodeChar(n as char) == b[..k] then Some(n as char) else None
  }

  function Decode(b: Bytes): Option<string>
    decreases |b|
  {
    if b == [] then Some("")
    else
      match DecodeChar(b)
      case None => None
      case Some(c) =>
        match Decode(b[|EncodeChar(c)|..])
        case None => None
        case Some(rest) => Some([c] + rest)
  }

  lemma DecodeFirst(c: char, rest: Bytes)
    ensures DecodeChar(EncodeChar(c) + rest) == Some(c)
    ensures (EncodeChar(c) + rest)[|EncodeChar(c)|..] == rest
  {
    var (p, b) := (EncodeChar(c), EncodeChar(c) + rest);
    CharIsSpelled(c);
    assert b[0] == p[0] && Announced(p[0]) == |p|;
    assert b[..|p|] == p;
    assert IsScalar(c as int);
  }

  lemma {:induction false} DecodeInverts(s: string)
    ensures Decode(Encode(s)) == Some(s)
  {
    if s != "" {
      DecodeFirst(s[0], Encode(s[1..]));
      DecodeInverts(s[1..]);
      assert s == [s[0]] + s[1..];
    }
  }

  lemma PrefixSplits(a: Bytes, b: Bytes)
    requires a <= b
    ensures b == a + b[|a|..]
  {}

  lemma EncodeHead(c: char, s: string)
    ensures Encode([c] + s) == EncodeChar(c) + Encode(s)
  {
    assert ([c] + s)[1..] == s;
  }

  // Whatever decodes is the encoding of what it decodes to.
  lemma {:induction false} DecodedEncodes(b: Bytes)
    ensures Decode(b).Some? ==> Encode(Decode(b).value) == b
    decreases |b|
  {
    if b != [] && Decode(b).Some? {
      var c := DecodeChar(b).value;
      var rest := b[|EncodeChar(c)|..];
      DecodedEncodes(rest);
      EncodeHead(c, Decode(rest).value);
      PrefixSplits(EncodeChar(c), b);
    }
  }

  // ---------------------------------------------------------------- slices

  lemma {:induction false} EncodeConcat(s: string, t: string)
    ensures Encode(s + t) == Encode(s) + Encode(t)
  {
    if s == "" {
      assert s + t == t;
    } else {
      assert (s + t)[1..] == s[1..] + t;
      EncodeConcat(s[1..], t);
      Associates(EncodeChar(s[0]), Encode(s[1..]), Encode(t));
    }
  }

  lemma Associates(a: Bytes, b: Bytes, c: Bytes)
    ensures a + b + c == a + (b + c)
  {}

  // Where a character of the text begins in its bytes.
  function Offset(s: string, p: nat): nat
    requires p <= |s|
  {
    |Encode(s[..p])|
  }

  // The bytes between two characters are the encoding of the text between them.
  lemma SliceEncodes(s: string, p: nat, q: nat)
    requires p <= q <= |s|
    ensures Offset(s, p) <= Offset(s, q) <= |Encode(s)|
    ensures Encode(s)[Offset(s, p)..Offset(s, q)] == Encode(s[p..q])
  {
    assert s == s[..q] + s[q..] && s[..q] == s[..p] + s[p..q];
    EncodeConcat(s[..q], s[q..]);
    EncodeConcat(s[..p], s[p..q]);
  }

  lemma OffsetStep(s: string, p: nat, q: nat)
    requires p <= q <= |s|
    ensures Offset(s, q) == Offset(s, p) + |Encode(s[p..q])| <= |Encode(s)|
  {
    SliceEncodes(s, p, q);
  }

  lemma OffsetNested(s: string, p: nat, q: nat, i: nat)
    requires p <= q <= |s| && p + i <= q
    ensures Offset(s, p + i) == Offset(s, p) + Offset(s[p..q], i)
  {
    OffsetStep(s, p, p + i);
    assert s[p..q][..i] == s[p..p + i];
  }

  // `is_char_boundary`: not in front of a continuation byte.
  predicate IsBoundary(b: Bytes, i: nat) {
    i <= |b| && (i == 0 || i == |b| || !(0x80 <= b[i] < 0xC0))
  }

  lemma CharBytes(c: char)
    ensures !(0x80 <= EncodeChar(c)[0] < 0xC0)
    ensures forall i :: 0 < i < |EncodeChar(c)| ==> 0x80 <= EncodeChar(c)[i] < 0xC0
  {
    Sixths(c as int);
  }

  lemma Sixths(n: nat)
    ensures 0 <= n % 64 < 64 && 0 <= n / 64 % 64 < 64 && 0 <= n / 64 / 64 % 64 < 64
    ensures n < 0x11_0000 ==> n / 64 / 64 / 64 < 8
    ensures n < 0x1_0000 ==> n / 64 / 64 < 16
    ensures n < 0x800 ==> n / 64 < 32
  {}

  // No boundary lies inside a character.
  lemma HeadBoundary(c: char, rest: Bytes, i: nat)
    requires 0 < i && IsBoundary(EncodeChar(c) + rest, i)
    ensures i >= |EncodeChar(c)| && IsBoundary(rest, i - |EncodeChar(c)|)
  {
    var (b, k) := (EncodeChar(c) + rest, |EncodeChar(c)|);
    CharBytes(c);
    var m := if i < k then i else 0;
    assert b[m] == EncodeChar(c)[m];
    assert k <= i < |b| ==> b[i] == rest[i - k];
  }

  // The boundaries of an encoded text are the places where its characters begin, and its end.
  lemma {:induction false} BoundaryIsChar(s: string, i: nat) returns (p: nat)
    requires IsBoundary(Encode(s), i)
    ensures p <= |s| && Offset(s, p) == i
  {
    if i == 0 {
      p := 0;
    } else {
      HeadBoundary(s[0], Encode(s[1..]), i);
      var q := BoundaryIsChar(s[1..], i - |EncodeChar(s[0])|);
      p := q + 1;
      assert s[..p] == [s[0]] + s[1..][..q];
      assert s[..p][1..] == s[1..][..q];
    }
  }

  lemma OffsetIsBoundary(s: string, p: nat)
    requires p <= |s|
    ensures IsBoundary(Encode(s), Offset(s, p))
  {
    SliceEncodes(s, p, |s|);
    assert s[..|s|] == s;
    if p < |s| {
      CharBytes(s[p]);
      assert Encode(s[p..]) == EncodeChar(s[p]) + Encode(s[p..][1..]);
      assert Encode(s[p..])[0] == Encode(s)[Offset(s, p)];
    }
  }

  // `&s[i..j]` in bytes, defined where it does not panic.
  function ByteSlice(s: string, i: nat, j: nat): string
    requires i <= j && IsBoundary(Encode(s), i) && IsBoundary(Encode(s), j)
  {
    match Decode(Encode(s)[i..j])
    case Some(t) => t
    case None => ""
  }

  lemma SliceReads(s: string, p: nat, q: nat)
    requires p <= q <= |s|
    ensures Offset(s, p) <= Offset(s, q)
    ensures IsBoundary(Encode(s), Offset(s, p)) && IsBoundary(Encode(s), Offset(s, q))
    ensures ByteSlice(s, Offset(s, p), Offset(s, q)) == s[p..q]
  {
    OffsetIsBoundary(s, p);
    OffsetIsBoundary(s, q);
    SliceEncodes(s, p, q);
    DecodeInverts(s[p..q]);
  }

  // A part of a text, found by the size of what stands before it and its own.
  lemma PartReads(s: string, p: nat, q: nat)
    requires p <= q <= |s|
    ensures var (i, j) := (Offset(s, p), Offset(s, p) + |Encode(s[p..q])|);
      j <= |Encode(s)| && IsBoundary(Encode(s), i) && IsBoundary(Encode(s), j) && ByteSlice(s, i, j) == s[p..q]
  {
    OffsetStep(s, p, q);
    SliceReads(s, p, q);
  }

  // Wherever it does not panic, a slice is valid text: that between two characters.
  lemma SliceIsText(s: string, i: nat, j: nat) returns (p: nat, q: nat)
    requires i <= j && IsBoundary(Encode(s), i) && IsBoundary(Encode(s), j)
    ensures p <= |s| && q <= |s| && i == Offset(s, p) && j == Offset(s, q)
    ensures p <= q ==> ByteSlice(s, i, j) == s[p..q]
    ensures p > q ==> i == j
  {
    p := BoundaryIsChar(s, i);
    q := BoundaryIsChar(s, j);
    if p <= q {
      SliceReads(s, p, q);
    } else {
      SliceEncodes(s, q, p);
    }
  }
}
