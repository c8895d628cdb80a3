/** The Protocol Buffers wire format: what the hand-written encoder prints and the
    generated decoders read (encoding specification, "Base 128 Varints" and
    "Message Structure"). */
module ProtoWire {
  import opened Bytes

  const TWO_32: nat := 0x1_0000_0000
  const TWO_64: nat := 0x1_0000_0000_0000_0000

  // ---------------------------------------------------------------- varints

  function Varint(n: nat): (b: Bytes)
    ensures |b| > 0
  {
    if n > 127 then [n % 128 + 128] + Varint(n / 128) else [n]
  }

  method EncodeVarint(value: nat) returns (bytes: Bytes)
    ensures bytes == Varint(value)
  {
    bytes := [];
    var n := value;
    while n > 127
      invariant bytes + Varint(n) == Varint(value)
    {
      assert bytes + Varint(n) == (bytes + [n % 128 + 128]) + Varint(n / 128);
      bytes := bytes + [n % 128 + 128];
      n := n / 128;
    }
    bytes := bytes + [n];
  }

  // A varint of at most `budget` bytes at the front of b, and what follows it.
  function ReadVarint(b: Bytes, budget: nat): (r: Result<(nat, Bytes)>)
    ensures r.Ok? ==> |r.value.1| < |b|
    decreases |b|
  {
    if b == [] || budget == 0 then Err
    else if b[0] < 128 then Ok((b[0], b[1..]))
    else
      var (high, rest) :- ReadVarint(b[1..], budget - 1);
      Ok((b[0] - 128 + 128 * high, rest))
  }

  const MAX_VARINT_BYTES: nat := 10

  function ReadUint32(b: Bytes): (r: Result<(nat, Bytes)>)
    ensures r.Ok? ==> |r.value.1| < |b| && r.value.0 < TWO_32
  {
    var (v, rest) :- ReadVarint(b, MAX_VARINT_BYTES);
    Ok((v % TWO_32, rest))
  }

  function ReadUint64(b: Bytes): (r: Result<(nat, Bytes)>)
    ensures r.Ok? ==> |r.value.1| < |b| && r.value.0 < TWO_64
  {
    var (v, rest) :- ReadVarint(b, MAX_VARINT_BYTES);
    Ok((v % TWO_64, rest))
  }

  function Pow128(k: nat): (p: nat)
    ensures p >= 1
  {
    if k == 0 then 1 else 128 * Pow128(k - 1)
  }

  lemma {:induction false} ReadVarintInverts(n: nat, rest: Bytes, budget: nat)
    requires budget > 0 && n < Pow128(budget)
    ensures ReadVarint(Varint(n) + rest, budget) == Ok((n, rest))
  {
    var b := Varint(n) + rest;
    if n > 127 {
      assert b[1..] == Varint(n / 128) + rest;
      ReadVarintInverts(n / 128, rest, budget - 1);
    } else {
      assert b[1..] == rest;
    }
  }

  lemma Uint64Fits(n: nat)
    requires n < TWO_64
    ensures n < Pow128(MAX_VARINT_BYTES)
  {
    assert Pow128(5) == 0x8_0000_0000;
    assert Pow128(10) == 0x8_0000_0000 * Pow128(5);
  }

  lemma SmallMod(n: nat, m: nat)
    requires n < m
    ensures n % m == n
  {}

  lemma ReadUint32Inverts(n: nat, rest: Bytes)
    requires n < TWO_32
    ensures ReadUint32(Varint(n) + rest) == Ok((n, rest))
  {
    var b := Varint(n) + rest;
    assert ReadVarint(b, MAX_VARINT_BYTES) == Ok((n, rest)) by {
      Uint64Fits(n);
      ReadVarintInverts(n, rest, MAX_VARINT_BYTES);
    }
    SmallMod(n, TWO_32);
  }

  lemma ReadUint64Inverts(n: nat, rest: Bytes)
    requires n < TWO_64
    ensures ReadUint64(Varint(n) + rest) == Ok((n, rest))
  {
    var b := Varint(n) + rest;
    assert ReadVarint(b, MAX_VARINT_BYTES) == Ok((n, rest)) by {
      Uint64Fits(n);
      ReadVarintInverts(n, rest, MAX_VARINT_BYTES);
    }
    SmallMod(n, TWO_64);
  }

  // No encoding of the same number is shorter.
  lemma {:induction false} VarintIsCanonical(b: Bytes, budget: nat)
    requires ReadVarint(b, budget).Ok?
    ensures var (n, rest) := ReadVarint(b, budget).value; |Varint(n)| <= |b| - |rest|
  {
    if b[0] >= 128 {
      var (high, rest) := ReadVarint(b[1..], budget - 1).value;
      VarintIsCanonical(b[1..], budget - 1);
      var n := b[0] - 128 + 128 * high;
      assert n / 128 == high;
    }
  }

  // No encoding starts another one, so concatenated varints split in one way.
  lemma {:induction false} VarintIsPrefixFree(m: nat, n: nat, x: Bytes, y: Bytes)
    requires Varint(m) + x == Varint(n) + y
    ensures m == n && x == y
  {
    var b := Varint(m) + x;
    assert b[0] == (if m > 127 then m % 128 + 128 else m);
    assert b[0] == (if n > 127 then n % 128 + 128 else n);
    if m > 127 {
      assert b[1..] == Varint(m / 128) + x;
      assert b[1..] == Varint(n / 128) + y;
      VarintIsPrefixFree(m / 128, n / 128, x, y);
    } else {
      assert b[1..] == x && b[1..] == y;
    }
  }

  // ---------------------------------------------------------------- fields

  // A field as it stands on the wire.  The encoder prints the first two forms; the
  // fixed-width forms can reach a decoder as unknown fields.
  datatype Field =
    | VarintField(num: nat, value: nat)
    | LenField(num: nat, data: Bytes)
    | Fixed64Field(num: nat, data: Bytes)
    | Fixed32Field(num: nat, data: Bytes)

  function FieldBytes(f: Field): (b: Bytes)
    ensures |b| > 0
  {
    match f
    case VarintField(num, value) => Varint(num * 8) + Varint(value)
    case LenField(num, data) => Varint(num * 8 + 2) + Varint(|data|) + data
    case Fixed64Field(num, data) => Varint(num * 8 + 1) + data
    case Fixed32Field(num, data) => Varint(num * 8 + 5) + data
  }

  function FieldsBytes(fs: seq<Field>): Bytes {
    if fs == [] then [] else FieldBytes(fs[0]) + FieldsBytes(fs[1..])
  }

  lemma {:induction false} FieldsBytesAppend(fs: seq<Field>, gs: seq<Field>)
    ensures FieldsBytes(fs + gs) == FieldsBytes(fs) + FieldsBytes(gs)
  {
    if fs == [] {
      assert fs + gs == gs;
    } else {
      assert (fs + gs)[1..] == fs[1..] + gs;
      FieldsBytesAppend(fs[1..], gs);
    }
  }

  // ---------------------------------------------------------------- decoding

  // What the generated `switch` does with a field number: read a length-delimited value,
  // read an integer of some width, or skip by wire type.  It does not look at the wire
  // type of a number it knows.
  datatype Kind = Text | Int32 | Int64 | Unknown

  type Schema = nat -> Kind

  datatype Value = TextValue(text: Bytes) | IntValue(n: nat)

  function Drop(b: Bytes, n: nat): (r: Result<Bytes>)
    ensures r.Ok? ==> |r.value| <= |b|
  {
    if n <= |b| then Ok(b[n..]) else Err
  }

  function SkipType(wireType: nat, b: Bytes): (r: Result<Bytes>)
    ensures r.Ok? ==> |r.value| <= |b|
    decreases |b|, 1
  {
    match wireType
    case 0 =>
      var (_, rest) :- ReadVarint(b, MAX_VARINT_BYTES);
      Ok(rest)
    case 1 => Drop(b, 8)
    case 2 =>
      var (n, rest) :- ReadUint32(b);
      Drop(rest, n)
    case 3 => SkipGroup(b)
    case 5 => Drop(b, 4)
    case _ => Err
  }

  function SkipGroup(b: Bytes): (r: Result<Bytes>)
    ensures r.Ok? ==> |r.value| <= |b|
    decreases |b|, 0
  {
    var (tag, rest) :- ReadUint32(b);
    if tag % 8 == 4 then Ok(rest)
    else
      var after :- SkipType(tag % 8, rest);
      SkipGroup(after)
  }

  function ReadText(b: Bytes): (r: Result<(Bytes, Bytes)>)
    ensures r.Ok? ==> |r.value.1| < |b|
  {
    var (n, rest) :- ReadUint32(b);
    var after :- Drop(rest, n);
    Ok((rest[..n], after))
  }

  function ReadValue(kind: Kind, wireType: nat, b: Bytes): (r: Result<(Option<Value>, Bytes)>)
    ensures r.Ok? ==> |r.value.1| <= |b|
  {
    match kind
    case Text =>
      var (text, rest) :- ReadText(b);
      Ok((Some(TextValue(text)), rest))
    case Int32 =>
      var (n, rest) :- ReadUint32(b);
      Ok((Some(IntValue(n)), rest))
    case Int64 =>
      var (n, rest) :- ReadUint64(b);
      Ok((Some(IntValue(n)), rest))
    case Unknown =>
      var rest :- SkipType(wireType, b);
      Ok((None, rest))
  }

  // The fields read so far, by number; a later value replaces an earlier one.
  type Message = map<nat, Value>

  function Store(m: Message, num: nat, value: Option<Value>): Message {
    if value.Some? then m[num := value.value] else m
  }

  function Decode(schema: Schema, b: Bytes, m: Message): Result<Message>
    decreases |b|
  {
    if b == [] then Ok(m)
    else
      var (tag, rest) :- ReadUint32(b);
      var (value, after) :- ReadValue(schema(tag / 8), tag % 8, rest);
      Decode(schema, after, Store(m, tag / 8, value))
  }

  // ---------------------------------------------------------------- decoding inverts printing

  // A field a decoder with this schema reads as it was meant: known numbers carry the
  // wire type and width of their kind, unknown ones anything that can be skipped.
  predicate Fits(schema: Schema, f: Field) {
    && 0 < f.num < 0x2000_0000
    && (match schema(f.num)
        case Text => f.LenField?
        case Int32 => f.VarintField? && f.value < TWO_32
        case Int64 => f.VarintField?
        case Unknown => true)
    && (match f
        case VarintField(_, value) => value < TWO_64
        case LenField(_, data) => |data| < TWO_32
        case Fixed64Field(_, data) => |data| == 8
        case Fixed32Field(_, data) => |data| == 4)
  }

  function Meaning(schema: Schema, f: Field): Option<Value> {
    if schema(f.num).Unknown? then None
    else match f
      case VarintField(_, value) => Some(IntValue(value))
      case _ => Some(TextValue(f.data))
  }

  function Collect(schema: Schema, fs: seq<Field>, m: Message): Message {
    if fs == [] then m
    else Collect(schema, fs[1..], Store(m, fs[0].num, Meaning(schema, fs[0])))
  }

  function WireType(f: Field): nat {
    match f
    case VarintField(_, _) => 0
    case LenField(_, _) => 2
    case Fixed64Field(_, _) => 1
    case Fixed32Field(_, _) => 5
  }

  function Payload(f: Field): Bytes {
    match f
    case VarintField(_, value) => Varint(value)
    case LenField(_, data) => Varint(|data|) + data
    case _ => f.data
  }

  lemma TagRead(schema: Schema, f: Field, tail: Bytes)
    requires Fits(schema, f)
    ensures ReadUint32(FieldBytes(f) + tail) == Ok((f.num * 8 + WireType(f), Payload(f) + tail))
  {
    var tag := f.num * 8 + WireType(f);
    var head := Varint(tag);
    assert FieldBytes(f) == head + Payload(f) by {
      if f.LenField? {
        Associates(head, Varint(|f.data|), f.data);
      }
    }
    Associates(head, Payload(f), tail);
    ReadUint32Inverts(tag, Payload(f) + tail);
  }

  lemma Associates(a: Bytes, b: Bytes, c: Bytes)
    ensures a + b + c == a + (b + c)
  {}

  lemma LenRead(data: Bytes, tail: Bytes)
    requires |data| < TWO_32
    ensures ReadUint32(Varint(|data|) + data + tail) == Ok((|data|, data + tail))
    ensures Drop(data + tail, |data|) == Ok(tail)
    ensures (data + tail)[..|data|] == data
  {
    assert Varint(|data|) + data + tail == Varint(|data|) + (data + tail) by {
      Associates(Varint(|data|), data, tail);
    }
    ReadUint32Inverts(|data|, data + tail);
    assert (data + tail)[|data|..] == tail;
  }

  lemma LenPayloadRead(kind: Kind, data: Bytes, tail: Bytes)
    requires |data| < TWO_32 && (kind == Text || kind == Unknown)
    ensures ReadValue(kind, 2, Varint(|data|) + data + tail)
         == Ok((if kind == Text then Some(TextValue(data)) else None, tail))
  {
    LenRead(data, tail);
  }

  lemma PayloadRead(schema: Schema, f: Field, tail: Bytes)
    requires Fits(schema, f)
    ensures ReadValue(schema(f.num), WireType(f), Payload(f) + tail) == Ok((Meaning(schema, f), tail))
  {
    match f
    case VarintField(_, value) =>
      Uint64Fits(value);
      ReadVarintInverts(value, tail, MAX_VARINT_BYTES);
    case LenField(_, data) =>
      LenPayloadRead(schema(f.num), data, tail);
    case Fixed64Field(_, data) =>
      assert (data + tail)[8..] == tail;
    case Fixed32Field(_, data) =>
      assert (data + tail)[4..] == tail;
  }

  lemma TagParts(num: nat, wireType: nat)
    requires wireType < 8
    ensures (num * 8 + wireType) / 8 == num && (num * 8 + wireType) % 8 == wireType
  {}

  lemma DecodeStep(schema: Schema, b: Bytes, m: Message, tag: nat, rest: Bytes,
                   value: Option<Value>, tail: Bytes)
    requires b != [] && ReadUint32(b) == Ok((tag, rest))
    requires ReadValue(schema(tag / 8), tag % 8, rest) == Ok((value, tail))
    ensures Decode(schema, b, m) == Decode(schema, tail, Store(m, tag / 8, value))
  {}

  // The decode loop recovers any list of fitting fields, in any order, with any unknown
  // fields between them: unknown ones vanish and the last value of a number stands.
  lemma {:induction false} DecodeInverts(schema: Schema, fs: seq<Field>, m: Message)
    requires forall f :: f in fs ==> Fits(schema, f)
    ensures Decode(schema, FieldsBytes(fs), m) == Ok(Collect(schema, fs, m))
  {
    if fs != [] {
      var f, tail := fs[0], FieldsBytes(fs[1..]);
      var b := FieldsBytes(fs);
      assert b == FieldBytes(f) + tail;
      TagRead(schema, f, tail);
      PayloadRead(schema, f, tail);
      TagParts(f.num, WireType(f));
      DecodeStep(schema, b, m, f.num * 8 + WireType(f), Payload(f) + tail, Meaning(schema, f), tail);
      DecodeInverts(schema, fs[1..], Store(m, f.num, Meaning(schema, f)));
    }
  }
}
