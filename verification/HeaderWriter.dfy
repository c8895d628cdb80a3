/** Writing a message head: framing lines, connection line, and the header loop with its
    cursor into unused capacity. */
module HeaderWriter {
  import opened Bytes
  import opened Buffers
  import DecimalPrinter

  // ---------------------------------------------------------------- camel case

  const DASH: byte := 45

  predicate IsLower(c: byte) {
    97 <= c <= 122
  }

  // Setting bit 5 off, which is what `^ b' '` does to a lower-case letter.
  function UpperByte(c: byte): byte
    requires IsLower(c)
  {
    c - 32
  }

  // The bytes the writer emits: the first of each segment only if it is a lower-case letter.
  function CamelOut(k: Bytes): Bytes {
    if k == [] then [] else (if IsLower(k[0]) then [UpperByte(k[0])] else []) + CamelRest(k[1..])
  }

  function CamelRest(s: Bytes): Bytes {
    if s == [] then []
    else if s[0] == DASH && |s| > 1 then
      [DASH] + (if IsLower(s[1]) then [UpperByte(s[1])] else []) + CamelRest(s[2..])
    else [s[0]] + CamelRest(s[1..])
  }

  // What the name should become: every segment with its first byte in upper case.
  function Camel(k: Bytes): (r: Bytes)
    ensures |r| == |k|
  {
    seq(|k|, i requires 0 <= i < |k| => if SegmentStart(k, i) && IsLower(k[i]) then UpperByte(k[i]) else k[i])
  }

  predicate SegmentStart(k: Bytes, i: nat)
    requires i < |k|
  {
    i == 0 || k[i - 1] == DASH
  }

  // Every '-'-separated segment starts with a lower-case letter.
  predicate CamelReady(k: Bytes) {
    forall i :: 0 <= i < |k| && SegmentStart(k, i) ==> IsLower(k[i])
  }

  // Every segment that starts at or after position i starts with a lower-case letter.
  predicate ReadyFrom(k: Bytes, i: nat) {
    forall j :: i <= j < |k| && SegmentStart(k, j) ==> IsLower(k[j])
  }

  lemma ReadyStep(k: Bytes, i: nat)
    requires i < |k|
    ensures ReadyFrom(k, i) <==> (SegmentStart(k, i) ==> IsLower(k[i])) && ReadyFrom(k, i + 1)
  {}

  lemma CamelStepAt(k: Bytes, i: nat)
    requires i < |k|
    ensures Camel(k)[i..] == [Camel(k)[i]] + Camel(k)[i + 1..]
  {}

  // CamelRest on the part of a name from position i on, where no segment starts.
  lemma {:induction false} CamelRestFrom(k: Bytes, i: nat)
    requires 0 < i <= |k| && (i < |k| ==> !SegmentStart(k, i))
    ensures |CamelRest(k[i..])| <= |k| - i
    ensures |CamelRest(k[i..])| == |k| - i <==> ReadyFrom(k, i)
    ensures |CamelRest(k[i..])| == |k| - i ==> CamelRest(k[i..]) == Camel(k)[i..]
    decreases |k| - i
  {
    if i < |k| {
      ReadyStep(k, i);
      CamelStepAt(k, i);
      if k[i] == DASH && i + 1 < |k| {
        ReadyStep(k, i + 1);
        CamelStepAt(k, i + 1);
        DashStep(k, i);
        CamelRestShort(k[i + 2..]);
        if IsLower(k[i + 1]) {
          CamelRestFrom(k, i + 2);
          assert Camel(k)[i..] == [DASH] + [UpperByte(k[i + 1])] + Camel(k)[i + 2..];
        }
      } else {
        PlainStep(k, i);
        CamelRestFrom(k, i + 1);
      }
    }
  }

  lemma DashStep(k: Bytes, i: nat)
    requires i + 1 < |k| && k[i] == DASH
    ensures CamelRest(k[i..])
         == [DASH] + (if IsLower(k[i + 1]) then [UpperByte(k[i + 1])] else []) + CamelRest(k[i + 2..])
  {
    assert k[i..][2..] == k[i + 2..];
  }

  lemma PlainStep(k: Bytes, i: nat)
    requires i < |k| && !(k[i] == DASH && i + 1 < |k|)
    ensures CamelRest(k[i..]) == [k[i]] + CamelRest(k[i + 1..])
  {
    assert k[i..][1..] == k[i + 1..];
  }

  lemma {:induction false} CamelRestShort(s: Bytes)
    ensures |CamelRest(s)| <= |s|
  {
    if s == [] {
    } else if s[0] == DASH && |s| > 1 {
      CamelRestShort(s[2..]);
    } else {
      CamelRestShort(s[1..]);
    }
  }

  // The writer fills its whole region, with the intended name, exactly when every segment
  // starts with a lower-case letter; otherwise it leaves stale bytes at the end.
  lemma CamelCaseIff(k: Bytes)
    ensures |CamelOut(k)| <= |k|
    ensures |CamelOut(k)| == |k| <==> CamelReady(k)
    ensures CamelReady(k) ==> CamelOut(k) == Camel(k)
  {
    assert CamelReady(k) <==> ReadyFrom(k, 0);
    if k != [] {
      ReadyStep(k, 0);
      if IsLower(k[0]) {
        FirstFrom(k);
        CamelStepAt(k, 0);
        assert Camel(k)[0..] == Camel(k);
      } else {
        assert SegmentStart(k, 0);
        CamelRestShort(k[1..]);
      }
    }
  }

  lemma FirstFrom(k: Bytes)
    requires k != [] && IsLower(k[0])
    ensures |CamelRest(k[1..])| <= |k| - 1
    ensures |CamelRest(k[1..])| == |k| - 1 <==> ReadyFrom(k, 1)
    ensures ReadyFrom(k, 1) ==> CamelRest(k[1..]) == Camel(k)[1..]
  {
    CamelRestFrom(k, 1);
  }

  // `buffer[index] = c` inside the region that starts at `at`.
  method Put(buf: array<byte>, at: nat, index: nat, c: byte)
    requires at <= index < buf.Length
    modifies buf
    ensures buf[at..index + 1] == old(buf[at..index]) + [c]
    ensures forall j :: 0 <= j < buf.Length && j != index ==> buf[j] == old(buf[j])
  {
    buf[index] := c;
  }

  // One turn of the loop: a byte, and after a dash the first byte of the next segment.
  method PutNext(key: Bytes, buf: array<byte>, at: nat, cursor: nat, i: nat) returns (index: nat, next: nat)
    requires i < |key| && at <= cursor <= at + i && at + |key| <= buf.Length
    modifies buf
    ensures i < next <= |key| && cursor <= index <= at + next
    ensures buf[at..index] + CamelRest(key[next..]) == old(buf[at..cursor]) + CamelRest(key[i..])
    ensures forall j :: 0 <= j < buf.Length && !(cursor <= j < index) ==> buf[j] == old(buf[j])
  {
    ghost var (s, done) := (key[i..], buf[at..cursor]);
    CamelStep(s, done);
    var c := key[i];
    Put(buf, at, cursor, c);
    index, next := cursor + 1, i + 1;
    assert key[next..] == s[1..];
    if c == DASH {
      if next < |key| {
        var d := key[next];
        next := next + 1;
        assert d == s[1] && key[next..] == s[2..];
        if IsLower(d) {
          Put(buf, at, index, UpperByte(d));
          index := index + 1;
        } else {
          assert done + [DASH] + [] == done + [DASH];
        }
      }
    }
  }

  lemma CamelStep(s: Bytes, done: Bytes)
    requires s != []
    ensures s[0] == DASH && |s| > 1 ==>
      done + [DASH] + (if IsLower(s[1]) then [UpperByte(s[1])] else []) + CamelRest(s[2..]) == done + CamelRest(s)
    ensures !(s[0] == DASH && |s| > 1) ==> done + [s[0]] + CamelRest(s[1..]) == done + CamelRest(s)
  {
    if s[0] == DASH && |s| > 1 {
      Regroup(done, [DASH], if IsLower(s[1]) then [UpperByte(s[1])] else [], CamelRest(s[2..]));
    } else {
      Regroup(done, [], [s[0]], CamelRest(s[1..]));
    }
  }

  lemma Regroup(a: Bytes, b: Bytes, c: Bytes, d: Bytes)
    ensures a + b + c + d == a + (b + c + d)
    ensures b == [] ==> a + c + d == a + (c + d)
  {}

  method WriteCamelCase(key: Bytes, buf: array<byte>, at: nat)
    requires at + |key| <= buf.Length
    modifies buf
    ensures |CamelOut(key)| <= |key|
    ensures buf[at..at + |CamelOut(key)|] == CamelOut(key)
    ensures forall j :: 0 <= j < buf.Length && !(at <= j < at + |CamelOut(key)|) ==> buf[j] == old(buf[j])
  {
    if key == [] {
      return;
    }
    var index := PutFirst(key, buf, at);
    var i := 1;
    while i < |key|
      invariant 1 <= i <= |key| && at <= index <= at + i
      invariant buf[at..index] + CamelRest(key[i..]) == CamelOut(key)
      invariant forall j :: 0 <= j < buf.Length && !(at <= j < index) ==> buf[j] == old(buf[j])
    {
      index, i := PutNext(key, buf, at, index, i);
    }
    NothingLeft(buf[at..index], key[i..]);
  }

  lemma NothingLeft(a: Bytes, b: Bytes)
    requires b == []
    ensures a + CamelRest(b) == a
  {}

  // The first byte of the name, before the loop.
  method PutFirst(key: Bytes, buf: array<byte>, at: nat) returns (index: nat)
    requires key != [] && at + |key| <= buf.Length
    modifies buf
    ensures at <= index <= at + 1
    ensures buf[at..index] + CamelRest(key[1..]) == CamelOut(key)
    ensures forall j :: 0 <= j < buf.Length && !(at <= j < index) ==> buf[j] == old(buf[j])
  {
    index := at;
    if IsLower(key[0]) {
      Put(buf, at, index, UpperByte(key[0]));
      index := index + 1;
      assert buf[at..index] == [UpperByte(key[0])];
    }
  }

  // ---------------------------------------------------------------- what a head should be

  // A header name with its values, in the two forms of the header map.
  datatype Value = One(v: Bytes) | Multi(vs: seq<Bytes>) {
    function All(): seq<Bytes> {
      match this
      case One(v) => [v]
      case Multi(vs) => vs
    }
  }

  datatype Header = Header(name: Bytes, value: Value)

  // Names are in lower case.
  const CONNECTION: Bytes := [99, 111, 110, 110, 101, 99, 116, 105, 111, 110]
  const CONTENT_LENGTH: Bytes := [99, 111, 110, 116, 101, 110, 116, 45, 108, 101, 110, 103, 116, 104]
  const TRANSFER_ENCODING: Bytes :=
    [116, 114, 97, 110, 115, 102, 101, 114, 45, 101, 110, 99, 111, 100, 105, 110, 103]
  const DATE: Bytes := [100, 97, 116, 101]
  const COLON: Bytes := [58, 32]

  function NameText(camel: bool, name: Bytes): (t: Bytes)
    ensures |t| == |name|
  {
    if camel then Camel(name) else name
  }

  function Line(camel: bool, name: Bytes, v: Bytes): (t: Bytes)
    ensures |t| == |name| + |v| + 4
  {
    NameText(camel, name) + COLON + v + CRLF
  }

  // A line of the head: the spelling chosen for its name, the name, the value.
  datatype Field = Field(camel: bool, name: Bytes, value: Bytes)

  function FieldLines(fs: seq<Field>): Bytes {
    if fs == [] then []
    else
      var last := fs[|fs| - 1];
      FieldLines(fs[..|fs| - 1]) + Line(last.camel, last.name, last.value)
  }

  lemma {:induction false} FieldLinesAppend(fs: seq<Field>, gs: seq<Field>)
    ensures FieldLines(fs + gs) == FieldLines(fs) + FieldLines(gs)
  {
    if gs == [] {
      assert fs + gs == fs;
    } else {
      var (init, last) := (gs[..|gs| - 1], gs[|gs| - 1]);
      assert (fs + gs)[..|fs + gs| - 1] == fs + init && (fs + gs)[|fs + gs| - 1] == last;
      FieldLinesAppend(fs, init);
      Associates(FieldLines(fs), FieldLines(init), Line(last.camel, last.name, last.value));
    }
  }

  function FieldsOf(camel: bool, name: Bytes, vs: seq<Bytes>): (fs: seq<Field>)
    ensures |fs| == |vs|
  {
    seq(|vs|, i requires 0 <= i < |vs| => Field(camel, name, vs[i]))
  }

  // Headers that the loop leaves out: the connection header, and the framing headers when
  // the encoder's own framing stands.
  predicate Skipped(name: Bytes, skipLen: bool) {
    name == CONNECTION || (skipLen && (name == TRANSFER_ENCODING || name == CONTENT_LENGTH))
  }

  // The fields of the headers that are kept, in order.
  function HeaderFields(camel: bool, hs: seq<Header>, skipLen: bool): seq<Field> {
    if hs == [] then []
    else
      var last := hs[|hs| - 1];
      HeaderFields(camel, hs[..|hs| - 1], skipLen)
      + (if Skipped(last.name, skipLen) then [] else FieldsOf(camel, last.name, last.value.All()))
  }

  datatype BodySize = NoBody | Empty | Sized(n: nat) | Sized64(n: nat) | Stream

  datatype ConnectionType = Close | KeepAlive | Upgrade

  // Extra headers replace headers of the same name.
  datatype Message = Message(
    status: Option<nat>, headers: seq<Header>, extra: seq<Header>, camel: bool, chunked: bool)

  predicate HasName(hs: seq<Header>, name: Bytes) {
    exists i :: 0 <= i < |hs| && hs[i].name == name
  }

  function NotIn(hs: seq<Header>, extra: seq<Header>): (r: seq<Header>)
    ensures forall h :: h in r <==> h in hs && !HasName(extra, h.name)
  {
    if hs == [] then []
    else
      var rest := NotIn(hs[1..], extra);
      if HasName(extra, hs[0].name) then rest else [hs[0]] + rest
  }

  function Merged(m: Message): seq<Header> {
    NotIn(m.headers, m.extra) + m.extra
  }

  // 204, 100 and 102 have no body; 101 hands the stream over.
  function EffectiveLength(m: Message, length: BodySize): BodySize {
    match m.status
    case None => length
    case Some(code) =>
      if code == 204 || code == 100 || code == 102 then NoBody
      else if code == 101 then Stream
      else length
  }

  // Whether the caller's framing headers are left out.
  function SkipLen(m: Message, length: BodySize): bool {
    if EffectiveLength(m, length) == Stream && !m.chunked then false
    else if m.status == Some(101) then true
    else length != Stream
  }

  const CHUNKED: Bytes := [99, 104, 117, 110, 107, 101, 100]

  function FramingFields(m: Message, length: BodySize): seq<Field> {
    match EffectiveLength(m, length)
    case Stream => if m.chunked then [Field(m.camel, TRANSFER_ENCODING, CHUNKED)] else []
    case Empty => [Field(m.camel, CONTENT_LENGTH, [48])]
    case Sized(n) => [Field(false, CONTENT_LENGTH, DecimalPrinter.Decimal(n))]
    case Sized64(n) => [Field(m.camel, CONTENT_LENGTH, DecimalPrinter.Decimal(n))]
    case NoBody => []
  }

  predicate AtLeast11(v: DecimalPrinter.Version) {
    v.Http11? || v.Http2? || v.Http3?
  }

  const UPGRADE: Bytes := [117, 112, 103, 114, 97, 100, 101]
  const KEEP_ALIVE: Bytes := [107, 101, 101, 112, 45, 97, 108, 105, 118, 101]
  const CLOSE: Bytes := [99, 108, 111, 115, 101]

  function ConnectionFields(m: Message, version: DecimalPrinter.Version, ctype: ConnectionType): seq<Field> {
    match ctype
    case Upgrade => [Field(false, CONNECTION, UPGRADE)]
    case KeepAlive => if AtLeast11(version) then [] else [Field(m.camel, CONNECTION, KEEP_ALIVE)]
    case Close => if AtLeast11(version) then [Field(m.camel, CONNECTION, CLOSE)] else []
  }

  function HeadFields(m: Message, version: DecimalPrinter.Version, length: BodySize, ctype: ConnectionType): seq<Field> {
    FramingFields(m, length) + ConnectionFields(m, version, ctype)
    + HeaderFields(m.camel, Merged(m), SkipLen(m, length))
  }

  // What follows the status line; `date` is the clock's header with the closing CR LF.
  function HeadText(m: Message, version: DecimalPrinter.Version, length: BodySize, ctype: ConnectionType, date: Bytes): Bytes {
    CRLF + FieldLines(HeadFields(m, version, length, ctype)) + (if HasName(Merged(m), DATE) then CRLF else date)
  }

  // Names the camel-case writer can print.
  predicate Printable(m: Message) {
    m.camel ==> forall h :: h in Merged(m) ==> CamelReady(h.name)
  }

  lemma LineJoins(before: Bytes, named: Bytes, camel: bool, name: Bytes, v: Bytes)
    ensures named == before + NameText(camel, name) ==>
            named + COLON + v + CRLF == before + Line(camel, name, v)
    ensures before <= named ==> before <= named + COLON + v + CRLF
  {
    var (t, rest) := (NameText(camel, name), COLON + v + CRLF);
    Regroup(named, COLON, v, CRLF);
    Regroup(t, COLON, v, CRLF);
    assert before + t + rest == before + (t + rest);
    if before <= named {
      assert (named + rest)[..|before|] == before;
    }
  }

  // Bytes written from a position on, and the cursor behind them.
  lemma Grown(before: Bytes, after: Bytes, at: nat, m: nat, n: nat)
    requires |before| == |after| && m <= n && at + n <= |before|
    requires forall j :: 0 <= j < at ==> after[j] == before[j]
    ensures before[..at] <= after[..at + n]
    ensures m == n ==> after[..at + n] == before[..at] + after[at..at + m]
  {
    assert after[..at + n][..at] == before[..at];
  }

  lemma CamelGrown(before: Bytes, after: Bytes, at: nat, name: Bytes)
    requires |before| == |after| && at + |name| <= |before| && |CamelOut(name)| <= |name|
    requires forall j :: 0 <= j < at ==> after[j] == before[j]
    requires after[at..at + |CamelOut(name)|] == CamelOut(name)
    ensures before[..at] <= after[..at + |name|]
    ensures CamelReady(name) ==> after[..at + |name|] == before[..at] + Camel(name)
  {
    CamelCaseIff(name);
    Grown(before, after, at, |CamelOut(name)|, |name|);
  }

  // ---------------------------------------------------------------- the writer

  // The destination with the loop's cursor: `len` bytes are committed, `pos` more are
  // written, `remaining` are still unused.
  class Destination {
    var buf: array<byte>
    var len: nat
    var pos: nat
    var remaining: nat
    const grant: nat -> nat  // capacity that `reserve` adds beyond what was asked for

    ghost predicate Valid()
      reads this
    {
      len + pos + remaining == buf.Length
    }

    ghost function Written(): Bytes
      requires Valid()
      reads this, buf
    {
      buf[..len + pos]
    }

    constructor (capacity: nat, grant: nat -> nat)
      ensures Valid() && Written() == [] && pos == 0 && fresh(buf)
    {
      buf := new byte[capacity](_ => 0);
      len, pos, remaining := 0, 0, capacity;
      this.grant := grant;
    }

    // advance_mut, reserve, and the cursor anew.
    method CommitAndReserve(additional: nat)
      requires Valid()
      modifies this
      ensures Valid() && pos == 0 && remaining >= additional
      ensures buf == old(buf) || fresh(buf)
      ensures Written() == old(Written())
    {
      len := len + pos;
      pos := 0;
      if buf.Length - len < additional {
        var bigger := new byte[len + additional + grant(len)](_ => 0);
        forall i | 0 <= i < len {
          bigger[i] := buf[i];
        }
        buf := bigger;
      }
      remaining := buf.Length - len;
    }

    // copy_nonoverlapping to the cursor; the caller has checked the room.
    method WriteData(value: Bytes)
      requires Valid() && |value| <= remaining
      modifies this`pos, this`remaining, buf
      ensures Valid() && remaining == old(remaining) - |value|
      ensures Written() == old(Written()) + value
    {
      var at := len + pos;
      forall i | 0 <= i < |value| {
        buf[at + i] := value[i];
      }
      pos := pos + |value|;
      remaining := remaining - |value|;
    }

    method WriteName(name: Bytes, camel: bool)
      requires Valid() && |name| <= remaining
      modifies this`pos, this`remaining, buf
      ensures Valid() && remaining == old(remaining) - |name|
      ensures old(Written()) <= Written() && |Written()| == |old(Written())| + |name|
      ensures (camel && !CamelReady(name)) || Written() == old(Written()) + NameText(camel, name)
    {
      if camel {
        WriteCamelName(name);
      } else {
        WriteData(name);
      }
    }

    method WriteCamelName(name: Bytes)
      requires Valid() && |name| <= remaining
      modifies this`pos, this`remaining, buf
      ensures Valid() && remaining == old(remaining) - |name|
      ensures old(Written()) <= Written() && |Written()| == |old(Written())| + |name|
      ensures CamelReady(name) ==> Written() == old(Written()) + Camel(name)
    {
      ghost var (before, at) := (buf[..], len + pos);
      assert Written() == before[..at];
      WriteCamelCase(name, buf, len + pos);
      ghost var after := buf[..];
      assert forall j :: 0 <= j < at ==> after[j] == before[j];
      assert after[at..at + |CamelOut(name)|] == buf[at..at + |CamelOut(name)|];
      CamelGrown(before, after, at, name);
      pos := pos + |name|;
      remaining := remaining - |name|;
      assert Written() == after[..at + |name|];
    }

    // One header line.
    method WriteLine(name: Bytes, v: Bytes, camel: bool)
      requires Valid()
      modifies this, buf
      ensures Valid() && (buf == old(buf) || fresh(buf))
      ensures old(Written()) <= Written() && |Written()| == |old(Written())| + |name| + |v| + 4
      ensures (camel && !CamelReady(name)) || Written() == old(Written()) + Line(camel, name, v)
    {
      var size := |name| + |v| + 4;
      if size > remaining {
        CommitAndReserve(size * 2);
      }
      WriteName(name, camel);
      ghost var named := Written();
      WriteData(COLON);
      WriteData(v);
      WriteData(CRLF);
      assert Written() == named + COLON + v + CRLF;
      LineJoins(old(Written()), named, camel, name, v);
    }

    // put_slice, with the cursor committed before and after.
    method PutSlice(s: Bytes)
      requires Valid()
      modifies this, buf
      ensures Valid() && (buf == old(buf) || fresh(buf))
      ensures Written() == old(Written()) + s
    {
      CommitAndReserve(|s|);
      WriteData(s);
      CommitAndReserve(0);
    }

    // All the values of one header.
    method WriteHeader(name: Bytes, vs: seq<Bytes>, camel: bool)
      requires Valid()
      modifies this, buf
      ensures Valid() && (buf == old(buf) || fresh(buf))
      ensures old(Written()) <= Written()
      ensures (camel && !CamelReady(name)) || Written() == old(Written()) + FieldLines(FieldsOf(camel, name, vs))
    {
      assert FieldsOf(camel, name, vs)[..0] == [];
      for j := 0 to |vs|
        invariant Valid() && (buf == old(buf) || fresh(buf))
        invariant old(Written()) <= Written()
        invariant (camel && !CamelReady(name))
               || Written() == old(Written()) + FieldLines(FieldsOf(camel, name, vs)[..j])
      {
        FieldLinesStep(FieldsOf(camel, name, vs), j, old(Written()));
        WriteLine(name, vs[j], camel);
      }
      assert FieldsOf(camel, name, vs)[..|vs|] == FieldsOf(camel, name, vs);
    }

    // The header loop.
    method WriteHeaders(hs: seq<Header>, camel: bool, skipLen: bool) returns (hasDate: bool)
      requires Valid()
      modifies this, buf
      ensures Valid() && (buf == old(buf) || fresh(buf))
      ensures hasDate == HasName(hs, DATE)
      ensures old(Written()) <= Written()
      ensures (camel ==> forall h :: h in hs ==> CamelReady(h.name)) ==>
        Written() == old(Written()) + FieldLines(HeaderFields(camel, hs, skipLen))
    {
      hasDate := false;
      for i := 0 to |hs|
        invariant Valid() && (buf == old(buf) || fresh(buf))
        invariant hasDate == HasName(hs[..i], DATE)
        invariant old(Written()) <= Written()
        invariant (camel ==> forall h :: h in hs ==> CamelReady(h.name)) ==>
          Written() == old(Written()) + FieldLines(HeaderFields(camel, hs[..i], skipLen))
      {
        var h := hs[i];
        NextHasName(hs, i, DATE);
        NextHeader(camel, hs, skipLen, i, old(Written()));
        if h.name == DATE {
          hasDate := true;
        }
        if !Skipped(h.name, skipLen) {
          WriteHeader(h.name, h.value.All(), camel);
        }
      }
      assert hs[..|hs|] == hs;
    }

    // `encode_headers`.
    method EncodeHeaders(m: Message, version: DecimalPrinter.Version, length: BodySize, ctype: ConnectionType, date: Bytes)
      requires Valid()
      modifies this, buf
      ensures Valid()
      ensures old(Written()) <= Written()
      ensures Printable(m) ==> Written() == old(Written()) + HeadText(m, version, length, ctype, date)
    {
      ghost var start := Written();
      var framing := FramingFields(m, length);
      var connection := ConnectionFields(m, version, ctype);
      PutSlice(CRLF + FieldLines(framing));
      PutSlice(FieldLines(connection));
      ghost var before := Written();
      PrefixOf(start, CRLF + FieldLines(framing), FieldLines(connection));
      var hasDate := WriteHeaders(Merged(m), m.camel, SkipLen(m, length));
      ghost var listed := Written();
      var end := if hasDate then CRLF else date;
      PutSlice(end);
      HeadJoins(start, framing, connection, HeaderFields(m.camel, Merged(m), SkipLen(m, length)), end);
      assert before <= listed && Written() == listed + end;
    }
  }

  lemma FieldLinesStep(fs: seq<Field>, j: nat, before: Bytes)
    requires j < |fs|
    ensures before + FieldLines(fs[..j]) + Line(fs[j].camel, fs[j].name, fs[j].value) == before + FieldLines(fs[..j + 1])
  {
    assert fs[..j + 1][..j] == fs[..j];
  }

  lemma NextHasName(hs: seq<Header>, i: nat, name: Bytes)
    requires i < |hs|
    ensures HasName(hs[..i + 1], name) == (HasName(hs[..i], name) || hs[i].name == name)
  {
    var (p, q) := (hs[..i], hs[..i + 1]);
    assert q == p + [hs[i]];
    if HasName(p, name) {
      var k :| 0 <= k < |p| && p[k].name == name;
      assert q[k].name == name;
    }
    if hs[i].name == name {
      assert q[i].name == name;
    }
  }

  lemma NextHeader(camel: bool, hs: seq<Header>, skipLen: bool, i: nat, before: Bytes)
    requires i < |hs|
    ensures before + FieldLines(HeaderFields(camel, hs[..i], skipLen))
            + (if Skipped(hs[i].name, skipLen) then [] else FieldLines(FieldsOf(camel, hs[i].name, hs[i].value.All())))
         == before + FieldLines(HeaderFields(camel, hs[..i + 1], skipLen))
  {
    var more := if Skipped(hs[i].name, skipLen) then [] else FieldsOf(camel, hs[i].name, hs[i].value.All());
    assert hs[..i + 1][..i] == hs[..i];
    assert HeaderFields(camel, hs[..i + 1], skipLen) == HeaderFields(camel, hs[..i], skipLen) + more;
    FieldLinesAppend(HeaderFields(camel, hs[..i], skipLen), more);
    Associates(before, FieldLines(HeaderFields(camel, hs[..i], skipLen)), FieldLines(more));
  }

  lemma Associates(a: Bytes, b: Bytes, c: Bytes)
    ensures a + b + c == a + (b + c)
  {}

  lemma PrefixOf(a: Bytes, b: Bytes, c: Bytes)
    ensures a <= a + b + c
  {}

  lemma HeadJoins(start: Bytes, a: seq<Field>, b: seq<Field>, c: seq<Field>, end: Bytes)
    ensures start + (CRLF + FieldLines(a)) + FieldLines(b) + FieldLines(c) + end
         == start + (CRLF + FieldLines(a + b + c) + end)
  {
    FieldLinesAppend(a, b);
    FieldLinesAppend(a + b, c);
    JoinSix(start, CRLF, FieldLines(a), FieldLines(b), FieldLines(c), end);
  }

  lemma JoinSix(s: Bytes, t: Bytes, a: Bytes, b: Bytes, c: Bytes, e: Bytes)
    ensures s + (t + a) + b + c + e == s + (t + (a + b + c) + e)
  {
    Associates(s, t + a, b);
    Associates(s, t + a + b, c);
    Associates(s, t + a + b + c, e);
    Regroup(t, a, b, c);
  }

  // ---------------------------------------------------------------- what a head carries

  predicate Carries(fs: seq<Field>, name: Bytes) {
    exists i :: 0 <= i < |fs| && fs[i].name == name
  }

  predicate HasValue(hs: seq<Header>, name: Bytes) {
    exists i :: 0 <= i < |hs| && hs[i].name == name && hs[i].value.All() != []
  }

  lemma CarriesAppend(fs: seq<Field>, gs: seq<Field>, name: Bytes)
    ensures Carries(fs + gs, name) <==> Carries(fs, name) || Carries(gs, name)
  {
    if Carries(fs, name) {
      var i :| 0 <= i < |fs| && fs[i].name == name;
      assert (fs + gs)[i].name == name;
    }
    if Carries(gs, name) {
      var i :| 0 <= i < |gs| && gs[i].name == name;
      assert (fs + gs)[|fs| + i].name == name;
    }
  }

  lemma FieldsOfCarry(camel: bool, own: Bytes, vs: seq<Bytes>, name: Bytes)
    ensures Carries(FieldsOf(camel, own, vs), name) <==> own == name && vs != []
  {
    if vs != [] {
      assert FieldsOf(camel, own, vs)[0].name == own;
    }
  }

  lemma {:induction false} HeaderFieldsCarry(camel: bool, hs: seq<Header>, skipLen: bool, name: Bytes)
    ensures Carries(HeaderFields(camel, hs, skipLen), name) <==> !Skipped(name, skipLen) && HasValue(hs, name)
  {
    if hs != [] {
      var (last, init) := (hs[|hs| - 1], hs[..|hs| - 1]);
      HeaderFieldsCarry(camel, init, skipLen, name);
      FieldsOfCarry(camel, last.name, last.value.All(), name);
      var more := if Skipped(last.name, skipLen) then [] else FieldsOf(camel, last.name, last.value.All());
      CarriesAppend(HeaderFields(camel, init, skipLen), more, name);
      if HasValue(init, name) {
        var i :| 0 <= i < |init| && init[i].name == name && init[i].value.All() != [];
        assert hs[i] == init[i];
      }
      if HasValue(hs, name) && !(last.name == name && last.value.All() != []) {
        var i :| 0 <= i < |hs| && hs[i].name == name && hs[i].value.All() != [];
        assert init[i] == hs[i];
      }
    }
  }

  // When a head carries both framing headers, which section 3.3.2 of RFC 7230 forbids: the
  // caller's own content-length gets through (streaming bodies skip nothing, even chunked
  // ones) and a transfer-encoding stands beside it.
  lemma BothFramingsIff(m: Message, version: DecimalPrinter.Version, length: BodySize, ctype: ConnectionType)
    ensures var fs := HeadFields(m, version, length, ctype);
      Carries(fs, CONTENT_LENGTH) && Carries(fs, TRANSFER_ENCODING) <==>
        && !SkipLen(m, length) && HasValue(Merged(m), CONTENT_LENGTH)
        && ((EffectiveLength(m, length) == Stream && m.chunked) || HasValue(Merged(m), TRANSFER_ENCODING))
  {
    var (a, b) := (FramingFields(m, length), ConnectionFields(m, version, ctype));
    var c := HeaderFields(m.camel, Merged(m), SkipLen(m, length));
    FramingCarries(m, length);
    forall name | name == CONTENT_LENGTH || name == TRANSFER_ENCODING
      ensures Carries(a + b + c, name) <==> Carries(a, name) || Carries(c, name)
    {
      CarriesAppend(a, b, name);
      CarriesAppend(a + b, c, name);
      assert !Carries(b, name);
    }
    HeaderFieldsCarry(m.camel, Merged(m), SkipLen(m, length), CONTENT_LENGTH);
    HeaderFieldsCarry(m.camel, Merged(m), SkipLen(m, length), TRANSFER_ENCODING);
  }

  // The encoder's own framing line: one at most, and a content-length only when the
  // caller's framing headers are skipped.
  lemma FramingCarries(m: Message, length: BodySize)
    ensures Carries(FramingFields(m, length), TRANSFER_ENCODING) <==> EffectiveLength(m, length) == Stream && m.chunked
    ensures Carries(FramingFields(m, length), CONTENT_LENGTH) ==>
      SkipLen(m, length) && !Carries(FramingFields(m, length), TRANSFER_ENCODING)
  {
    var fs := FramingFields(m, length);
    if fs != [] {
      assert fs[0].name == fs[0].name;
    }
    if EffectiveLength(m, length) == Stream && m.chunked {
      assert fs[0].name == TRANSFER_ENCODING;
    }
  }

  // A name among the extra headers is written with the extra values only.
  lemma {:induction false} ExtraOverrides(camel: bool, m: Message, skipLen: bool, i: nat)
    requires i < |HeaderFields(camel, Merged(m), skipLen)|
    requires HasName(m.extra, HeaderFields(camel, Merged(m), skipLen)[i].name)
    ensures var f := HeaderFields(camel, Merged(m), skipLen)[i];
      exists h :: h in m.extra && h.name == f.name && f.value in h.value.All()
  {
    var h := FieldComesFrom(camel, Merged(m), skipLen, i);
    assert h in m.extra;
  }

  lemma {:induction false} FieldComesFrom(camel: bool, hs: seq<Header>, skipLen: bool, i: nat) returns (h: Header)
    requires i < |HeaderFields(camel, hs, skipLen)|
    ensures var f := HeaderFields(camel, hs, skipLen)[i];
      h in hs && h.name == f.name && f.value in h.value.All()
  {
    var (last, init) := (hs[|hs| - 1], hs[..|hs| - 1]);
    if i < |HeaderFields(camel, init, skipLen)| {
      h := FieldComesFrom(camel, init, skipLen, i);
    } else {
      h := last;
    }
  }
}
