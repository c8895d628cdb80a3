/** A recipient of message heads (RFC 7230, section 3): lines, fields, and the empty line. */
module HeadReader {
  import opened Bytes
  import opened Buffers
  import HW = HeaderWriter
  import DecimalPrinter

  // ---------------------------------------------------------------- the reader

  predicate IsBlank(b: byte) {
    b == 32 || b == 9
  }

  function TrimLeft(v: Bytes): (t: Bytes)
    ensures |t| <= |v|
  {
    if v != [] && IsBlank(v[0]) then TrimLeft(v[1..]) else v
  }

  function TrimRight(v: Bytes): (t: Bytes)
    ensures |t| <= |v|
  {
    if v != [] && IsBlank(v[|v| - 1]) then TrimRight(v[..|v| - 1]) else v
  }

  function Trimmed(v: Bytes): Bytes {
    TrimRight(TrimLeft(v))
  }

  lemma TrimPlain(v: Bytes)
    requires v != [] && !IsBlank(v[0]) && !IsBlank(v[|v| - 1])
    ensures Trimmed(v) == v
  {}

  function LowerBytes(v: Bytes): (t: Bytes)
    ensures |t| == |v|
  {
    seq(|v|, i requires 0 <= i < |v| => if 65 <= v[i] <= 90 then v[i] + 32 else v[i])
  }

  // The part before the first CR LF, and what follows it.
  function SplitLine(b: Bytes): (r: Result<(Bytes, Bytes)>)
    ensures r.Ok? ==> |r.value.1| < |b|
  {
    if |b| < 2 then Err
    else if b[0] == CR && b[1] == LF then Ok(([], b[2..]))
    else
      var (line, rest) :- SplitLine(b[1..]);
      Ok(([b[0]] + line, rest))
  }

  const COLON: byte := 58

  function SplitName(line: Bytes): Result<(Bytes, Bytes)> {
    if line == [] then Err
    else if line[0] == COLON then Ok(([], line[1..]))
    else
      var (name, value) :- SplitName(line[1..]);
      Ok(([line[0]] + name, value))
  }

  // Names do not depend on case, and blanks around a value do not belong to it.
  function ReadField(line: Bytes): Result<HW.Field> {
    var (name, value) :- SplitName(line);
    if name == [] then Err else Ok(HW.Field(false, LowerBytes(name), Trimmed(value)))
  }

  // The fields up to the empty line, and what follows it.
  function ReadFields(b: Bytes): Result<(seq<HW.Field>, Bytes)>
    decreases |b|
  {
    var (line, rest) :- SplitLine(b);
    if line == [] then Ok(([], rest))
    else
      var field :- ReadField(line);
      var (fs, after) :- ReadFields(rest);
      Ok(([field] + fs, after))
  }

  datatype Head = Head(first: Bytes, fields: seq<HW.Field>, rest: Bytes)

  // The status or request line, the fields, and what follows the head.
  function ReadHead(b: Bytes): Result<Head> {
    var (first, after) :- SplitLine(b);
    var (fs, rest) :- ReadFields(after);
    Ok(Head(first, fs, rest))
  }

  // ---------------------------------------------------------------- what a written head says

  // Header names are in lower case, and neither names nor values break a line.
  predicate WellNamed(name: Bytes) {
    name != [] && forall b :: b in name ==> b != COLON && b != CR && !(65 <= b <= 90)
  }

  ghost predicate WellFormed(hs: seq<HW.Header>) {
    forall h :: h in hs ==> WellNamed(h.name) && forall v :: v in h.value.All() ==> CR !in v
  }

  ghost predicate Readable(f: HW.Field) {
    WellNamed(f.name) && CR !in f.value
  }

  // A field as a recipient sees it.
  function Seen(f: HW.Field): HW.Field {
    HW.Field(false, f.name, Trimmed(f.value))
  }

  function AllSeen(fs: seq<HW.Field>): (ss: seq<HW.Field>)
    ensures |ss| == |fs|
  {
    if fs == [] then [] else AllSeen(fs[..|fs| - 1]) + [Seen(fs[|fs| - 1])]
  }

  lemma {:induction false} AllSeenAppend(fs: seq<HW.Field>, gs: seq<HW.Field>)
    ensures AllSeen(fs + gs) == AllSeen(fs) + AllSeen(gs)
  {
    if gs == [] {
      assert fs + gs == fs;
    } else {
      var (init, last) := (gs[..|gs| - 1], gs[|gs| - 1]);
      assert (fs + gs)[..|fs + gs| - 1] == fs + init && (fs + gs)[|fs + gs| - 1] == last;
      AllSeenAppend(fs, init);
    }
  }

  lemma {:induction false} LineSplits(line: Bytes, rest: Bytes)
    requires CR !in line
    ensures SplitLine(line + CRLF + rest) == Ok((line, rest))
  {
    var b := line + CRLF + rest;
    if line == [] {
      assert b[0] == CR && b[1] == LF && b[2..] == rest;
    } else {
      assert b[0] == line[0] && line[0] in line && b[1..] == line[1..] + CRLF + rest;
      LineSplits(line[1..], rest);
      assert line == [line[0]] + line[1..];
    }
  }

  lemma {:induction false} NameSplits(name: Bytes, value: Bytes)
    requires COLON !in name
    ensures SplitName(name + [COLON] + value) == Ok((name, value))
  {
    var line := name + [COLON] + value;
    if name == [] {
      assert line[0] == COLON && line[1..] == value;
    } else {
      assert line[0] == name[0] && name[0] in name && line[1..] == name[1..] + [COLON] + value;
      NameSplits(name[1..], value);
      assert name == [name[0]] + name[1..];
    }
  }

  // Either spelling of a name reads as the name.
  lemma NameReads(camel: bool, name: Bytes)
    requires WellNamed(name)
    ensures LowerBytes(HW.NameText(camel, name)) == name
    ensures COLON !in HW.NameText(camel, name) && CR !in HW.NameText(camel, name)
  {
    var t := HW.NameText(camel, name);
    forall i | 0 <= i < |name| ensures LowerBytes(t)[i] == name[i] && t[i] != COLON && t[i] != CR {
      assert name[i] in name;
    }
  }

  lemma FieldReads(f: HW.Field)
    requires Readable(f)
    ensures var line := HW.NameText(f.camel, f.name) + HW.COLON + f.value;
      CR !in line && line != [] && ReadField(line) == Ok(Seen(f))
  {
    var t := HW.NameText(f.camel, f.name);
    NameReads(f.camel, f.name);
    var line := t + HW.COLON + f.value;
    assert line == t + [COLON] + ([32] + f.value);
    NameSplits(t, [32] + f.value);
    assert ([32] + f.value)[1..] == f.value;
  }

  // The fields are read back in their order, and the reader stops behind the empty line.
  lemma {:induction false} LinesRead(fs: seq<HW.Field>, rest: Bytes)
    requires forall f :: f in fs ==> Readable(f)
    ensures ReadFields(HW.FieldLines(fs) + CRLF + rest) == Ok((AllSeen(fs), rest))
    decreases |fs|
  {
    if fs == [] {
      LineSplits([], rest);
      assert [] + CRLF + rest == HW.FieldLines(fs) + CRLF + rest;
    } else {
      var (f, tail) := (fs[0], fs[1..]);
      var line := HW.NameText(f.camel, f.name) + HW.COLON + f.value;
      var more := HW.FieldLines(tail) + CRLF + rest;
      FieldReads(f);
      LinesRead(tail, rest);
      LineSplits(line, more);
      FirstLine(fs, rest);
      AllSeenAppend([f], tail);
      assert [f] + tail == fs && AllSeen([f]) == [Seen(f)];
    }
  }

  lemma FirstLine(fs: seq<HW.Field>, rest: Bytes)
    requires fs != []
    ensures HW.FieldLines(fs) + CRLF + rest
         == HW.NameText(fs[0].camel, fs[0].name) + HW.COLON + fs[0].value + CRLF + (HW.FieldLines(fs[1..]) + CRLF + rest)
  {
    var (f, tail) := (fs[0], fs[1..]);
    assert fs == [f] + tail;
    HW.FieldLinesAppend([f], tail);
    assert HW.FieldLines([f]) == HW.Line(f.camel, f.name, f.value) by {
      assert [f][..0] == [];
      assert [] + HW.Line(f.camel, f.name, f.value) == HW.Line(f.camel, f.name, f.value);
    }
    HW.Associates(HW.Line(f.camel, f.name, f.value), HW.FieldLines(tail), CRLF);
    HW.Associates(HW.Line(f.camel, f.name, f.value), HW.FieldLines(tail) + CRLF, rest);
  }

  // ---------------------------------------------------------------- the head that is written

  lemma FieldsAreReadable(camel: bool, name: Bytes, vs: seq<Bytes>)
    requires WellNamed(name) && forall v :: v in vs ==> CR !in v
    ensures forall f :: f in HW.FieldsOf(camel, name, vs) ==> Readable(f)
  {
    forall f | f in HW.FieldsOf(camel, name, vs) ensures Readable(f) {
      var i :| 0 <= i < |vs| && HW.FieldsOf(camel, name, vs)[i] == f;
      assert vs[i] in vs;
    }
  }

  lemma {:induction false} HeadersAreReadable(camel: bool, hs: seq<HW.Header>, skipLen: bool)
    requires WellFormed(hs)
    ensures forall f :: f in HW.HeaderFields(camel, hs, skipLen) ==> Readable(f)
  {
    if hs != [] {
      var (init, last) := (hs[..|hs| - 1], hs[|hs| - 1]);
      assert last in hs && forall h :: h in init ==> h in hs;
      HeadersAreReadable(camel, init, skipLen);
      FieldsAreReadable(camel, last.name, last.value.All());
    }
  }

  lemma DecimalIsReadable(n: nat)
    ensures CR !in DecimalPrinter.Decimal(n)
  {
    DecimalPrinter.DecimalIsCanonical(n);
  }

  lemma OwnNames()
    ensures WellNamed(HW.CONTENT_LENGTH) && WellNamed(HW.TRANSFER_ENCODING) && WellNamed(HW.CONNECTION) && WellNamed(HW.DATE)
  {}

  lemma OwnValues()
    ensures CR !in HW.CHUNKED && CR !in HW.CLOSE && CR !in HW.KEEP_ALIVE && CR !in HW.UPGRADE
  {}

  lemma FramingIsReadable(m: HW.Message, length: HW.BodySize)
    ensures forall f :: f in HW.FramingFields(m, length) ==> Readable(f)
  {
    OwnNames();
    OwnValues();
    match HW.EffectiveLength(m, length)
    case Sized(n) => DecimalIsReadable(n);
    case Sized64(n) => DecimalIsReadable(n);
    case _ =>
  }

  lemma ConnectionIsReadable(m: HW.Message, version: DecimalPrinter.Version, ctype: HW.ConnectionType)
    ensures forall f :: f in HW.ConnectionFields(m, version, ctype) ==> Readable(f)
  {
    OwnNames();
    OwnValues();
  }

  // The clock's header with the empty line behind it.
  function DateLine(clock: Bytes): Bytes {
    HW.DATE + [COLON, 32] + clock + CRLF + CRLF
  }

  // The date line, which the clock adds when no header has that name.
  function DateFields(m: HW.Message, clock: Bytes): seq<HW.Field> {
    if HW.HasName(HW.Merged(m), HW.DATE) then [] else [HW.Field(false, HW.DATE, clock)]
  }

  // The fields that a recipient reads off a head.
  function FieldsRead(m: HW.Message, version: DecimalPrinter.Version, length: HW.BodySize, ctype: HW.ConnectionType, clock: Bytes): seq<HW.Field> {
    AllSeen(HW.HeadFields(m, version, length, ctype) + DateFields(m, clock))
  }

  // From the bytes of a head a recipient reads the status line, every field in order with the
  // clock's date behind them exactly when the message has none of its own, and it stops where
  // the body begins.
  lemma HeadReads(first: Bytes, m: HW.Message, version: DecimalPrinter.Version, length: HW.BodySize, ctype: HW.ConnectionType,
                  clock: Bytes, body: Bytes)
    requires CR !in first && CR !in clock && WellFormed(HW.Merged(m))
    ensures ReadHead(first + HW.HeadText(m, version, length, ctype, DateLine(clock)) + body)
         == Ok(Head(first, FieldsRead(m, version, length, ctype, clock), body))
  {
    var fs := HW.HeadFields(m, version, length, ctype);
    var all := fs + DateFields(m, clock);
    HeadersAreReadable(m.camel, HW.Merged(m), HW.SkipLen(m, length));
    FramingIsReadable(m, length);
    ConnectionIsReadable(m, version, ctype);
    OwnNames();
    assert forall f :: f in all ==> Readable(f);
    LinesRead(all, body);
    LineSplits(first, HW.FieldLines(all) + CRLF + body);
    DateEnds(m, fs, clock);
    Regroups(first, CRLF, HW.FieldLines(fs), if HW.HasName(HW.Merged(m), HW.DATE) then CRLF else DateLine(clock), HW.FieldLines(all) + CRLF, body);
  }

  lemma DateEnds(m: HW.Message, fs: seq<HW.Field>, clock: Bytes)
    ensures HW.FieldLines(fs + DateFields(m, clock)) + CRLF ==
      HW.FieldLines(fs) + if HW.HasName(HW.Merged(m), HW.DATE) then CRLF else DateLine(clock)
  {
    if HW.HasName(HW.Merged(m), HW.DATE) {
      assert fs + [] == fs;
    } else {
      var f := HW.Field(false, HW.DATE, clock);
      assert (fs + [f])[..|fs|] == fs;
      HW.Associates(HW.FieldLines(fs), HW.Line(false, HW.DATE, clock), CRLF);
      assert HW.Line(false, HW.DATE, clock) == HW.DATE + [COLON, 32] + clock + CRLF;
    }
  }

  lemma Regroups(first: Bytes, e: Bytes, lines: Bytes, end: Bytes, all: Bytes, body: Bytes)
    requires all == lines + end
    ensures first + (e + lines + end) + body == first + e + (all + body)
  {
    HW.Associates(e, lines, end);
    HW.Associates(first, e, all);
    HW.Associates(first + e, all, body);
  }
}
