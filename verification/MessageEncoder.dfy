/** One message: its head and the framing of its body, against what a recipient makes of them
    (RFC 7230, sections 3.3.2 and 3.3.3). */
module MessageEncoder {
  import opened Bytes
  import opened Buffers
  import TE = TransferEncoding
  import HW = HeaderWriter
  import HR = HeadReader
  import DecimalPrinter

  // The body encoding that `encode` picks, from the length it is given and not from the one
  // that the head announces.
  function BodyKind(m: HW.Message, head: bool, stream: bool, length: HW.BodySize): TE.Kind {
    if head then TE.Length(0)
    else
      match length
      case Empty => TE.Length(0)
      case Sized(n) => TE.Length(n)
      case Sized64(n) => TE.Length(n)
      case Stream => if m.chunked && !stream then TE.Chunked(false) else TE.Eof
      case NoBody => TE.Length(0)
  }

  class MessageWriter {
    const te: TE.Encoder

    constructor ()
      ensures fresh(te)
    {
      te := new TE.Encoder(TE.Length(0));
    }

    // Sets the body encoding, then writes the status line and the head.
    method Encode(dst: HW.Destination, m: HW.Message, statusLine: Bytes, head: bool, stream: bool,
                  version: DecimalPrinter.Version, length: HW.BodySize, ctype: HW.ConnectionType, date: Bytes)
      requires dst.Valid()
      modifies te, dst, dst.buf
      ensures te.kind == BodyKind(m, head, stream, length)
      ensures dst.Valid()
      ensures HW.Printable(m) ==>
        dst.Written() == old(dst.Written()) + statusLine + HW.HeadText(m, version, length, ctype, date)
    {
      te.kind := BodyKind(m, head, stream, length);
      dst.PutSlice(statusLine);
      dst.EncodeHeaders(m, version, length, ctype, date);
    }
  }

  // ---------------------------------------------------------------- what a head says

  // The values of a name, in the order of the lines.
  function Values(fs: seq<HW.Field>, name: Bytes): seq<Bytes> {
    if fs == [] then []
    else
      var last := fs[|fs| - 1];
      Values(fs[..|fs| - 1], name) + (if last.name == name then [last.value] else [])
  }

  const COMMA: byte := 44

  // One element of a list, in lower case; an empty one does not count (RFC 7230, section 7).
  function Element(v: Bytes): seq<Bytes> {
    var t := HR.LowerBytes(HR.Trimmed(v));
    if t == [] then [] else [t]
  }

  // The elements of a comma-separated value, the part read so far before the rest.
  function Elements(part: Bytes, rest: Bytes): seq<Bytes>
    decreases |rest|
  {
    if rest == [] then Element(part)
    else if rest[0] == COMMA then Element(part) + Elements([], rest[1..])
    else Elements(part + [rest[0]], rest[1..])
  }

  // The transfer codings that all the values list.
  function Codings(vs: seq<Bytes>): seq<Bytes> {
    if vs == [] then [] else Codings(vs[..|vs| - 1]) + Elements([], vs[|vs| - 1])
  }

  // Whether the last coding is the chunked one, which delimits the body.
  predicate LastIsChunked(vs: seq<Bytes>) {
    var cs := Codings(vs);
    cs != [] && cs[|cs| - 1] == HW.CHUNKED
  }

  predicate IsDigits(v: Bytes) {
    v != [] && forall i :: 0 <= i < |v| ==> 48 <= v[i] <= 57
  }

  lemma {:induction false} DigitsAreNat(v: Bytes)
    requires forall i :: 0 <= i < |v| ==> 48 <= v[i] <= 57
    ensures DecimalPrinter.DigitsValue(v) >= 0
  {
    if v != [] {
      DigitsAreNat(v[..|v| - 1]);
    }
  }

  // The length that all the values agree on.
  function AgreedLength(vs: seq<Bytes>): Option<nat> {
    if vs != [] && forall i :: 0 <= i < |vs| ==>
         IsDigits(vs[i]) && DecimalPrinter.DigitsValue(vs[i]) == DecimalPrinter.DigitsValue(vs[0])
    then
      DigitsAreNat(vs[0]);
      Some(DecimalPrinter.DigitsValue(vs[0]))
    else None
  }

  datatype Framing = Nothing | ByChunks | ByLength(n: nat) | ToTheEnd | Rejected

  // The framing of a head: transfer codings override a length; codings that do not end with
  // the chunked one leave a response to be read to its end and make a request an error, and
  // so is a length that is not one number.
  function FramingBy(te: seq<Bytes>, cl: seq<Bytes>, response: bool): Framing {
    if te != [] then (if LastIsChunked(te) then ByChunks else if response then ToTheEnd else Rejected)
    else if cl != [] then
      match AgreedLength(cl)
      case Some(n) => ByLength(n)
      case None => Rejected
    else if response then ToTheEnd
    else Nothing
  }

  function FramingOf(fs: seq<HW.Field>, response: bool): Framing {
    FramingBy(Values(fs, HW.TRANSFER_ENCODING), Values(fs, HW.CONTENT_LENGTH), response)
  }

  // Responses that end with their head, whatever it says.
  predicate Bodyless(code: nat) {
    (100 <= code < 200 && code != 101) || code == 204 || code == 304
  }

  // How a recipient finds the body behind a head (section 3.3.3 of RFC 7230): after an
  // upgrade all that follows belongs together.
  function ReadAs(status: Option<nat>, head: bool, fs: seq<HW.Field>): Framing {
    if head then Nothing
    else
      match status
      case None => FramingOf(fs, false)
      case Some(code) =>
        if Bodyless(code) then Nothing else if code == 101 then ToTheEnd else FramingOf(fs, true)
  }

  // Whether the head says that nothing follows on the connection (section 6.3).
  predicate SaysLast(status: Option<nat>, version: DecimalPrinter.Version, fs: seq<HW.Field>) {
    var options := Values(fs, HW.CONNECTION);
    status == Some(101) || (if HW.AtLeast11(version) then HW.CLOSE in options else HW.KEEP_ALIVE !in options)
  }

  // ---------------------------------------------------------------- the recipient

  // The body read, and what is left for the next message.
  function Received(f: Framing, wire: Bytes): Result<(Bytes, Bytes)> {
    match f
    case Nothing => Ok(([], wire))
    case ByChunks => TE.DecodeChunked(wire)
    case ByLength(n) => if |wire| < n then Err else Ok((wire[..n], wire[n..]))
    case ToTheEnd => Ok((wire, []))
    case Rejected => Err
  }

  // What the calls put into the body.
  function Content(kind: TE.Kind, msgs: seq<Bytes>): Bytes {
    match kind
    case Eof => TE.Flatten(msgs)
    case Length(n) => TE.Flatten(msgs)[..TE.Min(n, |TE.Flatten(msgs)|)]
    case Chunked(_) => TE.Flatten(TE.UpToEmpty(msgs))
  }

  function Wire(kind: TE.Kind, msgs: seq<Bytes>): Result<Bytes> {
    var (k, out) := TE.EncodeAll(kind, msgs);
    var last :- TE.EncodeEof(k);
    Ok(out + last.1)
  }

  // One exchange: the recipient gets the content and finds the next message behind it.
  ghost predicate Understood(f: Framing, kind: TE.Kind, msgs: seq<Bytes>, rest: Bytes) {
    Wire(kind, msgs).Ok? ==> Received(f, Wire(kind, msgs).value + rest) == Ok((Content(kind, msgs), rest))
  }

  // Every exchange; nothing follows what the head calls the last message.
  ghost predicate InSync(f: Framing, kind: TE.Kind, last: bool) {
    forall msgs, rest :: (last ==> rest == []) ==> Understood(f, kind, msgs, rest)
  }

  // ---------------------------------------------------------------- pairs of framing and encoding

  lemma ChunkedInSync(last: bool)
    ensures InSync(ByChunks, TE.Chunked(false), last)
  {
    forall msgs, rest ensures Understood(ByChunks, TE.Chunked(false), msgs, rest) {
      TE.ChunkedFraming(msgs, rest);
    }
  }

  lemma LengthWire(n: nat, msgs: seq<Bytes>)
    ensures Wire(TE.Length(n), msgs).Ok? <==> |TE.Flatten(msgs)| >= n
    ensures Wire(TE.Length(n), msgs).Ok? ==>
      Wire(TE.Length(n), msgs).value == TE.Flatten(msgs)[..n] == Content(TE.Length(n), msgs)
  {
    TE.LengthFraming(n, msgs);
    var out := TE.EncodeAll(TE.Length(n), msgs).1;
    assert out + [] == out;
  }

  lemma LengthInSync(n: nat, last: bool)
    ensures InSync(ByLength(n), TE.Length(n), last)
  {
    forall msgs, rest ensures Understood(ByLength(n), TE.Length(n), msgs, rest) {
      LengthWire(n, msgs);
      if Wire(TE.Length(n), msgs).Ok? {
        var w := Wire(TE.Length(n), msgs).value;
        assert (w + rest)[..n] == w && (w + rest)[n..] == rest;
      }
    }
  }

  lemma EofWire(msgs: seq<Bytes>)
    ensures Wire(TE.Eof, msgs) == Ok(TE.Flatten(msgs)) && Content(TE.Eof, msgs) == TE.Flatten(msgs)
  {
    TE.EofFraming(msgs);
    assert TE.Flatten(msgs) + [] == TE.Flatten(msgs);
  }

  // A recipient that reads to the end gets unchunked content, if nothing follows it.
  lemma EndInSync(kind: TE.Kind)
    requires !kind.Chunked?
    ensures InSync(ToTheEnd, kind, true)
  {
    forall msgs ensures Understood(ToTheEnd, kind, msgs, []) {
      if kind.Length? {
        LengthWire(kind.remaining, msgs);
      } else {
        EofWire(msgs);
      }
      if Wire(kind, msgs).Ok? {
        assert Wire(kind, msgs).value + [] == Wire(kind, msgs).value;
      }
    }
  }

  lemma NothingInSync(last: bool)
    ensures InSync(Nothing, TE.Length(0), last)
  {
    forall msgs, rest ensures Understood(Nothing, TE.Length(0), msgs, rest) {
      LengthWire(0, msgs);
      assert [] + rest == rest;
    }
  }

  lemma OneMessage(msg: Bytes)
    ensures TE.Flatten([msg]) == msg
  {
    assert TE.Flatten([msg]) == msg + TE.Flatten([msg][1..]);
  }

  // A body where the recipient expects none is taken for the next message.
  lemma NothingOnlyEmpty(kind: TE.Kind) returns (msgs: seq<Bytes>)
    requires kind != TE.Length(0) && (kind.Chunked? ==> !kind.eof)
    ensures !Understood(Nothing, kind, msgs, [])
  {
    match kind
    case Eof =>
      msgs := [[1]];
      OneMessage([1]);
      EofWire(msgs);
    case Length(n) =>
      msgs := [seq(n, _ => 1)];
      OneMessage(msgs[0]);
      LengthWire(n, msgs);
    case Chunked(_) =>
      msgs := [];
      assert Wire(kind, msgs) == Ok([] + TE.LAST_CHUNK);
  }

  // Without the terminator a recipient of chunks waits in vain.
  lemma ChunksNotRaw()
    ensures !Understood(ByChunks, TE.Eof, [], [])
  {
    EofWire([]);
  }

  // What follows is taken for a part of the body.
  lemma EndSwallows(kind: TE.Kind) returns (msgs: seq<Bytes>)
    requires !kind.Chunked?
    ensures !Understood(ToTheEnd, kind, msgs, [1])
  {
    if kind.Length? {
      msgs := [seq(kind.remaining, _ => 1)];
      OneMessage(msgs[0]);
      LengthWire(kind.remaining, msgs);
    } else {
      msgs := [];
      EofWire(msgs);
    }
  }

  // Chunks are not content for who reads to the end.
  lemma EndNotChunked()
    ensures !Understood(ToTheEnd, TE.Chunked(false), [], [])
  {
    assert Wire(TE.Chunked(false), []) == Ok([] + TE.LAST_CHUNK);
    assert ([] + TE.LAST_CHUNK) + [] == TE.LAST_CHUNK;
  }

  lemma RejectedNever(kind: TE.Kind) returns (msgs: seq<Bytes>)
    requires kind.Chunked? ==> !kind.eof
    ensures !Understood(Rejected, kind, msgs, [])
  {
    match kind
    case Eof => msgs := []; EofWire(msgs);
    case Length(n) =>
      msgs := [seq(n, _ => 1)];
      OneMessage(msgs[0]);
      LengthWire(n, msgs);
    case Chunked(_) =>
      msgs := [];
      assert Wire(kind, msgs) == Ok([] + TE.LAST_CHUNK);
  }

  // A raw stream behind a head with a length is understood exactly when it has that length.
  lemma RawLengthIff(n: nat, msgs: seq<Bytes>, rest: Bytes)
    ensures Understood(ByLength(n), TE.Eof, msgs, rest) <==> |TE.Flatten(msgs)| == n
  {
    EofWire(msgs);
    var w := TE.Flatten(msgs);
    if |w| == n {
      assert (w + rest)[..n] == w && (w + rest)[n..] == rest;
    }
  }

  // Which pairs of framing and encoding agree, among those that can meet.
  predicate Fits(f: Framing, kind: TE.Kind, last: bool) {
    match f
    case Nothing => kind == TE.Length(0)
    case ByChunks => kind.Chunked?
    case ByLength(n) => kind == TE.Length(n)
    case ToTheEnd => !kind.Chunked? && last
    case Rejected => false
  }

  lemma PairInSyncIff(f: Framing, kind: TE.Kind, last: bool)
    requires (kind.Chunked? ==> !kind.eof) && (f.ByLength? ==> kind == TE.Length(f.n) || kind.Eof?) && (f.ByChunks? ==> !kind.Length?)
    ensures InSync(f, kind, last) <==> Fits(f, kind, last)
  {
    match f
    case Nothing =>
      NothingInSync(last);
      if kind != TE.Length(0) {
        var msgs := NothingOnlyEmpty(kind);
      }
    case ByChunks =>
      ChunkedInSync(last);
      ChunksNotRaw();
    case ByLength(n) =>
      LengthInSync(n, last);
      var msgs := [seq(n + 1, _ => 1)];
      OneMessage(msgs[0]);
      RawLengthIff(n, msgs, []);
    case ToTheEnd =>
      EndNotChunked();
      if !kind.Chunked? {
        EndInSync(kind);
        var msgs := EndSwallows(kind);
        assert last || !InSync(f, kind, last);
      }
    case Rejected => var msgs := RejectedNever(kind);
  }

  // ---------------------------------------------------------------- the head that is written

  function AllTrimmed(vs: seq<Bytes>): (ts: seq<Bytes>)
    ensures |ts| == |vs|
  {
    seq(|vs|, i requires 0 <= i < |vs| => HR.Trimmed(vs[i]))
  }

  // The caller's values of a name, extra headers overriding.
  function CallersValues(hs: seq<HW.Header>, name: Bytes): seq<Bytes> {
    if hs == [] then []
    else
      var last := hs[|hs| - 1];
      CallersValues(hs[..|hs| - 1], name) + (if last.name == name then last.value.All() else [])
  }

  lemma {:induction false} ValuesAppend(fs: seq<HW.Field>, gs: seq<HW.Field>, name: Bytes)
    ensures Values(fs + gs, name) == Values(fs, name) + Values(gs, name)
  {
    if gs == [] {
      assert fs + gs == fs;
    } else {
      var (init, last) := (gs[..|gs| - 1], gs[|gs| - 1]);
      assert (fs + gs)[..|fs + gs| - 1] == fs + init && (fs + gs)[|fs + gs| - 1] == last;
      ValuesAppend(fs, init, name);
    }
  }

  lemma {:induction false} SeenValues(fs: seq<HW.Field>, name: Bytes)
    ensures Values(HR.AllSeen(fs), name) == AllTrimmed(Values(fs, name))
  {
    if fs != [] {
      var (init, f) := (fs[..|fs| - 1], fs[|fs| - 1]);
      SeenValues(init, name);
      assert HR.AllSeen(fs)[..|fs| - 1] == HR.AllSeen(init) && HR.AllSeen(fs)[|fs| - 1] == HR.Seen(f);
      assert AllTrimmed(Values(init, name) + [f.value]) == AllTrimmed(Values(init, name)) + [HR.Trimmed(f.value)];
    }
  }

  lemma TrimmedJoin(us: seq<Bytes>, vs: seq<Bytes>, ws: seq<Bytes>)
    ensures AllTrimmed(us + vs + ws + []) == AllTrimmed(us) + AllTrimmed(vs) + AllTrimmed(ws)
  {}

  // Values without blanks at their ends.
  lemma PlainValues(vs: seq<Bytes>)
    requires forall v :: v in vs ==> v != [] && !HR.IsBlank(v[0]) && !HR.IsBlank(v[|v| - 1])
    ensures AllTrimmed(vs) == vs
  {
    forall i | 0 <= i < |vs| ensures AllTrimmed(vs)[i] == vs[i] {
      assert vs[i] in vs;
      HR.TrimPlain(vs[i]);
    }
  }

  lemma {:induction false} ValuesOfFields(camel: bool, own: Bytes, vs: seq<Bytes>, name: Bytes)
    ensures Values(HW.FieldsOf(camel, own, vs), name) == if own == name then vs else []
  {
    if vs != [] {
      var (fs, init) := (HW.FieldsOf(camel, own, vs), vs[..|vs| - 1]);
      assert fs[..|fs| - 1] == HW.FieldsOf(camel, own, init);
      ValuesOfFields(camel, own, init, name);
      assert vs == init + [vs[|vs| - 1]];
    }
  }

  // Of the caller's headers those that are not skipped are written, with all their values.
  lemma {:induction false} KeptValues(camel: bool, hs: seq<HW.Header>, skipLen: bool, name: Bytes)
    ensures Values(HW.HeaderFields(camel, hs, skipLen), name) == if HW.Skipped(name, skipLen) then [] else CallersValues(hs, name)
  {
    if hs != [] {
      var (init, last) := (hs[..|hs| - 1], hs[|hs| - 1]);
      KeptValues(camel, init, skipLen, name);
      var more := if HW.Skipped(last.name, skipLen) then [] else HW.FieldsOf(camel, last.name, last.value.All());
      ValuesAppend(HW.HeaderFields(camel, init, skipLen), more, name);
      ValuesOfFields(camel, last.name, last.value.All(), name);
    }
  }

  lemma NamesDiffer()
    ensures HW.CONNECTION != HW.CONTENT_LENGTH && HW.CONNECTION != HW.TRANSFER_ENCODING && HW.CONTENT_LENGTH != HW.TRANSFER_ENCODING
    ensures HW.CLOSE != HW.KEEP_ALIVE && HW.CLOSE != HW.UPGRADE && HW.KEEP_ALIVE != HW.UPGRADE
  {
    assert |HW.CONNECTION| == 10 && |HW.CONTENT_LENGTH| == 14 && |HW.TRANSFER_ENCODING| == 17;
    assert |HW.CLOSE| == 5 && |HW.KEEP_ALIVE| == 10 && |HW.UPGRADE| == 7;
  }

  lemma OneField(f: HW.Field, name: Bytes)
    ensures Values([f], name) == if f.name == name then [f.value] else []
  {
    assert [f][..0] == [];
  }

  // The caller's values as a recipient reads them, without blanks at their ends.
  function Callers(m: HW.Message, name: Bytes): seq<Bytes> {
    AllTrimmed(CallersValues(HW.Merged(m), name))
  }

  // The values of a name in the whole head: framing, connection, and the caller's.
  lemma HeadValues(m: HW.Message, version: DecimalPrinter.Version, length: HW.BodySize, ctype: HW.ConnectionType, clock: Bytes,
                   name: Bytes)
    requires name != HW.DATE
    ensures Values(HR.FieldsRead(m, version, length, ctype, clock), name)
         == AllTrimmed(Values(HW.FramingFields(m, length), name)) + AllTrimmed(Values(HW.ConnectionFields(m, version, ctype), name))
            + (if HW.Skipped(name, HW.SkipLen(m, length)) then [] else Callers(m, name))
  {
    var (a, b) := (HW.FramingFields(m, length), HW.ConnectionFields(m, version, ctype));
    var c := HW.HeaderFields(m.camel, HW.Merged(m), HW.SkipLen(m, length));
    var d := HR.DateFields(m, clock);
    SeenValues(a + b + c + d, name);
    ValuesAppend(a + b + c, d, name);
    ValuesAppend(a + b, c, name);
    ValuesAppend(a, b, name);
    KeptValues(m.camel, HW.Merged(m), HW.SkipLen(m, length), name);
    OneField(HW.Field(false, HW.DATE, clock), name);
    TrimmedJoin(Values(a, name), Values(b, name), Values(c, name));
  }

  lemma FramingHasNoConnection(m: HW.Message, length: HW.BodySize)
    ensures Values(HW.FramingFields(m, length), HW.CONNECTION) == []
  {
    NamesDiffer();
    var fs := HW.FramingFields(m, length);
    if fs != [] {
      OneField(fs[0], HW.CONNECTION);
      assert fs == [fs[0]];
    }
  }

  // The message is the last one on its connection: an upgrade, a close from HTTP/1.1 on, or
  // anything but keep-alive before.
  predicate IsLast(m: HW.Message, version: DecimalPrinter.Version, ctype: HW.ConnectionType) {
    m.status == Some(101) || (if HW.AtLeast11(version) then ctype == HW.Close else ctype != HW.KeepAlive)
  }

  function ConnectionOptions(version: DecimalPrinter.Version, ctype: HW.ConnectionType): seq<Bytes> {
    match ctype
    case Upgrade => [HW.UPGRADE]
    case KeepAlive => if HW.AtLeast11(version) then [] else [HW.KEEP_ALIVE]
    case Close => if HW.AtLeast11(version) then [HW.CLOSE] else []
  }

  lemma OptionsArePlain(version: DecimalPrinter.Version, ctype: HW.ConnectionType)
    ensures AllTrimmed(ConnectionOptions(version, ctype)) == ConnectionOptions(version, ctype)
  {
    PlainValues(ConnectionOptions(version, ctype));
  }

  lemma ConnectionValues(m: HW.Message, version: DecimalPrinter.Version, ctype: HW.ConnectionType)
    ensures Values(HW.ConnectionFields(m, version, ctype), HW.CONNECTION) == ConnectionOptions(version, ctype)
  {
    var fs := HW.ConnectionFields(m, version, ctype);
    if fs != [] {
      OneField(fs[0], HW.CONNECTION);
      assert fs == [fs[0]];
    }
  }

  lemma HeadSaysLast(m: HW.Message, version: DecimalPrinter.Version, length: HW.BodySize, ctype: HW.ConnectionType, clock: Bytes)
    ensures SaysLast(m.status, version, HR.FieldsRead(m, version, length, ctype, clock)) <==> IsLast(m, version, ctype)
  {
    HeadValues(m, version, length, ctype, clock, HW.CONNECTION);
    FramingHasNoConnection(m, length);
    ConnectionValues(m, version, ctype);
    NamesDiffer();
    var own := ConnectionOptions(version, ctype);
    OptionsArePlain(version, ctype);
    assert AllTrimmed([]) == [] && [] + own + [] == own;
  }

  // The transfer codings and lengths of the head: the encoder's own line, and the caller's
  // unless they are skipped.
  function OwnCoding(m: HW.Message, length: HW.BodySize): seq<Bytes> {
    if HW.EffectiveLength(m, length).Stream? && m.chunked then [HW.CHUNKED] else []
  }

  function OwnLength(m: HW.Message, length: HW.BodySize): seq<Bytes> {
    match HW.EffectiveLength(m, length)
    case Empty => [[48]]
    case Sized(n) => [DecimalPrinter.Decimal(n)]
    case Sized64(n) => [DecimalPrinter.Decimal(n)]
    case _ => []
  }

  lemma HeadFraming(m: HW.Message, version: DecimalPrinter.Version, length: HW.BodySize, ctype: HW.ConnectionType, clock: Bytes)
    ensures Values(HR.FieldsRead(m, version, length, ctype, clock), HW.TRANSFER_ENCODING) ==
      OwnCoding(m, length) + (if HW.SkipLen(m, length) then [] else Callers(m, HW.TRANSFER_ENCODING))
    ensures Values(HR.FieldsRead(m, version, length, ctype, clock), HW.CONTENT_LENGTH) ==
      OwnLength(m, length) + (if HW.SkipLen(m, length) then [] else Callers(m, HW.CONTENT_LENGTH))
  {
    OwnFraming(m, length);
    OwnIsPlain(m, length);
    NoFramingInConnection(m, version, ctype);
    FramingNameInHead(m, version, length, ctype, clock, HW.TRANSFER_ENCODING);
    FramingNameInHead(m, version, length, ctype, clock, HW.CONTENT_LENGTH);
  }

  lemma FramingNameInHead(m: HW.Message, version: DecimalPrinter.Version, length: HW.BodySize, ctype: HW.ConnectionType, clock: Bytes,
                          name: Bytes)
    requires name == HW.TRANSFER_ENCODING || name == HW.CONTENT_LENGTH
    requires Values(HW.ConnectionFields(m, version, ctype), name) == []
    ensures Values(HR.FieldsRead(m, version, length, ctype, clock), name) ==
      AllTrimmed(Values(HW.FramingFields(m, length), name)) + (if HW.SkipLen(m, length) then [] else Callers(m, name))
  {
    HeadValues(m, version, length, ctype, clock, name);
    NamesDiffer();
    var own := AllTrimmed(Values(HW.FramingFields(m, length), name));
    assert AllTrimmed([]) == [] && own + [] == own;
  }

  lemma OwnFraming(m: HW.Message, length: HW.BodySize)
    ensures Values(HW.FramingFields(m, length), HW.TRANSFER_ENCODING) == OwnCoding(m, length)
    ensures Values(HW.FramingFields(m, length), HW.CONTENT_LENGTH) == OwnLength(m, length)
  {
    NamesDiffer();
    var fs := HW.FramingFields(m, length);
    if fs != [] {
      OneField(fs[0], HW.TRANSFER_ENCODING);
      OneField(fs[0], HW.CONTENT_LENGTH);
      assert fs == [fs[0]];
    }
  }

  lemma NumberIsPlain(n: nat)
    ensures AllTrimmed([DecimalPrinter.Decimal(n)]) == [DecimalPrinter.Decimal(n)]
  {
    DecimalPrinter.DecimalIsCanonical(n);
    PlainValues([DecimalPrinter.Decimal(n)]);
  }

  lemma OwnIsPlain(m: HW.Message, length: HW.BodySize)
    ensures AllTrimmed(OwnCoding(m, length)) == OwnCoding(m, length) && AllTrimmed(OwnLength(m, length)) == OwnLength(m, length)
  {
    PlainValues(OwnCoding(m, length));
    match HW.EffectiveLength(m, length)
    case Sized(n) => NumberIsPlain(n);
    case Sized64(n) => NumberIsPlain(n);
    case _ => PlainValues(OwnLength(m, length));
  }

  lemma NoFramingInConnection(m: HW.Message, version: DecimalPrinter.Version, ctype: HW.ConnectionType)
    ensures Values(HW.ConnectionFields(m, version, ctype), HW.TRANSFER_ENCODING) == []
    ensures Values(HW.ConnectionFields(m, version, ctype), HW.CONTENT_LENGTH) == []
  {
    NamesDiffer();
    var fs := HW.ConnectionFields(m, version, ctype);
    if fs != [] {
      OneField(fs[0], HW.TRANSFER_ENCODING);
      OneField(fs[0], HW.CONTENT_LENGTH);
      assert fs == [fs[0]];
    }
  }

  lemma OwnLengthReads(n: nat)
    ensures AgreedLength([DecimalPrinter.Decimal(n)]) == Some(n)
    ensures AgreedLength([[48]]) == Some(0)
  {
    DecimalPrinter.DecimalIsCanonical(n);
    assert DecimalPrinter.DigitsValue([48]) == DecimalPrinter.DigitsValue([]) * 10 + 0;
  }

  // ---------------------------------------------------------------- agreement

  predicate NoContent(length: HW.BodySize) {
    match length
    case Stream => false
    case Sized(n) => n == 0
    case Sized64(n) => n == 0
    case _ => true
  }

  // When a stream is understood behind its head.  Chunked: if the caller's own codings leave
  // the chunked one last, the body must be chunked; if they hide it, it must be raw, and the
  // last thing on the connection of a response.  Unchunked: only a response can be, as the
  // last thing, and the caller's headers must not delimit it.
  predicate StreamAgrees(m: HW.Message, stream: bool, last: bool) {
    var (te, cl) := (Callers(m, HW.TRANSFER_ENCODING), Callers(m, HW.CONTENT_LENGTH));
    if m.chunked then
      if LastIsChunked([HW.CHUNKED] + te) then !stream else m.status.Some? && stream && last
    else
      m.status.Some? && last && (if te != [] then !LastIsChunked(te) else cl == [])
  }

  // The condition on a call of `encode` under which head and body agree.
  predicate Agree(m: HW.Message, head: bool, stream: bool, version: DecimalPrinter.Version, length: HW.BodySize, ctype: HW.ConnectionType) {
    var last := IsLast(m, version, ctype);
    if head then true
    else if m.status.Some? && Bodyless(m.status.value) then NoContent(length)
    else if m.status == Some(101) then !(length.Stream? && m.chunked && !stream)
    else
      match length
      case Stream => StreamAgrees(m, stream, last)
      case NoBody => m.status.Some? ==> last
      case _ => true
  }

  // The framing of a stream, by the caller's codings and lengths.
  function StreamFraming(chunked: bool, te: seq<Bytes>, cl: seq<Bytes>, response: bool): Framing {
    FramingBy((if chunked then [HW.CHUNKED] else []) + te, cl, response)
  }

  // The framing that a recipient reads off the head of a message that may have a body.
  function BodyFraming(m: HW.Message, length: HW.BodySize): Framing {
    match length
    case Stream =>
      StreamFraming(m.chunked, Callers(m, HW.TRANSFER_ENCODING),
                    Callers(m, HW.CONTENT_LENGTH), m.status.Some?)
    case Empty => ByLength(0)
    case Sized(n) => ByLength(n)
    case Sized64(n) => ByLength(n)
    case NoBody => if m.status.Some? then ToTheEnd else Nothing
  }

  predicate MayHaveBody(status: Option<nat>) {
    status.Some? ==> !Bodyless(status.value) && status.value != 101
  }

  lemma BodyFramingIs(m: HW.Message, version: DecimalPrinter.Version, length: HW.BodySize, ctype: HW.ConnectionType, clock: Bytes)
    requires MayHaveBody(m.status)
    ensures FramingOf(HR.FieldsRead(m, version, length, ctype, clock), m.status.Some?) == BodyFraming(m, length)
  {
    HeadFraming(m, version, length, ctype, clock);
    var fs := HR.FieldsRead(m, version, length, ctype, clock);
    FramedAs(m, length, Values(fs, HW.TRANSFER_ENCODING), Values(fs, HW.CONTENT_LENGTH));
  }

  lemma FramedAs(m: HW.Message, length: HW.BodySize, te: seq<Bytes>, cl: seq<Bytes>)
    requires MayHaveBody(m.status)
    requires te == OwnCoding(m, length) + (if HW.SkipLen(m, length) then [] else Callers(m, HW.TRANSFER_ENCODING))
    requires cl == OwnLength(m, length) + (if HW.SkipLen(m, length) then [] else Callers(m, HW.CONTENT_LENGTH))
    ensures FramingBy(te, cl, m.status.Some?) == BodyFraming(m, length)
  {
    MayHaveBodyKeeps(m, length);
    match length
    case Stream => assert [] + Callers(m, HW.CONTENT_LENGTH) == Callers(m, HW.CONTENT_LENGTH);
    case Empty => OwnLengthReads(0);
    case Sized(n) => OwnLengthReads(n);
    case Sized64(n) => OwnLengthReads(n);
    case NoBody =>
  }

  // The length given is the one that is announced, and only a stream's framing headers are kept.
  lemma MayHaveBodyKeeps(m: HW.Message, length: HW.BodySize)
    requires MayHaveBody(m.status)
    ensures HW.EffectiveLength(m, length) == length && (HW.SkipLen(m, length) <==> !length.Stream?)
  {}

  // A body of known length is in sync behind its own line, and no body is where none is read.
  lemma SizedInSyncIff(m: HW.Message, head: bool, stream: bool, length: HW.BodySize, last: bool)
    requires !head && !length.Stream?
    ensures InSync(BodyFraming(m, length), BodyKind(m, head, stream, length), last)
         <==> (length.NoBody? && m.status.Some? ==> last)
  {
    PairInSyncIff(BodyFraming(m, length), BodyKind(m, head, stream, length), last);
  }

  lemma StreamInSyncIff(m: HW.Message, head: bool, stream: bool, last: bool)
    requires !head
    ensures InSync(BodyFraming(m, HW.Stream), BodyKind(m, head, stream, HW.Stream), last) <==> StreamAgrees(m, stream, last)
  {
    var (te, cl) := (Callers(m, HW.TRANSFER_ENCODING), Callers(m, HW.CONTENT_LENGTH));
    StreamFits(m.chunked, te, cl, m.status.Some?, stream, last);
    PairInSyncIff(BodyFraming(m, HW.Stream), BodyKind(m, head, stream, HW.Stream), last);
  }

  lemma StreamFits(chunked: bool, te: seq<Bytes>, cl: seq<Bytes>, response: bool, stream: bool, last: bool)
    ensures Fits(StreamFraming(chunked, te, cl, response), if chunked && !stream then TE.Chunked(false) else TE.Eof, last)
      <==> if chunked then (if LastIsChunked([HW.CHUNKED] + te) then !stream else response && stream && last)
           else response && last && (if te != [] then !LastIsChunked(te) else cl == [])
  {
    assert [] + te == te;
  }

  // The fields that a recipient reads off the bytes of a written head, and where the body begins;
  // head and body agree, for every body and whatever follows, exactly under the condition.
  lemma InSyncIff(first: Bytes, clock: Bytes, m: HW.Message, head: bool, stream: bool,
                  version: DecimalPrinter.Version, length: HW.BodySize, ctype: HW.ConnectionType)
    requires CR !in first && CR !in clock && HR.WellFormed(HW.Merged(m))
    ensures var text := first + HW.HeadText(m, version, length, ctype, HR.DateLine(clock));
      var fs := HR.FieldsRead(m, version, length, ctype, clock);
      && (forall wire :: HR.ReadHead(text + wire) == Ok(HR.Head(first, fs, wire)))
      && (InSync(ReadAs(m.status, head, fs), BodyKind(m, head, stream, length), SaysLast(m.status, version, fs))
          <==> Agree(m, head, stream, version, length, ctype))
  {
    var text := first + HW.HeadText(m, version, length, ctype, HR.DateLine(clock));
    forall wire ensures HR.ReadHead(text + wire) == Ok(HR.Head(first, HR.FieldsRead(m, version, length, ctype, clock), wire)) {
      HR.HeadReads(first, m, version, length, ctype, clock, wire);
    }
    FieldsInSyncIff(m, head, stream, version, length, ctype, clock);
  }

  lemma FieldsInSyncIff(m: HW.Message, head: bool, stream: bool, version: DecimalPrinter.Version, length: HW.BodySize,
                        ctype: HW.ConnectionType, clock: Bytes)
    ensures var fs := HR.FieldsRead(m, version, length, ctype, clock);
      InSync(ReadAs(m.status, head, fs), BodyKind(m, head, stream, length), SaysLast(m.status, version, fs))
      <==> Agree(m, head, stream, version, length, ctype)
  {
    var fs := HR.FieldsRead(m, version, length, ctype, clock);
    HeadSaysLast(m, version, length, ctype, clock);
    if head || !MayHaveBody(m.status) {
      PairInSyncIff(ReadAs(m.status, head, fs), BodyKind(m, head, stream, length), IsLast(m, version, ctype));
    } else {
      BodyFramingIs(m, version, length, ctype, clock);
      BodyInSyncIff(m, stream, version, length, ctype);
    }
  }

  lemma BodyInSyncIff(m: HW.Message, stream: bool, version: DecimalPrinter.Version, length: HW.BodySize, ctype: HW.ConnectionType)
    requires MayHaveBody(m.status)
    ensures InSync(BodyFraming(m, length), BodyKind(m, false, stream, length), IsLast(m, version, ctype))
       <==> Agree(m, false, stream, version, length, ctype)
  {
    if length.Stream? {
      StreamInSyncIff(m, false, stream, IsLast(m, version, ctype));
    } else {
      SizedInSyncIff(m, false, stream, length, IsLast(m, version, ctype));
    }
  }

  // For a caller without framing headers of its own: a response that must not have a body is
  // given none, an upgraded stream is not chunked, a chunked head is not followed by a raw
  // stream, and a response that is read to its end is the last one.
  lemma PlainInSyncIff(m: HW.Message, head: bool, stream: bool, version: DecimalPrinter.Version, length: HW.BodySize, ctype: HW.ConnectionType)
    requires Callers(m, HW.TRANSFER_ENCODING) == [] == Callers(m, HW.CONTENT_LENGTH)
    ensures Agree(m, head, stream, version, length, ctype) <==>
      head ||
      match m.status
      case None => length.Stream? ==> m.chunked && !stream
      case Some(code) =>
        if Bodyless(code) then NoContent(length)
        else if code == 101 then !(length.Stream? && m.chunked && !stream)
        else (length.Stream? && m.chunked ==> !stream)
             && (length.NoBody? || (length.Stream? && !m.chunked) ==> IsLast(m, version, ctype))
  {
    assert [HW.CHUNKED] + [] == [HW.CHUNKED];
    ChunkedIsLast();
  }

  lemma ChunkedIsLast()
    ensures LastIsChunked([HW.CHUNKED])
  {
    ChunkedElement();
    assert Codings([HW.CHUNKED]) == Codings([HW.CHUNKED][..0]) + Elements([], HW.CHUNKED);
  }

  lemma ChunkedElement()
    ensures Elements([], HW.CHUNKED) == [HW.CHUNKED]
  {
    NoCommaElements([], HW.CHUNKED);
    assert [] + HW.CHUNKED == HW.CHUNKED;
    assert HR.LowerBytes(HW.CHUNKED) == HW.CHUNKED;
  }

  lemma {:induction false} NoCommaElements(part: Bytes, v: Bytes)
    requires COMMA !in v
    ensures Elements(part, v) == Element(part + v)
    decreases |v|
  {
    if v == [] {
      assert part + v == part;
    } else {
      assert v[0] in v && COMMA !in v[1..];
      NoCommaElements(part + [v[0]], v[1..]);
      assert part + [v[0]] + v[1..] == part + v;
    }
  }

  // Two calls for one body of one byte on a connection that stays open: with a length of zero
  // among the caller's headers the body is taken for the next message, and without headers
  // the next message is taken for a part of the body.
  lemma UnframedStreams(version: DecimalPrinter.Version)
    requires HW.AtLeast11(version)
    ensures var m := HW.Message(Some(200), [HW.Header(HW.CONTENT_LENGTH, HW.One([48]))], [], false, false);
      !Agree(m, false, false, version, HW.Stream, HW.KeepAlive) && !Agree(m, false, false, version, HW.Stream, HW.Close)
    ensures var m := HW.Message(Some(200), [], [], false, false);
      !Agree(m, false, false, version, HW.Stream, HW.KeepAlive) && Agree(m, false, false, version, HW.Stream, HW.Close)
  {
    var hs := [HW.Header(HW.CONTENT_LENGTH, HW.One([48]))];
    var (m, n) := (HW.Message(Some(200), hs, [], false, false), HW.Message(Some(200), [], [], false, false));
    NamesDiffer();
    assert HW.Merged(n) == [];
    assert HW.Merged(m) == hs by {
      assert HW.NotIn(hs, []) == [hs[0]] + HW.NotIn(hs[1..], []);
    }
    assert CallersValues(hs, HW.CONTENT_LENGTH) == CallersValues(hs[..0], HW.CONTENT_LENGTH) + [[48]];
    assert CallersValues(hs, HW.TRANSFER_ENCODING) == CallersValues(hs[..0], HW.TRANSFER_ENCODING) + [];
  }
}
