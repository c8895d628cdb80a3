/** The transactions the anchor encodes by hand, the generated decoders that read them,
    and the signed envelope around them. */
module ProtoMessages {
  import opened Bytes
  import opened ProtoWire

  // Text fields hold their UTF-8 bytes.
  datatype WriteLog = WriteLog(
    contentHash: Bytes, level: Bytes, source: Bytes, messagePreview: Bytes,
    seed: nat, message: Bytes, metadataJson: Bytes)

  datatype WriteHash = WriteHash(contentHash: Bytes, level: Bytes, messagePreview: Bytes, seed: nat)

  datatype WriteBatch = WriteBatch(
    contentHash: Bytes, seed: nat, startId: Bytes, endId: Bytes, count: nat,
    debugCount: nat, infoCount: nat, warnCount: nat, errorCount: nat, criticalCount: nat,
    maxSeverity: Bytes)

  // ---------------------------------------------------------------- encoding

  // A field is left out when its value is the proto3 default.
  function OptText(num: nat, s: Bytes): seq<Field> {
    if s == [] then [] else [LenField(num, s)]
  }

  function OptInt(num: nat, n: nat): seq<Field> {
    if n == 0 then [] else [VarintField(num, n)]
  }

  function WriteLogFields(d: WriteLog): seq<Field> {
    [LenField(1, d.contentHash)] + OptText(2, d.level) + OptText(3, d.source)
    + OptText(4, d.messagePreview) + OptInt(5, d.seed) + OptText(6, d.message)
    + OptText(7, d.metadataJson)
  }

  function WriteHashFields(d: WriteHash): seq<Field> {
    [LenField(1, d.contentHash)] + OptText(2, d.level) + OptText(3, d.messagePreview)
    + OptInt(4, d.seed)
  }

  function WriteBatchFields(d: WriteBatch): seq<Field> {
    [LenField(1, d.contentHash)] + OptInt(2, d.seed) + OptText(3, d.startId) + OptText(4, d.endId)
    + OptInt(5, d.count) + OptInt(6, d.debugCount) + OptInt(7, d.infoCount) + OptInt(8, d.warnCount)
    + OptInt(9, d.errorCount) + OptInt(10, d.criticalCount) + OptText(11, d.maxSeverity)
  }

  // The growing list of encoded fields; `Buffer.concat(parts)` joins it at the end.
  class Parts {
    var parts: seq<Bytes>
    ghost var fields: seq<Field>

    ghost predicate Valid()
      reads this
    {
      Concat(parts) == FieldsBytes(fields)
    }

    constructor ()
      ensures Valid() && fields == []
    {
      parts, fields := [], [];
    }

    method Push(f: Field)
      requires Valid()
      modifies this
      ensures Valid() && fields == old(fields) + [f]
    {
      ConcatAppend(parts, FieldBytes(f));
      FieldsBytesAppend(fields, [f]);
      assert FieldsBytes([f]) == FieldBytes(f) + [];
      parts := parts + [FieldBytes(f)];
      fields := fields + [f];
    }

    method PushText(num: nat, s: Bytes)
      requires Valid()
      modifies this
      ensures Valid() && fields == old(fields) + OptText(num, s)
    {
      if s != [] {
        Push(LenField(num, s));
      }
    }

    method PushInt(num: nat, n: nat)
      requires Valid()
      modifies this
      ensures Valid() && fields == old(fields) + OptInt(num, n)
    {
      if n != 0 {
        Push(VarintField(num, n));
      }
    }
  }

  function Concat(parts: seq<Bytes>): Bytes {
    if parts == [] then [] else parts[0] + Concat(parts[1..])
  }

  lemma {:induction false} ConcatAppend(parts: seq<Bytes>, last: Bytes)
    ensures Concat(parts + [last]) == Concat(parts) + last
  {
    if parts == [] {
      assert parts + [last] == [last];
    } else {
      ConcatAppend(parts[1..], last);
      assert (parts + [last])[1..] == parts[1..] + [last];
    }
  }

  method EncodeWriteLog(d: WriteLog) returns (b: Bytes)
    ensures b == FieldsBytes(WriteLogFields(d))
  {
    var p := new Parts();
    p.Push(LenField(1, d.contentHash));
    assert p.fields == [LenField(1, d.contentHash)];
    p.PushText(2, d.level);
    p.PushText(3, d.source);
    p.PushText(4, d.messagePreview);
    p.PushInt(5, d.seed);
    p.PushText(6, d.message);
    p.PushText(7, d.metadataJson);
    assert p.fields == WriteLogFields(d);
    b := Concat(p.parts);
  }

  method EncodeWriteHash(d: WriteHash) returns (b: Bytes)
    ensures b == FieldsBytes(WriteHashFields(d))
  {
    var p := new Parts();
    p.Push(LenField(1, d.contentHash));
    assert p.fields == [LenField(1, d.contentHash)];
    p.PushText(2, d.level);
    p.PushText(3, d.messagePreview);
    p.PushInt(4, d.seed);
    assert p.fields == WriteHashFields(d);
    b := Concat(p.parts);
  }

  method EncodeWriteBatch(d: WriteBatch) returns (b: Bytes)
    ensures b == FieldsBytes(WriteBatchFields(d))
  {
    var p := new Parts();
    p.Push(LenField(1, d.contentHash));
    assert p.fields == [LenField(1, d.contentHash)];
    p.PushInt(2, d.seed);
    p.PushText(3, d.startId);
    p.PushText(4, d.endId);
    p.PushInt(5, d.count);
    p.PushInt(6, d.debugCount);
    p.PushInt(7, d.infoCount);
    p.PushInt(8, d.warnCount);
    p.PushInt(9, d.errorCount);
    p.PushInt(10, d.criticalCount);
    p.PushText(11, d.maxSeverity);
    assert p.fields == WriteBatchFields(d);
    b := Concat(p.parts);
  }

  // ---------------------------------------------------------------- decoding

  // The generated code's reader; `rest` is what it has not consumed.
  class Reader {
    var rest: Bytes

    constructor (buffer: Bytes)
      ensures rest == buffer
    {
      rest := buffer;
    }

    method Uint32() returns (r: Result<nat>)
      modifies this
      ensures match ReadUint32(old(rest))
        case Ok((n, after)) => r == Ok(n) && rest == after
        case Err => r == Err
    {
      var p :- ReadUint32(rest);
      rest := p.1;
      r := Ok(p.0);
    }

    method Uint64() returns (r: Result<nat>)
      modifies this
      ensures match ReadUint64(old(rest))
        case Ok((n, after)) => r == Ok(n) && rest == after
        case Err => r == Err
    {
      var p :- ReadUint64(rest);
      rest := p.1;
      r := Ok(p.0);
    }

    method String() returns (r: Result<Bytes>)
      modifies this
      ensures match ReadText(old(rest))
        case Ok((text, after)) => r == Ok(text) && rest == after
        case Err => r == Err
    {
      var p :- ReadText(rest);
      rest := p.1;
      r := Ok(p.0);
    }

    method Skip(wireType: nat) returns (r: Result<()>)
      modifies this
      ensures match SkipType(wireType, old(rest))
        case Ok(after) => r == Ok(()) && rest == after
        case Err => r == Err
    {
      var after :- SkipType(wireType, rest);
      rest := after;
      r := Ok(());
    }
  }

  function WriteLogKind(num: nat): Kind {
    if num == 5 then Int64 else if 1 <= num <= 7 then Text else Unknown
  }

  function WriteHashKind(num: nat): Kind {
    if num == 4 then Int64 else if 1 <= num <= 3 then Text else Unknown
  }

  function WriteBatchKind(num: nat): Kind {
    if num == 2 then Int64
    else if 5 <= num <= 10 then Int32
    else if 1 <= num <= 11 then Text else Unknown
  }

  function TextAt(m: Message, num: nat): Bytes {
    if num in m && m[num].TextValue? then m[num].text else []
  }

  function IntAt(m: Message, num: nat): nat {
    if num in m && m[num].IntValue? then m[num].n else 0
  }

  function WriteLogOf(m: Message): WriteLog {
    WriteLog(TextAt(m, 1), TextAt(m, 2), TextAt(m, 3), TextAt(m, 4), IntAt(m, 5), TextAt(m, 6), TextAt(m, 7))
  }

  function WriteHashOf(m: Message): WriteHash {
    WriteHash(TextAt(m, 1), TextAt(m, 2), TextAt(m, 3), IntAt(m, 4))
  }

  function WriteBatchOf(m: Message): WriteBatch {
    WriteBatch(TextAt(m, 1), IntAt(m, 2), TextAt(m, 3), TextAt(m, 4), IntAt(m, 5), IntAt(m, 6), IntAt(m, 7),
               IntAt(m, 8), IntAt(m, 9), IntAt(m, 10), TextAt(m, 11))
  }

  function MapResult<T, U>(r: Result<T>, f: T -> U): Result<U> {
    match r
    case Ok(v) => Ok(f(v))
    case Err => Err
  }

  // The `switch` of WriteLog.decode: one field, read and assigned or skipped.
  method ReadWriteLogField(reader: Reader, num: nat, wireType: nat, message: WriteLog, ghost m: Message)
    returns (r: Result<WriteLog>)
    requires message == WriteLogOf(m)
    modifies reader
    ensures match ReadValue(WriteLogKind(num), wireType, old(reader.rest))
      case Ok((value, after)) => r == Ok(WriteLogOf(Store(m, num, value))) && reader.rest == after
      case Err => r == Err
  {
    match num {
      case 1 =>
        var s :- reader.String();
        r := Ok(message.(contentHash := s));
      case 2 =>
        var s :- reader.String();
        r := Ok(message.(level := s));
      case 3 =>
        var s :- reader.String();
        r := Ok(message.(source := s));
      case 4 =>
        var s :- reader.String();
        r := Ok(message.(messagePreview := s));
      case 5 =>
        var n :- reader.Uint64();
        r := Ok(message.(seed := n));
      case 6 =>
        var s :- reader.String();
        r := Ok(message.(message := s));
      case 7 =>
        var s :- reader.String();
        r := Ok(message.(metadataJson := s));
      case _ =>
        var _ :- reader.Skip(wireType);
        r := Ok(message);
    }
  }

  method DecodeWriteLog(reader: Reader) returns (r: Result<WriteLog>)
    modifies reader
    ensures r == MapResult(Decode(WriteLogKind, old(reader.rest), map[]), WriteLogOf)
  {
    var message := WriteLog([], [], [], [], 0, [], []);
    ghost var m: Message := map[];
    while reader.rest != []
      invariant Decode(WriteLogKind, reader.rest, m) == Decode(WriteLogKind, old(reader.rest), map[])
      invariant message == WriteLogOf(m)
      decreases |reader.rest|
    {
      var tag :- reader.Uint32();
      ghost var field := ReadValue(WriteLogKind(tag / 8), tag % 8, reader.rest);
      message :- ReadWriteLogField(reader, tag / 8, tag % 8, message, m);
      m := Store(m, tag / 8, field.value.0);
    }
    r := Ok(message);
  }

  // The `switch` of WriteHash.decode: one field, read and assigned or skipped.
  method ReadWriteHashField(reader: Reader, num: nat, wireType: nat, message: WriteHash, ghost m: Message)
    returns (r: Result<WriteHash>)
    requires message == WriteHashOf(m)
    modifies reader
    ensures match ReadValue(WriteHashKind(num), wireType, old(reader.rest))
      case Ok((value, after)) => r == Ok(WriteHashOf(Store(m, num, value))) && reader.rest == after
      case Err => r == Err
  {
    match num {
      case 1 =>
        var s :- reader.String();
        r := Ok(message.(contentHash := s));
      case 2 =>
        var s :- reader.String();
        r := Ok(message.(level := s));
      case 3 =>
        var s :- reader.String();
        r := Ok(message.(messagePreview := s));
      case 4 =>
        var n :- reader.Uint64();
        r := Ok(message.(seed := n));
      case _ =>
        var _ :- reader.Skip(wireType);
        r := Ok(message);
    }
  }

  method DecodeWriteHash(reader: Reader) returns (r: Result<WriteHash>)
    modifies reader
    ensures r == MapResult(Decode(WriteHashKind, old(reader.rest), map[]), WriteHashOf)
  {
    var message := WriteHash([], [], [], 0);
    ghost var m: Message := map[];
    while reader.rest != []
      invariant Decode(WriteHashKind, reader.rest, m) == Decode(WriteHashKind, old(reader.rest), map[])
      invariant message == WriteHashOf(m)
      decreases |reader.rest|
    {
      var tag :- reader.Uint32();
      ghost var field := ReadValue(WriteHashKind(tag / 8), tag % 8, reader.rest);
      message :- ReadWriteHashField(reader, tag / 8, tag % 8, message, m);
      m := Store(m, tag / 8, field.value.0);
    }
    r := Ok(message);
  }

  // Its six integer cases: the number of entries and of entries by level.
  method ReadWriteBatchCount(reader: Reader, num: nat, message: WriteBatch, ghost m: Message)
    returns (r: Result<WriteBatch>)
    requires message == WriteBatchOf(m) && 5 <= num <= 10
    modifies reader
    ensures match ReadUint32(old(reader.rest))
      case Ok((n, after)) => r == Ok(WriteBatchOf(m[num := IntValue(n)])) && reader.rest == after
      case Err => r == Err
  {
    var n :- reader.Uint32();
    match num {
      case 5 => r := Ok(message.(count := n));
      case 6 => r := Ok(message.(debugCount := n));
      case 7 => r := Ok(message.(infoCount := n));
      case 8 => r := Ok(message.(warnCount := n));
      case 9 => r := Ok(message.(errorCount := n));
      case _ => r := Ok(message.(criticalCount := n));
    }
  }

  // Its four string cases.
  method ReadWriteBatchText(reader: Reader, num: nat, message: WriteBatch, ghost m: Message)
    returns (r: Result<WriteBatch>)
    requires message == WriteBatchOf(m) && num in {1, 3, 4, 11}
    modifies reader
    ensures match ReadText(old(reader.rest))
      case Ok((s, after)) => r == Ok(WriteBatchOf(m[num := TextValue(s)])) && reader.rest == after
      case Err => r == Err
  {
    var s :- reader.String();
    match num {
      case 1 => r := Ok(message.(contentHash := s));
      case 3 => r := Ok(message.(startId := s));
      case 4 => r := Ok(message.(endId := s));
      case _ => r := Ok(message.(maxSeverity := s));
    }
  }

  // The `switch` of WriteBatch.decode: one field, read and assigned or skipped.
  method ReadWriteBatchField(reader: Reader, num: nat, wireType: nat, message: WriteBatch, ghost m: Message)
    returns (r: Result<WriteBatch>)
    requires message == WriteBatchOf(m)
    modifies reader
    ensures match ReadValue(WriteBatchKind(num), wireType, old(reader.rest))
      case Ok((value, after)) => r == Ok(WriteBatchOf(Store(m, num, value))) && reader.rest == after
      case Err => r == Err
  {
    match num {
      case 2 =>
        var n :- reader.Uint64();
        r := Ok(message.(seed := n));
      case _ =>
        if 5 <= num <= 10 {
          r := ReadWriteBatchCount(reader, num, message, m);
        } else if num in {1, 3, 4, 11} {
          r := ReadWriteBatchText(reader, num, message, m);
        } else {
          var _ :- reader.Skip(wireType);
          r := Ok(message);
        }
    }
  }

  method DecodeWriteBatch(reader: Reader) returns (r: Result<WriteBatch>)
    modifies reader
    ensures r == MapResult(Decode(WriteBatchKind, old(reader.rest), map[]), WriteBatchOf)
  {
    var message := WriteBatch([], 0, [], [], 0, 0, 0, 0, 0, 0, []);
    ghost var m: Message := map[];
    while reader.rest != []
      invariant Decode(WriteBatchKind, reader.rest, m) == Decode(WriteBatchKind, old(reader.rest), map[])
      invariant message == WriteBatchOf(m)
      decreases |reader.rest|
    {
      var tag :- reader.Uint32();
      ghost var field := ReadValue(WriteBatchKind(tag / 8), tag % 8, reader.rest);
      message :- ReadWriteBatchField(reader, tag / 8, tag % 8, message, m);
      m := Store(m, tag / 8, field.value.0);
    }
    r := Ok(message);
  }

  // ---------------------------------------------------------------- round trips

  // Every text length and every integer is in the range of its field.
  predicate WriteLogInRange(d: WriteLog) {
    && d.seed < TWO_64
    && |d.contentHash| < TWO_32 && |d.level| < TWO_32 && |d.source| < TWO_32
    && |d.messagePreview| < TWO_32 && |d.message| < TWO_32 && |d.metadataJson| < TWO_32
  }

  predicate WriteHashInRange(d: WriteHash) {
    && d.seed < TWO_64
    && |d.contentHash| < TWO_32 && |d.level| < TWO_32 && |d.messagePreview| < TWO_32
  }

  predicate WriteBatchInRange(d: WriteBatch) {
    && d.seed < TWO_64
    && |d.contentHash| < TWO_32 && |d.startId| < TWO_32 && |d.endId| < TWO_32 && |d.maxSeverity| < TWO_32
    && d.count < TWO_32 && d.debugCount < TWO_32 && d.infoCount < TWO_32
    && d.warnCount < TWO_32 && d.errorCount < TWO_32 && d.criticalCount < TWO_32
  }

  // A message holds one optional field for each number in turn.
  lemma {:induction false} CollectAppend(schema: Schema, fs: seq<Field>, gs: seq<Field>, m: Message)
    ensures Collect(schema, fs + gs, m) == Collect(schema, gs, Collect(schema, fs, m))
  {
    if fs == [] {
      assert fs + gs == gs;
    } else {
      assert (fs + gs)[1..] == fs[1..] + gs;
      CollectAppend(schema, fs[1..], gs, Store(m, fs[0].num, Meaning(schema, fs[0])));
    }
  }

  ghost predicate AllFit(schema: Schema, fs: seq<Field>) {
    forall f :: f in fs ==> Fits(schema, f)
  }

  // m' differs from m at most at this number.
  ghost predicate SameElsewhere(m: Message, m': Message, num: nat) {
    forall k :: k != num ==> TextAt(m', k) == TextAt(m, k) && IntAt(m', k) == IntAt(m, k) && (k in m' <==> k in m)
  }

  // Appending an optional field to a list sets its number, or leaves the default.
  lemma OptTextCollect(schema: Schema, fs: seq<Field>, num: nat, s: Bytes, m: Message)
    requires m == Collect(schema, fs, map[]) && num !in m && schema(num) == Text
    requires AllFit(schema, fs) && 0 < num < 16 && |s| < TWO_32
    ensures AllFit(schema, fs + OptText(num, s))
    ensures var m' := Collect(schema, fs + OptText(num, s), map[]);
      TextAt(m', num) == s && SameElsewhere(m, m', num)
  {
    CollectAppend(schema, fs, OptText(num, s), map[]);
  }

  lemma OptIntCollect(schema: Schema, fs: seq<Field>, num: nat, n: nat, m: Message)
    requires m == Collect(schema, fs, map[]) && num !in m
    requires (schema(num) == Int32 && n < TWO_32) || (schema(num) == Int64 && n < TWO_64)
    requires AllFit(schema, fs) && 0 < num < 16
    ensures AllFit(schema, fs + OptInt(num, n))
    ensures var m' := Collect(schema, fs + OptInt(num, n), map[]);
      IntAt(m', num) == n && SameElsewhere(m, m', num)
  {
    CollectAppend(schema, fs, OptInt(num, n), map[]);
  }

  // A field of a number above the last one of a message that can stand on the wire.
  predicate Foreign(f: Field, last: nat) {
    && last < f.num < 0x2000_0000
    && match f
       case VarintField(_, value) => value < TWO_64
       case LenField(_, data) => |data| < TWO_32
       case Fixed64Field(_, data) => |data| == 8
       case Fixed32Field(_, data) => |data| == 4
  }

  lemma {:induction false} ForeignIsDropped(schema: Schema, fs: seq<Field>, m: Message)
    requires forall f :: f in fs ==> schema(f.num) == Unknown
    ensures Collect(schema, fs, m) == m
  {
    if fs != [] {
      ForeignIsDropped(schema, fs[1..], m);
    }
  }

  lemma Ignored(schema: Schema, before: seq<Field>, fs: seq<Field>, after: seq<Field>)
    requires AllFit(schema, before + after) && AllFit(schema, fs) && forall f :: f in before + after ==> schema(f.num) == Unknown
    ensures Decode(schema, FieldsBytes(before + fs + after), map[]) == Ok(Collect(schema, fs, map[]))
  {
    assert forall f :: f in before || f in after ==> f in before + after;
    DecodeInverts(schema, before + fs + after, map[]);
    CollectAppend(schema, before + fs, after, map[]);
    CollectAppend(schema, before, fs, map[]);
    ForeignIsDropped(schema, before, map[]);
    ForeignIsDropped(schema, after, Collect(schema, fs, map[]));
  }

  predicate IsDefault(f: Field) {
    match f
    case VarintField(_, value) => value == 0
    case _ => f.data == []
  }

  ghost predicate NoDefaults(fs: seq<Field>) {
    forall f :: f in fs && IsDefault(f) ==> f.num == 1
  }

  lemma TextLeftOut(fs: seq<Field>, num: nat, s: Bytes)
    requires NoDefaults(fs)
    ensures NoDefaults(fs + OptText(num, s))
  {}

  lemma IntLeftOut(fs: seq<Field>, num: nat, n: nat)
    requires NoDefaults(fs)
    ensures NoDefaults(fs + OptInt(num, n))
  {}

  // No default value is sent, but for an empty content hash.
  lemma DefaultsLeftOut(log: WriteLog, hash: WriteHash, batch: WriteBatch)
    ensures NoDefaults(WriteLogFields(log)) && NoDefaults(WriteHashFields(hash)) && NoDefaults(WriteBatchFields(batch))
  {
    LogLeavesOut(log);
    HashLeavesOut(hash);
    BatchLeavesOut(batch);
  }

  lemma LogLeavesOut(d: WriteLog)
    ensures NoDefaults(WriteLogFields(d))
  {
    var fs := [LenField(1, d.contentHash)];
    TextLeftOut(fs, 2, d.level);
    fs := fs + OptText(2, d.level);
    TextLeftOut(fs, 3, d.source);
    fs := fs + OptText(3, d.source);
    TextLeftOut(fs, 4, d.messagePreview);
    fs := fs + OptText(4, d.messagePreview);
    IntLeftOut(fs, 5, d.seed);
    fs := fs + OptInt(5, d.seed);
    TextLeftOut(fs, 6, d.message);
    fs := fs + OptText(6, d.message);
    TextLeftOut(fs, 7, d.metadataJson);
  }

  lemma HashLeavesOut(d: WriteHash)
    ensures NoDefaults(WriteHashFields(d))
  {
    var fs := [LenField(1, d.contentHash)];
    TextLeftOut(fs, 2, d.level);
    fs := fs + OptText(2, d.level);
    TextLeftOut(fs, 3, d.messagePreview);
    fs := fs + OptText(3, d.messagePreview);
    IntLeftOut(fs, 4, d.seed);
  }

  lemma BatchLeavesOut(d: WriteBatch)
    ensures NoDefaults(WriteBatchFields(d))
  {
    var fs := [LenField(1, d.contentHash)];
    IntLeftOut(fs, 2, d.seed);
    fs := fs + OptInt(2, d.seed);
    TextLeftOut(fs, 3, d.startId);
    fs := fs + OptText(3, d.startId);
    TextLeftOut(fs, 4, d.endId);
    fs := fs + OptText(4, d.endId);
    IntLeftOut(fs, 5, d.count);
    fs := fs + OptInt(5, d.count);
    IntLeftOut(fs, 6, d.debugCount);
    fs := fs + OptInt(6, d.debugCount);
    IntLeftOut(fs, 7, d.infoCount);
    fs := fs + OptInt(7, d.infoCount);
    IntLeftOut(fs, 8, d.warnCount);
    fs := fs + OptInt(8, d.warnCount);
    IntLeftOut(fs, 9, d.errorCount);
    fs := fs + OptInt(9, d.errorCount);
    IntLeftOut(fs, 10, d.criticalCount);
    fs := fs + OptInt(10, d.criticalCount);
    TextLeftOut(fs, 11, d.maxSeverity);
  }

  lemma WriteLogReads(d: WriteLog)
    requires WriteLogInRange(d)
    ensures AllFit(WriteLogKind, WriteLogFields(d)) && WriteLogOf(Collect(WriteLogKind, WriteLogFields(d), map[])) == d
  {
    var kinds := WriteLogKind;
    var f1 := [LenField(1, d.contentHash)];
    var m1 := Collect(kinds, f1, map[]);
    var f2 := f1 + OptText(2, d.level);
    var m2 := Collect(kinds, f2, map[]);
    OptTextCollect(kinds, f1, 2, d.level, m1);
    var f3 := f2 + OptText(3, d.source);
    var m3 := Collect(kinds, f3, map[]);
    OptTextCollect(kinds, f2, 3, d.source, m2);
    var f4 := f3 + OptText(4, d.messagePreview);
    var m4 := Collect(kinds, f4, map[]);
    OptTextCollect(kinds, f3, 4, d.messagePreview, m3);
    var f5 := f4 + OptInt(5, d.seed);
    var m5 := Collect(kinds, f5, map[]);
    OptIntCollect(kinds, f4, 5, d.seed, m4);
    var f6 := f5 + OptText(6, d.message);
    var m6 := Collect(kinds, f6, map[]);
    OptTextCollect(kinds, f5, 6, d.message, m5);
    var f7 := f6 + OptText(7, d.metadataJson);
    var m7 := Collect(kinds, f7, map[]);
    OptTextCollect(kinds, f6, 7, d.metadataJson, m6);
  }

  lemma WriteLogRoundTrip(d: WriteLog)
    requires WriteLogInRange(d)
    ensures MapResult(Decode(WriteLogKind, FieldsBytes(WriteLogFields(d)), map[]), WriteLogOf) == Ok(d)
  {
    WriteLogReads(d);
    DecodeInverts(WriteLogKind, WriteLogFields(d), map[]);
  }

  // Fields with numbers that the message does not have, in any form and on both sides, do not
  // change what is read.
  lemma WriteLogSkips(d: WriteLog, before: seq<Field>, after: seq<Field>)
    requires WriteLogInRange(d) && forall f :: f in before + after ==> Foreign(f, 7)
    ensures MapResult(Decode(WriteLogKind, FieldsBytes(before + WriteLogFields(d) + after), map[]), WriteLogOf) == Ok(d)
  {
    WriteLogReads(d);
    Ignored(WriteLogKind, before, WriteLogFields(d), after);
  }

  lemma WriteHashReads(d: WriteHash)
    requires WriteHashInRange(d)
    ensures AllFit(WriteHashKind, WriteHashFields(d)) && WriteHashOf(Collect(WriteHashKind, WriteHashFields(d), map[])) == d
  {
    var kinds := WriteHashKind;
    var f1 := [LenField(1, d.contentHash)];
    var m1 := Collect(kinds, f1, map[]);
    var f2 := f1 + OptText(2, d.level);
    var m2 := Collect(kinds, f2, map[]);
    OptTextCollect(kinds, f1, 2, d.level, m1);
    var f3 := f2 + OptText(3, d.messagePreview);
    var m3 := Collect(kinds, f3, map[]);
    OptTextCollect(kinds, f2, 3, d.messagePreview, m2);
    var f4 := f3 + OptInt(4, d.seed);
    var m4 := Collect(kinds, f4, map[]);
    OptIntCollect(kinds, f3, 4, d.seed, m3);
  }

  lemma WriteHashRoundTrip(d: WriteHash)
    requires WriteHashInRange(d)
    ensures MapResult(Decode(WriteHashKind, FieldsBytes(WriteHashFields(d)), map[]), WriteHashOf) == Ok(d)
  {
    WriteHashReads(d);
    DecodeInverts(WriteHashKind, WriteHashFields(d), map[]);
  }

  lemma WriteHashSkips(d: WriteHash, before: seq<Field>, after: seq<Field>)
    requires WriteHashInRange(d) && forall f :: f in before + after ==> Foreign(f, 4)
    ensures MapResult(Decode(WriteHashKind, FieldsBytes(before + WriteHashFields(d) + after), map[]), WriteHashOf) == Ok(d)
  {
    WriteHashReads(d);
    Ignored(WriteHashKind, before, WriteHashFields(d), after);
  }

  // The first five fields of a batch, and what they alone decode to.
  function WriteBatchHead(d: WriteBatch): seq<Field> {
    [LenField(1, d.contentHash)] + OptInt(2, d.seed) + OptText(3, d.startId) + OptText(4, d.endId)
    + OptInt(5, d.count)
  }

  lemma WriteBatchHeadRead(d: WriteBatch)
    requires WriteBatchInRange(d)
    ensures AllFit(WriteBatchKind, WriteBatchHead(d))
    ensures var m := Collect(WriteBatchKind, WriteBatchHead(d), map[]);
      && (forall k :: k in m ==> k <= 5)
      && TextAt(m, 1) == d.contentHash && IntAt(m, 2) == d.seed && TextAt(m, 3) == d.startId
      && TextAt(m, 4) == d.endId && IntAt(m, 5) == d.count
  {
    var kinds := WriteBatchKind;
    var f1 := [LenField(1, d.contentHash)];
    var m1 := Collect(kinds, f1, map[]);
    var f2 := f1 + OptInt(2, d.seed);
    var m2 := Collect(kinds, f2, map[]);
    OptIntCollect(kinds, f1, 2, d.seed, m1);
    var f3 := f2 + OptText(3, d.startId);
    var m3 := Collect(kinds, f3, map[]);
    OptTextCollect(kinds, f2, 3, d.startId, m2);
    var f4 := f3 + OptText(4, d.endId);
    var m4 := Collect(kinds, f4, map[]);
    OptTextCollect(kinds, f3, 4, d.endId, m3);
    OptIntCollect(kinds, f4, 5, d.count, m4);
  }

  lemma WriteBatchReads(d: WriteBatch)
    requires WriteBatchInRange(d)
    ensures AllFit(WriteBatchKind, WriteBatchFields(d)) && WriteBatchOf(Collect(WriteBatchKind, WriteBatchFields(d), map[])) == d
  {
    var kinds := WriteBatchKind;
    var f5 := WriteBatchHead(d);
    WriteBatchHeadRead(d);
    var m5 := Collect(kinds, f5, map[]);
    var f6 := f5 + OptInt(6, d.debugCount);
    var m6 := Collect(kinds, f6, map[]);
    OptIntCollect(kinds, f5, 6, d.debugCount, m5);
    var f7 := f6 + OptInt(7, d.infoCount);
    var m7 := Collect(kinds, f7, map[]);
    OptIntCollect(kinds, f6, 7, d.infoCount, m6);
    var f8 := f7 + OptInt(8, d.warnCount);
    var m8 := Collect(kinds, f8, map[]);
    OptIntCollect(kinds, f7, 8, d.warnCount, m7);
    var f9 := f8 + OptInt(9, d.errorCount);
    var m9 := Collect(kinds, f9, map[]);
    OptIntCollect(kinds, f8, 9, d.errorCount, m8);
    var f10 := f9 + OptInt(10, d.criticalCount);
    var m10 := Collect(kinds, f10, map[]);
    OptIntCollect(kinds, f9, 10, d.criticalCount, m9);
    var f11 := f10 + OptText(11, d.maxSeverity);
    OptTextCollect(kinds, f10, 11, d.maxSeverity, m10);
  }

  lemma WriteBatchRoundTrip(d: WriteBatch)
    requires WriteBatchInRange(d)
    ensures MapResult(Decode(WriteBatchKind, FieldsBytes(WriteBatchFields(d)), map[]), WriteBatchOf) == Ok(d)
  {
    WriteBatchReads(d);
    DecodeInverts(WriteBatchKind, WriteBatchFields(d), map[]);
  }

  lemma WriteBatchSkips(d: WriteBatch, before: seq<Field>, after: seq<Field>)
    requires WriteBatchInRange(d) && forall f :: f in before + after ==> Foreign(f, 11)
    ensures MapResult(Decode(WriteBatchKind, FieldsBytes(before + WriteBatchFields(d) + after), map[]), WriteBatchOf) == Ok(d)
  {
    WriteBatchReads(d);
    Ignored(WriteBatchKind, before, WriteBatchFields(d), after);
  }

  // ---------------------------------------------------------------- the signed envelope

  // AnyTx { call_info { instance_id, method_id }, arguments }
  function AnyTx(instanceId: nat, methodId: nat, args: Bytes): Bytes {
    var callInfo := FieldBytes(VarintField(1, instanceId)) + FieldsBytes(OptInt(2, methodId));
    FieldBytes(LenField(1, callInfo)) + FieldBytes(LenField(2, args))
  }

  function CoreMessage(anyTx: Bytes): Bytes {
    FieldBytes(LenField(1, anyTx))
  }

  function SignedMessage(payload: Bytes, publicKey: Bytes, signature: Bytes): Bytes {
    FieldBytes(LenField(1, payload))
    + FieldBytes(LenField(2, FieldBytes(LenField(1, publicKey))))
    + FieldBytes(LenField(3, FieldBytes(LenField(1, signature))))
  }

  // What goes on the wire for one transaction; `sign` is the foreign signature function.
  function SubmittedTx(instanceId: nat, methodId: nat, args: Bytes, publicKey: Bytes, sign: Bytes -> Bytes): Bytes {
    var core := CoreMessage(AnyTx(instanceId, methodId, args));
    SignedMessage(core, publicKey, sign(core))
  }

  datatype Envelope = Envelope(instanceId: nat, methodId: nat, args: Bytes, publicKey: Bytes, signature: Bytes)

  function BytesKind(last: nat): Schema {
    num => if 1 <= num <= last then Text else Unknown
  }

  function CallInfoKind(num: nat): Kind {
    if 1 <= num <= 2 then Int32 else Unknown
  }

  // The nested messages read one inside the other, as the node does.
  function OpenPayload(payload: Bytes): Result<(nat, nat, Bytes)> {
    var core :- Decode(BytesKind(1), payload, map[]);
    var anyTx :- Decode(BytesKind(2), TextAt(core, 1), map[]);
    var callInfo :- Decode(CallInfoKind, TextAt(anyTx, 1), map[]);
    Ok((IntAt(callInfo, 1), IntAt(callInfo, 2), TextAt(anyTx, 2)))
  }

  function OpenEnvelope(b: Bytes): Result<Envelope> {
    var signed :- Decode(BytesKind(3), b, map[]);
    var author :- Decode(BytesKind(1), TextAt(signed, 2), map[]);
    var signature :- Decode(BytesKind(1), TextAt(signed, 3), map[]);
    var (instanceId, methodId, args) :- OpenPayload(TextAt(signed, 1));
    Ok(Envelope(instanceId, methodId, args, TextAt(author, 1), TextAt(signature, 1)))
  }

  // One more text field at the end of a list, in print and as decoded.
  lemma AddText(schema: Schema, fs: seq<Field>, num: nat, a: Bytes, b: Bytes, m: Message)
    requires AllFit(schema, fs) && schema(num) == Text && 0 < num < 16 && |a| < TWO_32
    requires b == FieldsBytes(fs) && m == Collect(schema, fs, map[])
    ensures var f := LenField(num, a);
      && AllFit(schema, fs + [f])
      && FieldsBytes(fs + [f]) == b + FieldBytes(f)
      && Collect(schema, fs + [f], map[]) == m[num := TextValue(a)]
  {
    var f := LenField(num, a);
    FieldsBytesAppend(fs, [f]);
    assert FieldsBytes([f]) == FieldBytes(f) + [];
    CollectAppend(schema, fs, [f], map[]);
  }

  // The first n of three text fields, as printed and as decoded.
  lemma TextsRead(n: nat, a: Bytes, b: Bytes, c: Bytes)
    requires 1 <= n <= 3 && |a| < TWO_32 && |b| < TWO_32 && |c| < TWO_32
    ensures var (fa, fb, fc) := (FieldBytes(LenField(1, a)), FieldBytes(LenField(2, b)), FieldBytes(LenField(3, c)));
      && (n == 1 ==> Decode(BytesKind(n), fa, map[]) == Ok(map[1 := TextValue(a)]))
      && (n == 2 ==> Decode(BytesKind(n), fa + fb, map[]) == Ok(map[1 := TextValue(a), 2 := TextValue(b)]))
      && (n == 3 ==> Decode(BytesKind(n), fa + fb + fc, map[])
                     == Ok(map[1 := TextValue(a), 2 := TextValue(b), 3 := TextValue(c)]))
  {
    var schema := BytesKind(n);
    var (fa, fb, fc) := (FieldBytes(LenField(1, a)), FieldBytes(LenField(2, b)), FieldBytes(LenField(3, c)));
    AddText(schema, [], 1, a, [], map[]);
    var f1: seq<Field> := [] + [LenField(1, a)];
    var m1: Message := map[][1 := TextValue(a)];
    assert FieldsBytes(f1) == fa;
    if n == 1 {
      DecodeInverts(schema, f1, map[]);
    } else {
      var f2 := f1 + [LenField(2, b)];
      var m2 := m1[2 := TextValue(b)];
      AddText(schema, f1, 2, b, fa, m1);
      if n == 2 {
        DecodeInverts(schema, f2, map[]);
      } else {
        AddText(schema, f2, 3, c, fa + fb, m2);
        DecodeInverts(schema, f2 + [LenField(3, c)], map[]);
      }
    }
  }

  lemma CallInfoRead(instanceId: nat, methodId: nat)
    requires instanceId < TWO_32 && methodId < TWO_32
    ensures var r := Decode(CallInfoKind, FieldBytes(VarintField(1, instanceId)) + FieldsBytes(OptInt(2, methodId)), map[]);
      r.Ok? && IntAt(r.value, 1) == instanceId && IntAt(r.value, 2) == methodId
  {
    var f1 := [VarintField(1, instanceId)];
    var m1 := Collect(CallInfoKind, f1, map[]);
    OptIntCollect(CallInfoKind, f1, 2, methodId, m1);
    FieldsBytesAppend(f1, OptInt(2, methodId));
    assert FieldsBytes(f1) == FieldBytes(f1[0]);
    DecodeInverts(CallInfoKind, f1 + OptInt(2, methodId), map[]);
  }

  // Opening the envelope recovers every part of the transaction byte for byte, and the
  // signature found is the one over exactly the bytes that were sent as payload.
  lemma EnvelopeRoundTrip(instanceId: nat, methodId: nat, args: Bytes, publicKey: Bytes, sign: Bytes -> Bytes)
    requires instanceId < TWO_32 && methodId < TWO_32
    requires |SubmittedTx(instanceId, methodId, args, publicKey, sign)| < TWO_32
    ensures var core := CoreMessage(AnyTx(instanceId, methodId, args));
      OpenEnvelope(SubmittedTx(instanceId, methodId, args, publicKey, sign))
      == Ok(Envelope(instanceId, methodId, args, publicKey, sign(core)))
  {
    var callInfo := FieldBytes(VarintField(1, instanceId)) + FieldsBytes(OptInt(2, methodId));
    var anyTx := AnyTx(instanceId, methodId, args);
    var core := CoreMessage(anyTx);
    var sig := sign(core);
    var author, signature := FieldBytes(LenField(1, publicKey)), FieldBytes(LenField(1, sig));
    EnvelopeSizes(callInfo, args, anyTx, core, publicKey, sig, author, signature, SignedMessage(core, publicKey, sig));
    CallInfoRead(instanceId, methodId);
    OpenNested(callInfo, args, anyTx, core, publicKey, sig, author, signature);
  }

  lemma OpenNested(callInfo: Bytes, args: Bytes, anyTx: Bytes, core: Bytes, publicKey: Bytes, sig: Bytes,
                   author: Bytes, signature: Bytes)
    requires |callInfo| < TWO_32 && |args| < TWO_32 && |anyTx| < TWO_32 && |core| < TWO_32
    requires |publicKey| < TWO_32 && |sig| < TWO_32 && |author| < TWO_32 && |signature| < TWO_32
    requires anyTx == FieldBytes(LenField(1, callInfo)) + FieldBytes(LenField(2, args))
    requires core == FieldBytes(LenField(1, anyTx))
    requires author == FieldBytes(LenField(1, publicKey)) && signature == FieldBytes(LenField(1, sig))
    requires Decode(CallInfoKind, callInfo, map[]).Ok?
    ensures var info := Decode(CallInfoKind, callInfo, map[]).value;
      OpenEnvelope(SignedMessage(core, publicKey, sig))
      == Ok(Envelope(IntAt(info, 1), IntAt(info, 2), args, publicKey, sig))
  {
    TextsRead(3, core, author, signature);
    TextsRead(1, publicKey, [], []);
    TextsRead(1, sig, [], []);
    TextsRead(1, anyTx, [], []);
    TextsRead(2, callInfo, args, []);
    var info := Decode(CallInfoKind, callInfo, map[]).value;
    PayloadSteps(core, anyTx, callInfo, args, info);
    EnvelopeSteps(SignedMessage(core, publicKey, sig), core, author, signature, publicKey, sig);
  }

  lemma EnvelopeSizes(callInfo: Bytes, args: Bytes, anyTx: Bytes, core: Bytes, publicKey: Bytes, sig: Bytes,
                      author: Bytes, signature: Bytes, tx: Bytes)
    requires anyTx == FieldBytes(LenField(1, callInfo)) + FieldBytes(LenField(2, args))
    requires core == CoreMessage(anyTx)
    requires author == FieldBytes(LenField(1, publicKey)) && signature == FieldBytes(LenField(1, sig))
    requires tx == SignedMessage(core, publicKey, sig)
    ensures |callInfo| <= |anyTx| && |args| <= |anyTx| <= |core| <= |tx|
    ensures |publicKey| <= |author| <= |tx| && |sig| <= |signature| <= |tx|
  {}

  lemma PayloadSteps(payload: Bytes, anyTx: Bytes, callInfo: Bytes, args: Bytes, info: Message)
    requires Decode(BytesKind(1), payload, map[]) == Ok(map[1 := TextValue(anyTx)])
    requires Decode(BytesKind(2), anyTx, map[]) == Ok(map[1 := TextValue(callInfo), 2 := TextValue(args)])
    requires Decode(CallInfoKind, callInfo, map[]) == Ok(info)
    ensures OpenPayload(payload) == Ok((IntAt(info, 1), IntAt(info, 2), args))
  {
    var core: Message := map[1 := TextValue(anyTx)];
    assert TextAt(core, 1) == anyTx;
  }

  lemma EnvelopeSteps(b: Bytes, payload: Bytes, author: Bytes, signature: Bytes, publicKey: Bytes, sig: Bytes)
    requires Decode(BytesKind(3), b, map[])
          == Ok(map[1 := TextValue(payload), 2 := TextValue(author), 3 := TextValue(signature)])
    requires Decode(BytesKind(1), author, map[]) == Ok(map[1 := TextValue(publicKey)])
    requires Decode(BytesKind(1), signature, map[]) == Ok(map[1 := TextValue(sig)])
    requires OpenPayload(payload).Ok?
    ensures var (instanceId, methodId, args) := OpenPayload(payload).value;
      OpenEnvelope(b) == Ok(Envelope(instanceId, methodId, args, publicKey, sig))
  {
    var signed: Message := map[1 := TextValue(payload), 2 := TextValue(author), 3 := TextValue(signature)];
    assert TextAt(signed, 1) == payload && TextAt(signed, 2) == author && TextAt(signed, 3) == signature;
  }
}
