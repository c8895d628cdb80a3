/** Log entries, the hash of their canonical text, and verification after a trip through the
    database. */
module LogEntries {
  import opened Bytes
  import opened Json
  import opened CanonicalJson
  import Hex
  import Utf8

  // `timestamp` is the ISO text of the instant; `metadata` lists the object's own
  // properties; `dataHash` is empty when no hash has been stored.
  datatype LogEntry = LogEntry(
    id: string, timestamp: string, level: string, source: string, message: string,
    metadata: seq<Member>, dataHash: string)

  function HashableText(e: LogEntry): string {
    Stringify(Hashable(e))
  }

  function Hashable(e: LogEntry): Json {
    Obj([
      Member("id", Str(e.id)),
      Member("timestamp", Str(e.timestamp)),
      Member("level", Str(e.level)),
      Member("source", Str(e.source)),
      Member("message", Str(e.message)),
      Member("metadata", SortKeysDeep(Obj(e.metadata)))])
  }

  function HashedBytes(e: LogEntry): Bytes {
    Utf8.Encode(HashableText(e))
  }

  function LogHash(h: HashFunction, e: LogEntry): string {
    Hex.ToHex(h(HashedBytes(e)))
  }

  ghost predicate ProperEntry(e: LogEntry) {
    Proper(Obj(e.metadata))
  }

  // Equal in everything that is hashed, up to the order of metadata keys.
  ghost predicate SameContent(a: LogEntry, b: LogEntry) {
    && a.id == b.id && a.timestamp == b.timestamp && a.level == b.level
    && a.source == b.source && a.message == b.message
    && Same(Obj(a.metadata), Obj(b.metadata))
  }

  lemma HashableTextIff(a: LogEntry, b: LogEntry)
    requires ProperEntry(a) && ProperEntry(b)
    ensures HashableText(a) == HashableText(b) <==> SameContent(a, b)
  {
    if SameContent(a, b) {
      SameSortsAlike(Obj(a.metadata), Obj(b.metadata));
    }
    if HashableText(a) == HashableText(b) {
      StringifyInjective(Hashable(a), Hashable(b));
      var (p, q) := (Hashable(a).members, Hashable(b).members);
      assert p[0] == q[0] && p[1] == q[1] && p[2] == q[2] && p[3] == q[3] && p[4] == q[4] && p[5] == q[5];
      SortedAlikeIsSame(Obj(a.metadata), Obj(b.metadata));
    }
  }

  // Entries with one hash have the same content, or their texts are a collision.
  lemma LogHashBinds(h: HashFunction, a: LogEntry, b: LogEntry)
    requires ProperEntry(a) && ProperEntry(b)
    ensures SameContent(a, b) ==> LogHash(h, a) == LogHash(h, b)
    ensures LogHash(h, a) == LogHash(h, b) ==> SameContent(a, b) || IsCollision(h, (HashedBytes(a), HashedBytes(b)))
  {
    HashableTextIff(a, b);
    if LogHash(h, a) == LogHash(h, b) {
      Hex.ToHexInjective(h(HashedBytes(a)), h(HashedBytes(b)));
      if HashedBytes(a) == HashedBytes(b) {
        Utf8.EncodeInjective(HashableText(a), HashableText(b));
      }
    }
  }

  // ---------------------------------------------------------------- levels

  function UpperChar(c: char): char {
    if 'a' <= c <= 'z' then c - 'a' + 'A' else c
  }

  function Upper(s: string): string {
    if s == "" then "" else [UpperChar(s[0])] + Upper(s[1..])
  }

  // The number of a level name in capitals, if it is one of the five.
  function LevelNumber(name: string): (n: Option<nat>)
    ensures n.Some? ==> n.value <= 4
  {
    match name
    case "DEBUG" => Some(0)
    case "INFO" => Some(1)
    case "WARN" => Some(2)
    case "ERROR" => Some(3)
    case "CRITICAL" => Some(4)
    case _ => None
  }

  function LevelToInt(level: string): (n: nat)
    ensures n <= 4
  {
    var n := LevelNumber(Upper(level));
    if n.Some? then n.value else 1
  }

  function IntToLevel(n: int): string {
    match n
    case 0 => "DEBUG"
    case 2 => "WARN"
    case 3 => "ERROR"
    case 4 => "CRITICAL"
    case _ => "INFO"
  }

  predicate KnownLevel(level: string) {
    level == "DEBUG" || level == "INFO" || level == "WARN" || level == "ERROR" || level == "CRITICAL"
  }

  // A spelling that differs from another in small letters alone.
  predicate InSmall(a: string, b: string) {
    |a| == |b| && forall i :: 0 <= i < |a| ==> a[i] == b[i] || ('A' <= a[i] <= 'Z' && b[i] == a[i] - 'A' + 'a')
  }

  // The number of a level does not depend on case: the five names have theirs in every spelling.
  lemma {:induction false} UpperIgnoresCase(a: string, b: string)
    requires InSmall(a, b)
    ensures Upper(b) == Upper(a)
  {
    if a != "" {
      UpperIgnoresCase(a[1..], b[1..]);
    }
  }

  lemma LevelIgnoresCase(name: string, level: string)
    requires KnownLevel(name) && InSmall(name, level)
    ensures LevelNumber(Upper(level)) == Some(LevelToInt(level))
    ensures IntToLevel(LevelToInt(level)) == name
  {
    UpperIgnoresCase(name, level);
    LevelComesBackIff(name);
    KnownLevelIsUpper(name);
  }

  lemma KnownLevelIsUpper(level: string)
    requires KnownLevel(level)
    ensures Upper(level) == level
  {
    UpperKeepsCapitals(level);
  }

  lemma {:induction false} UpperKeepsCapitals(s: string)
    requires forall i :: 0 <= i < |s| ==> !('a' <= s[i] <= 'z')
    ensures Upper(s) == s
  {
    if s != "" {
      UpperKeepsCapitals(s[1..]);
      assert s == [s[0]] + s[1..];
    }
  }

  // A level comes back from its column unchanged exactly when it is one of the five names
  // in capitals; any other spelling is replaced.
  lemma LevelComesBackIff(level: string)
    ensures IntToLevel(LevelToInt(level)) == level <==> KnownLevel(level)
  {
    if KnownLevel(level) {
      KnownLevelIsUpper(level);
    }
  }

  // ---------------------------------------------------------------- rows

  datatype Row = Row(
    id: string, timestamp: string, level: int, source: string, message: string,
    metadata: seq<Member>, contentHash: string)

  // A CHAR column pads with blanks to its width.
  function Pad(s: string, width: nat): (r: string)
    ensures |s| <= width ==> |r| == width
    ensures |s| >= width ==> r == s
    ensures s <= r
    decreases if width > |s| then width - |s| else 0
  {
    if |s| >= width then s else Pad(s + " ", width)
  }

  // A padded hexadecimal text decodes like the text itself.
  lemma {:induction false} PadKeepsHex(s: string, width: nat)
    ensures Hex.FromHexPrefix(Pad(s, width)) == Hex.FromHexPrefix(s)
    decreases if width > |s| then width - |s| else 0
  {
    if |s| < width {
      PadKeepsHex(s + " ", width);
      BlankKeepsHex(s);
    }
  }

  lemma {:induction false} BlankKeepsHex(s: string)
    ensures Hex.FromHexPrefix(s + " ") == Hex.FromHexPrefix(s)
  {
    var t := s + " ";
    if |s| >= 2 {
      BlankKeepsHex(s[2..]);
      assert t[2..] == s[2..] + " ";
    } else if |s| == 1 {
      assert t[1] == ' ';
    }
  }

  // A column of bounded width takes a longer text only if the excess is blanks,
  predicate Fits(s: string, width: nat) {
    forall i :: width <= i < |s| ==> s[i] == ' '
  }

  // which it cuts off.
  function Cut(s: string, width: nat): (r: string)
    ensures |r| <= width && |r| <= |s|
  {
    if |s| <= width then s else s[..width]
  }

  function CharColumn(s: string, width: nat): (r: string)
    ensures |r| == width
  {
    Pad(Cut(s, width), width)
  }

  // What a column of even width does to hexadecimal text, decoding does not see.
  lemma ColumnKeepsHex(s: string, width: nat)
    requires Fits(s, width)
    ensures Hex.FromHexPrefix(CharColumn(s, width)) == Hex.FromHexPrefix(s)
  {
    PadKeepsHex(Cut(s, width), width);
    CutKeepsHex(s, width);
  }

  lemma {:induction false} CutKeepsHex(s: string, width: nat)
    requires Fits(s, width)
    ensures Hex.FromHexPrefix(Cut(s, width)) == Hex.FromHexPrefix(s)
    decreases |s|
  {
    if |s| > width {
      var init := s[..|s| - 1];
      assert s == init + " ";
      assert Cut(s, width) == Cut(init, width);
      CutKeepsHex(init, width);
      BlankKeepsHex(init);
    }
  }

  predicate FitsColumns(e: LogEntry, contentHash: string) {
    Fits(e.id, 36) && Fits(e.source, 31) && Fits(contentHash, 64)
  }

  // The row of an entry.  JSONB may keep the metadata keys in any order.
  function RowOf(e: LogEntry, contentHash: string, metadata: seq<Member>): Row
    requires FitsColumns(e, contentHash)
  {
    Row(CharColumn(e.id, 36), e.timestamp, LevelToInt(e.level), Cut(e.source, 31), e.message, metadata,
        CharColumn(contentHash, 64))
  }

  function Rebuilt(r: Row): LogEntry {
    LogEntry(r.id, r.timestamp, IntToLevel(r.level), r.source, r.message, r.metadata, "")
  }

  // verifyLog: recompute the hash of the rebuilt entry and compare.
  predicate Verifies(h: HashFunction, r: Row) {
    LogHash(h, Rebuilt(r)) == r.contentHash
  }

  function ContentHash(h: HashFunction, e: LogEntry): string {
    if e.dataHash != "" then e.dataHash else LogHash(h, e)
  }

  predicate KeptByColumns(e: LogEntry) {
    |e.id| == 36 && |e.source| <= 31 && KnownLevel(e.level)
  }

  // When an untouched row verifies.  With no hash, or the right one, given by the writer, it
  // does if the identifier fills its column exactly, the source loses no blanks, and the
  // level is one of the five names; and for a computed hash only then, unless the two texts
  // are a collision.
  lemma VerifyAfterWrite(h: HashFunction, e: LogEntry, metadata: seq<Member>)
    requires ProperEntry(e) && Proper(Obj(metadata)) && Same(Obj(metadata), Obj(e.metadata))
    requires FitsColumns(e, ContentHash(h, e))
    ensures var r := RowOf(e, ContentHash(h, e), metadata);
      && (ContentHash(h, e) == LogHash(h, e) && KeptByColumns(e) ==> Verifies(h, r))
      && (e.dataHash == "" && Verifies(h, r) ==>
            || KeptByColumns(e)
            || IsCollision(h, (HashedBytes(Rebuilt(r)), HashedBytes(e))))
  {
    var r := RowOf(e, ContentHash(h, e), metadata);
    LogHashBinds(h, Rebuilt(r), e);
    LevelComesBackIff(e.level);
    assert |LogHash(h, e)| == 64;
  }

  // Two rows under one content hash cannot both verify unless they have the same content,
  // or exhibit a collision.
  lemma TamperingShows(h: HashFunction, r: Row, r': Row)
    requires Proper(Obj(r.metadata)) && Proper(Obj(r'.metadata))
    requires Verifies(h, r) && r'.contentHash == r.contentHash
    ensures Verifies(h, r') ==>
      || SameContent(Rebuilt(r), Rebuilt(r'))
      || IsCollision(h, (HashedBytes(Rebuilt(r)), HashedBytes(Rebuilt(r'))))
  {
    LogHashBinds(h, Rebuilt(r), Rebuilt(r'));
  }

  // In particular the benchmark's own tampering is always detected, up to a collision.
  lemma TamperedMessageShows(h: HashFunction, r: Row)
    requires Proper(Obj(r.metadata)) && Verifies(h, r)
    ensures var r' := r.(message := r.message + " [tampered]");
      !Verifies(h, r') || IsCollision(h, (HashedBytes(Rebuilt(r)), HashedBytes(Rebuilt(r'))))
  {
    TamperingShows(h, r, r.(message := r.message + " [tampered]"));
  }
}
