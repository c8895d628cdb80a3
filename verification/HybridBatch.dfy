/** Writing a batch through the hybrid storage: rows, Merkle root, batch record, links. */
module HybridBatch {
  import opened Bytes
  import opened LogEntries
  import opened MerkleTree
  import Hex

  datatype Leaf = Unlinked | Linked(root: string, index: nat)

  datatype BatchedRow = BatchedRow(row: Row, leaf: Leaf)

  datatype BatchRow = BatchRow(
    merkleRoot: string, startId: string, endId: string, logCount: nat,
    counts: LevelCounts, maxSeverity: nat, anchorStatus: string)

  datatype LevelCounts = LevelCounts(debug: nat, info: nat, warn: nat, error: nat, critical: nat) {
    function Total(): nat {
      debug + info + warn + error + critical
    }
  }

  // ---------------------------------------------------------------- level counts and severity

  function Bump(c: LevelCounts, level: string): LevelCounts {
    match LevelNumber(Upper(level))
    case Some(n) =>
      if n == 0 then c.(debug := c.debug + 1)
      else if n == 1 then c.(info := c.info + 1)
      else if n == 2 then c.(warn := c.warn + 1)
      else if n == 3 then c.(error := c.error + 1)
      else c.(critical := c.critical + 1)
    case None => c
  }

  function CountLevels(levels: seq<string>): LevelCounts {
    if levels == [] then LevelCounts(0, 0, 0, 0, 0)
    else Bump(CountLevels(levels[..|levels| - 1]), levels[|levels| - 1])
  }

  method ComputeCounts(levels: seq<string>) returns (counts: LevelCounts)
    ensures counts == CountLevels(levels)
  {
    counts := LevelCounts(0, 0, 0, 0, 0);
    for i := 0 to |levels|
      invariant counts == CountLevels(levels[..i])
    {
      assert levels[..i + 1][..i] == levels[..i];
      counts := Bump(counts, levels[i]);
    }
    assert levels[..|levels|] == levels;
  }

  // The hybrid storage's severity: the greatest level number, an unknown level counting 1.
  function MaxSeverity(levels: seq<string>): (m: nat)
    requires levels != []
    ensures exists i :: 0 <= i < |levels| && LevelToInt(levels[i]) == m
    ensures forall i :: 0 <= i < |levels| ==> LevelToInt(levels[i]) <= m
  {
    var last := LevelToInt(levels[|levels| - 1]);
    if |levels| == 1 then last
    else
      var m := MaxSeverity(levels[..|levels| - 1]);
      if last > m then last else m
  }

  // The anchor's severity: the last of the five names with a count.
  function AnchorSeverity(c: LevelCounts): string {
    if c.critical > 0 then "CRITICAL"
    else if c.error > 0 then "ERROR"
    else if c.warn > 0 then "WARN"
    else if c.info > 0 then "INFO"
    else "DEBUG"
  }

  predicate Counted(level: string) {
    LevelNumber(Upper(level)).Some?
  }

  function NumberCounted(levels: seq<string>): (n: nat)
    ensures n <= |levels|
    ensures n == |levels| <==> forall i :: 0 <= i < |levels| ==> Counted(levels[i])
  {
    if levels == [] then 0
    else
      var last := |levels| - 1;
      var n := NumberCounted(levels[..last]);
      if Counted(levels[last]) then n + 1 else n
  }

  // The five counts add up to the number of entries exactly when every level is known.
  lemma CountsAddUpIff(levels: seq<string>)
    ensures CountLevels(levels).Total() == |levels| <==> forall i :: 0 <= i < |levels| ==> Counted(levels[i])
  {
    CountsTotal(levels);
  }

  lemma {:induction false} CountsTotal(levels: seq<string>)
    ensures CountLevels(levels).Total() == NumberCounted(levels)
  {
    if levels != [] {
      CountsTotal(levels[..|levels| - 1]);
      BumpTotal(CountLevels(levels[..|levels| - 1]), levels[|levels| - 1]);
    }
  }

  lemma BumpTotal(c: LevelCounts, level: string)
    ensures Bump(c, level).Total() == c.Total() + (if Counted(level) then 1 else 0)
  {}

  function CountOf(c: LevelCounts, n: nat): nat {
    match n
    case 0 => c.debug
    case 1 => c.info
    case 2 => c.warn
    case 3 => c.error
    case _ => c.critical
  }

  lemma {:induction false} CountPositive(levels: seq<string>, n: nat)
    requires n <= 4
    ensures CountOf(CountLevels(levels), n) > 0 <==>
            exists i :: 0 <= i < |levels| && LevelNumber(Upper(levels[i])) == Some(n)
  {
    if levels != [] {
      var last := |levels| - 1;
      var init := levels[..last];
      CountPositive(init, n);
      if CountOf(CountLevels(init), n) > 0 {
        var i :| 0 <= i < |init| && LevelNumber(Upper(init[i])) == Some(n);
        assert levels[i] == init[i];
      }
      if exists i :: 0 <= i < last && LevelNumber(Upper(levels[i])) == Some(n) {
        var i :| 0 <= i < last && LevelNumber(Upper(levels[i])) == Some(n);
        assert init[i] == levels[i];
      }
    }
  }

  lemma BumpCounts(c: LevelCounts, level: string, n: nat)
    requires n <= 4
    ensures CountOf(Bump(c, level), n) == CountOf(c, n) + (if LevelNumber(Upper(level)) == Some(n) then 1 else 0)
  {}

  // The entries of a level.
  ghost function OfLevel(levels: seq<string>, n: nat): set<nat> {
    set i: nat | i < |levels| && LevelNumber(Upper(levels[i])) == Some(n)
  }

  // Each count is the number of entries whose level has that name, in any case.
  lemma {:induction false} CountIsNumber(levels: seq<string>, n: nat)
    requires n <= 4
    ensures CountOf(CountLevels(levels), n) == |OfLevel(levels, n)|
  {
    if levels != [] {
      var last := |levels| - 1;
      CountIsNumber(levels[..last], n);
      BumpCounts(CountLevels(levels[..last]), levels[last], n);
      var before := OfLevel(levels[..last], n);
      if LevelNumber(Upper(levels[last])) == Some(n) {
        assert OfLevel(levels, n) == before + {last};
      } else {
        assert OfLevel(levels, n) == before;
      }
    }
  }

  // The two severities agree exactly when every level is known, or some known level is
  // INFO or above; a batch of unknown and DEBUG levels is INFO to one and DEBUG to the other.
  lemma SeveritiesAgreeIff(levels: seq<string>)
    requires levels != []
    ensures IntToLevel(MaxSeverity(levels)) == AnchorSeverity(CountLevels(levels)) <==>
            || (forall i :: 0 <= i < |levels| ==> Counted(levels[i]))
            || (exists i :: 0 <= i < |levels| && Counted(levels[i]) && LevelToInt(levels[i]) >= 1)
  {
    var (c, m) := (CountLevels(levels), MaxSeverity(levels));
    forall n: nat | m < n <= 4 ensures CountOf(c, n) == 0 {
      if CountOf(c, n) > 0 {
        var i := CountedAt(levels, n);
      }
    }
    AnchorSeverityIs(c, m);
    TopIsCountedIff(levels);
  }

  // Whether the highest number stands for a known level.
  lemma TopIsCountedIff(levels: seq<string>)
    requires levels != []
    ensures CountOf(CountLevels(levels), MaxSeverity(levels)) > 0 <==>
            || (forall i :: 0 <= i < |levels| ==> Counted(levels[i]))
            || (exists i :: 0 <= i < |levels| && Counted(levels[i]) && LevelToInt(levels[i]) >= 1)
    ensures CountOf(CountLevels(levels), MaxSeverity(levels)) == 0 ==> MaxSeverity(levels) == 1
  {
    var m := MaxSeverity(levels);
    var top :| 0 <= top < |levels| && LevelToInt(levels[top]) == m;
    CountedTopIff(levels, top);
    if i :| 0 <= i < |levels| && Counted(levels[i]) && LevelToInt(levels[i]) >= 1 {
      CountedTopIff(levels, i);
    }
    if CountOf(CountLevels(levels), m) > 0 {
      var i := CountedAt(levels, m);
      if m == 0 {
        forall j | 0 <= j < |levels| ensures Counted(levels[j]) {
          UnknownIsInfo(levels[j]);
        }
      }
    }
  }

  lemma UnknownIsInfo(level: string)
    ensures !Counted(level) ==> LevelToInt(level) == 1
  {}

  lemma CountedAt(levels: seq<string>, n: nat) returns (i: nat)
    requires n <= 4 && CountOf(CountLevels(levels), n) > 0
    ensures i < |levels| && Counted(levels[i]) && LevelToInt(levels[i]) == n
  {
    CountPositive(levels, n);
    i :| 0 <= i < |levels| && LevelNumber(Upper(levels[i])) == Some(n);
  }

  lemma CountedTopIff(levels: seq<string>, i: nat)
    requires i < |levels| && LevelToInt(levels[i]) <= 4
    ensures Counted(levels[i]) ==> CountOf(CountLevels(levels), LevelToInt(levels[i])) > 0
    ensures !Counted(levels[i]) ==> LevelToInt(levels[i]) == 1
  {
    CountPositive(levels, LevelToInt(levels[i]));
  }

  lemma AnchorSeverityIs(c: LevelCounts, m: nat)
    requires m <= 4 && forall n: nat :: m < n <= 4 ==> CountOf(c, n) == 0
    ensures CountOf(c, m) > 0 ==> AnchorSeverity(c) == IntToLevel(m)
    ensures CountOf(c, m) == 0 && m == 1 ==> AnchorSeverity(c) == "DEBUG"
  {
    assert CountOf(c, 0) == c.debug && CountOf(c, 1) == c.info && CountOf(c, 2) == c.warn;
    assert CountOf(c, 3) == c.error && CountOf(c, 4) == c.critical;
  }

  // ---------------------------------------------------------------- tables

  type Logs = map<string, BatchedRow>

  // A row is stored under its identifier.
  ghost predicate Keyed(logs: Logs) {
    forall k :: k in logs ==> logs[k].row.id == k
  }

  // The primary key, the unique content hash, and the column widths admit the entry.
  predicate Admits(logs: Logs, e: LogEntry) {
    && FitsColumns(e, e.dataHash)
    && IdKey(e) !in logs
    && forall k :: k in logs ==> logs[k].row.contentHash != CharColumn(e.dataHash, 64)
  }

  // The row of an entry; `metadata` is the order in which the column keeps its keys.
  function NewRow(e: LogEntry): BatchedRow
    requires FitsColumns(e, e.dataHash)
  {
    BatchedRow(RowOf(e, e.dataHash, e.metadata), Unlinked)
  }

  function IdKey(e: LogEntry): string {
    CharColumn(e.id, 36)
  }

  // `UPDATE ... WHERE id = key`: nothing happens to a key that is not there.
  function Link(logs: Logs, key: string, root: string, index: nat): Logs {
    if key in logs then logs[key := logs[key].(leaf := Linked(root, index))] else logs
  }

  // What can go wrong outside: an insert, the record, the transaction, the final update, or
  // the anchor, which may also throw.
  datatype Outside = Outside(
    insertUp: nat -> bool, recordUp: bool, linkUp: bool, updateUp: bool,
    anchorThrows: bool, anchorSuccess: bool, anchorConfirmed: bool)

  datatype BatchResult =
    | Failed(count: nat)
    | Written(batchHash: string, startId: string, endId: string, count: nat, success: bool, confirmed: bool)

  function AnchorStatus(confirmed: bool, success: bool): string {
    if confirmed then "confirmed" else if success then "pending" else "failed"
  }

  function MerkleEntry(e: LogEntry): Entry {
    Entry(e.dataHash, HashedBytes(e))
  }

  function MerkleEntries(es: seq<LogEntry>): (r: seq<Entry>)
    ensures |r| == |es|
  {
    seq(|es|, i requires 0 <= i < |es| => MerkleEntry(es[i]))
  }

  function Levels(es: seq<LogEntry>): (r: seq<string>)
    ensures |r| == |es|
  {
    seq(|es|, i requires 0 <= i < |es| => es[i].level)
  }

  // The first n inserts, each attempted whatever becomes of the others.
  function Inserted(logs: Logs, es: seq<LogEntry>, n: nat, up: nat -> bool): (Logs, bool)
    requires n <= |es|
  {
    if n == 0 then (logs, true)
    else
      var (before, ok) := Inserted(logs, es, n - 1, up);
      if up(n - 1) && Admits(before, es[n - 1])
      then (before[IdKey(es[n - 1]) := NewRow(es[n - 1])], ok)
      else (before, false)
  }

  // The first n links of the transaction.
  function LinkedUpTo(logs: Logs, es: seq<LogEntry>, root: string, n: nat): Logs
    requires n <= |es|
  {
    LinkKeys(logs, IdKeys(es), root, n)
  }

  function IdKeys(es: seq<LogEntry>): (keys: seq<string>)
    ensures |keys| == |es| && forall i :: 0 <= i < |es| ==> keys[i] == IdKey(es[i])
  {
    seq(|es|, i requires 0 <= i < |es| => IdKey(es[i]))
  }

  function LinkKeys(logs: Logs, keys: seq<string>, root: string, n: nat): Logs
    requires n <= |keys|
  {
    if n == 0 then logs else Link(LinkKeys(logs, keys, root, n - 1), keys[n - 1], root, n - 1)
  }

  ghost predicate DistinctIds(es: seq<LogEntry>, n: nat)
    requires n <= |es|
  {
    forall i, j :: 0 <= i < j < n ==> IdKey(es[i]) != IdKey(es[j])
  }

  ghost predicate Present(logs: Logs, e: LogEntry) {
    FitsColumns(e, e.dataHash) && IdKey(e) in logs && logs[IdKey(e)] == NewRow(e)
  }

  // Inserting keeps the rows that are there, and adds unlinked ones.
  lemma {:induction false} InsertedKeeps(logs: Logs, es: seq<LogEntry>, n: nat, up: nat -> bool)
    requires n <= |es| && Keyed(logs)
    ensures var r := Inserted(logs, es, n, up).0;
      && Keyed(r) && logs.Keys <= r.Keys && (forall k :: k in logs ==> r[k] == logs[k])
      && (forall k :: k in r && k !in logs ==> r[k].leaf == Unlinked)
  {
    if n > 0 {
      InsertedKeeps(logs, es, n - 1, up);
    }
  }

  ghost predicate AllPresent(logs: Logs, es: seq<LogEntry>, n: nat)
    requires n <= |es|
  {
    DistinctIds(es, n) && forall i :: 0 <= i < n ==> Present(logs, es[i])
  }

  lemma InsertOne(before: Logs, r: Logs, es: seq<LogEntry>, n: nat)
    requires n < |es| && AllPresent(before, es, n)
    requires FitsColumns(es[n], es[n].dataHash) && IdKey(es[n]) !in before
    requires r == before[IdKey(es[n]) := NewRow(es[n])]
    ensures AllPresent(r, es, n + 1)
  {
    forall i | 0 <= i < n ensures Present(r, es[i]) && IdKey(es[i]) != IdKey(es[n]) {
      assert Present(before, es[i]);
    }
  }

  lemma LastInsert(logs: Logs, es: seq<LogEntry>, n: nat, up: nat -> bool)
    requires 0 < n <= |es| && Inserted(logs, es, n, up).1
    ensures var before := Inserted(logs, es, n - 1, up);
      && before.1 && FitsColumns(es[n - 1], es[n - 1].dataHash) && IdKey(es[n - 1]) !in before.0
      && Inserted(logs, es, n, up).0 == before.0[IdKey(es[n - 1]) := NewRow(es[n - 1])]
  {}

  // If all inserts went through, the batch is present under distinct identifiers.
  lemma {:induction false} InsertedAll(logs: Logs, es: seq<LogEntry>, n: nat, up: nat -> bool)
    requires n <= |es| && Inserted(logs, es, n, up).1
    ensures AllPresent(Inserted(logs, es, n, up).0, es, n)
  {
    if n > 0 {
      InsertedAll(logs, es, n - 1, up);
      LastInsert(logs, es, n, up);
      InsertOne(Inserted(logs, es, n - 1, up).0, Inserted(logs, es, n, up).0, es, n - 1);
    }
  }

  // The first n keys are linked in order, and nothing else has changed.
  ghost predicate LinkedExactly(logs: Logs, r: Logs, keys: seq<string>, root: string, n: nat)
    requires n <= |keys| && forall i :: 0 <= i < |keys| ==> keys[i] in logs
  {
    && Keyed(r) && r.Keys == logs.Keys
    && (forall i :: 0 <= i < n ==> r[keys[i]] == logs[keys[i]].(leaf := Linked(root, i)))
    && (forall k :: k in logs && (forall i :: 0 <= i < n ==> keys[i] != k) ==> r[k] == logs[k])
  }

  lemma LinkedFacts(logs: Logs, keys: seq<string>, root: string, n: nat)
    requires n <= |keys| && Keyed(logs) && forall i :: 0 <= i < |keys| ==> keys[i] in logs
    requires forall i, j :: 0 <= i < j < |keys| ==> keys[i] != keys[j]
    ensures LinkedExactly(logs, LinkKeys(logs, keys, root, n), keys, root, n)
  {
    LinkKeepsKeys(logs, keys, root, n);
    LinkReaches(logs, keys, root, n);
    LinkKeepsOthers(logs, keys, root, n);
  }

  lemma {:induction false} LinkKeepsKeys(logs: Logs, keys: seq<string>, root: string, n: nat)
    requires n <= |keys| && Keyed(logs)
    ensures Keyed(LinkKeys(logs, keys, root, n)) && LinkKeys(logs, keys, root, n).Keys == logs.Keys
  {
    if n > 0 {
      LinkKeepsKeys(logs, keys, root, n - 1);
    }
  }

  lemma {:induction false} LinkReaches(logs: Logs, keys: seq<string>, root: string, n: nat)
    requires n <= |keys| && Keyed(logs) && forall i :: 0 <= i < |keys| ==> keys[i] in logs
    requires forall i, j :: 0 <= i < j < |keys| ==> keys[i] != keys[j]
    ensures LinkKeys(logs, keys, root, n).Keys == logs.Keys
    ensures forall i :: 0 <= i < n ==> LinkKeys(logs, keys, root, n)[keys[i]] == logs[keys[i]].(leaf := Linked(root, i))
  {
    LinkKeepsKeys(logs, keys, root, n);
    if n > 0 {
      LinkReaches(logs, keys, root, n - 1);
      LinkKeepsOthers(logs, keys, root, n - 1);
    }
  }

  lemma {:induction false} LinkKeepsOthers(logs: Logs, keys: seq<string>, root: string, n: nat)
    requires n <= |keys| && Keyed(logs)
    ensures LinkKeys(logs, keys, root, n).Keys == logs.Keys
    ensures forall k :: k in logs && (forall i :: 0 <= i < n ==> keys[i] != k) ==> LinkKeys(logs, keys, root, n)[k] == logs[k]
  {
    LinkKeepsKeys(logs, keys, root, n);
    if n > 0 {
      LinkKeepsOthers(logs, keys, root, n - 1);
    }
  }

  // The two tables of a batched storage.
  datatype Tables = Tables(logs: Logs, batches: map<string, BatchRow>)

  function BatchRoot(h: HashFunction, entries: seq<LogEntry>): string {
    BatchHash(h, MerkleEntries(Hashed(h, entries)))
  }

  // The whole write: what each outside failure leaves behind, and the result.
  function WriteBatchOn(h: HashFunction, t: Tables, entries: seq<LogEntry>, out: Outside): (Tables, BatchResult) {
    if entries == [] then (t, Failed(0))
    else
      var (es, root) := (Hashed(h, entries), BatchRoot(h, entries));
      var (inserted, all) := Inserted(t.logs, es, |es|, out.insertUp);
      if !all || !out.recordUp then (Tables(inserted, t.batches), Failed(|es|))
      else
        var recorded := Recorded(t.batches, RecordOf(es, root));
        if !out.linkUp then (Tables(inserted, recorded), Failed(|es|))
        else
          var linked := LinkedUpTo(inserted, es, Pad(root, 64), |es|);
          if out.anchorThrows || !out.updateUp then (Tables(linked, recorded), Failed(|es|))
          else
            (Tables(linked, WithStatus(recorded, root, AnchorStatus(out.anchorConfirmed, out.anchorSuccess))),
             Written(root, es[0].id, es[|es| - 1].id, |es|, out.anchorSuccess, out.anchorConfirmed))
  }

  class HybridStorage {
    var logs: Logs
    var batches: map<string, BatchRow>

    ghost function Contents(): Tables
      reads this
    {
      Tables(logs, batches)
    }

    constructor ()
      ensures Contents() == Tables(map[], map[])
    {
      logs, batches := map[], map[];
    }

    method InsertBatched(e: LogEntry, up: bool) returns (ok: bool)
      modifies this`logs
      ensures ok <==> up && Admits(old(logs), e)
      ensures logs == if ok then old(logs)[IdKey(e) := NewRow(e)] else old(logs)
    {
      ok := up && Admits(logs, e);
      if ok {
        logs := logs[IdKey(e) := NewRow(e)];
      }
    }

    // ON CONFLICT (merkle_root) DO NOTHING
    method InsertBatchRecord(meta: BatchRow)
      modifies this`batches
      ensures batches == if Pad(meta.merkleRoot, 64) in old(batches) then old(batches)
                         else old(batches)[Pad(meta.merkleRoot, 64) := meta]
    {
      if Pad(meta.merkleRoot, 64) !in batches {
        batches := batches[Pad(meta.merkleRoot, 64) := meta];
      }
    }

    method UpdateBatchAnchorStatus(root: string, status: string)
      modifies this`batches
      ensures batches == if Pad(root, 64) in old(batches)
                         then old(batches)[Pad(root, 64) := old(batches)[Pad(root, 64)].(anchorStatus := status)]
                         else old(batches)
    {
      if Pad(root, 64) in batches {
        batches := batches[Pad(root, 64) := batches[Pad(root, 64)].(anchorStatus := status)];
      }
    }

    method InsertAll(es: seq<LogEntry>, up: nat -> bool) returns (ok: bool)
      modifies this`logs
      ensures (logs, ok) == Inserted(old(logs), es, |es|, up)
    {
      ok := true;
      for n := 0 to |es|
        invariant (logs, ok) == Inserted(old(logs), es, n, up)
      {
        var done := InsertBatched(es[n], up(n));
        ok := ok && done;
      }
    }

    // One transaction: all the links, or none.
    method LinkBatchLeaves(es: seq<LogEntry>, root: string, up: bool) returns (ok: bool)
      modifies this`logs
      ensures ok == up
      ensures logs == if up then LinkedUpTo(old(logs), es, Pad(root, 64), |es|) else old(logs)
    {
      var work := logs;
      for n := 0 to |es|
        invariant work == LinkedUpTo(old(logs), es, Pad(root, 64), n)
      {
        work := Link(work, IdKey(es[n]), Pad(root, 64), n);
      }
      if up {
        logs := work;
      }
      ok := up;
    }

    method ComputeHashes(h: HashFunction, entries: seq<LogEntry>) returns (es: seq<LogEntry>)
      ensures es == Hashed(h, entries)
    {
      es := entries;
      for n := 0 to |entries|
        invariant |es| == |entries|
        invariant forall i :: 0 <= i < n ==> es[i] == WithHash(h, entries[i])
        invariant forall i :: n <= i < |es| ==> es[i] == entries[i]
      {
        if es[n].dataHash == "" {
          es := es[n := es[n].(dataHash := LogHash(h, es[n]))];
        }
      }
    }

    // `_writeBatch`: hashes, inserts, Merkle root, record, links, anchor, status.  Each
    // outside failure leaves exactly what was done before it.
    method WriteBatch(h: HashFunction, entries: seq<LogEntry>, out: Outside) returns (r: BatchResult)
      modifies this
      ensures (Contents(), r) == WriteBatchOn(h, old(Contents()), entries, out)
    {
      if |entries| == 0 {
        return Failed(0);
      }
      var es := ComputeHashes(h, entries);
      var inserted := InsertAll(es, out.insertUp);
      if !inserted {
        return Failed(|es|);
      }
      var merkleRoot := ComputeBatchHash(h, MerkleEntries(es));
      var counts := ComputeCounts(Levels(es));
      var meta := BatchRow(merkleRoot, es[0].id, es[|es| - 1].id, |es|, counts, MaxSeverity(Levels(es)), "pending");
      if !out.recordUp {
        return Failed(|es|);
      }
      InsertBatchRecord(meta);
      var linked := LinkBatchLeaves(es, merkleRoot, out.linkUp);
      if !linked || out.anchorThrows {
        return Failed(|es|);
      }
      if !out.updateUp {
        return Failed(|es|);
      }
      UpdateBatchAnchorStatus(merkleRoot, AnchorStatus(out.anchorConfirmed, out.anchorSuccess));
      r := Written(merkleRoot, es[0].id, es[|es| - 1].id, |es|, out.anchorSuccess, out.anchorConfirmed);
    }
  }

  function WithHash(h: HashFunction, e: LogEntry): LogEntry {
    e.(dataHash := ContentHash(h, e))
  }

  function Hashed(h: HashFunction, entries: seq<LogEntry>): (es: seq<LogEntry>)
    ensures |es| == |entries|
  {
    seq(|entries|, i requires 0 <= i < |entries| => WithHash(h, entries[i]))
  }

  function RecordOf(es: seq<LogEntry>, root: string): BatchRow
    requires es != []
  {
    BatchRow(root, es[0].id, es[|es| - 1].id, |es|, CountLevels(Levels(es)), MaxSeverity(Levels(es)), "pending")
  }

  function Recorded(batches: map<string, BatchRow>, meta: BatchRow): map<string, BatchRow> {
    if Pad(meta.merkleRoot, 64) in batches then batches else batches[Pad(meta.merkleRoot, 64) := meta]
  }

  function WithStatus(batches: map<string, BatchRow>, root: string, status: string): map<string, BatchRow> {
    var key := Pad(root, 64);
    if key in batches then batches[key := batches[key].(anchorStatus := status)] else batches
  }

  // ---------------------------------------------------------------- verification of a written batch

  // A result of `SELECT * ... WHERE batch_root = root ORDER BY leaf_index`.
  ghost predicate IsListing(rows: seq<BatchedRow>, logs: Logs, root: string) {
    && (forall i, j :: 0 <= i < j < |rows| ==> rows[i].row.id != rows[j].row.id)
    && (forall r :: r in rows ==> r.leaf.Linked? && r.leaf.root == root && r.row.id in logs && logs[r.row.id] == r)
    && (forall k :: k in logs && logs[k].leaf.Linked? && logs[k].leaf.root == root ==> logs[k] in rows)
    && (forall i, j :: 0 <= i < j < |rows| ==> rows[i].leaf.index <= rows[j].leaf.index)
  }

  // No row carries the root yet.
  ghost predicate FreshRoot(logs: Logs, root: string) {
    forall k :: k in logs ==> !(logs[k].leaf.Linked? && logs[k].leaf.root == root)
  }

  // The linked rows of a batch, in order.
  function BatchRows(es: seq<LogEntry>, root: string): (rows: seq<BatchedRow>)
    requires forall i :: 0 <= i < |es| ==> FitsColumns(es[i], es[i].dataHash)
    ensures |rows| == |es|
  {
    seq(|es|, i requires 0 <= i < |es| => NewRow(es[i]).(leaf := Linked(root, i)))
  }

  // Rows in strictly ascending order of index that are exactly rows 0, 1, ..., n-1 are
  // those rows in that order.
  lemma {:induction false} ListedInOrder(rows: seq<BatchedRow>, expected: seq<BatchedRow>, n: nat)
    requires n <= |expected|
    requires forall i :: 0 <= i < |expected| ==> expected[i].leaf.Linked? && expected[i].leaf.index == i
    requires forall r :: r in rows <==> r in expected
    requires forall i, j :: 0 <= i < j < |rows| ==> rows[i] != rows[j]
    requires forall i :: 0 <= i < |rows| ==> rows[i].leaf.Linked?
    requires forall i, j :: 0 <= i < j < |rows| ==> rows[i].leaf.index <= rows[j].leaf.index
    ensures n <= |rows| && forall i :: 0 <= i < n ==> rows[i] == expected[i]
  {
    if n > 0 {
      ListedInOrder(rows, expected, n - 1);
      NextListed(rows, expected, n - 1);
    }
  }

  lemma NextListed(rows: seq<BatchedRow>, expected: seq<BatchedRow>, n: nat)
    requires n < |expected| && n <= |rows| && forall i :: 0 <= i < n ==> rows[i] == expected[i]
    requires forall i :: 0 <= i < |expected| ==> expected[i].leaf.Linked? && expected[i].leaf.index == i
    requires forall r :: r in rows <==> r in expected
    requires forall i, j :: 0 <= i < j < |rows| ==> rows[i] != rows[j]
    requires forall i :: 0 <= i < |rows| ==> rows[i].leaf.Linked?
    requires forall i, j :: 0 <= i < j < |rows| ==> rows[i].leaf.index <= rows[j].leaf.index
    ensures n < |rows| && rows[n] == expected[n]
  {
    assert expected[n] in expected;
    var p :| 0 <= p < |rows| && rows[p] == expected[n];
    assert p >= n;
    assert rows[n] in rows;
    var i :| 0 <= i < |expected| && expected[i] == rows[n];
    assert i >= n && i <= n;
  }

  lemma WithinExpected(rows: seq<BatchedRow>, expected: seq<BatchedRow>, k: nat)
    requires |expected| <= |rows| && forall i :: 0 <= i < |expected| ==> rows[i] == expected[i]
    requires forall r :: r in rows <==> r in expected
    requires forall i, j :: 0 <= i < j < |rows| ==> rows[i] != rows[j]
    requires k < |rows|
    ensures k < |expected|
  {
    assert rows[k] in rows;
    var i :| 0 <= i < |expected| && expected[i] == rows[k];
    assert rows[i] == rows[k];
  }

  lemma ListedExactly(rows: seq<BatchedRow>, expected: seq<BatchedRow>)
    requires forall i :: 0 <= i < |expected| ==> expected[i].leaf.Linked? && expected[i].leaf.index == i
    requires forall r :: r in rows <==> r in expected
    requires forall i, j :: 0 <= i < j < |rows| ==> rows[i] != rows[j]
    requires forall i :: 0 <= i < |rows| ==> rows[i].leaf.Linked?
    requires forall i, j :: 0 <= i < j < |rows| ==> rows[i].leaf.index <= rows[j].leaf.index
    ensures rows == expected
  {
    var n := |expected|;
    ListedInOrder(rows, expected, n);
    assert forall i :: 0 <= i < n ==> rows[i] == expected[i] by {
      forall i | 0 <= i < n ensures rows[i] == expected[i] {
        assert rows[i] == rows[..n][i] && expected[i] == expected[..n][i];
      }
    }
    if |rows| > 0 {
      WithinExpected(rows, expected, |rows| - 1);
    }
    assert rows == rows[..n] && expected == expected[..n];
  }

  // Linking gives a root that no row had to the linked keys only.
  lemma OnlyKeysLinked(logs: Logs, r: Logs, keys: seq<string>, root: string, k: string)
    requires forall i :: 0 <= i < |keys| ==> keys[i] in logs
    requires LinkedExactly(logs, r, keys, root, |keys|) && FreshRoot(logs, root)
    requires k in r && r[k].leaf.Linked? && r[k].leaf.root == root
    ensures k in keys
  {}

  lemma InsertedFresh(before: Logs, es: seq<LogEntry>, root: string, up: nat -> bool)
    requires Keyed(before) && FreshRoot(before, root)
    ensures FreshRoot(Inserted(before, es, |es|, up).0, root)
  {
    InsertedKeeps(before, es, |es|, up);
  }

  // After the inserts and links of a fresh root, every row with that root is one of the
  // batch's rows, and each of those is there.
  lemma RowsWithRoot(before: Logs, es: seq<LogEntry>, root: string, up: nat -> bool, k: string)
    requires Keyed(before) && FreshRoot(before, root) && Inserted(before, es, |es|, up).1
    ensures forall i :: 0 <= i < |es| ==> FitsColumns(es[i], es[i].dataHash)
    ensures var after := LinkedUpTo(Inserted(before, es, |es|, up).0, es, root, |es|);
      && (forall i :: 0 <= i < |es| ==> IdKey(es[i]) in after && after[IdKey(es[i])] == BatchRows(es, root)[i])
      && (k in after && after[k].leaf.Linked? && after[k].leaf.root == root ==> after[k] in BatchRows(es, root))
  {
    var inserted := Inserted(before, es, |es|, up).0;
    InsertedAll(before, es, |es|, up);
    InsertedKeeps(before, es, |es|, up);
    LinkedFacts(inserted, IdKeys(es), root, |es|);
    var after := LinkedUpTo(inserted, es, root, |es|);
    var expected := BatchRows(es, root);
    forall i | 0 <= i < |es| ensures IdKey(es[i]) in after && after[IdKey(es[i])] == expected[i] {
      assert Present(inserted, es[i]);
    }
    if k in after && after[k].leaf.Linked? && after[k].leaf.root == root {
      InsertedFresh(before, es, root, up);
      OnlyKeysLinked(inserted, after, IdKeys(es), root, k);
      var i :| 0 <= i < |es| && IdKeys(es)[i] == k;
      assert after[k] == expected[i];
    }
  }

  // The rows listed by the fresh root of a written batch, in leaf order, are exactly the
  // batch, with leaf indexes 0 to n - 1; leaf order leaves no choice of listing.
  lemma ListingIsBatch(before: Logs, es: seq<LogEntry>, root: string, up: nat -> bool, rows: seq<BatchedRow>)
    requires Keyed(before) && FreshRoot(before, root) && Inserted(before, es, |es|, up).1
    requires IsListing(rows, LinkedUpTo(Inserted(before, es, |es|, up).0, es, root, |es|), root)
    ensures forall i :: 0 <= i < |es| ==> FitsColumns(es[i], es[i].dataHash)
    ensures rows == BatchRows(es, root)
  {
    RowsWithRoot(before, es, root, up, "");
    var after := LinkedUpTo(Inserted(before, es, |es|, up).0, es, root, |es|);
    var expected := BatchRows(es, root);
    forall r ensures r in rows <==> r in expected {
      if r in rows {
        RowsWithRoot(before, es, root, up, r.row.id);
      }
      if r in expected {
        var i :| 0 <= i < |es| && expected[i] == r;
        assert after[IdKey(es[i])] in rows;
      }
    }
    ListedExactly(rows, expected);
  }

  // What the verification endpoint feeds back into the Merkle computation.
  function SiblingEntries(rows: seq<BatchedRow>, hashable: Bytes): (r: seq<Entry>)
    ensures |r| == |rows|
  {
    seq(|rows|, i requires 0 <= i < |rows| => Entry(rows[i].row.contentHash, hashable))
  }

  // Recomputing the root over the listed rows gives the batch's own root; blanks that a
  // column added to a short hash do not matter.
  lemma RecomputedRoot(h: HashFunction, es: seq<LogEntry>, root: string, hashable: Bytes)
    requires forall i :: 0 <= i < |es| ==> FitsColumns(es[i], es[i].dataHash) && es[i].dataHash != ""
    ensures BatchHash(h, SiblingEntries(BatchRows(es, root), hashable)) == BatchHash(h, MerkleEntries(es))
  {
    var (a, b) := (SiblingEntries(BatchRows(es, root), hashable), MerkleEntries(es));
    forall i | 0 <= i < |es| ensures Leaves(h, a)[i] == Leaves(h, b)[i] {
      ColumnKeepsHex(es[i].dataHash, 64);
      assert a[i].dataHash == CharColumn(es[i].dataHash, 64) && b[i].dataHash == es[i].dataHash;
    }
    assert Leaves(h, a) == Leaves(h, b);
  }

  lemma {:induction false} PrefixIsShort(s: string)
    ensures 2 * |Hex.FromHexPrefix(s)| <= |s|
  {
    if |s| >= 2 {
      PrefixIsShort(s[2..]);
    }
  }

  lemma RootLength(h: HashFunction, es: seq<LogEntry>)
    requires es != [] && forall i :: 0 <= i < |es| ==> Fits(es[i].dataHash, 64) && es[i].dataHash != ""
    ensures |BatchHash(h, MerkleEntries(es))| <= 64
    ensures |es| > 1 ==> |BatchHash(h, MerkleEntries(es))| == 64
    ensures |es| == 1 ==> |BatchHash(h, MerkleEntries(es))| == 2 * |Hex.FromHexPrefix(es[0].dataHash)|
  {
    var leaves := Leaves(h, MerkleEntries(es));
    PrefixIsShort(Cut(es[0].dataHash, 64));
    CutKeepsHex(es[0].dataHash, 64);
    if |es| == 1 {
      assert MerkleRoot(h, leaves) == leaves[0];
      assert leaves[0] == Hex.FromHexPrefix(es[0].dataHash);
    } else {
      assert Depth(|leaves|) > 0;
    }
  }

  // After a successful write under a fresh root, the endpoint's comparison of the recomputed
  // root with the stored one succeeds exactly when the root fills its column: always for two
  // entries or more, and for one entry when its hash decodes to 32 bytes.
  lemma WrittenBatchVerifiesIff(h: HashFunction, before: Logs, entries: seq<LogEntry>, up: nat -> bool,
                                rows: seq<BatchedRow>, hashable: Bytes)
    requires entries != [] && Keyed(before)
    requires var es := Hashed(h, entries);
      var root := Pad(BatchHash(h, MerkleEntries(es)), 64);
      && FreshRoot(before, root) && Inserted(before, es, |es|, up).1
      && IsListing(rows, LinkedUpTo(Inserted(before, es, |es|, up).0, es, root, |es|), root)
    ensures var es := Hashed(h, entries);
      var root := Pad(BatchHash(h, MerkleEntries(es)), 64);
      BatchHash(h, SiblingEntries(rows, hashable)) == root
      <==> |es| > 1 || |Hex.FromHexPrefix(es[0].dataHash)| == 32
  {
    var es := Hashed(h, entries);
    var root := Pad(BatchHash(h, MerkleEntries(es)), 64);
    forall i | 0 <= i < |es| ensures es[i].dataHash != "" {
      assert |LogHash(h, entries[i])| == 64;
    }
    ListingIsBatch(before, es, root, up, rows);
    RecomputedRoot(h, es, root, hashable);
    RootLength(h, es);
  }

  // ---------------------------------------------------------------- over many writes

  datatype Call = Call(entries: seq<LogEntry>, out: Outside)

  function Run(h: HashFunction, t: Tables, calls: seq<Call>): Tables
    decreases |calls|
  {
    if calls == [] then t else Run(h, WriteBatchOn(h, t, calls[0].entries, calls[0].out).0, calls[1..])
  }

  // Whether the call gets as far as linking its leaves.
  predicate Links(h: HashFunction, t: Tables, c: Call) {
    var es := Hashed(h, c.entries);
    c.entries != [] && Inserted(t.logs, es, |es|, c.out.insertUp).1 && c.out.recordUp && c.out.linkUp
  }

  function RootKey(h: HashFunction, c: Call): string {
    Pad(BatchRoot(h, c.entries), 64)
  }

  predicate Carries(r: BatchedRow, root: string) {
    r.leaf.Linked? && r.leaf.root == root
  }

  // The same rows carry the root.
  ghost predicate SameLeaves(before: Logs, after: Logs, root: string) {
    && (forall k :: k in before && Carries(before[k], root) ==> k in after && after[k] == before[k])
    && (forall k :: k in after && Carries(after[k], root) ==> k in before && before[k] == after[k])
  }

  lemma {:induction false} InsertedIsNew(logs: Logs, es: seq<LogEntry>, n: nat, up: nat -> bool, i: nat)
    requires i < n <= |es| && Keyed(logs) && Inserted(logs, es, n, up).1
    ensures IdKey(es[i]) !in logs
  {
    LastInsert(logs, es, n, up);
    if i < n - 1 {
      InsertedIsNew(logs, es, n - 1, up, i);
    } else {
      InsertedKeeps(logs, es, n - 1, up);
    }
  }

  lemma InsertedAreNew(logs: Logs, es: seq<LogEntry>, up: nat -> bool)
    requires Keyed(logs) && Inserted(logs, es, |es|, up).1
    ensures forall i :: 0 <= i < |es| ==> IdKey(es[i]) !in logs
  {
    forall i | 0 <= i < |es| ensures IdKey(es[i]) !in logs {
      InsertedIsNew(logs, es, |es|, up, i);
    }
  }

  lemma InsertKeepsLeaves(h: HashFunction, logs: Logs, es: seq<LogEntry>, up: nat -> bool, root: string)
    requires Keyed(logs)
    ensures var r := Inserted(logs, es, |es|, up).0; Keyed(r) && SameLeaves(logs, r, root)
  {
    InsertedKeeps(logs, es, |es|, up);
  }

  // Linking the new rows under another root changes none that carries this one.
  lemma LinkKeepsLeaves(logs: Logs, inserted: Logs, keys: seq<string>, own: string, root: string)
    requires Keyed(inserted) && SameLeaves(logs, inserted, root) && own != root
    requires forall i :: 0 <= i < |keys| ==> keys[i] in inserted && inserted[keys[i]].leaf == Unlinked
    requires forall i, j :: 0 <= i < j < |keys| ==> keys[i] != keys[j]
    ensures var r := LinkKeys(inserted, keys, own, |keys|); Keyed(r) && SameLeaves(logs, r, root)
  {
    LinkedFacts(inserted, keys, own, |keys|);
    var r := LinkKeys(inserted, keys, own, |keys|);
    forall k | k in inserted ensures r[k] == inserted[k] || (!Carries(r[k], root) && !Carries(inserted[k], root)) {
      if k in keys {
        var i :| 0 <= i < |keys| && keys[i] == k;
        assert r[keys[i]].leaf == Linked(own, i);
      }
    }
  }

  // A call whose own root is another one, or that does not come to link, keeps the leaves of
  // a root.
  lemma CallKeepsLeaves(h: HashFunction, t: Tables, c: Call, root: string)
    requires Keyed(t.logs) && (Links(h, t, c) ==> RootKey(h, c) != root)
    ensures var t' := WriteBatchOn(h, t, c.entries, c.out).0; Keyed(t'.logs) && SameLeaves(t.logs, t'.logs, root)
  {
    var es := Hashed(h, c.entries);
    var inserted := Inserted(t.logs, es, |es|, c.out.insertUp).0;
    InsertKeepsLeaves(h, t.logs, es, c.out.insertUp, root);
    if Links(h, t, c) {
      InsertedAll(t.logs, es, |es|, c.out.insertUp);
      forall i | 0 <= i < |es| ensures IdKeys(es)[i] in inserted && inserted[IdKeys(es)[i]].leaf == Unlinked {
        assert Present(inserted, es[i]);
      }
      LinkKeepsLeaves(t.logs, inserted, IdKeys(es), RootKey(h, c), root);
    }
  }

  // None of the calls comes to link leaves under the root.
  ghost predicate NoneLinks(h: HashFunction, t: Tables, calls: seq<Call>, root: string)
    decreases |calls|
  {
    calls != [] ==>
      && (Links(h, t, calls[0]) ==> RootKey(h, calls[0]) != root)
      && NoneLinks(h, WriteBatchOn(h, t, calls[0].entries, calls[0].out).0, calls[1..], root)
  }

  lemma {:induction false} RunKeepsLeaves(h: HashFunction, t: Tables, calls: seq<Call>, root: string)
    requires Keyed(t.logs) && NoneLinks(h, t, calls, root)
    ensures Keyed(Run(h, t, calls).logs) && SameLeaves(t.logs, Run(h, t, calls).logs, root)
    decreases |calls|
  {
    if calls != [] {
      CallKeepsLeaves(h, t, calls[0], root);
      RunKeepsLeaves(h, WriteBatchOn(h, t, calls[0].entries, calls[0].out).0, calls[1..], root);
    }
  }

  // A listing after the run is a listing before it.
  lemma ListingStays(rows: seq<BatchedRow>, before: Logs, after: Logs, root: string)
    requires Keyed(before) && Keyed(after) && SameLeaves(before, after, root) && IsListing(rows, after, root)
    ensures IsListing(rows, before, root)
  {
    forall r | r in rows ensures r.row.id in before && before[r.row.id] == r {
      assert Carries(after[r.row.id], root);
    }
    forall k | k in before && before[k].leaf.Linked? && before[k].leaf.root == root ensures before[k] in rows {
      assert Carries(before[k], root);
    }
  }

  // Whatever is written later under other roots, and whatever fails, a batch that was linked
  // under a fresh root is still listed and still verifies under the same condition.
  lemma EarlierBatchVerifiesIff(h: HashFunction, t: Tables, c: Call, later: seq<Call>, rows: seq<BatchedRow>, hashable: Bytes)
    requires Keyed(t.logs) && Links(h, t, c) && FreshRoot(t.logs, RootKey(h, c))
    requires var after := WriteBatchOn(h, t, c.entries, c.out).0;
      NoneLinks(h, after, later, RootKey(h, c)) && IsListing(rows, Run(h, after, later).logs, RootKey(h, c))
    ensures BatchHash(h, SiblingEntries(rows, hashable)) == RootKey(h, c)
      <==> |c.entries| > 1 || |Hex.FromHexPrefix(Hashed(h, c.entries)[0].dataHash)| == 32
  {
    var (es, root) := (Hashed(h, c.entries), RootKey(h, c));
    var after := WriteBatchOn(h, t, c.entries, c.out).0;
    var inserted := Inserted(t.logs, es, |es|, c.out.insertUp).0;
    assert after.logs == LinkedUpTo(inserted, es, root, |es|);
    LinkedIsKeyed(h, t, c);
    RunKeepsLeaves(h, after, later, root);
    ListingStays(rows, after.logs, Run(h, after, later).logs, root);
    WrittenBatchVerifiesIff(h, t.logs, c.entries, c.out.insertUp, rows, hashable);
  }

  lemma LinkedIsKeyed(h: HashFunction, t: Tables, c: Call)
    requires Keyed(t.logs) && Links(h, t, c)
    ensures Keyed(WriteBatchOn(h, t, c.entries, c.out).0.logs)
  {
    var es := Hashed(h, c.entries);
    var inserted := Inserted(t.logs, es, |es|, c.out.insertUp).0;
    InsertedKeeps(t.logs, es, |es|, c.out.insertUp);
    InsertedAll(t.logs, es, |es|, c.out.insertUp);
    forall i | 0 <= i < |es| ensures IdKeys(es)[i] in inserted {
      assert Present(inserted, es[i]);
    }
    LinkedFacts(inserted, IdKeys(es), RootKey(h, c), |es|);
  }

  // ---------------------------------------------------------------- a status that is lost

  // A write whose anchor does not confirm at once takes the status of a confirmed batch back
  // exactly when its inserts, its record, its links and its last update go through and it comes
  // under the same root.
  lemma StatusLostIff(h: HashFunction, t: Tables, c: Call, key: string)
    requires key in t.batches && t.batches[key].anchorStatus == "confirmed" && !c.out.anchorConfirmed
    ensures var t' := WriteBatchOn(h, t, c.entries, c.out).0;
      && key in t'.batches
      && (t'.batches[key].anchorStatus != "confirmed" <==>
            Links(h, t, c) && !c.out.anchorThrows && c.out.updateUp && RootKey(h, c) == key)
  {
    RecordsAfter(h, t, c);
  }

  // What a write does to the records.
  lemma RecordsAfter(h: HashFunction, t: Tables, c: Call)
    ensures var t' := WriteBatchOn(h, t, c.entries, c.out).0;
      if Links(h, t, c) && !c.out.anchorThrows && c.out.updateUp then
        var es := Hashed(h, c.entries);
        var root := BatchRoot(h, c.entries);
        t'.batches == WithStatus(Recorded(t.batches, RecordOf(es, root)), root, AnchorStatus(c.out.anchorConfirmed, c.out.anchorSuccess))
      else forall k :: k in t.batches ==> k in t'.batches && t'.batches[k] == t.batches[k]
  {}

  // The record of a batch whose root is new: the root, the first and last id, how many entries
  // there are of each level and in all, the greatest severity, and what the anchor answered.
  lemma RecordTells(h: HashFunction, t: Tables, c: Call)
    requires Links(h, t, c) && !c.out.anchorThrows && c.out.updateUp && RootKey(h, c) !in t.batches
    ensures var (t', n) := (WriteBatchOn(h, t, c.entries, c.out).0, |c.entries|);
      && t'.batches.Keys == t.batches.Keys + {RootKey(h, c)}
      && var (r, levels) := (t'.batches[RootKey(h, c)], Levels(c.entries));
         && r.merkleRoot == BatchRoot(h, c.entries) && r.startId == c.entries[0].id && r.endId == c.entries[n - 1].id
         && r.logCount == n
         && (forall l: nat :: l <= 4 ==> CountOf(r.counts, l) == |OfLevel(levels, l)|)
         && (exists i :: 0 <= i < n && LevelToInt(c.entries[i].level) == r.maxSeverity)
         && (forall i :: 0 <= i < n ==> LevelToInt(c.entries[i].level) <= r.maxSeverity)
         && r.anchorStatus == (if c.out.anchorConfirmed then "confirmed" else if c.out.anchorSuccess then "pending" else "failed")
  {
    RecordsAfter(h, t, c);
    RecordOfHashed(h, c.entries, BatchRoot(h, c.entries));
  }

  // What the caller is told: the root and the extent of the batch, with what the anchor answered,
  // exactly when everything went through, and else a failure.
  lemma ResultTells(h: HashFunction, t: Tables, c: Call)
    ensures var (r, n) := (WriteBatchOn(h, t, c.entries, c.out).1, |c.entries|);
      if Links(h, t, c) && !c.out.anchorThrows && c.out.updateUp then
        r == Written(BatchRoot(h, c.entries), c.entries[0].id, c.entries[n - 1].id, n, c.out.anchorSuccess, c.out.anchorConfirmed)
      else r == Failed(n)
  {
    if c.entries != [] {
      var (es, last) := (Hashed(h, c.entries), |c.entries| - 1);
      assert es[0].id == c.entries[0].id && es[last].id == c.entries[last].id;
    }
  }

  lemma RecordOfHashed(h: HashFunction, entries: seq<LogEntry>, root: string)
    requires entries != []
    ensures var (r, levels, n) := (RecordOf(Hashed(h, entries), root), Levels(entries), |entries|);
      && r.startId == entries[0].id && r.endId == entries[n - 1].id && r.logCount == n && r.merkleRoot == root
      && (forall l: nat :: l <= 4 ==> CountOf(r.counts, l) == |OfLevel(levels, l)|)
      && (exists i :: 0 <= i < n && LevelToInt(entries[i].level) == r.maxSeverity)
      && (forall i :: 0 <= i < n ==> LevelToInt(entries[i].level) <= r.maxSeverity)
  {
    var (r, levels) := (RecordOf(Hashed(h, entries), root), Levels(entries));
    assert Levels(Hashed(h, entries)) == levels;
    forall l: nat | l <= 4 ensures CountOf(r.counts, l) == |OfLevel(levels, l)| {
      CountIsNumber(levels, l);
    }
    var i :| 0 <= i < |levels| && LevelToInt(levels[i]) == r.maxSeverity;
    assert LevelToInt(entries[i].level) == r.maxSeverity;
    forall i | 0 <= i < |entries| ensures LevelToInt(entries[i].level) <= r.maxSeverity {
      assert LevelToInt(levels[i]) <= r.maxSeverity;
    }
  }

  const SMOOTH := Outside(_ => true, true, true, true, false, true, false)

  predicate Twins(a: LogEntry, b: LogEntry) {
    && FitsColumns(a, a.dataHash) && FitsColumns(b, b.dataHash) && IdKey(a) != IdKey(b)
    && a.dataHash != "" && b.dataHash != "" && CharColumn(a.dataHash, 64) != CharColumn(b.dataHash, 64)
    && Hex.FromHexPrefix(a.dataHash) == Hex.FromHexPrefix(b.dataHash)
  }

  // Two batches of one entry each, with different ids and stored hashes that differ as text
  // and not as bytes, are both admitted and have one root: the second takes back the status
  // that the first was given when the chain confirmed it.
  lemma SameLeafTakesStatusBack(h: HashFunction, a: LogEntry, b: LogEntry)
    requires Twins(a, b)
    ensures var (first, r) := WriteBatchOn(h, Tables(map[], map[]), [a], SMOOTH);
      && r.Written?
      && var key := Pad(r.batchHash, 64);
         var confirmed := first.(batches := WithStatus(first.batches, r.batchHash, "confirmed"));
         var (second, q) := WriteBatchOn(h, confirmed, [b], SMOOTH);
         && q.Written? && q.batchHash == r.batchHash
         && key in confirmed.batches && confirmed.batches[key].anchorStatus == "confirmed"
         && key in second.batches && second.batches[key].anchorStatus == "pending"
  {
    OneLeafRoot(h, a);
    OneLeafRoot(h, b);
    OneEntry(h, map[], a, Pad(BatchRoot(h, [a]), 64));
    var (first, r) := WriteBatchOn(h, Tables(map[], map[]), [a], SMOOTH);
    assert first.logs == map[IdKey(a) := NewRow(a).(leaf := Linked(Pad(r.batchHash, 64), 0))];
    OneEntry(h, first.logs, b, Pad(BatchRoot(h, [b]), 64));
  }

  lemma OneLeafRoot(h: HashFunction, e: LogEntry)
    requires e.dataHash != ""
    ensures BatchRoot(h, [e]) == Hex.ToHex(Hex.FromHexPrefix(e.dataHash))
  {
    assert Hashed(h, [e]) == [e];
    assert Leaves(h, MerkleEntries([e])) == [Hex.FromHexPrefix(e.dataHash)];
  }

  lemma OneEntry(h: HashFunction, logs: Logs, e: LogEntry, root: string)
    requires e.dataHash != "" && Admits(logs, e)
    ensures Hashed(h, [e]) == [e]
    ensures Inserted(logs, [e], 1, _ => true) == (logs[IdKey(e) := NewRow(e)], true)
    ensures LinkedUpTo(logs[IdKey(e) := NewRow(e)], [e], root, 1) == logs[IdKey(e) := NewRow(e).(leaf := Linked(root, 0))]
  {
    var inserted := logs[IdKey(e) := NewRow(e)];
    assert IdKeys([e])[0] == IdKey(e) && LinkKeys(inserted, IdKeys([e]), root, 0) == inserted;
    assert Hashed(h, [e]) == [e];
    assert Inserted(logs, [e], 0, _ => true) == (logs, true);
  }

  // For example, one hash in lower and in upper case.
  lemma HexCaseTakesStatusBack(h: HashFunction, a: LogEntry, b: LogEntry)
    requires a.id == "1" && b.id == "2" && a.source == b.source == "api"
    requires a.dataHash == seq(64, _ => 'a') && b.dataHash == seq(64, _ => 'A')
    ensures BatchRoot(h, [a]) == BatchRoot(h, [b])
    ensures var (first, r) := WriteBatchOn(h, Tables(map[], map[]), [a], SMOOTH);
      && r.Written?
      && var confirmed := first.(batches := WithStatus(first.batches, r.batchHash, "confirmed"));
         var (second, q) := WriteBatchOn(h, confirmed, [b], SMOOTH);
         var key := Pad(r.batchHash, 64);
         && q.Written?
         && key in confirmed.batches && confirmed.batches[key].anchorStatus == "confirmed"
         && key in second.batches && second.batches[key].anchorStatus == "pending"
  {
    HexCaseTwins(a, b);
    OneLeafRoot(h, a);
    OneLeafRoot(h, b);
    SameLeafTakesStatusBack(h, a, b);
  }

  lemma HexCaseTwins(a: LogEntry, b: LogEntry)
    requires a.id == "1" && b.id == "2" && a.source == b.source == "api"
    requires a.dataHash == seq(64, _ => 'a') && b.dataHash == seq(64, _ => 'A')
    ensures Twins(a, b) && |Hex.FromHexPrefix(a.dataHash)| == 32
  {
    CaseDoesNotMatter(64);
    assert a.dataHash[0] == 'a' && b.dataHash[0] == 'A';
    assert IdKey(a)[..1] == a.id && IdKey(b)[..1] == b.id;
  }

  lemma {:induction false} CaseDoesNotMatter(n: nat)
    ensures |Hex.FromHexPrefix(seq(n, _ => 'a'))| == n / 2
    ensures Hex.FromHexPrefix(seq(n, _ => 'a')) == Hex.FromHexPrefix(seq(n, _ => 'A'))
  {
    if n >= 2 {
      CaseDoesNotMatter(n - 2);
      assert seq(n, _ => 'a')[2..] == seq(n - 2, _ => 'a');
      assert seq(n, _ => 'A')[2..] == seq(n - 2, _ => 'A');
    }
  }

  // ---------------------------------------------------------------- two batches under one root

  function LeavesOf(h: HashFunction, c: Call): seq<Bytes> {
    Leaves(h, MerkleEntries(Hashed(h, c.entries)))
  }

  // Exactly these rows carry the root.
  ghost predicate CarriedAre(logs: Logs, expected: seq<BatchedRow>, root: string) {
    && (forall k :: k in logs && Carries(logs[k], root) ==> logs[k] in expected)
    && (forall r :: r in expected ==> r.row.id in logs && logs[r.row.id] == r && Carries(r, root))
  }

  lemma SameLeavesCarry(before: Logs, after: Logs, expected: seq<BatchedRow>, root: string)
    requires SameLeaves(before, after, root) && CarriedAre(before, expected, root)
    ensures CarriedAre(after, expected, root)
  {
    forall k | k in after && Carries(after[k], root) ensures after[k] in expected {
      assert before[k] == after[k];
    }
    forall r | r in expected ensures r.row.id in after && after[r.row.id] == r {
      assert Carries(before[r.row.id], root);
    }
  }

  ghost predicate AllFit(es: seq<LogEntry>) {
    forall i :: 0 <= i < |es| ==> FitsColumns(es[i], es[i].dataHash)
  }

  // A call that links adds its own rows to those that carry the root.
  lemma LinkAdds(h: HashFunction, t: Tables, c: Call, expected: seq<BatchedRow>)
    requires Keyed(t.logs) && Links(h, t, c) && CarriedAre(t.logs, expected, RootKey(h, c))
    ensures AllFit(Hashed(h, c.entries))
    ensures var t' := WriteBatchOn(h, t, c.entries, c.out).0;
      Keyed(t'.logs) && CarriedAre(t'.logs, expected + BatchRows(Hashed(h, c.entries), RootKey(h, c)), RootKey(h, c))
  {
    var (es, root) := (Hashed(h, c.entries), RootKey(h, c));
    var inserted := Inserted(t.logs, es, |es|, c.out.insertUp).0;
    InsertedAll(t.logs, es, |es|, c.out.insertUp);
    InsertedKeeps(t.logs, es, |es|, c.out.insertUp);
    InsertedAreNew(t.logs, es, c.out.insertUp);
    forall i | 0 <= i < |es| ensures FitsColumns(es[i], es[i].dataHash) && IdKeys(es)[i] in inserted && inserted[IdKeys(es)[i]] == NewRow(es[i]) {
      assert Present(inserted, es[i]);
    }
    LinkedFacts(inserted, IdKeys(es), root, |es|);
    LinkedRows(t.logs, inserted, es, root, expected);
  }

  lemma LinkedRows(logs: Logs, inserted: Logs, es: seq<LogEntry>, root: string, expected: seq<BatchedRow>)
    requires Keyed(logs) && CarriedAre(logs, expected, root) && AllFit(es)
    requires (forall k :: k in logs ==> k in inserted && inserted[k] == logs[k])
    requires (forall k :: k in inserted && k !in logs ==> inserted[k].leaf == Unlinked)
    requires forall i :: 0 <= i < |es| ==> IdKeys(es)[i] in inserted && IdKeys(es)[i] !in logs && inserted[IdKeys(es)[i]] == NewRow(es[i])
    requires LinkedExactly(inserted, LinkKeys(inserted, IdKeys(es), root, |es|), IdKeys(es), root, |es|)
    ensures CarriedAre(LinkKeys(inserted, IdKeys(es), root, |es|), expected + BatchRows(es, root), root)
  {
    var (r, rows) := (LinkKeys(inserted, IdKeys(es), root, |es|), BatchRows(es, root));
    forall k | k in r && Carries(r[k], root) ensures r[k] in expected + rows {
      if k in IdKeys(es) {
        var i :| 0 <= i < |es| && IdKeys(es)[i] == k;
        assert r[IdKeys(es)[i]] == rows[i];
      } else {
        assert r[k] == inserted[k];
      }
    }
    forall q | q in expected + rows ensures q.row.id in r && r[q.row.id] == q && Carries(q, root) {
      if q in expected {
        assert q.row.id in logs && q.row.id !in IdKeys(es);
      } else {
        var i :| 0 <= i < |rows| && rows[i] == q;
        assert q.row.id == IdKeys(es)[i];
      }
    }
  }

  // The rows of a listing are the rows that carry the root.
  lemma ListingIsCarried(rows: seq<BatchedRow>, logs: Logs, expected: seq<BatchedRow>, root: string)
    requires IsListing(rows, logs, root) && CarriedAre(logs, expected, root)
    ensures forall r :: r in rows <==> r in expected
  {
    forall r ensures r in rows <==> r in expected {
      if r in rows {
        assert Carries(logs[r.row.id], root);
      }
      if r in expected {
        assert logs[r.row.id] in rows;
      }
    }
  }

  ghost predicate InOrder(rows: seq<BatchedRow>) {
    && (forall i, j :: 0 <= i < j < |rows| ==> rows[i].row.id != rows[j].row.id)
    && (forall r :: r in rows ==> r.leaf.Linked?)
    && (forall i, j :: 0 <= i < j < |rows| ==> rows[i].leaf.index <= rows[j].leaf.index)
  }

  // Two rows for each index.
  ghost predicate Twofold(rows: seq<BatchedRow>, a: seq<BatchedRow>, b: seq<BatchedRow>) {
    && |a| == |b| && (forall r :: r in rows <==> r in a || r in b)
    && (forall i :: 0 <= i < |a| ==> a[i].leaf.Linked? && a[i].leaf.index == i && b[i].leaf.Linked? && b[i].leaf.index == i)
    && (forall i :: 0 <= i < |a| ==> a[i].row.id != b[i].row.id)
  }

  lemma RowOfIndex(rows: seq<BatchedRow>, a: seq<BatchedRow>, b: seq<BatchedRow>, p: nat)
    requires InOrder(rows) && Twofold(rows, a, b) && p < |rows|
    ensures rows[p].leaf.index < |a| && (rows[p] == a[rows[p].leaf.index] || rows[p] == b[rows[p].leaf.index])
  {
    assert rows[p] in rows;
    if rows[p] in a {
      var i :| 0 <= i < |a| && a[i] == rows[p];
    } else {
      var i :| 0 <= i < |b| && b[i] == rows[p];
    }
  }

  // Three rows cannot have one index.
  lemma NoThird(rows: seq<BatchedRow>, a: seq<BatchedRow>, b: seq<BatchedRow>, p: nat, q: nat, j: nat)
    requires InOrder(rows) && Twofold(rows, a, b) && p < q < j < |rows|
    requires rows[p].leaf.index == rows[q].leaf.index
    ensures rows[j].leaf.index != rows[p].leaf.index
  {
    RowOfIndex(rows, a, b, p);
    RowOfIndex(rows, a, b, q);
    RowOfIndex(rows, a, b, j);
    assert rows[p].row.id != rows[q].row.id && rows[q].row.id != rows[j].row.id && rows[p].row.id != rows[j].row.id;
  }

  // In leaf order each index stands twice in a row, whatever the order of the two.
  lemma {:induction false} InPairs(rows: seq<BatchedRow>, a: seq<BatchedRow>, b: seq<BatchedRow>, m: nat)
    requires InOrder(rows) && Twofold(rows, a, b) && m <= |a|
    ensures 2 * m <= |rows|
    ensures forall j :: 0 <= j < 2 * m ==> rows[j].leaf.index == j / 2
    ensures forall j :: 2 * m <= j < |rows| ==> rows[j].leaf.index >= m
  {
    if m > 0 {
      InPairs(rows, a, b, m - 1);
      var n := 2 * (m - 1);
      assert a[m - 1] in a && b[m - 1] in b;
      var p :| 0 <= p < |rows| && rows[p] == a[m - 1];
      var q :| 0 <= q < |rows| && rows[q] == b[m - 1];
      assert p >= n && q >= n && p != q;
      assert rows[n].leaf.index == m - 1 && rows[n + 1].leaf.index == m - 1;
      forall j | n + 2 <= j < |rows| ensures rows[j].leaf.index >= m {
        NoThird(rows, a, b, n, n + 1, j);
      }
    }
  }

  function Doubled(x: seq<Bytes>): (d: seq<Bytes>)
    ensures |d| == 2 * |x|
  {
    seq(2 * |x|, j requires 0 <= j < 2 * |x| => x[j / 2])
  }

  // The digests of each leaf with itself.
  function Squares(h: HashFunction, x: seq<Bytes>): (s: seq<Bytes>)
    ensures |s| == |x|
  {
    seq(|x|, i requires 0 <= i < |x| => h(x[i] + x[i]))
  }

  lemma DoubledRoot(h: HashFunction, x: seq<Bytes>)
    requires x != []
    ensures MerkleRoot(h, Doubled(x)) == MerkleRoot(h, Squares(h, x))
  {
    var d := Doubled(x);
    forall i | 0 <= i < |x| ensures Parents(h, d)[i] == Squares(h, x)[i] {
      DoubledPair(x, i);
    }
    assert Parents(h, d) == Squares(h, x);
    ParentsKeepRoot(h, d);
  }

  lemma DoubledPair(x: seq<Bytes>, i: nat)
    requires i < |x|
    ensures Doubled(x)[2 * i] == x[i] && Doubled(x)[2 * i + 1] == x[i]
  {
    Halved(i);
  }

  lemma Halved(i: nat)
    ensures 2 * i / 2 == i && (2 * i + 1) / 2 == i
  {}

  // The leaves of the listed rows, when both batches have the same ones.
  lemma ListedLeaves(h: HashFunction, rows: seq<BatchedRow>, ea: seq<LogEntry>, eb: seq<LogEntry>, root: string, hashable: Bytes)
    requires InOrder(rows) && AllFit(ea) && AllFit(eb) && Twofold(rows, BatchRows(ea, root), BatchRows(eb, root))
    requires forall i :: 0 <= i < |ea| ==> ea[i].dataHash != "" && eb[i].dataHash != ""
    requires Leaves(h, MerkleEntries(ea)) == Leaves(h, MerkleEntries(eb))
    ensures Leaves(h, SiblingEntries(rows, hashable)) == Doubled(Leaves(h, MerkleEntries(ea)))
  {
    var (a, b) := (BatchRows(ea, root), BatchRows(eb, root));
    var (x, got) := (Leaves(h, MerkleEntries(ea)), Leaves(h, SiblingEntries(rows, hashable)));
    InPairs(rows, a, b, |a|);
    if |rows| > 2 * |a| {
      RowOfIndex(rows, a, b, 2 * |a|);
    }
    forall j | 0 <= j < 2 * |a| ensures got[j] == x[j / 2] {
      RowOfIndex(rows, a, b, j);
      LeafOfRow(h, ea, root, j / 2);
      LeafOfRow(h, eb, root, j / 2);
      assert Leaves(h, MerkleEntries(eb))[j / 2] == x[j / 2];
      assert rows[j].row.contentHash != "";
      assert got[j] == Hex.FromHexPrefix(rows[j].row.contentHash);
    }
  }

  lemma LeafOfRow(h: HashFunction, es: seq<LogEntry>, root: string, i: nat)
    requires AllFit(es) && i < |es| && es[i].dataHash != ""
    ensures BatchRows(es, root)[i].row.contentHash == CharColumn(es[i].dataHash, 64)
    ensures Hex.FromHexPrefix(BatchRows(es, root)[i].row.contentHash) == Leaves(h, MerkleEntries(es))[i]
  {
    ColumnKeepsHex(es[i].dataHash, 64);
  }

  // What two linked batches with the same leaves make of their root.
  ghost predicate TwinsVerify(h: HashFunction, root: string, recomputed: string, x: seq<Bytes>)
    requires 0 < |x| <= Pow2(Depth(|x|))
  {
    && (Squares(h, x) == x ==> recomputed == root)
    && (recomputed == root ==> Squares(h, x) == x || IsCollision(h, Witness(h, Squares(h, x), x, Depth(|x|))))
  }

  lemma TwinRoots(h: HashFunction, x: seq<Bytes>)
    requires x != [] && AllDigests(x)
    ensures |x| <= Pow2(Depth(|x|))
    ensures TwinsVerify(h, Hex.ToHex(MerkleRoot(h, x)), Hex.ToHex(MerkleRoot(h, Doubled(x))), x)
  {
    DoubledRoot(h, x);
    DepthIsLeast(|x|);
    if Hex.ToHex(MerkleRoot(h, x)) == Hex.ToHex(MerkleRoot(h, Doubled(x))) {
      Hex.ToHexInjective(MerkleRoot(h, x), MerkleRoot(h, Doubled(x)));
      RootBinds(h, Squares(h, x), x);
    }
  }

  // Batches with the same leaves share a root.
  lemma SameLeavesSameRoot(h: HashFunction, c: Call, d: Call)
    requires c.entries != [] && d.entries != [] && LeavesOf(h, c) == LeavesOf(h, d)
    ensures RootKey(h, c) == RootKey(h, d)
  {}

  // Two linked batches with the same 32-byte leaves, with any calls between and after that link
  // no other leaves under their root, and a listing of it at the end.
  ghost predicate TwinRun(h: HashFunction, t: Tables, c: Call, between: seq<Call>, d: Call, later: seq<Call>, rows: seq<BatchedRow>) {
    && Keyed(t.logs) && Links(h, t, c) && FreshRoot(t.logs, RootKey(h, c))
    && LeavesOf(h, c) == LeavesOf(h, d) && AllDigests(LeavesOf(h, c))
    && var t1 := WriteBatchOn(h, t, c.entries, c.out).0;
       var t2 := Run(h, t1, between);
       var t3 := WriteBatchOn(h, t2, d.entries, d.out).0;
       && NoneLinks(h, t1, between, RootKey(h, c)) && Links(h, t2, d)
       && NoneLinks(h, t3, later, RootKey(h, c)) && IsListing(rows, Run(h, t3, later).logs, RootKey(h, c))
  }

  // The listing holds each index twice: once for each batch.
  lemma TwinListing(h: HashFunction, t: Tables, c: Call, between: seq<Call>, d: Call, later: seq<Call>, rows: seq<BatchedRow>)
    requires TwinRun(h, t, c, between, d, later, rows)
    ensures AllFit(Hashed(h, c.entries)) && AllFit(Hashed(h, d.entries)) && InOrder(rows)
    ensures Twofold(rows, BatchRows(Hashed(h, c.entries), RootKey(h, c)), BatchRows(Hashed(h, d.entries), RootKey(h, c)))
  {
    SameLeavesSameRoot(h, c, d);
    LeavesAreEqual(h, c, d);
    FirstLink(h, t, c);
    var t1 := WriteBatchOn(h, t, c.entries, c.out).0;
    ListingAfter(h, t1, between, d, later, rows, BatchRows(Hashed(h, c.entries), RootKey(h, c)), RootKey(h, c));
  }

  // The same from the moment when the first batch is linked.
  lemma ListingAfter(h: HashFunction, t1: Tables, between: seq<Call>, d: Call, later: seq<Call>, rows: seq<BatchedRow>,
                     a: seq<BatchedRow>, root: string)
    requires Keyed(t1.logs) && CarriedAre(t1.logs, a, root) && |a| == |d.entries|
    requires forall i :: 0 <= i < |a| ==> a[i].leaf == Linked(root, i)
    requires var t2 := Run(h, t1, between);
      var t3 := WriteBatchOn(h, t2, d.entries, d.out).0;
      && NoneLinks(h, t1, between, root) && Links(h, t2, d) && RootKey(h, d) == root
      && NoneLinks(h, t3, later, root) && IsListing(rows, Run(h, t3, later).logs, root)
    ensures AllFit(Hashed(h, d.entries)) && InOrder(rows) && Twofold(rows, a, BatchRows(Hashed(h, d.entries), root))
  {
    var t2 := Run(h, t1, between);
    var t3 := WriteBatchOn(h, t2, d.entries, d.out).0;
    CarryThrough(h, t1, between, a, root);
    SecondLink(h, t2, d, a, root);
    var b := BatchRows(Hashed(h, d.entries), root);
    CarryThrough(h, t3, later, a + b, root);
    ListingIsTwofold(rows, Run(h, t3, later).logs, a, b, root);
  }

  lemma FirstLink(h: HashFunction, t: Tables, c: Call)
    requires Keyed(t.logs) && Links(h, t, c) && FreshRoot(t.logs, RootKey(h, c))
    ensures AllFit(Hashed(h, c.entries))
    ensures var t' := WriteBatchOn(h, t, c.entries, c.out).0;
      Keyed(t'.logs) && CarriedAre(t'.logs, BatchRows(Hashed(h, c.entries), RootKey(h, c)), RootKey(h, c))
  {
    LinkAdds(h, t, c, []);
    var a := BatchRows(Hashed(h, c.entries), RootKey(h, c));
    assert [] + a == a;
  }

  lemma SecondLink(h: HashFunction, t: Tables, d: Call, a: seq<BatchedRow>, root: string)
    requires Keyed(t.logs) && Links(h, t, d) && RootKey(h, d) == root && CarriedAre(t.logs, a, root)
    ensures AllFit(Hashed(h, d.entries))
    ensures var (t', b) := (WriteBatchOn(h, t, d.entries, d.out).0, BatchRows(Hashed(h, d.entries), root));
      && Keyed(t'.logs) && CarriedAre(t'.logs, a + b, root)
      && (forall i, j :: 0 <= i < |a| && 0 <= j < |b| ==> a[i].row.id != b[j].row.id)
  {
    LinkAdds(h, t, d, a);
    IdsDiffer(h, t, d, a);
  }

  lemma CarryThrough(h: HashFunction, t: Tables, calls: seq<Call>, expected: seq<BatchedRow>, root: string)
    requires Keyed(t.logs) && NoneLinks(h, t, calls, root) && CarriedAre(t.logs, expected, root)
    ensures Keyed(Run(h, t, calls).logs) && CarriedAre(Run(h, t, calls).logs, expected, root)
  {
    RunKeepsLeaves(h, t, calls, root);
    SameLeavesCarry(t.logs, Run(h, t, calls).logs, expected, root);
  }

  lemma ListingIsTwofold(rows: seq<BatchedRow>, logs: Logs, a: seq<BatchedRow>, b: seq<BatchedRow>, root: string)
    requires IsListing(rows, logs, root) && CarriedAre(logs, a + b, root) && |a| == |b|
    requires forall i :: 0 <= i < |a| ==> a[i].leaf == Linked(root, i) && b[i].leaf == Linked(root, i)
    requires forall i, j :: 0 <= i < |a| && 0 <= j < |b| ==> a[i].row.id != b[j].row.id
    ensures InOrder(rows) && Twofold(rows, a, b)
  {
    ListingIsCarried(rows, logs, a + b, root);
    assert forall r :: r in rows <==> r in a || r in b;
  }

  lemma LeavesAreEqual(h: HashFunction, c: Call, d: Call)
    requires LeavesOf(h, c) == LeavesOf(h, d)
    ensures |Hashed(h, c.entries)| == |Hashed(h, d.entries)|
  {
    assert |LeavesOf(h, c)| == |c.entries| && |LeavesOf(h, d)| == |d.entries|;
  }

  // Two batches of any length with the same 32-byte leaves: the root they share still verifies
  // exactly when every leaf is the digest of itself twice, up to an explicit collision.
  lemma SharedRootVerifiesIff(h: HashFunction, t: Tables, c: Call, between: seq<Call>, d: Call, later: seq<Call>,
                              rows: seq<BatchedRow>, hashable: Bytes)
    requires TwinRun(h, t, c, between, d, later, rows)
    ensures var x := LeavesOf(h, c);
      && 0 < |x| <= Pow2(Depth(|x|))
      && TwinsVerify(h, RootKey(h, c), BatchHash(h, SiblingEntries(rows, hashable)), x)
  {
    TwinListing(h, t, c, between, d, later, rows);
    HashedIsFull(h, c.entries);
    HashedIsFull(h, d.entries);
    LeavesAreEqual(h, c, d);
    ListedLeaves(h, rows, Hashed(h, c.entries), Hashed(h, d.entries), RootKey(h, c), hashable);
    TwinRoots(h, LeavesOf(h, c));
    RootIsFull(h, c);
  }

  // Such runs exist: two twins of one entry each, one after the other into empty tables.
  lemma TwinsRun(h: HashFunction, a: LogEntry, b: LogEntry)
    requires Twins(a, b) && |Hex.FromHexPrefix(a.dataHash)| == 32
    ensures var (c, d) := (Call([a], SMOOTH), Call([b], SMOOTH));
      var leaf := Linked(RootKey(h, c), 0);
      TwinRun(h, Tables(map[], map[]), c, [], d, [], [NewRow(a).(leaf := leaf), NewRow(b).(leaf := leaf)])
  {
    var (c, d) := (Call([a], SMOOTH), Call([b], SMOOTH));
    var (key, t) := (RootKey(h, c), Tables(map[], map[]));
    TwinLeaves(h, a, b);
    SameLeavesSameRoot(h, c, d);
    var logs := TwinWritten(h, t, a, key);
    var t1 := WriteBatchOn(h, t, [a], SMOOTH).0;
    assert logs == map[IdKey(a) := NewRow(a).(leaf := Linked(key, 0))];
    var logs' := TwinWritten(h, t1, b, key);
    TwinRows(a, b, key);
    NothingRuns(h, t1, key);
    NothingRuns(h, WriteBatchOn(h, t1, [b], SMOOTH).0, key);
  }

  lemma NothingRuns(h: HashFunction, t: Tables, root: string)
    ensures Run(h, t, []) == t && NoneLinks(h, t, [], root)
  {}

  lemma TwinRows(a: LogEntry, b: LogEntry, key: string)
    requires Twins(a, b)
    ensures var (r, q) := (NewRow(a).(leaf := Linked(key, 0)), NewRow(b).(leaf := Linked(key, 0)));
      IsListing([r, q], map[IdKey(a) := r, IdKey(b) := q], key)
  {}

  lemma TwinLeaves(h: HashFunction, a: LogEntry, b: LogEntry)
    requires Twins(a, b)
    ensures LeavesOf(h, Call([a], SMOOTH)) == LeavesOf(h, Call([b], SMOOTH)) == [Hex.FromHexPrefix(a.dataHash)]
  {
    assert Hashed(h, [a]) == [a] && Hashed(h, [b]) == [b];
  }

  lemma TwinWritten(h: HashFunction, t: Tables, e: LogEntry, key: string) returns (logs: Logs)
    requires e.dataHash != "" && Admits(t.logs, e) && key == RootKey(h, Call([e], SMOOTH))
    ensures Links(h, t, Call([e], SMOOTH))
    ensures logs == WriteBatchOn(h, t, [e], SMOOTH).0.logs == t.logs[IdKey(e) := NewRow(e).(leaf := Linked(key, 0))]
  {
    logs := WriteBatchOn(h, t, [e], SMOOTH).0.logs;
    OneEntry(h, t.logs, e, key);
  }

  lemma HashedIsFull(h: HashFunction, entries: seq<LogEntry>)
    ensures forall i :: 0 <= i < |entries| ==> Hashed(h, entries)[i].dataHash != ""
  {
    forall i | 0 <= i < |entries| ensures Hashed(h, entries)[i].dataHash != "" {
      assert |LogHash(h, entries[i])| == 64;
    }
  }

  // The rows of a linking call have ids that no row had before.
  lemma IdsDiffer(h: HashFunction, t: Tables, c: Call, rows: seq<BatchedRow>)
    requires Keyed(t.logs) && Links(h, t, c) && AllFit(Hashed(h, c.entries)) && forall r :: r in rows ==> r.row.id in t.logs
    ensures var own := BatchRows(Hashed(h, c.entries), RootKey(h, c));
      forall i, j :: 0 <= i < |rows| && 0 <= j < |own| ==> rows[i].row.id != own[j].row.id
  {
    var es := Hashed(h, c.entries);
    InsertedAreNew(t.logs, es, c.out.insertUp);
    var own := BatchRows(es, RootKey(h, c));
    forall i, j | 0 <= i < |rows| && 0 <= j < |own| ensures rows[i].row.id != own[j].row.id {
      assert rows[i] in rows && own[j].row.id == IdKey(es[j]);
    }
  }

  // Over 32-byte leaves a root fills its column.
  lemma RootIsFull(h: HashFunction, c: Call)
    requires c.entries != [] && AllDigests(LeavesOf(h, c))
    ensures RootKey(h, c) == Hex.ToHex(MerkleRoot(h, LeavesOf(h, c)))
  {
    DepthIsLeast(|LeavesOf(h, c)|);
    NodeIsDigest(h, LeavesOf(h, c), Depth(|LeavesOf(h, c)|));
  }

  // ---------------------------------------------------------------- what a root says

  // Equally long batches without supplied hashes that have one root hold the same content,
  // entry by entry, or exhibit a collision: of two tree nodes, or of two entries' texts.
  lemma BatchRootBinds(h: HashFunction, a: seq<LogEntry>, b: seq<LogEntry>)
    requires |a| == |b| > 0 && BatchRoot(h, a) == BatchRoot(h, b)
    requires forall i :: 0 <= i < |a| ==> a[i].dataHash == "" && ProperEntry(a[i])
    requires forall i :: 0 <= i < |b| ==> b[i].dataHash == "" && ProperEntry(b[i])
    ensures var (p, q) := (ContentLeaves(h, a), ContentLeaves(h, b));
      && |p| <= Pow2(Depth(|p|))
      && (|| (forall i :: 0 <= i < |a| ==> SameContent(a[i], b[i]))
          || IsCollision(h, Witness(h, p, q, Depth(|p|)))
          || (exists i :: 0 <= i < |a| && IsCollision(h, (HashedBytes(a[i]), HashedBytes(b[i])))))
  {
    var (p, q) := (ContentLeaves(h, a), ContentLeaves(h, b));
    LeavesAreContent(h, a);
    LeavesAreContent(h, b);
    Hex.ToHexInjective(MerkleRoot(h, p), MerkleRoot(h, q));
    DepthIsLeast(|p|);
    RootBinds(h, p, q);
    if p == q && !(exists i :: 0 <= i < |a| && IsCollision(h, (HashedBytes(a[i]), HashedBytes(b[i])))) {
      forall i | 0 <= i < |a| ensures SameContent(a[i], b[i]) {
        assert p[i] == q[i];
        LogHashBinds(h, a[i], b[i]);
      }
    }
  }

  // The leaves of a batch whose hashes are all computed.
  function ContentLeaves(h: HashFunction, es: seq<LogEntry>): (leaves: seq<Bytes>)
    ensures |leaves| == |es|
  {
    seq(|es|, i requires 0 <= i < |es| => h(HashedBytes(es[i])))
  }

  lemma LeavesAreContent(h: HashFunction, es: seq<LogEntry>)
    requires es != [] && forall i :: 0 <= i < |es| ==> es[i].dataHash == ""
    ensures AllDigests(ContentLeaves(h, es))
    ensures BatchRoot(h, es) == Hex.ToHex(MerkleRoot(h, ContentLeaves(h, es)))
  {
    var hashed := MerkleEntries(Hashed(h, es));
    forall i | 0 <= i < |es| ensures Leaves(h, hashed)[i] == ContentLeaves(h, es)[i] {
      assert |LogHash(h, es[i])| == 64;
      Hex.HexRoundTrip(h(HashedBytes(es[i])));
    }
    assert Leaves(h, hashed) == ContentLeaves(h, es);
  }
}
