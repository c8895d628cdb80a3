/** The on-chain log service: records by content hash, histories by submitter, the order of
    arrival, and listing from the newest back. */
module Ledger {
  import opened Bytes
  import Hex

  // A submitter's public address.
  type Address = Digest

  // The Merkle hash of a list index, which is foreign code.
  type ListHash = seq<Digest> -> Digest

  // A stored record; the three services differ only in the payload.
  datatype Record<P> = Record(contentHash: string, payload: P, historyLen: nat, historyHash: Digest, txHash: string)

  datatype State<P> = State(
    logs: map<Digest, Record<P>>, history: map<Address, seq<Digest>>, order: seq<Digest>)

  // A write call: its caller, the transaction hash if there is one, and the argument.
  datatype Tx<P> = Tx(from: Address, txHash: Option<Digest>, contentHash: string, payload: P)

  datatype Error = UnauthorizedCaller | InvalidHash | DuplicateRecord

  // ---------------------------------------------------------------- writing

  function ParseHash(hex: string): (r: Option<Digest>)
    ensures r.Some? <==> Hex.FromHex(hex).Ok? && |hex| == 64
  {
    match Hex.FromHex(hex)
    case Ok(bytes) => if |bytes| != 32 then None else Some(bytes)
    case Err => None
  }

  function HistoryOf<P>(s: State<P>, a: Address): seq<Digest> {
    if a in s.history then s.history[a] else []
  }

  function StoreLog<P>(lh: ListHash, s: State<P>, hash: Digest, payload: P, from: Address, tx: Digest): State<P> {
    var history := HistoryOf(s, from) + [tx];
    var record := Record(Hex.ToHex(hash), payload, |history|, lh(history), Hex.ToHex(tx));
    State(s.logs[hash := record], s.history[from := history], s.order + [hash])
  }

  function Write<P>(lh: ListHash, s: State<P>, tx: Tx<P>): (State<P>, Option<Error>) {
    if tx.txHash.None? then (s, Some(UnauthorizedCaller))
    else
      match ParseHash(tx.contentHash)
      case None => (s, Some(InvalidHash))
      case Some(hash) =>
        if hash in s.logs then (s, Some(DuplicateRecord))
        else (StoreLog(lh, s, hash, tx.payload, tx.from, tx.txHash.value), None)
  }

  class Service<P> {
    var logs: map<Digest, Record<P>>
    var history: map<Address, seq<Digest>>
    var order: seq<Digest>

    ghost function Contents(): State<P>
      reads this
    {
      State(logs, history, order)
    }

    constructor ()
      ensures Contents() == Empty()
    {
      logs, history, order := map[], map[], [];
    }

    method Store(lh: ListHash, hash: Digest, payload: P, from: Address, tx: Digest)
      modifies this
      ensures Contents() == StoreLog(lh, old(Contents()), hash, payload, from, tx)
    {
      var list := if from in history then history[from] else [];
      list := list + [tx];
      history := history[from := list];
      var record := Record(Hex.ToHex(hash), payload, |list|, lh(list), Hex.ToHex(tx));
      logs := logs[hash := record];
      order := order + [hash];
    }

    method WriteCall(lh: ListHash, tx: Tx<P>) returns (error: Option<Error>)
      modifies this
      ensures (Contents(), error) == Write(lh, old(Contents()), tx)
    {
      if tx.txHash.None? {
        return Some(UnauthorizedCaller);
      }
      var hash := ParseHash(tx.contentHash);
      if hash.None? {
        return Some(InvalidHash);
      }
      if hash.value in logs {
        return Some(DuplicateRecord);
      }
      Store(lh, hash.value, tx.payload, tx.from, tx.txHash.value);
      error := None;
    }
  }

  function Empty<P>(): State<P> {
    State(map[], map[], [])
  }

  function Run<P>(lh: ListHash, s: State<P>, txs: seq<Tx<P>>): State<P>
    decreases |txs|
  {
    if txs == [] then s else Run(lh, Write(lh, s, txs[0]).0, txs[1..])
  }

  // ---------------------------------------------------------------- invariant

  ghost function TotalLength(history: map<Address, seq<Digest>>): nat {
    if history == map[] then 0
    else
      var a :| a in history;
      |history[a]| + TotalLength(history - {a})
  }

  lemma {:induction false} TotalSplits(history: map<Address, seq<Digest>>, a: Address)
    requires a in history
    ensures TotalLength(history) == |history[a]| + TotalLength(history - {a})
    decreases |history|
  {
    var b :| b in history && TotalLength(history) == |history[b]| + TotalLength(history - {b});
    if a != b {
      TotalSplits(history - {b}, a);
      TotalSplits(history - {a}, b);
      assert history - {b} - {a} == history - {a} - {b};
    }
  }

  lemma TotalGrows(history: map<Address, seq<Digest>>, a: Address, longer: seq<Digest>)
    ensures TotalLength(history[a := longer])
         == TotalLength(history) - (if a in history then |history[a]| else 0) + |longer|
  {
    var h' := history[a := longer];
    TotalSplits(h', a);
    assert h' - {a} == history - {a};
    if a in history {
      TotalSplits(history, a);
    } else {
      assert history - {a} == history;
    }
  }

  ghost predicate Distinct(order: seq<Digest>) {
    forall i, j :: 0 <= i < j < |order| ==> order[i] != order[j]
  }

  // The record's length points at its own transaction in some submitter's history, and its
  // hash is the hash of the history up to there.
  ghost predicate Located<P>(lh: ListHash, s: State<P>, r: Record<P>) {
    exists a :: a in s.history && LocatedAt(lh, s.history[a], r)
  }

  predicate LocatedAt<P>(lh: ListHash, h: seq<Digest>, r: Record<P>) {
    && 0 < r.historyLen <= |h|
    && Hex.ToHex(h[r.historyLen - 1]) == r.txHash
    && lh(h[..r.historyLen]) == r.historyHash
  }

  ghost predicate Inv<P>(lh: ListHash, s: State<P>) {
    && Distinct(s.order)
    && (forall h :: h in s.order <==> h in s.logs)
    && |s.order| == TotalLength(s.history)
    && (forall h :: h in s.logs ==> s.logs[h].contentHash == Hex.ToHex(h) && Located(lh, s, s.logs[h]))
  }

  lemma StoreKeepsInv<P>(lh: ListHash, s: State<P>, hash: Digest, payload: P, from: Address, tx: Digest)
    requires Inv(lh, s) && hash !in s.logs
    ensures Inv(lh, StoreLog(lh, s, hash, payload, from, tx))
  {
    var s' := StoreLog(lh, s, hash, payload, from, tx);
    TotalGrows(s.history, from, HistoryOf(s, from) + [tx]);
    forall h | h in s'.logs ensures s'.logs[h].contentHash == Hex.ToHex(h) && Located(lh, s', s'.logs[h]) {
      if h == hash {
        NewIsLocated(lh, s, hash, payload, from, tx);
      } else {
        OldStaysLocated(lh, s, s', from, tx, s.logs[h]);
      }
    }
  }

  lemma NewIsLocated<P>(lh: ListHash, s: State<P>, hash: Digest, payload: P, from: Address, tx: Digest)
    ensures var s' := StoreLog(lh, s, hash, payload, from, tx); Located(lh, s', s'.logs[hash])
  {
    var s' := StoreLog(lh, s, hash, payload, from, tx);
    var history := HistoryOf(s, from) + [tx];
    assert history[..|history|] == history;
    assert LocatedAt(lh, s'.history[from], s'.logs[hash]);
  }

  lemma OldStaysLocated<P>(lh: ListHash, s: State<P>, s': State<P>, from: Address, tx: Digest, r: Record<P>)
    requires Located(lh, s, r) && s'.history == s.history[from := HistoryOf(s, from) + [tx]]
    ensures Located(lh, s', r)
  {
    var a :| a in s.history && LocatedAt(lh, s.history[a], r);
    assert s'.history[a][..r.historyLen] == s.history[a][..r.historyLen];
    assert LocatedAt(lh, s'.history[a], r);
  }

  lemma {:induction false} RunKeepsInv<P>(lh: ListHash, s: State<P>, txs: seq<Tx<P>>)
    requires Inv(lh, s)
    ensures Inv(lh, Run(lh, s, txs))
    decreases |txs|
  {
    if txs != [] {
      var tx := txs[0];
      if Write(lh, s, tx).1.None? {
        StoreKeepsInv(lh, s, ParseHash(tx.contentHash).value, tx.payload, tx.from, tx.txHash.value);
      }
      RunKeepsInv(lh, Write(lh, s, tx).0, txs[1..]);
    }
  }

  // The invariant holds after every sequence of transactions.
  lemma EveryRun<P>(lh: ListHash, txs: seq<Tx<P>>)
    ensures Inv(lh, Run(lh, Empty<P>(), txs))
  {
    RunKeepsInv(lh, Empty<P>(), txs);
  }

  // Whatever happens later, stored records stay as they are and the order only grows.
  lemma {:induction false} RunKeepsRecords<P>(lh: ListHash, s: State<P>, txs: seq<Tx<P>>)
    ensures var s' := Run(lh, s, txs);
      && s.order <= s'.order
      && (forall h :: h in s.logs ==> h in s'.logs && s'.logs[h] == s.logs[h])
      && (forall a :: a in s.history ==> a in s'.history && s.history[a] <= s'.history[a])
    decreases |txs|
  {
    if txs != [] {
      RunKeepsRecords(lh, Write(lh, s, txs[0]).0, txs[1..]);
    }
  }

  lemma {:induction false} RunSplits<P>(lh: ListHash, s: State<P>, txs: seq<Tx<P>>, more: seq<Tx<P>>)
    ensures Run(lh, s, txs + more) == Run(lh, Run(lh, s, txs), more)
    decreases |txs|
  {
    if txs == [] {
      assert txs + more == more;
    } else {
      assert (txs + more)[1..] == txs[1..] + more;
      RunSplits(lh, Write(lh, s, txs[0]).0, txs[1..], more);
    }
  }

  // A record stays located in the history of the submitter who wrote it: after an accepted
  // write and whatever follows, its length and hash point at that very transaction.
  lemma LocatedWithSubmitter<P>(lh: ListHash, s: State<P>, tx: Tx<P>, later: seq<Tx<P>>)
    requires Write(lh, s, tx).1.None?
    ensures var (hash, s') := (ParseHash(tx.contentHash).value, Run(lh, Write(lh, s, tx).0, later));
      && hash in s'.logs && tx.from in s'.history
      && s'.logs[hash].payload == tx.payload && s'.logs[hash].txHash == Hex.ToHex(tx.txHash.value)
      && LocatedAt(lh, s'.history[tx.from], s'.logs[hash])
  {
    var (hash, next) := (ParseHash(tx.contentHash).value, Write(lh, s, tx).0);
    var history := HistoryOf(s, tx.from) + [tx.txHash.value];
    assert history[..|history|] == history;
    assert LocatedAt(lh, next.history[tx.from], next.logs[hash]);
    RunKeepsRecords(lh, next, later);
    var s' := Run(lh, next, later);
    assert s'.history[tx.from][..|history|] == history;
  }

  // The transaction of a run that was accepted when its turn came.
  predicate AcceptedAt<P>(lh: ListHash, txs: seq<Tx<P>>, i: nat)
    requires i < |txs|
  {
    Write(lh, Run(lh, Empty<P>(), txs[..i]), txs[i]).1.None?
  }

  // In every run, each record was written by one of its transactions and is located in the
  // history of that transaction's submitter.
  lemma {:induction false} EveryRecordHasItsTx<P>(lh: ListHash, txs: seq<Tx<P>>, hash: Digest) returns (i: nat)
    requires hash in Run(lh, Empty<P>(), txs).logs
    ensures i < |txs| && AcceptedAt(lh, txs, i) && ParseHash(txs[i].contentHash) == Some(hash)
    ensures var s := Run(lh, Empty<P>(), txs);
      && txs[i].from in s.history && LocatedAt(lh, s.history[txs[i].from], s.logs[hash])
      && s.logs[hash].payload == txs[i].payload && s.logs[hash].txHash == Hex.ToHex(txs[i].txHash.value)
  {
    i := WriterOf(lh, txs, hash);
    assert txs == txs[..i] + ([txs[i]] + txs[i + 1..]);
    var s := Run(lh, Empty<P>(), txs[..i]);
    RunSplits(lh, Empty<P>(), txs[..i], [txs[i]] + txs[i + 1..]);
    assert ([txs[i]] + txs[i + 1..])[1..] == txs[i + 1..];
    LocatedWithSubmitter(lh, s, txs[i], txs[i + 1..]);
  }

  lemma {:induction false} WriterOf<P>(lh: ListHash, txs: seq<Tx<P>>, hash: Digest) returns (i: nat)
    requires hash in Run(lh, Empty<P>(), txs).logs
    ensures i < |txs| && AcceptedAt(lh, txs, i) && ParseHash(txs[i].contentHash) == Some(hash)
  {
    var last := |txs| - 1;
    assert txs != [];
    RunLast(lh, txs);
    if hash in Run(lh, Empty<P>(), txs[..last]).logs {
      i := WriterOf(lh, txs[..last], hash);
      assert txs[..last][..i] == txs[..i];
    } else {
      i := last;
    }
  }

  lemma RunLast<P>(lh: ListHash, txs: seq<Tx<P>>)
    requires txs != []
    ensures var last := |txs| - 1;
      Run(lh, Empty<P>(), txs) == Write(lh, Run(lh, Empty<P>(), txs[..last]), txs[last]).0
  {
    var last := |txs| - 1;
    assert txs == txs[..last] + [txs[last]];
    RunSplits(lh, Empty<P>(), txs[..last], [txs[last]]);
  }

  // A call that names a digest and comes from a transaction.
  predicate Names<P>(tx: Tx<P>, hash: Digest) {
    tx.txHash.Some? && ParseHash(tx.contentHash) == Some(hash)
  }

  lemma {:induction false} StoredIff<P>(lh: ListHash, txs: seq<Tx<P>>, n: nat, hash: Digest)
    requires n <= |txs|
    ensures hash in Run(lh, Empty<P>(), txs[..n]).logs <==> exists j :: 0 <= j < n && Names(txs[j], hash)
  {
    if n > 0 {
      StoredIff(lh, txs, n - 1, hash);
      assert txs[..n][..n - 1] == txs[..n - 1];
      RunLast(lh, txs[..n]);
    }
  }

  // The first write of a digest wins: over every run, a call is accepted exactly when it comes
  // from a transaction, names a digest, and no earlier call did so for the same digest.
  lemma FirstWriteWinsIff<P>(lh: ListHash, txs: seq<Tx<P>>, i: nat)
    requires i < |txs|
    ensures AcceptedAt(lh, txs, i) <==>
      && txs[i].txHash.Some? && ParseHash(txs[i].contentHash).Some?
      && forall j :: 0 <= j < i ==> !Names(txs[j], ParseHash(txs[i].contentHash).value)
  {
    if ParseHash(txs[i].contentHash).Some? {
      StoredIff(lh, txs, i, ParseHash(txs[i].contentHash).value);
    }
  }

  // A write is accepted exactly when the transaction has a hash, the content hash is 64
  // hexadecimal digits, and no record has it; a rejected write changes nothing.
  lemma AcceptedIff<P>(lh: ListHash, s: State<P>, tx: Tx<P>)
    ensures Write(lh, s, tx).1.None? <==>
      && tx.txHash.Some? && Hex.FromHex(tx.contentHash).Ok? && |tx.contentHash| == 64
      && Hex.FromHex(tx.contentHash).value !in s.logs
    ensures Write(lh, s, tx).1.Some? ==> Write(lh, s, tx).0 == s
    ensures Write(lh, s, tx).1.None? ==> |Write(lh, s, tx).0.order| == |s.order| + 1
  {}

  // Which error a rejected write gets: the missing transaction hash comes first, then the form
  // of the content hash, then the record that is there already.
  lemma RejectedIff<P>(lh: ListHash, s: State<P>, tx: Tx<P>)
    ensures var (error, hash) := (Write(lh, s, tx).1, Hex.FromHex(tx.contentHash));
      && (error == Some(UnauthorizedCaller) <==> tx.txHash.None?)
      && (error == Some(InvalidHash) <==> tx.txHash.Some? && !(hash.Ok? && |tx.contentHash| == 64))
      && (error == Some(DuplicateRecord) <==> tx.txHash.Some? && hash.Ok? && |tx.contentHash| == 64 && hash.value in s.logs)
  {}

  // ---------------------------------------------------------------- listing

  const MAX_PAGE: nat := 200

  function SaturatingSub(a: nat, b: nat): nat {
    if a < b then 0 else a - b
  }

  // The records at positions end - 1 down to start, leaving out what is not found.
  function Collect<P>(s: State<P>, start: nat, end: nat): seq<Record<P>>
    decreases end
  {
    if start >= end then []
    else
      (if end - 1 < |s.order| && s.order[end - 1] in s.logs then [s.logs[s.order[end - 1]]] else [])
      + Collect(s, start, end - 1)
  }

  function List<P>(s: State<P>, offset: nat, limit: nat): seq<Record<P>> {
    var clamped := if limit < MAX_PAGE then limit else MAX_PAGE;
    var end := SaturatingSub(|s.order|, offset);
    Collect(s, SaturatingSub(end, clamped), end)
  }

  // Every listed hash has its record.
  ghost predicate Found<P>(s: State<P>) {
    forall h :: h in s.order ==> h in s.logs
  }

  // All records, the newest first.
  ghost function NewestFirst<P>(s: State<P>): (r: seq<Record<P>>)
    requires Found(s)
    ensures |r| == |s.order|
  {
    seq(|s.order|, i requires 0 <= i < |s.order| => s.logs[s.order[|s.order| - 1 - i]])
  }

  lemma {:induction false} CollectIsSlice<P>(s: State<P>, start: nat, end: nat)
    requires Found(s)
    requires start <= end <= |s.order|
    ensures Collect(s, start, end) == NewestFirst(s)[|s.order| - end..|s.order| - start]
    decreases end
  {
    if start < end {
      CollectIsSlice(s, start, end - 1);
      var all := NewestFirst(s);
      assert all[|s.order| - end] == s.logs[s.order[end - 1]];
      assert all[|s.order| - end..|s.order| - start]
          == [all[|s.order| - end]] + all[|s.order| - (end - 1)..|s.order| - start];
    }
  }

  function Min(a: nat, b: nat): nat {
    if a < b then a else b
  }

  // A page is a stretch of the newest-first list, of the length asked for or what is left:
  // the lookups never drop a record.
  lemma PageIsStretch<P>(s: State<P>, offset: nat, limit: nat)
    requires Found(s)
    ensures var (from, size) := (Min(offset, |s.order|), Min(Min(limit, MAX_PAGE), SaturatingSub(|s.order|, offset)));
      && from + size <= |s.order|
      && List(s, offset, limit) == NewestFirst(s)[from..from + size]
      && |List(s, offset, limit)| == size
  {
    var end := SaturatingSub(|s.order|, offset);
    CollectIsSlice(s, SaturatingSub(end, Min(limit, MAX_PAGE)), end);
  }

  // The pages a client sees stepping by its own limit.
  function Pages<P>(s: State<P>, offset: nat, limit: nat): seq<Record<P>>
    requires limit > 0
    decreases SaturatingSub(|s.order|, offset)
  {
    if offset >= |s.order| then [] else List(s, offset, limit) + Pages(s, offset + limit, limit)
  }

  lemma SliceJoins<T>(s: seq<T>, a: nat, b: nat)
    requires a <= b <= |s|
    ensures s[a..b] + s[b..] == s[a..]
  {}

  lemma {:induction false} PagesFrom<P>(s: State<P>, offset: nat, limit: nat)
    requires Found(s) && 0 < limit <= MAX_PAGE
    ensures Pages(s, offset, limit) == NewestFirst(s)[Min(offset, |s.order|)..]
    decreases SaturatingSub(|s.order|, offset)
  {
    if offset < |s.order| {
      PageIsStretch(s, offset, limit);
      PagesFrom(s, offset + limit, limit);
      SliceJoins(NewestFirst(s), offset, Min(offset + limit, |s.order|));
    }
  }

  lemma {:induction false} PagesBound<P>(s: State<P>, offset: nat, limit: nat)
    requires Found(s) && limit > MAX_PAGE
    ensures |Pages(s, offset, limit)| <= SaturatingSub(|s.order|, offset)
    ensures offset + MAX_PAGE < |s.order| ==> |Pages(s, offset, limit)| < |s.order| - offset
    decreases SaturatingSub(|s.order|, offset)
  {
    if offset < |s.order| {
      PageIsStretch(s, offset, limit);
      PagesBound(s, offset + limit, limit);
    }
  }

  // Pages concatenate to the whole list, with no gap and no repeat, exactly when the limit
  // is not clamped or one page holds everything.
  lemma PagesCoverIff<P>(lh: ListHash, s: State<P>, limit: nat)
    requires Inv(lh, s) && limit > 0
    ensures Pages(s, 0, limit) == NewestFirst(s) <==> limit <= MAX_PAGE || |s.order| <= MAX_PAGE
  {
    if limit <= MAX_PAGE {
      PagesFrom(s, 0, limit);
    } else {
      PagesBound(s, 0, limit);
      if 0 < |s.order| <= MAX_PAGE {
        PageIsStretch(s, 0, limit);
        assert Pages(s, limit, limit) == [];
      }
    }
  }
}
