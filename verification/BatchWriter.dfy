/** The batching writer: a buffer, a timer, and promises that settle when a flush ends. */
module BatchWriter {
  import opened Bytes
  import opened LogEntries

  datatype WriteResult = WriteResult(logId: string, success: bool, txId: Option<string>, confirmed: Option<bool>, error: Option<string>)

  datatype BatchWriteResult = BatchWriteResult(success: bool, txId: Option<string>, confirmed: Option<bool>, error: Option<string>)

  datatype Promise = Unsettled | Resolved(result: WriteResult) | Rejected(reason: string)

  // An entry with its promise, named by the number of the write that made it.
  datatype Pending = Pending(entry: LogEntry, promise: nat)

  // How the storage call of a flush ended.
  datatype Outcome = BatchDone(result: BatchWriteResult) | LogsDone(results: seq<WriteResult>) | Threw(error: string)

  datatype Phase = Writing | CallingBack | Returned | Failed

  datatype FlushCall = FlushCall(batch: seq<Pending>, phase: Phase, outcome: Option<Outcome>)

  datatype Config = Config(maxSize: int, hasBatch: bool, hasCallback: bool)

  // `armed` says whether the timer is set; `written` is the history of written entries.
  datatype State = State(
    buffer: seq<Pending>, armed: bool, flushes: seq<FlushCall>, promises: seq<Promise>, written: seq<LogEntry>)

  datatype Event =
    | Write(entry: LogEntry)
    | FlushCalled
    | TimerFires
    | StorageEnds(k: nat, outcome: Outcome)
    | CallbackEnds(k: nat, error: Option<string>)

  const FRESH := State([], false, [], [], [])

  // ---------------------------------------------------------------- steps

  // Settling a settled promise has no effect.
  function Settle(ps: seq<Promise>, i: nat, p: Promise): (r: seq<Promise>)
    ensures |r| == |ps|
  {
    if i < |ps| && ps[i].Unsettled? then ps[i := p] else ps
  }

  // What the outcome of a flush means for the j-th entry of its batch.
  function Verdict(o: Outcome, p: Pending, j: nat): Promise {
    match o
    case BatchDone(r) => Resolved(WriteResult(p.entry.id, r.success, r.txId, r.confirmed, r.error))
    case LogsDone(rs) => if j < |rs| then Resolved(rs[j]) else Unsettled
    case Threw(e) => Rejected(e)
  }

  // The first n entries of the batch get their verdicts, in order.
  function SettleFirst(ps: seq<Promise>, batch: seq<Pending>, o: Outcome, n: nat): (r: seq<Promise>)
    requires n <= |batch|
    ensures |r| == |ps|
  {
    if n == 0 then ps
    else Settle(SettleFirst(ps, batch, o, n - 1), batch[n - 1].promise, Verdict(o, batch[n - 1], n - 1))
  }

  // The part of `flush` before its first await.
  function StartFlush(s: State): State {
    if s.buffer == [] then s.(armed := false)
    else s.(buffer := [], armed := false, flushes := s.flushes + [FlushCall(s.buffer, Writing, None)])
  }

  function Step(c: Config, s: State, e: Event): State {
    match e
    case Write(entry) =>
      var pushed := s.(
        buffer := s.buffer + [Pending(entry, |s.promises|)],
        promises := s.promises + [Unsettled],
        written := s.written + [entry]);
      if |pushed.buffer| >= c.maxSize then StartFlush(pushed) else pushed.(armed := true)
    case FlushCalled => StartFlush(s)
    case TimerFires => StartFlush(s.(armed := false))
    case StorageEnds(k, o) =>
      if k >= |s.flushes| then s
      else
        var f := s.flushes[k];
        var phase := if o.Threw? then Failed else if o.BatchDone? && c.hasCallback then CallingBack else Returned;
        s.(promises := SettleFirst(s.promises, f.batch, o, |f.batch|),
           flushes := s.flushes[k := f.(phase := phase, outcome := Some(o))])
    case CallbackEnds(k, error) =>
      if k >= |s.flushes| then s
      else
        var f := s.flushes[k];
        match error
        case None => s.(flushes := s.flushes[k := f.(phase := Returned)])
        case Some(m) =>
          s.(promises := SettleFirst(s.promises, f.batch, Threw(m), |f.batch|),
             flushes := s.flushes[k := f.(phase := Failed)])
  }

  // Which events can come: a timer fires only when set, a call ends once, a batch call ends
  // with one result and the calls per entry with one result each.
  predicate Enabled(c: Config, s: State, e: Event) {
    match e
    case Write(_) => true
    case FlushCalled => true
    case TimerFires => s.armed
    case StorageEnds(k, o) =>
      && k < |s.flushes| && s.flushes[k].phase == Writing
      && (o.BatchDone? ==> c.hasBatch)
      && (o.LogsDone? ==> !c.hasBatch && |o.results| == |s.flushes[k].batch|)
    case CallbackEnds(k, _) => k < |s.flushes| && s.flushes[k].phase == CallingBack
  }

  // ---------------------------------------------------------------- what every step keeps

  function Cap(c: Config): nat {
    if c.maxSize < 1 then 1 else c.maxSize
  }

  function Flushed(fs: seq<FlushCall>): seq<Pending> {
    if fs == [] then [] else Flushed(fs[..|fs| - 1]) + fs[|fs| - 1].batch
  }

  // Every write with its own promise, in order.
  function Numbered(written: seq<LogEntry>): (r: seq<Pending>)
    ensures |r| == |written|
    ensures forall i :: 0 <= i < |r| ==> r[i] == Pending(written[i], i)
  {
    seq(|written|, i requires 0 <= i < |written| => Pending(written[i], i))
  }

  ghost predicate BufferInv(c: Config, s: State) {
    && (s.buffer != [] <==> s.armed)
    && |s.buffer| < Cap(c)
  }

  ghost predicate Sized(c: Config, fs: seq<FlushCall>) {
    forall k :: 0 <= k < |fs| ==> 0 < |fs[k].batch| <= Cap(c)
  }

  // Flushed batches followed by the buffer are the writes in their order.
  ghost predicate OrderInv(c: Config, s: State) {
    && |s.promises| == |s.written|
    && Flushed(s.flushes) + s.buffer == Numbered(s.written)
    && Sized(c, s.flushes)
  }

  // A promise has the verdict of the call that its own flush made, or is unsettled.
  ghost predicate FlushSettled(f: FlushCall, ps: seq<Promise>) {
    && (f.phase == Writing <==> f.outcome.None?)
    && (f.outcome.Some? && f.outcome.value.LogsDone? ==> |f.outcome.value.results| == |f.batch|)
    && forall j :: 0 <= j < |f.batch| ==>
         && f.batch[j].promise < |ps|
         && ps[f.batch[j].promise] == if f.outcome.None? then Unsettled else Verdict(f.outcome.value, f.batch[j], j)
  }

  ghost predicate PromiseInv(s: State) {
    && (forall k :: 0 <= k < |s.flushes| ==> FlushSettled(s.flushes[k], s.promises))
    && forall j :: 0 <= j < |s.buffer| ==>
         s.buffer[j].promise < |s.promises| && s.promises[s.buffer[j].promise] == Unsettled
  }

  ghost predicate Inv(c: Config, s: State) {
    BufferInv(c, s) && OrderInv(c, s) && PromiseInv(s)
  }

  // ---------------------------------------------------------------- positions

  lemma {:induction false} FlushedAt(fs: seq<FlushCall>, k: nat) returns (at: nat)
    requires k < |fs|
    ensures at == |Flushed(fs[..k])|
    ensures at + |fs[k].batch| <= |Flushed(fs)|
    ensures forall j :: 0 <= j < |fs[k].batch| ==> Flushed(fs)[at + j] == fs[k].batch[j]
    decreases |fs|
  {
    at := |Flushed(fs[..k])|;
    var init := fs[..|fs| - 1];
    if k < |fs| - 1 {
      var a := FlushedAt(init, k);
      assert init[..k] == fs[..k];
    }
  }

  lemma {:induction false} FlushedMonotone(fs: seq<FlushCall>, k: nat, l: nat)
    requires k < l <= |fs|
    ensures |Flushed(fs[..k])| + |fs[k].batch| <= |Flushed(fs[..l])|
    decreases l
  {
    assert fs[..l][..l - 1] == fs[..l - 1];
    if k < l - 1 {
      FlushedMonotone(fs, k, l - 1);
    }
  }

  // The promises of a flush are consecutive numbers.
  lemma BatchNumbers(c: Config, s: State, k: nat) returns (at: nat)
    requires OrderInv(c, s) && k < |s.flushes|
    ensures at == |Flushed(s.flushes[..k])| && at + |s.flushes[k].batch| <= |Flushed(s.flushes)| <= |s.written|
    ensures forall j :: 0 <= j < |s.flushes[k].batch| ==>
      s.flushes[k].batch[j] == Pending(s.written[at + j], at + j)
  {
    at := FlushedAt(s.flushes, k);
    var all := Flushed(s.flushes) + s.buffer;
    forall j | 0 <= j < |s.flushes[k].batch|
      ensures s.flushes[k].batch[j] == Pending(s.written[at + j], at + j)
    {
      assert all[at + j] == Flushed(s.flushes)[at + j];
    }
  }

  lemma BufferNumbers(c: Config, s: State)
    requires OrderInv(c, s)
    ensures |s.written| == |Flushed(s.flushes)| + |s.buffer|
    ensures var at := |Flushed(s.flushes)|;
      forall j :: 0 <= j < |s.buffer| ==> s.buffer[j] == Pending(s.written[at + j], at + j)
  {
    var (all, at) := (Flushed(s.flushes) + s.buffer, |Flushed(s.flushes)|);
    assert |all| == |s.written|;
    forall j | 0 <= j < |s.buffer| ensures s.buffer[j] == Pending(s.written[at + j], at + j) {
      assert all[at + j] == s.buffer[j];
    }
  }

  // No write is in two flushes, or in a flush and the buffer.
  lemma Disjoint(c: Config, s: State, k: nat, l: nat)
    requires OrderInv(c, s) && k < |s.flushes| && l < |s.flushes| && k != l
    ensures forall i, j :: 0 <= i < |s.flushes[k].batch| && 0 <= j < |s.flushes[l].batch| ==>
      s.flushes[k].batch[i].promise != s.flushes[l].batch[j].promise
  {
    var a := BatchNumbers(c, s, k);
    var b := BatchNumbers(c, s, l);
    if k < l {
      FlushedMonotone(s.flushes, k, l);
    } else {
      FlushedMonotone(s.flushes, l, k);
    }
  }

  // ---------------------------------------------------------------- settling

  ghost predicate Consecutive(batch: seq<Pending>, at: nat) {
    forall j :: 0 <= j < |batch| ==> batch[j].promise == at + j
  }

  function SettledValue(ps: seq<Promise>, batch: seq<Pending>, at: nat, o: Outcome, n: nat, i: nat): Promise
    requires n <= |batch| && i < |ps|
  {
    if at <= i < at + n && ps[i].Unsettled? then Verdict(o, batch[i - at], i - at) else ps[i]
  }

  lemma {:induction false} SettledAt(ps: seq<Promise>, batch: seq<Pending>, at: nat, o: Outcome, n: nat)
    requires n <= |batch| && Consecutive(batch, at) && at + |batch| <= |ps|
    ensures forall i :: 0 <= i < |ps| ==>
      SettleFirst(ps, batch, o, n)[i] == SettledValue(ps, batch, at, o, n, i)
  {
    if n > 0 {
      SettledAt(ps, batch, at, o, n - 1);
    }
  }

  // Nothing changes a settled promise: not a later reject either.
  lemma {:induction false} SettledStays(ps: seq<Promise>, batch: seq<Pending>, o: Outcome, n: nat, i: nat)
    requires n <= |batch| && i < |ps| && !ps[i].Unsettled?
    ensures SettleFirst(ps, batch, o, n)[i] == ps[i]
  {
    if n > 0 {
      SettledStays(ps, batch, o, n - 1, i);
    }
  }

  // ---------------------------------------------------------------- each event

  lemma FlushedAppend(fs: seq<FlushCall>, f: FlushCall)
    ensures Flushed(fs + [f]) == Flushed(fs) + f.batch
  {
    assert (fs + [f])[..|fs|] == fs;
  }

  lemma StartKeepsOrder(c: Config, s: State)
    requires OrderInv(c, s) && |s.buffer| <= Cap(c)
    ensures OrderInv(c, StartFlush(s))
  {
    if s.buffer != [] {
      FlushedAppend(s.flushes, FlushCall(s.buffer, Writing, None));
      var all := Flushed(s.flushes) + s.buffer;
      assert all + [] == all;
    }
  }

  lemma StartKeepsPromises(s: State)
    requires PromiseInv(s)
    ensures PromiseInv(StartFlush(s))
  {
    var t := StartFlush(s);
    forall k | 0 <= k < |t.flushes| ensures FlushSettled(t.flushes[k], t.promises) {
      if k < |s.flushes| {
        assert FlushSettled(s.flushes[k], s.promises);
      }
    }
  }

  lemma PushKeepsOrder(c: Config, s: State, entry: LogEntry, t: State)
    requires OrderInv(c, s)
    requires t == s.(buffer := s.buffer + [Pending(entry, |s.promises|)], promises := s.promises + [Unsettled],
                     written := s.written + [entry])
    ensures OrderInv(c, t)
  {
    var (p, q) := (Flushed(s.flushes) + s.buffer, Pending(entry, |s.promises|));
    assert Flushed(t.flushes) + t.buffer == p + [q];
    assert Numbered(t.written) == Numbered(s.written) + [q];
  }

  lemma WriteKeepsInv(c: Config, s: State, entry: LogEntry)
    requires Inv(c, s)
    ensures Inv(c, Step(c, s, Write(entry)))
  {
    var t := s.(buffer := s.buffer + [Pending(entry, |s.promises|)], promises := s.promises + [Unsettled],
                written := s.written + [entry]);
    PushKeepsOrder(c, s, entry, t);
    assert PromiseInv(t) by {
      forall k | 0 <= k < |t.flushes| ensures FlushSettled(t.flushes[k], t.promises) {
        assert FlushSettled(s.flushes[k], s.promises);
      }
    }
    StartKeepsInv(c, t);
    assert OrderInv(c, t.(armed := true)) && PromiseInv(t.(armed := true));
  }

  lemma StartKeepsInv(c: Config, s: State)
    requires OrderInv(c, s) && PromiseInv(s) && |s.buffer| <= Cap(c)
    ensures Inv(c, StartFlush(s))
  {
    StartKeepsOrder(c, s);
    StartKeepsPromises(s);
  }

  // Replacing a flush by one with the same batch keeps the order.
  lemma {:induction false} SameBatches(fs: seq<FlushCall>, gs: seq<FlushCall>)
    requires |fs| == |gs| && forall k :: 0 <= k < |fs| ==> fs[k].batch == gs[k].batch
    ensures Flushed(fs) == Flushed(gs)
    decreases |fs|
  {
    if fs != [] {
      SameBatches(fs[..|fs| - 1], gs[..|gs| - 1]);
    }
  }

  lemma EndSettlesOwn(c: Config, s: State, k: nat, o: Outcome)
    requires Inv(c, s) && Enabled(c, s, StorageEnds(k, o))
    ensures var t := Step(c, s, StorageEnds(k, o)); FlushSettled(t.flushes[k], t.promises)
  {
    var batch := s.flushes[k].batch;
    var at := BatchNumbers(c, s, k);
    assert FlushSettled(s.flushes[k], s.promises);
    SettledAt(s.promises, batch, at, o, |batch|);
    var t := Step(c, s, StorageEnds(k, o));
    forall j | 0 <= j < |batch| ensures t.promises[batch[j].promise] == Verdict(o, batch[j], j) {
      assert t.promises[at + j] == SettledValue(s.promises, batch, at, o, |batch|, at + j);
    }
  }

  lemma EndKeepsOther(c: Config, s: State, k: nat, o: Outcome, l: nat)
    requires Inv(c, s) && Enabled(c, s, StorageEnds(k, o)) && l < |s.flushes| && l != k
    ensures var t := Step(c, s, StorageEnds(k, o)); FlushSettled(t.flushes[l], t.promises)
  {
    var batch := s.flushes[k].batch;
    var at := BatchNumbers(c, s, k);
    assert FlushSettled(s.flushes[l], s.promises);
    SettledAt(s.promises, batch, at, o, |batch|);
    OutsideBatch(c, s, k, l);
  }

  lemma EndKeepsBuffer(c: Config, s: State, k: nat, o: Outcome)
    requires Inv(c, s) && Enabled(c, s, StorageEnds(k, o))
    ensures var t := Step(c, s, StorageEnds(k, o));
      forall j :: 0 <= j < |t.buffer| ==>
        t.buffer[j].promise < |t.promises| && t.promises[t.buffer[j].promise] == Unsettled
  {
    var batch := s.flushes[k].batch;
    var at := BatchNumbers(c, s, k);
    SettledAt(s.promises, batch, at, o, |batch|);
    BufferNumbers(c, s);
  }

  lemma EndKeepsPromises(c: Config, s: State, k: nat, o: Outcome)
    requires Inv(c, s) && Enabled(c, s, StorageEnds(k, o))
    ensures PromiseInv(Step(c, s, StorageEnds(k, o)))
  {
    EndSettlesOwn(c, s, k, o);
    EndKeepsBuffer(c, s, k, o);
    forall l | 0 <= l < |s.flushes| && l != k
      ensures var t := Step(c, s, StorageEnds(k, o)); FlushSettled(t.flushes[l], t.promises)
    {
      EndKeepsOther(c, s, k, o, l);
    }
  }

  // Promises of other flushes lie outside the batch.
  lemma OutsideBatch(c: Config, s: State, k: nat, l: nat)
    requires OrderInv(c, s) && k < |s.flushes| && l < |s.flushes| && k != l
    ensures var at := |Flushed(s.flushes[..k])|;
      forall j :: 0 <= j < |s.flushes[l].batch| ==>
        !(at <= s.flushes[l].batch[j].promise < at + |s.flushes[k].batch|)
  {
    var at := BatchNumbers(c, s, k);
    Disjoint(c, s, k, l);
    forall j | 0 <= j < |s.flushes[l].batch|
      ensures !(at <= s.flushes[l].batch[j].promise < at + |s.flushes[k].batch|)
    {
      var n := s.flushes[l].batch[j].promise;
      var m := if at <= n < at + |s.flushes[k].batch| then n - at else 0;
      assert s.flushes[k].batch[m].promise == at + m;
    }
  }

  lemma {:induction false} NothingLeft(ps: seq<Promise>, batch: seq<Pending>, o: Outcome, n: nat)
    requires n <= |batch|
    requires forall j :: 0 <= j < n ==> batch[j].promise < |ps| && !ps[batch[j].promise].Unsettled?
    ensures SettleFirst(ps, batch, o, n) == ps
  {
    if n > 0 {
      NothingLeft(ps, batch, o, n - 1);
    }
  }

  // The callback runs after its promises have been resolved, so its failure rejects nothing.
  lemma CallbackChangesNoPromise(c: Config, s: State, k: nat, error: Option<string>)
    requires Inv(c, s) && Enabled(c, s, CallbackEnds(k, error))
    ensures Step(c, s, CallbackEnds(k, error)).promises == s.promises
  {
    if error.Some? {
      assert FlushSettled(s.flushes[k], s.promises);
      NothingLeft(s.promises, s.flushes[k].batch, Threw(error.value), |s.flushes[k].batch|);
    }
  }

  lemma ReplaceKeepsOrder(c: Config, s: State, k: nat, f: FlushCall, ps: seq<Promise>)
    requires OrderInv(c, s) && k < |s.flushes| && f.batch == s.flushes[k].batch && |ps| == |s.promises|
    ensures OrderInv(c, s.(promises := ps, flushes := s.flushes[k := f]))
  {
    SameBatches(s.flushes, s.flushes[k := f]);
  }

  lemma EndKeepsInv(c: Config, s: State, k: nat, o: Outcome)
    requires Inv(c, s) && Enabled(c, s, StorageEnds(k, o))
    ensures Inv(c, Step(c, s, StorageEnds(k, o)))
  {
    EndKeepsPromises(c, s, k, o);
    var t := Step(c, s, StorageEnds(k, o));
    ReplaceKeepsOrder(c, s, k, t.flushes[k], t.promises);
  }

  lemma CallbackKeepsInv(c: Config, s: State, k: nat, error: Option<string>)
    requires Inv(c, s) && Enabled(c, s, CallbackEnds(k, error))
    ensures Inv(c, Step(c, s, CallbackEnds(k, error)))
  {
    CallbackChangesNoPromise(c, s, k, error);
    var t := Step(c, s, CallbackEnds(k, error));
    ReplaceKeepsOrder(c, s, k, t.flushes[k], t.promises);
    forall l | 0 <= l < |t.flushes| ensures FlushSettled(t.flushes[l], t.promises) {
      assert FlushSettled(s.flushes[l], s.promises);
    }
  }

  lemma StepKeepsInv(c: Config, s: State, e: Event)
    requires Inv(c, s) && Enabled(c, s, e)
    ensures Inv(c, Step(c, s, e))
  {
    match e
    case Write(entry) => WriteKeepsInv(c, s, entry);
    case FlushCalled => StartKeepsInv(c, s);
    case TimerFires => StartKeepsInv(c, s.(armed := false));
    case StorageEnds(k, o) => EndKeepsInv(c, s, k, o);
    case CallbackEnds(k, error) => CallbackKeepsInv(c, s, k, error);
  }

  // ---------------------------------------------------------------- whole runs

  function RunFrom(c: Config, s: State, es: seq<Event>): State {
    if es == [] then s else Step(c, RunFrom(c, s, es[..|es| - 1]), es[|es| - 1])
  }

  ghost predicate Possible(c: Config, s: State, es: seq<Event>) {
    es != [] ==>
      && Possible(c, s, es[..|es| - 1])
      && Enabled(c, RunFrom(c, s, es[..|es| - 1]), es[|es| - 1])
  }

  lemma {:induction false} EveryRun(c: Config, es: seq<Event>)
    requires Possible(c, FRESH, es)
    ensures Inv(c, RunFrom(c, FRESH, es))
  {
    if es != [] {
      EveryRun(c, es[..|es| - 1]);
      StepKeepsInv(c, RunFrom(c, FRESH, es[..|es| - 1]), es[|es| - 1]);
    }
  }

  // A promise settles at most once: later events of a run leave it as it is.
  lemma SettlesOnce(c: Config, s: State, e: Event, i: nat)
    requires i < |s.promises| && !s.promises[i].Unsettled?
    ensures i < |Step(c, s, e).promises| && Step(c, s, e).promises[i] == s.promises[i]
  {
    match e
    case StorageEnds(k, o) =>
      if k < |s.flushes| {
        SettledStays(s.promises, s.flushes[k].batch, o, |s.flushes[k].batch|, i);
      }
    case CallbackEnds(k, error) =>
      if k < |s.flushes| && error.Some? {
        SettledStays(s.promises, s.flushes[k].batch, Threw(error.value), |s.flushes[k].batch|, i);
      }
    case _ =>
  }

  // It settles exactly in the event that ends the storage call of its own flush, with the
  // verdict of that call.
  lemma SettlesWithItsFlush(c: Config, s: State, e: Event, i: nat)
    requires Inv(c, s) && Enabled(c, s, e) && i < |s.promises| && s.promises[i].Unsettled?
    ensures !Step(c, s, e).promises[i].Unsettled? <==>
      && e.StorageEnds?
      && exists j :: 0 <= j < |s.flushes[e.k].batch| && s.flushes[e.k].batch[j] == Pending(s.written[i], i)
           && Step(c, s, e).promises[i] == Verdict(e.outcome, s.flushes[e.k].batch[j], j)
  {
    match e
    case StorageEnds(k, o) =>
      var batch := s.flushes[k].batch;
      var at := BatchNumbers(c, s, k);
      SettledAt(s.promises, batch, at, o, |batch|);
      if at <= i < at + |batch| {
        assert batch[i - at] == Pending(s.written[i], i);
      }
    case CallbackEnds(k, error) => CallbackChangesNoPromise(c, s, k, error);
    case _ =>
  }

  // When the timer is off and no storage call is outstanding, every write has settled.
  lemma QuietIsSettled(c: Config, s: State)
    requires Inv(c, s) && !s.armed && forall k :: 0 <= k < |s.flushes| ==> s.flushes[k].phase != Writing
    ensures forall i :: 0 <= i < |s.promises| ==> !s.promises[i].Unsettled?
  {
    BufferNumbers(c, s);
    forall i | 0 <= i < |s.promises| ensures !s.promises[i].Unsettled? {
      var at := FlushHolding(s.flushes, i);
      assert FlushSettled(s.flushes[at.0], s.promises);
      assert (Flushed(s.flushes) + s.buffer)[i] == Flushed(s.flushes)[i];
    }
  }

  lemma {:induction false} FlushHolding(fs: seq<FlushCall>, i: nat) returns (at: (nat, nat))
    requires i < |Flushed(fs)|
    ensures at.0 < |fs| && at.1 < |fs[at.0].batch| && fs[at.0].batch[at.1] == Flushed(fs)[i]
    decreases |fs|
  {
    var init := fs[..|fs| - 1];
    if i < |Flushed(init)| {
      at := FlushHolding(init, i);
    } else {
      at := (|fs| - 1, i - |Flushed(init)|);
    }
  }

  // ---------------------------------------------------------------- what a write is told

  // When a storage call ends, every promise of its flush is settled: each entry of a batch with
  // its own id and the batch's one result, or the j-th entry with the j-th result, or all with
  // the error.
  lemma EndSettles(c: Config, s: State, k: nat, o: Outcome)
    requires Inv(c, s) && Enabled(c, s, StorageEnds(k, o))
    ensures var (t, batch) := (Step(c, s, StorageEnds(k, o)), s.flushes[k].batch);
      && |t.promises| == |s.promises| && (forall j :: 0 <= j < |batch| ==> batch[j].promise < |t.promises|)
      && (o.BatchDone? ==> var r := o.result; forall j :: 0 <= j < |batch| ==>
            t.promises[batch[j].promise] == Resolved(WriteResult(batch[j].entry.id, r.success, r.txId, r.confirmed, r.error)))
      && (o.LogsDone? ==> |o.results| == |batch| && forall j :: 0 <= j < |batch| ==>
            t.promises[batch[j].promise] == Resolved(o.results[j]))
      && (o.Threw? ==> forall j :: 0 <= j < |batch| ==> t.promises[batch[j].promise] == Rejected(o.error))
  {
    EndSettlesOwn(c, s, k, o);
  }

  // No other promise changes.
  lemma EndLeavesOthers(c: Config, s: State, k: nat, o: Outcome, i: nat)
    requires Inv(c, s) && Enabled(c, s, StorageEnds(k, o))
    requires i < |s.promises| && forall j :: 0 <= j < |s.flushes[k].batch| ==> s.flushes[k].batch[j].promise != i
    ensures i < |Step(c, s, StorageEnds(k, o)).promises| && Step(c, s, StorageEnds(k, o)).promises[i] == s.promises[i]
  {
    var batch := s.flushes[k].batch;
    var at := BatchNumbers(c, s, k);
    SettledAt(s.promises, batch, at, o, |batch|);
    assert |batch| > 0;
    var m := if at <= i < at + |batch| then i - at else 0;
    assert batch[m].promise == at + m;
  }

  // In every run, the promise of every flushed entry is that of the write that brought it, and
  // says what the storage call of its flush came to, or nothing before that.
  lemma PromiseTells(c: Config, es: seq<Event>, k: nat, j: nat)
    requires Possible(c, FRESH, es)
    requires k < |RunFrom(c, FRESH, es).flushes| && j < |RunFrom(c, FRESH, es).flushes[k].batch|
    ensures var s := RunFrom(c, FRESH, es);
      var (f, p) := (s.flushes[k], s.flushes[k].batch[j]);
      && p.promise < |s.promises| == |s.written| && s.written[p.promise] == p.entry
      && match f.outcome
         case None => s.promises[p.promise] == Unsettled
         case Some(BatchDone(r)) =>
           s.promises[p.promise] == Resolved(WriteResult(p.entry.id, r.success, r.txId, r.confirmed, r.error))
         case Some(LogsDone(rs)) => j < |rs| && s.promises[p.promise] == Resolved(rs[j])
         case Some(Threw(e)) => s.promises[p.promise] == Rejected(e)
  {
    EveryRun(c, es);
    var s := RunFrom(c, FRESH, es);
    assert FlushSettled(s.flushes[k], s.promises);
    var at := BatchNumbers(c, s, k);
    assert s.flushes[k].batch[j] == Pending(s.written[at + j], at + j);
  }

  // How a call of flush goes on: it fails when the storage or the callback threw, waits for the
  // callback, if there is one, after a batch alone, and has returned in every other case.
  lemma FlushEnds(c: Config, s: State, e: Event, k: nat)
    requires Enabled(c, s, e) && k < |s.flushes|
    ensures k < |Step(c, s, e).flushes|
    ensures var phase := Step(c, s, e).flushes[k].phase;
      if e.StorageEnds? && e.k == k then
        && (phase == Failed <==> e.outcome.Threw?)
        && (phase == CallingBack <==> e.outcome.BatchDone? && c.hasCallback)
        && phase != Writing
      else if e.CallbackEnds? && e.k == k then
        (phase == Failed <==> e.error.Some?) && (phase == Returned <==> e.error.None?)
      else phase == s.flushes[k].phase
  {}

  // The outcome of a flush is what its storage call ended with, and stays.
  lemma OutcomeStays(c: Config, s: State, e: Event, k: nat)
    requires Enabled(c, s, e) && k < |s.flushes| && (s.flushes[k].phase == Writing <==> s.flushes[k].outcome.None?)
    ensures k < |Step(c, s, e).flushes| && Step(c, s, e).flushes[k].batch == s.flushes[k].batch
    ensures Step(c, s, e).flushes[k].outcome ==
      if e.StorageEnds? && e.k == k then Some(e.outcome) else s.flushes[k].outcome
  {}

  // ---------------------------------------------------------------- when a flush starts

  // A call to flush, and the timer, take everything that was written so far.
  lemma FlushTakesAll(c: Config, s: State, e: Event)
    requires Inv(c, s) && Enabled(c, s, e) && (e.FlushCalled? || e.TimerFires?)
    ensures var t := Step(c, s, e);
      t.buffer == [] && !t.armed && t.written == s.written && Flushed(t.flushes) == Numbered(s.written)
  {
    StepKeepsInv(c, s, e);
    var t := Step(c, s, e);
    assert Flushed(t.flushes) + [] == Flushed(t.flushes);
  }

  ghost predicate AllFull(c: Config, fs: seq<FlushCall>) {
    forall k :: 0 <= k < |fs| ==> |fs[k].batch| == Cap(c)
  }

  lemma StepFillsBatches(c: Config, s: State, e: Event)
    requires BufferInv(c, s) && AllFull(c, s.flushes) && Enabled(c, s, e) && !e.FlushCalled? && !e.TimerFires?
    ensures AllFull(c, Step(c, s, e).flushes)
  {}

  // Without them only full batches go out, in every run.
  lemma {:induction false} FullBatches(c: Config, es: seq<Event>)
    requires Possible(c, FRESH, es) && forall e :: e in es ==> !e.FlushCalled? && !e.TimerFires?
    ensures AllFull(c, RunFrom(c, FRESH, es).flushes)
  {
    if es != [] {
      var (init, e) := (es[..|es| - 1], es[|es| - 1]);
      assert e in es && forall x :: x in init ==> x in es;
      FullBatches(c, init);
      EveryRun(c, init);
      StepFillsBatches(c, RunFrom(c, FRESH, init), e);
    }
  }

  // ---------------------------------------------------------------- the writer itself

  class Writer {
    const config: Config
    var buffer: seq<Pending>
    var flushTimer: bool
    var flushes: seq<FlushCall>
    var promises: seq<Promise>
    ghost var written: seq<LogEntry>

    ghost function Contents(): State
      reads this
    {
      State(buffer, flushTimer, flushes, promises, written)
    }

    constructor (config: Config)
      ensures this.config == config && Contents() == FRESH
    {
      this.config := config;
      buffer, flushTimer, flushes, promises, written := [], false, [], [], [];
    }

    // The promise of the entry is handed to the caller.
    method Write(entry: LogEntry) returns (promise: nat)
      modifies this
      ensures Contents() == Step(config, old(Contents()), Event.Write(entry))
      ensures promise == |old(promises)| < |promises| && promises[promise].Unsettled?
    {
      promise := |promises|;
      promises := promises + [Unsettled];
      buffer := buffer + [Pending(entry, promise)];
      written := written + [entry];
      if |buffer| >= config.maxSize {
        Flush();
      } else {
        ScheduleFlush();
      }
    }

    method Flush()
      modifies this`buffer, this`flushTimer, this`flushes
      ensures Contents() == StartFlush(old(Contents()))
    {
      if flushTimer {
        flushTimer := false;
      }
      if |buffer| == 0 {
        return;
      }
      var pending := buffer;
      buffer := [];
      flushes := flushes + [FlushCall(pending, Writing, None)];
    }

    method ScheduleFlush()
      modifies this`flushTimer
      ensures flushTimer
    {
      if flushTimer {
        return;
      }
      flushTimer := true;
    }

    method OnTimer()
      requires flushTimer
      modifies this
      ensures Contents() == Step(config, old(Contents()), TimerFires)
    {
      flushTimer := false;
      Flush();
    }

    // The loop over the pending entries of a flush.
    method SettleBatch(batch: seq<Pending>, o: Outcome)
      modifies this`promises
      ensures promises == SettleFirst(old(promises), batch, o, |batch|)
    {
      for j := 0 to |batch|
        invariant promises == SettleFirst(old(promises), batch, o, j)
      {
        var i := batch[j].promise;
        if i < |promises| && promises[i].Unsettled? {
          promises := promises[i := Verdict(o, batch[j], j)];
        }
      }
    }

    method OnStorageEnd(k: nat, o: Outcome)
      requires Enabled(config, Contents(), StorageEnds(k, o))
      modifies this
      ensures Contents() == Step(config, old(Contents()), StorageEnds(k, o))
    {
      var f := flushes[k];
      SettleBatch(f.batch, o);
      var phase := Returned;
      if o.Threw? {
        phase := Failed;
      } else if o.BatchDone? && config.hasCallback {
        phase := CallingBack;
      }
      flushes := flushes[k := f.(phase := phase, outcome := Some(o))];
    }

    method OnCallbackEnd(k: nat, error: Option<string>)
      requires Enabled(config, Contents(), CallbackEnds(k, error))
      modifies this
      ensures Contents() == Step(config, old(Contents()), CallbackEnds(k, error))
    {
      var f := flushes[k];
      if error.Some? {
        SettleBatch(f.batch, Threw(error.value));
        flushes := flushes[k := f.(phase := Failed)];
      } else {
        flushes := flushes[k := f.(phase := Returned)];
      }
    }
  }
}
