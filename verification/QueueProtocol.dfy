/** The submit and confirm queues: messages, storage steps, replies, and the status of rows. */
module QueueProtocol {
  import opened Bytes

  // ---------------------------------------------------------------- messages and rows

  datatype Strategy = ChainOnly | AnchoredHybrid | BatchedHybrid

  datatype Database = Postgres | Mongo

  datatype Table =
    | AnchoredTable(public: bool, db: Database)
    | BatchedTable(public: bool, db: Database)
    | BatchesTable(public: bool, db: Database)

  // A row with an anchor status: a log under its id, or a batch under its Merkle root.
  datatype RowKey = RowKey(table: Table, id: string)

  datatype Status = Pending | Confirmed | Failed

  // `key` is the entry's id, or the Merkle root that a batch will have.
  datatype SubmitMessage = SubmitMessage(
    strategy: Strategy, public: bool, db: Database, isBatch: bool, key: string, wantsReply: bool)

  // What an anchor reports of a submission.
  datatype AnchorResult = AnchorResult(success: bool, txId: Option<string>, confirmed: Option<bool>)

  datatype StorageResult = StorageResult(success: bool, txId: Option<string>, confirmed: Option<bool>)

  // How far the handler of a submission is; `Aborted` is the end of its catch branch.
  datatype Phase =
    | Queued
    | Anchoring
    | Updating(anchored: AnchorResult)
    | Stored(result: StorageResult)
    | Replied(result: StorageResult)
    | Handed(j: nat)
    | Aborted

  // `anchor` is the history of what the chain said about it.
  datatype Submission = Submission(msg: SubmitMessage, phase: Phase, anchor: Option<AnchorResult>)

  datatype CheckResult = CheckResult(confirmed: bool, pending: bool)

  // `up` says whether the update of the row went through.
  datatype ConfirmPhase = Checking(attempts: nat) | Checked | Closed(up: bool)

  // A message in the confirm queue; `origin` is the submission it came from and `last` the
  // chain's latest answer.
  datatype Confirmation = Confirmation(
    origin: nat, strategy: Strategy, row: RowKey, txHash: string, wantsReply: bool,
    phase: ConfirmPhase, last: CheckResult)

  datatype Reply = Reply(origin: nat, success: bool)

  datatype State = State(
    rows: map<RowKey, Status>, submits: seq<Submission>, confirms: seq<Confirmation>, replies: seq<Reply>)

  datatype InsertOutcome = InsertFails | LinkFails | InsertWorks

  datatype Event =
    | Publish(msg: SubmitMessage)
    | Throws(k: nat)
    | Insert(k: nat, how: InsertOutcome)
    | Anchor(k: nat, answer: AnchorResult)
    | Update(k: nat, up: bool)
    | Finish(k: nat, up: bool)
    | Check(j: nat, found: CheckResult)
    | Record(j: nat, up: bool)

  const FRESH := State(map[], [], [], [])

  const MAX_RETRIES: nat := 60

  const NO_RESULT := StorageResult(false, None, None)

  predicate IsBatchWrite(m: SubmitMessage) {
    m.strategy.BatchedHybrid? && m.isBatch
  }

  // A single entry sent to a batched storage.
  predicate IsStray(m: SubmitMessage) {
    m.strategy.BatchedHybrid? && !m.isBatch
  }

  // The row that the write of a message makes.
  function RowOf(m: SubmitMessage): RowKey {
    var table := if IsBatchWrite(m) then BatchesTable(m.public, m.db)
                 else if IsStray(m) then BatchedTable(m.public, m.db)
                 else AnchoredTable(m.public, m.db);
    RowKey(table, m.key)
  }

  // The row that its confirmation updates, chosen by the strategy alone.
  function ConfirmRow(m: SubmitMessage): RowKey {
    RowKey(if m.strategy.BatchedHybrid? then BatchesTable(m.public, m.db) else AnchoredTable(m.public, m.db), m.key)
  }

  // Whether the row has a status: a batched table in Postgres lacks the column.
  predicate KeepsStatus(m: SubmitMessage) {
    match m.strategy
    case ChainOnly => false
    case AnchoredHybrid => !m.isBatch
    case BatchedHybrid => m.isBatch || m.db.Mongo?
  }

  function StatusOf(a: AnchorResult): Status {
    if a.confirmed == Some(true) then Confirmed else if a.success then Pending else Failed
  }

  // The storage's answer when everything after the insert went through.
  function ResultOf(m: SubmitMessage, a: AnchorResult): StorageResult {
    StorageResult(if m.strategy.ChainOnly? || IsBatchWrite(m) then a.success else true, a.txId, a.confirmed)
  }

  predicate Truthy(t: Option<string>) {
    t.Some? && t.value != ""
  }

  // A missing confirmation counts as given.
  predicate HandsOff(r: StorageResult) {
    Truthy(r.txId) && r.confirmed == Some(false)
  }

  function CheckStatus(c: CheckResult): Status {
    if c.confirmed then Confirmed else if c.pending then Pending else Failed
  }

  // ---------------------------------------------------------------- steps

  function WithPhase(s: State, k: nat, p: Phase): State
    requires k < |s.submits|
  {
    s.(submits := s.submits[k := s.submits[k].(phase := p)])
  }

  function Answered(s: State, wanted: bool, origin: nat, success: bool): State {
    if wanted then s.(replies := s.replies + [Reply(origin, success)]) else s
  }

  // A key that is taken fails the insert, but for a batch record in Postgres, which is left
  // as it is.
  predicate InsertGoesOn(m: SubmitMessage, taken: bool, how: InsertOutcome) {
    !how.InsertFails? && (taken ==> IsBatchWrite(m) && m.db.Postgres?)
  }

  function InsertRow(s: State, k: nat, how: InsertOutcome): State
    requires k < |s.submits|
  {
    var m := s.submits[k].msg;
    var r := RowOf(m);
    if !InsertGoesOn(m, r in s.rows, how) then WithPhase(s, k, Stored(NO_RESULT))
    else
      var t := if KeepsStatus(m) && r !in s.rows then s.(rows := s.rows[r := Pending]) else s;
      WithPhase(t, k, if how.LinkFails? then Stored(NO_RESULT) else Anchoring)
  }

  function TakeAnswer(s: State, k: nat, a: AnchorResult): State
    requires k < |s.submits|
  {
    var m := s.submits[k].msg;
    var next := if m.strategy.ChainOnly? then Stored(ResultOf(m, a)) else Updating(a);
    s.(submits := s.submits[k := s.submits[k].(phase := next, anchor := Some(a))])
  }

  function UpdateRow(s: State, k: nat, up: bool): State
    requires k < |s.submits| && s.submits[k].phase.Updating?
  {
    var (m, a) := (s.submits[k].msg, s.submits[k].phase.anchored);
    if !up || !KeepsStatus(m) then WithPhase(s, k, Stored(NO_RESULT))
    else
      var r := RowOf(m);
      var t := if r in s.rows then s.(rows := s.rows[r := StatusOf(a)]) else s;
      WithPhase(t, k, Stored(ResultOf(m, a)))
  }

  function FinishSubmit(s: State, k: nat, up: bool): State
    requires k < |s.submits| && s.submits[k].phase.Stored?
  {
    var (m, r) := (s.submits[k].msg, s.submits[k].phase.result);
    if HandsOff(r) then
      if up then
        var c := Confirmation(k, m.strategy, ConfirmRow(m), r.txId.value, m.wantsReply, Checking(0), CheckResult(false, true));
        WithPhase(s, k, Handed(|s.confirms|)).(confirms := s.confirms + [c])
      else Answered(WithPhase(s, k, Aborted), m.wantsReply, k, false)
    else Answered(WithPhase(s, k, Replied(r)), m.wantsReply, k, true)
  }

  function WithConfirm(s: State, j: nat, p: ConfirmPhase, last: CheckResult): State
    requires j < |s.confirms|
  {
    s.(confirms := s.confirms[j := s.confirms[j].(phase := p, last := last)])
  }

  predicate Decisive(c: CheckResult) {
    c.confirmed || !c.pending
  }

  function TakeCheck(s: State, j: nat, c: CheckResult): State
    requires j < |s.confirms| && s.confirms[j].phase.Checking?
  {
    var n := s.confirms[j].phase.attempts + 1;
    WithConfirm(s, j, if Decisive(c) || n >= MAX_RETRIES then Checked else Checking(n), c)
  }

  function RecordCheck(s: State, j: nat, up: bool): State
    requires j < |s.confirms|
  {
    var c := s.confirms[j];
    var closed := WithConfirm(s, j, Closed(up), c.last);
    if c.strategy.ChainOnly? then Answered(closed, c.wantsReply, c.origin, c.last.confirmed)
    else if !up then Answered(closed, c.wantsReply, c.origin, false)
    else
      var t := if c.row in s.rows then closed.(rows := s.rows[c.row := CheckStatus(c.last)]) else closed;
      Answered(t, c.wantsReply, c.origin, c.last.confirmed)
  }

  // The handlers submit without waiting, so an anchor that succeeds answers with a
  // transaction that is not confirmed, and one that fails with neither.
  predicate Plausible(a: AnchorResult) {
    if a.success then Truthy(a.txId) && a.confirmed == Some(false) else a.txId == None && a.confirmed == None
  }

  predicate Enabled(s: State, e: Event) {
    match e
    case Publish(_) => true
    case Throws(k) => k < |s.submits| && s.submits[k].phase == Queued
    case Insert(k, how) =>
      && k < |s.submits| && s.submits[k].phase == Queued
      && !s.submits[k].msg.strategy.ChainOnly?
      && !(s.submits[k].msg.strategy.AnchoredHybrid? && s.submits[k].msg.isBatch)
      && (how.LinkFails? ==> IsBatchWrite(s.submits[k].msg))
    case Anchor(k, a) =>
      && k < |s.submits| && Plausible(a)
      && s.submits[k].phase == if s.submits[k].msg.strategy.ChainOnly? then Queued else Anchoring
    case Update(k, _) => k < |s.submits| && s.submits[k].phase.Updating?
    case Finish(k, _) => k < |s.submits| && s.submits[k].phase.Stored?
    case Check(j, _) => j < |s.confirms| && s.confirms[j].phase.Checking?
    case Record(j, _) => j < |s.confirms| && s.confirms[j].phase.Checked?
  }

  function Step(s: State, e: Event): State
    requires Enabled(s, e)
  {
    match e
    case Publish(m) => s.(submits := s.submits + [Submission(m, Queued, None)])
    case Throws(k) => Answered(WithPhase(s, k, Aborted), s.submits[k].msg.wantsReply, k, false)
    case Insert(k, how) => InsertRow(s, k, how)
    case Anchor(k, a) => TakeAnswer(s, k, a)
    case Update(k, up) => UpdateRow(s, k, up)
    case Finish(k, up) => FinishSubmit(s, k, up)
    case Check(j, c) => TakeCheck(s, j, c)
    case Record(j, up) => RecordCheck(s, j, up)
  }

  // ---------------------------------------------------------------- hand-over

  // Every confirmation belongs to one submission, which is finished with it.
  ghost predicate LinksInv(s: State) {
    && (forall j :: 0 <= j < |s.confirms| ==> Linked(s, j))
    && (forall k :: 0 <= k < |s.submits| && s.submits[k].phase.Handed? ==>
          var j := s.submits[k].phase.j;
          j < |s.confirms| && s.confirms[j].origin == k)
  }

  ghost predicate Linked(s: State, j: nat)
    requires j < |s.confirms|
  {
    var c := s.confirms[j];
    && c.origin < |s.submits|
    && s.submits[c.origin].phase == Handed(j)
    && c.strategy == s.submits[c.origin].msg.strategy
    && c.row == ConfirmRow(s.submits[c.origin].msg)
    && c.wantsReply == s.submits[c.origin].msg.wantsReply
    && s.submits[c.origin].anchor.Some? && s.submits[c.origin].anchor.value.txId == Some(c.txHash)
    && (c.phase.Checking? ==> c.phase.attempts < MAX_RETRIES)
    && (!c.strategy.ChainOnly? ==> KeepsStatus(s.submits[c.origin].msg))
  }

  // What the chain and the storage answered: nothing from a write that keeps no status, and
  // only what the chain accepted is handed off.
  predicate AnswerKept(u: Submission) {
    match u.phase
    case Queued => u.anchor == None
    case Anchoring => u.anchor == None
    case Updating(a) => u.anchor == Some(a) && Plausible(a)
    case Stored(r) => ResultKept(u, r)
    case Replied(r) => ResultKept(u, r) && !HandsOff(r)
    case Handed(_) => u.anchor.Some? && u.anchor.value.success
    case Aborted => u.anchor.Some? ==> u.anchor.value.success
  }

  predicate ResultKept(u: Submission, r: StorageResult) {
    || r == NO_RESULT
    || (u.anchor.Some? && Plausible(u.anchor.value) && r == ResultOf(u.msg, u.anchor.value)
        && (u.msg.strategy.ChainOnly? || KeepsStatus(u.msg)))
  }

  ghost predicate AnswersInv(s: State) {
    && (forall k :: 0 <= k < |s.submits| ==> AnswerKept(s.submits[k]))
    && (forall j :: 0 <= j < |s.confirms| ==> (s.confirms[j].phase.Checking? ==> !Decisive(s.confirms[j].last)))
  }

  lemma StepKeepsAnswers(s: State, e: Event)
    requires AnswersInv(s) && Enabled(s, e)
    ensures AnswersInv(Step(s, e))
  {
    var t := Step(s, e);
    forall k | 0 <= k < |t.submits| ensures AnswerKept(t.submits[k]) {
      if k < |s.submits| {
        assert AnswerKept(s.submits[k]);
      }
    }
  }

  // Steps of a submission that hand nothing over.
  lemma LocalKeepsLinks(s: State, t: State, k: nat)
    requires LinksInv(s) && k < |s.submits| && !s.submits[k].phase.Handed?
    requires |t.submits| == |s.submits| && t.confirms == s.confirms
    requires forall l :: 0 <= l < |s.submits| && l != k ==> t.submits[l] == s.submits[l]
    requires !t.submits[k].phase.Handed?
    ensures LinksInv(t)
  {
    forall j | 0 <= j < |t.confirms| ensures Linked(t, j) {
      assert Linked(s, j);
    }
  }

  lemma FinishKeepsLinks(s: State, k: nat, up: bool)
    requires LinksInv(s) && AnswersInv(s) && Enabled(s, Finish(k, up))
    ensures LinksInv(Step(s, Finish(k, up)))
  {
    var t := Step(s, Finish(k, up));
    assert AnswerKept(s.submits[k]);
    if |t.confirms| == |s.confirms| {
      LocalKeepsLinks(s, t, k);
    } else {
      forall j | 0 <= j < |t.confirms| ensures Linked(t, j) {
        if j < |s.confirms| {
          assert Linked(s, j);
        }
      }
    }
  }

  lemma ConfirmKeepsLinks(s: State, e: Event)
    requires LinksInv(s) && Enabled(s, e) && (e.Check? || e.Record?)
    ensures LinksInv(Step(s, e))
  {
    var t := Step(s, e);
    assert t.submits == s.submits;
    forall j | 0 <= j < |t.confirms| ensures Linked(t, j) {
      assert Linked(s, j);
    }
  }

  lemma PublishKeepsLinks(s: State, m: SubmitMessage)
    requires LinksInv(s)
    ensures LinksInv(Step(s, Publish(m)))
  {
    var t := Step(s, Publish(m));
    forall j | 0 <= j < |t.confirms| ensures Linked(t, j) {
      assert Linked(s, j);
    }
  }

  lemma StepKeepsLinks(s: State, e: Event)
    requires LinksInv(s) && AnswersInv(s) && Enabled(s, e)
    ensures LinksInv(Step(s, e))
  {
    match e
    case Publish(m) => PublishKeepsLinks(s, m);
    case Finish(k, up) => FinishKeepsLinks(s, k, up);
    case Check(_, _) => ConfirmKeepsLinks(s, e);
    case Record(_, _) => ConfirmKeepsLinks(s, e);
    case _ => LocalKeepsLinks(s, Step(s, e), e.k);
  }

  // ---------------------------------------------------------------- replies

  function Replies(rs: seq<Reply>, k: nat): nat {
    if rs == [] then 0 else Replies(rs[..|rs| - 1], k) + (if rs[|rs| - 1].origin == k then 1 else 0)
  }

  lemma RepliesAppend(rs: seq<Reply>, r: Reply, k: nat)
    ensures Replies(rs + [r], k) == Replies(rs, k) + (if r.origin == k then 1 else 0)
  {
    assert (rs + [r])[..|rs|] == rs;
  }

  // Whether nothing is left to do for a submission, here or in the confirm queue.
  predicate Settled(s: State, k: nat)
    requires k < |s.submits|
  {
    match s.submits[k].phase
    case Aborted => true
    case Replied(_) => true
    case Handed(j) => j < |s.confirms| && s.confirms[j].phase.Closed?
    case _ => false
  }

  function Due(settled: bool, m: SubmitMessage): nat {
    if settled && m.wantsReply then 1 else 0
  }

  // Exactly one reply for each settled submission that wants one, and no other.
  ghost predicate RepliesInv(s: State) {
    && (forall k :: 0 <= k < |s.submits| ==> Replies(s.replies, k) == Due(Settled(s, k), s.submits[k].msg))
    && (forall i :: 0 <= i < |s.replies| ==> s.replies[i].origin < |s.submits|)
  }

  lemma {:induction false} NoReplies(rs: seq<Reply>, k: nat)
    requires forall i :: 0 <= i < |rs| ==> rs[i].origin < k
    ensures Replies(rs, k) == 0
  {
    if rs != [] {
      NoReplies(rs[..|rs| - 1], k);
    }
  }

  // One submission becomes settled, with a reply if it wants one.
  lemma SettleOne(s: State, t: State, k: nat, success: bool)
    requires RepliesInv(s) && k < |s.submits| && !Settled(s, k)
    requires |t.submits| == |s.submits| && Settled(t, k)
    requires forall l :: 0 <= l < |s.submits| ==> t.submits[l].msg == s.submits[l].msg
    requires forall l :: 0 <= l < |s.submits| && l != k ==> (Settled(t, l) <==> Settled(s, l))
    requires t.replies == if s.submits[k].msg.wantsReply then s.replies + [Reply(k, success)] else s.replies
    ensures RepliesInv(t)
  {
    forall l | 0 <= l < |t.submits| ensures Replies(t.replies, l) == Due(Settled(t, l), t.submits[l].msg) {
      CountOne(s, t, k, success, l);
    }
    assert forall i :: 0 <= i < |t.replies| ==> i < |s.replies| || t.replies[i] == Reply(k, success);
  }

  lemma CountOne(s: State, t: State, k: nat, success: bool, l: nat)
    requires RepliesInv(s) && k < |s.submits| && !Settled(s, k)
    requires l < |t.submits| == |s.submits| && Settled(t, k) && t.submits[l].msg == s.submits[l].msg
    requires l != k ==> (Settled(t, l) <==> Settled(s, l))
    requires t.replies == if s.submits[k].msg.wantsReply then s.replies + [Reply(k, success)] else s.replies
    ensures Replies(t.replies, l) == Due(Settled(t, l), t.submits[l].msg)
  {
    assert Replies(s.replies, l) == Due(Settled(s, l), s.submits[l].msg);
    if s.submits[k].msg.wantsReply {
      RepliesAppend(s.replies, Reply(k, success), l);
    }
  }

  // Nothing is settled and nothing replied.
  lemma SettleNone(s: State, t: State)
    requires RepliesInv(s) && |t.submits| == |s.submits| && t.replies == s.replies
    requires forall l :: 0 <= l < |s.submits| ==> t.submits[l].msg == s.submits[l].msg && (Settled(t, l) <==> Settled(s, l))
    ensures RepliesInv(t)
  {}

  lemma PublishKeepsReplies(s: State, m: SubmitMessage)
    requires RepliesInv(s) && LinksInv(s)
    ensures RepliesInv(Step(s, Publish(m)))
  {
    NoReplies(s.replies, |s.submits|);
    var t := Step(s, Publish(m));
    forall l | 0 <= l < |s.submits| ensures Settled(t, l) <==> Settled(s, l) {}
  }

  lemma SubmitKeepsReplies(s: State, e: Event)
    requires RepliesInv(s) && LinksInv(s) && Enabled(s, e)
    requires e.Insert? || e.Anchor? || e.Update? || e.Throws?
    ensures RepliesInv(Step(s, e))
  {
    if e.Throws? {
      SettleOne(s, Step(s, e), e.k, false);
    } else {
      SettleNone(s, Step(s, e));
    }
  }

  lemma FinishKeepsReplies(s: State, k: nat, up: bool)
    requires RepliesInv(s) && LinksInv(s) && Enabled(s, Finish(k, up))
    ensures RepliesInv(Step(s, Finish(k, up)))
  {
    var t := Step(s, Finish(k, up));
    if HandsOff(s.submits[k].phase.result) && up {
      SettleNone(s, t);
    } else {
      SettleOne(s, t, k, !HandsOff(s.submits[k].phase.result));
    }
  }

  lemma CheckKeepsReplies(s: State, j: nat, c: CheckResult)
    requires RepliesInv(s) && LinksInv(s) && Enabled(s, Check(j, c))
    ensures RepliesInv(Step(s, Check(j, c)))
  {
    SettleNone(s, Step(s, Check(j, c)));
  }

  // What the confirm handler replies once it is closed.
  predicate ConfirmSays(c: Confirmation) {
    c.phase.Closed? && c.last.confirmed && (c.strategy.ChainOnly? || c.phase.up)
  }

  lemma RecordKeepsReplies(s: State, j: nat, up: bool)
    requires RepliesInv(s) && LinksInv(s) && Enabled(s, Record(j, up))
    ensures RepliesInv(Step(s, Record(j, up)))
  {
    assert Linked(s, j);
    var t := Step(s, Record(j, up));
    SettleOne(s, t, s.confirms[j].origin, ConfirmSays(t.confirms[j]));
  }

  lemma StepKeepsReplies(s: State, e: Event)
    requires RepliesInv(s) && LinksInv(s) && Enabled(s, e)
    ensures RepliesInv(Step(s, e))
  {
    match e
    case Publish(m) => PublishKeepsReplies(s, m);
    case Finish(k, up) => FinishKeepsReplies(s, k, up);
    case Check(j, c) => CheckKeepsReplies(s, j, c);
    case Record(j, up) => RecordKeepsReplies(s, j, up);
    case _ => SubmitKeepsReplies(s, e);
  }

  // ---------------------------------------------------------------- evidence

  // The chain has confirmed the row's transaction to a check, or has refused it.
  ghost predicate Evidence(s: State, r: RowKey, st: Status) {
    || (exists j :: 0 <= j < |s.confirms| && CheckSays(s.confirms[j], r, st))
    || (st == Failed && exists k :: 0 <= k < |s.submits| && AnchorRefused(s.submits[k], r))
  }

  predicate AnchorRefused(u: Submission, r: RowKey) {
    RowOf(u.msg) == r && u.anchor.Some? && !u.anchor.value.success
  }

  predicate CheckSays(c: Confirmation, r: RowKey, st: Status) {
    && c.row == r
    && match st
       case Confirmed => c.last.confirmed
       case Failed => !c.last.confirmed && !c.last.pending
       case Pending => false
  }

  ghost predicate EvidenceInv(s: State) {
    forall r :: r in s.rows && s.rows[r] != Pending ==> Evidence(s, r, s.rows[r])
  }

  // What the chain has said stays said.
  lemma EvidenceStays(s: State, t: State, r: RowKey, st: Status)
    requires Evidence(s, r, st) && |s.submits| <= |t.submits| && |s.confirms| <= |t.confirms|
    requires forall k :: 0 <= k < |s.submits| && AnchorRefused(s.submits[k], r) ==> AnchorRefused(t.submits[k], r)
    requires forall j :: 0 <= j < |s.confirms| && CheckSays(s.confirms[j], r, st) ==> CheckSays(t.confirms[j], r, st)
    ensures Evidence(t, r, st)
  {
    if j :| 0 <= j < |s.confirms| && CheckSays(s.confirms[j], r, st) {
      assert CheckSays(t.confirms[j], r, st);
    } else {
      var k :| 0 <= k < |s.submits| && AnchorRefused(s.submits[k], r);
      assert AnchorRefused(t.submits[k], r);
    }
  }

  lemma SubmitsGrow(s: State, e: Event)
    requires AnswersInv(s) && Enabled(s, e)
    ensures |s.submits| <= |Step(s, e).submits|
    ensures forall k, r :: 0 <= k < |s.submits| && AnchorRefused(s.submits[k], r) ==> AnchorRefused(Step(s, e).submits[k], r)
  {
    if e.Anchor? {
      assert AnswerKept(s.submits[e.k]);
    }
  }

  lemma ConfirmsGrow(s: State, e: Event)
    requires AnswersInv(s) && Enabled(s, e)
    ensures |s.confirms| <= |Step(s, e).confirms|
    ensures forall j, r, st :: 0 <= j < |s.confirms| && CheckSays(s.confirms[j], r, st) ==>
      CheckSays(Step(s, e).confirms[j], r, st)
  {}

  // A row that gets a final status gets it from the chain's answer.
  lemma NewlyKnown(s: State, e: Event, r: RowKey)
    requires AnswersInv(s) && Enabled(s, e)
    requires r in Step(s, e).rows && Step(s, e).rows[r] != Pending
    requires r in s.rows ==> s.rows[r] != Step(s, e).rows[r]
    ensures Evidence(Step(s, e), r, Step(s, e).rows[r])
  {
    var t := Step(s, e);
    match e
    case Update(k, _) =>
      assert AnswerKept(s.submits[k]);
      assert AnchorRefused(t.submits[k], r);
    case Record(j, _) => assert CheckSays(t.confirms[j], r, t.rows[r]);
    case _ => assert false;
  }

  lemma StepKeepsEvidence(s: State, e: Event)
    requires EvidenceInv(s) && AnswersInv(s) && Enabled(s, e)
    ensures EvidenceInv(Step(s, e))
  {
    var t := Step(s, e);
    SubmitsGrow(s, e);
    ConfirmsGrow(s, e);
    forall r | r in t.rows && t.rows[r] != Pending ensures Evidence(t, r, t.rows[r]) {
      if r in s.rows && s.rows[r] == t.rows[r] {
        EvidenceStays(s, t, r, t.rows[r]);
      } else {
        NewlyKnown(s, e, r);
      }
    }
  }

  // ---------------------------------------------------------------- what a reply says

  // The storage failed, or the chain refused the submission.
  predicate WriteFailed(u: Submission, r: StorageResult) {
    !r.success || (u.anchor.Some? && !u.anchor.value.success)
  }

  // A reply after the catch branch says failure; one sent directly says success, although
  // the write failed; and one after a hand-over says what the chain and the update did.
  ghost predicate Meaning(s: State, r: Reply)
    requires r.origin < |s.submits|
  {
    var u := s.submits[r.origin];
    match u.phase
    case Aborted => !r.success
    case Replied(result) => r.success && WriteFailed(u, result)
    case Handed(j) => j < |s.confirms| && s.confirms[j].phase.Closed? && (r.success <==> ConfirmSays(s.confirms[j]))
    case _ => false
  }

  ghost predicate MeaningInv(s: State) {
    forall i :: 0 <= i < |s.replies| ==> s.replies[i].origin < |s.submits| && Meaning(s, s.replies[i])
  }

  lemma MeaningStays(s: State, e: Event, r: Reply)
    requires LinksInv(s) && Enabled(s, e) && r.origin < |s.submits| && Meaning(s, r)
    ensures r.origin < |Step(s, e).submits| && Meaning(Step(s, e), r)
  {
    SettledUnchanged(s, e, r.origin);
  }

  // A settled submission and its confirmation change no more.
  lemma SettledUnchanged(s: State, e: Event, k: nat)
    requires Enabled(s, e) && k < |s.submits| && Settled(s, k)
    ensures var t := Step(s, e);
      && k < |t.submits| && t.submits[k] == s.submits[k]
      && (s.submits[k].phase.Handed? ==>
            var j := s.submits[k].phase.j; j < |t.confirms| && t.confirms[j] == s.confirms[j])
  {}

  // A storage result that is not handed off stands for a failure.
  lemma DirectMeansFailed(u: Submission)
    requires u.phase.Stored? && AnswerKept(u) && !HandsOff(u.phase.result)
    ensures WriteFailed(u, u.phase.result)
  {}

  lemma NewReplyMeans(s: State, e: Event)
    requires LinksInv(s) && AnswersInv(s) && Enabled(s, e)
    ensures var t := Step(s, e);
      t.replies == s.replies ||
      (exists r :: t.replies == s.replies + [r] && r.origin < |t.submits| && Meaning(t, r))
  {
    var t := Step(s, e);
    if t.replies != s.replies {
      if e.Record? {
        assert Linked(s, e.j);
      }
      if e.Finish? {
        assert AnswerKept(s.submits[e.k]);
        if !HandsOff(s.submits[e.k].phase.result) {
          DirectMeansFailed(s.submits[e.k]);
        }
      }
      var r := t.replies[|s.replies|];
      assert t.replies == s.replies + [r] && Meaning(t, r);
    }
  }

  lemma StepKeepsMeaning(s: State, e: Event)
    requires LinksInv(s) && AnswersInv(s) && MeaningInv(s) && Enabled(s, e)
    ensures MeaningInv(Step(s, e))
  {
    var t := Step(s, e);
    NewReplyMeans(s, e);
    forall i | 0 <= i < |t.replies| ensures t.replies[i].origin < |t.submits| && Meaning(t, t.replies[i]) {
      if i < |s.replies| {
        MeaningStays(s, e, s.replies[i]);
      }
    }
  }

  // ---------------------------------------------------------------- who may change a row

  // A submission that may still change the status of a row: its storage is at work on it, or
  // its confirmation is open.
  predicate Active(s: State, k: nat, r: RowKey)
    requires k < |s.submits|
  {
    && KeepsStatus(s.submits[k].msg) && (RowOf(s.submits[k].msg) == r || ConfirmRow(s.submits[k].msg) == r)
    && match s.submits[k].phase
       case Queued => false
       case Anchoring => true
       case Updating(_) => true
       case Stored(result) => HandsOff(result)
       case Replied(_) => false
       case Aborted => false
       case Handed(j) => j < |s.confirms| && !s.confirms[j].phase.Closed?
  }

  // The row has at most one submission at work on it, and none once it is confirmed.
  ghost predicate OwnerInv(r: RowKey, s: State) {
    && (forall k :: 0 <= k < |s.submits| && Active(s, k, r) ==> r in s.rows && s.rows[r] != Confirmed)
    && (forall k, l :: 0 <= k < |s.submits| && 0 <= l < |s.submits| && Active(s, k, r) && Active(s, l, r) ==> k == l)
  }

  // The guard, to be checked before the write: a batch goes to Postgres under a root that
  // the table has already, or an entry goes to a batched Mongo storage under an id that is
  // the root of a batch.
  predicate Disturbs(s: State, e: Event, r: RowKey)
    requires Enabled(s, e)
  {
    && e.Insert?
    && var m := s.submits[e.k].msg;
       || (IsBatchWrite(m) && m.db.Postgres? && RowOf(m) == r && r in s.rows)
       || StrayTo(m, r)
  }

  // What a step may do to a row on behalf of the submission it is about.
  ghost predicate OwnFacts(r: RowKey, s: State, t: State, k: nat)
    requires k < |s.submits| == |t.submits|
  {
    && (r in s.rows ==> r in t.rows)
    && (r in s.rows && !Active(s, k, r) ==> t.rows[r] == s.rows[r] && !Active(t, k, r))
    && (Active(t, k, r) ==> r in t.rows && t.rows[r] != Confirmed)
  }

  ghost predicate StaysConfirmed(r: RowKey, s: State, t: State) {
    r in s.rows && s.rows[r] == Confirmed ==> r in t.rows && t.rows[r] == Confirmed
  }

  lemma OwnChange(r: RowKey, s: State, t: State, k: nat)
    requires OwnerInv(r, s) && k < |s.submits| == |t.submits| && OwnFacts(r, s, t, k)
    requires forall l :: 0 <= l < |s.submits| && l != k ==> (Active(t, l, r) <==> Active(s, l, r))
    ensures OwnerInv(r, t) && StaysConfirmed(r, s, t)
  {
    forall l | 0 <= l < |t.submits| && Active(t, l, r) ensures r in t.rows && t.rows[r] != Confirmed {
      if l != k {
        assert Active(s, l, r);
      }
    }
    assert Active(t, k, r) && r in s.rows ==> Active(s, k, r);
    forall l, m | 0 <= l < |t.submits| && 0 <= m < |t.submits| && Active(t, l, r) && Active(t, m, r) ensures l == m {
      if l != k {
        assert Active(s, l, r);
      }
      if m != k {
        assert Active(s, m, r);
      }
    }
  }

  lemma StorageOwnFacts(r: RowKey, s: State, e: Event)
    requires OwnerInv(r, s) && Enabled(s, e) && (e.Throws? || e.Insert? || e.Anchor?) && !Disturbs(s, e, r)
    ensures |Step(s, e).submits| == |s.submits| && OwnFacts(r, s, Step(s, e), e.k)
  {
    assert Active(s, e.k, r) ==> r in s.rows && s.rows[r] != Confirmed;
  }

  lemma EndingOwnFacts(r: RowKey, s: State, e: Event)
    requires OwnerInv(r, s) && AnswersInv(s) && Enabled(s, e) && (e.Update? || e.Finish?)
    ensures |Step(s, e).submits| == |s.submits| && OwnFacts(r, s, Step(s, e), e.k)
  {
    assert AnswerKept(s.submits[e.k]);
    assert Active(s, e.k, r) ==> r in s.rows && s.rows[r] != Confirmed;
  }

  lemma ConfirmOwnFacts(r: RowKey, s: State, e: Event)
    requires OwnerInv(r, s) && LinksInv(s) && Enabled(s, e) && (e.Check? || e.Record?)
    ensures s.confirms[e.j].origin < |Step(s, e).submits| == |s.submits|
    ensures OwnFacts(r, s, Step(s, e), s.confirms[e.j].origin)
  {
    assert Linked(s, e.j);
    var k := s.confirms[e.j].origin;
    assert Active(s, k, r) ==> r in s.rows && s.rows[r] != Confirmed;
  }

  lemma StorageLeavesOthers(r: RowKey, s: State, e: Event)
    requires Enabled(s, e) && (e.Throws? || e.Insert? || e.Anchor? || e.Update?)
    ensures |Step(s, e).submits| == |s.submits|
    ensures forall l :: 0 <= l < |s.submits| && l != e.k ==> (Active(Step(s, e), l, r) <==> Active(s, l, r))
  {
    var t := Step(s, e);
    assert t.confirms == s.confirms;
    forall l | 0 <= l < |s.submits| && l != e.k ensures Active(t, l, r) <==> Active(s, l, r) {
      assert t.submits[l] == s.submits[l];
    }
  }

  lemma SubmitLeavesOthers(r: RowKey, s: State, e: Event)
    requires LinksInv(s) && Enabled(s, e) && (e.Throws? || e.Insert? || e.Anchor? || e.Update? || e.Finish?)
    ensures |Step(s, e).submits| == |s.submits|
    ensures forall l :: 0 <= l < |s.submits| && l != e.k ==> (Active(Step(s, e), l, r) <==> Active(s, l, r))
  {
    if !e.Finish? {
      StorageLeavesOthers(r, s, e);
    }
  }

  lemma ConfirmLeavesOthers(r: RowKey, s: State, e: Event)
    requires LinksInv(s) && Enabled(s, e) && (e.Check? || e.Record?)
    ensures |Step(s, e).submits| == |s.submits|
    ensures forall l :: 0 <= l < |s.submits| && l != s.confirms[e.j].origin ==>
      (Active(Step(s, e), l, r) <==> Active(s, l, r))
  {
    assert Linked(s, e.j);
  }

  lemma PublishKeepsOwner(r: RowKey, s: State, m: SubmitMessage)
    requires OwnerInv(r, s)
    ensures OwnerInv(r, Step(s, Publish(m)))
  {
    var t := Step(s, Publish(m));
    forall k | 0 <= k < |t.submits| ensures Active(t, k, r) <==> k < |s.submits| && Active(s, k, r) {}
  }

  // A confirmed row stays confirmed unless the step disturbs it.
  lemma StepKeepsConfirmed(r: RowKey, s: State, e: Event)
    requires OwnerInv(r, s) && LinksInv(s) && AnswersInv(s) && Enabled(s, e) && !Disturbs(s, e, r)
    ensures OwnerInv(r, Step(s, e)) && StaysConfirmed(r, s, Step(s, e))
  {
    if e.Publish? {
      PublishKeepsOwner(r, s, e.msg);
    } else if e.Check? || e.Record? {
      ConfirmOwnFacts(r, s, e);
      ConfirmLeavesOthers(r, s, e);
      OwnChange(r, s, Step(s, e), s.confirms[e.j].origin);
    } else {
      if e.Update? || e.Finish? {
        EndingOwnFacts(r, s, e);
      } else {
        StorageOwnFacts(r, s, e);
      }
      SubmitLeavesOthers(r, s, e);
      OwnChange(r, s, Step(s, e), e.k);
    }
  }

  // ---------------------------------------------------------------- whole runs

  ghost predicate Inv(s: State) {
    LinksInv(s) && AnswersInv(s) && RepliesInv(s) && MeaningInv(s) && EvidenceInv(s)
  }

  lemma StepKeepsInv(s: State, e: Event)
    requires Inv(s) && Enabled(s, e)
    ensures Inv(Step(s, e))
  {
    StepKeepsLinks(s, e);
    StepKeepsAnswers(s, e);
    StepKeepsReplies(s, e);
    StepKeepsMeaning(s, e);
    StepKeepsEvidence(s, e);
  }

  // A run is the list of its states with the events between them.
  ghost predicate IsRun(states: seq<State>, es: seq<Event>) {
    && |states| == |es| + 1
    && states[0] == FRESH
    && forall i :: 0 <= i < |es| ==> Enabled(states[i], es[i]) && states[i + 1] == Step(states[i], es[i])
  }

  lemma {:induction false} EveryRun(states: seq<State>, es: seq<Event>, n: nat)
    requires IsRun(states, es) && n <= |es|
    ensures Inv(states[n])
  {
    if n > 0 {
      EveryRun(states, es, n - 1);
      StepKeepsInv(states[n - 1], es[n - 1]);
    }
  }

  // No write up to moment n disturbs the row.
  ghost predicate Undisturbed(states: seq<State>, es: seq<Event>, n: nat, r: RowKey)
    requires IsRun(states, es) && n <= |es|
  {
    forall i :: 0 <= i < n ==> !Disturbs(states[i], es[i], r)
  }

  lemma {:induction false} EveryRunOwns(states: seq<State>, es: seq<Event>, n: nat, r: RowKey)
    requires IsRun(states, es) && n <= |es| && Undisturbed(states, es, n, r)
    ensures OwnerInv(r, states[n])
  {
    if n > 0 {
      EveryRunOwns(states, es, n - 1, r);
      EveryRun(states, es, n - 1);
      StepKeepsConfirmed(r, states[n - 1], es[n - 1]);
    }
  }

  // Once confirmed, always confirmed, while nothing disturbs the row.
  lemma {:induction false} ConfirmedStays(states: seq<State>, es: seq<Event>, m: nat, n: nat, r: RowKey)
    requires IsRun(states, es) && m <= n <= |es| && Undisturbed(states, es, n, r)
    requires r in states[m].rows && states[m].rows[r] == Confirmed
    ensures r in states[n].rows && states[n].rows[r] == Confirmed
    decreases n
  {
    if m < n {
      ConfirmedStays(states, es, m, n - 1, r);
      EveryRunOwns(states, es, n - 1, r);
      EveryRun(states, es, n - 1);
      StepKeepsConfirmed(r, states[n - 1], es[n - 1]);
    }
  }

  // Rows of the anchored tables are never disturbed, so they stay confirmed in every run.
  lemma AnchoredStaysConfirmed(states: seq<State>, es: seq<Event>, m: nat, n: nat, r: RowKey)
    requires IsRun(states, es) && m <= n <= |es| && r.table.AnchoredTable?
    requires r in states[m].rows && states[m].rows[r] == Confirmed
    ensures r in states[n].rows && states[n].rows[r] == Confirmed
  {
    ConfirmedStays(states, es, m, n, r);
  }

  // When every submission and confirmation has been worked off, each submission that wants a
  // reply has had exactly one, and the others none.
  lemma OneReplyEach(states: seq<State>, es: seq<Event>)
    requires IsRun(states, es)
    requires var s := states[|es|];
      && (forall k :: 0 <= k < |s.submits| ==> var p := s.submits[k].phase; p.Replied? || p.Handed? || p.Aborted?)
      && (forall j :: 0 <= j < |s.confirms| ==> s.confirms[j].phase.Closed?)
    ensures var s := states[|es|];
      forall k :: 0 <= k < |s.submits| ==> Replies(s.replies, k) == if s.submits[k].msg.wantsReply then 1 else 0
  {
    EveryRun(states, es, |es|);
  }

  // A row is confirmed only after a check confirmed it, and failed only after the chain
  // refused it or a check found it failed.
  lemma StatusHasEvidence(states: seq<State>, es: seq<Event>, r: RowKey)
    requires IsRun(states, es) && r in states[|es|].rows && states[|es|].rows[r] != Pending
    ensures Evidence(states[|es|], r, states[|es|].rows[r])
  {
    EveryRun(states, es, |es|);
  }

  lemma {:induction false} CountedReply(rs: seq<Reply>, k: nat) returns (i: nat)
    requires Replies(rs, k) > 0
    ensures i < |rs| && rs[i].origin == k
  {
    i := |rs| - 1;
    if rs[i].origin != k {
      i := CountedReply(rs[..|rs| - 1], k);
    }
  }

  // Each closed confirmation that wants a reply has had exactly one, and it is a success
  // exactly when the chain confirmed and, for a hybrid row, the update went through.
  lemma ConfirmReplyIff(states: seq<State>, es: seq<Event>, j: nat) returns (i: nat)
    requires IsRun(states, es) && j < |states[|es|].confirms|
    requires states[|es|].confirms[j].wantsReply && states[|es|].confirms[j].phase.Closed?
    ensures var (s, c) := (states[|es|], states[|es|].confirms[j]);
      && Replies(s.replies, c.origin) == 1
      && i < |s.replies| && s.replies[i].origin == c.origin
      && (s.replies[i].success <==> c.last.confirmed && (c.strategy.ChainOnly? || c.phase.up))
  {
    EveryRun(states, es, |es|);
    var s := states[|es|];
    assert Linked(s, j);
    i := CountedReply(s.replies, s.confirms[j].origin);
    assert Meaning(s, s.replies[i]);
  }

  // The chain confirmed the submission and the confirm handler recorded it.
  predicate WriteConfirmed(s: State, k: nat)
    requires k < |s.submits|
  {
    match s.submits[k].phase
    case Handed(j) => j < |s.confirms| && ConfirmSays(s.confirms[j])
    case _ => false
  }

  // The write failed without an exception, and the submit handler has replied itself.
  predicate FailedQuietly(u: Submission) {
    u.phase.Replied? && WriteFailed(u, u.phase.result)
  }

  // A success goes out for a write that was not confirmed exactly when the write failed without
  // an exception: the submit handler replies itself in no other case, and always does after
  // the chain refused.
  lemma FalseSuccessIff(states: seq<State>, es: seq<Event>, i: nat)
    requires IsRun(states, es) && i < |states[|es|].replies|
    ensures var (s, r) := (states[|es|], states[|es|].replies[i]);
      && r.origin < |s.submits|
      && var u := s.submits[r.origin];
         && (r.success && !WriteConfirmed(s, r.origin) <==> FailedQuietly(u))
         && (u.phase.Replied? ==> FailedQuietly(u))
         && (u.anchor.Some? && !u.anchor.value.success ==> u.phase.Replied?)
  {
    EveryRun(states, es, |es|);
    var (s, r) := (states[|es|], states[|es|].replies[i]);
    assert Meaning(s, r);
    assert AnswerKept(s.submits[r.origin]);
  }

  // At the end of every submit handler that wants a reply, wherever it stands in a run: it
  // replies a success exactly when the write failed.
  lemma DirectSuccessIff(states: seq<State>, es: seq<Event>, k: nat, up: bool)
    requires IsRun(states, es) && Enabled(states[|es|], Finish(k, up)) && states[|es|].submits[k].msg.wantsReply
    ensures Step(states[|es|], Finish(k, up)).replies == states[|es|].replies + [Reply(k, true)] <==>
      WriteFailed(states[|es|].submits[k], states[|es|].submits[k].phase.result)
  {
    EveryRun(states, es, |es|);
    var (s, t) := (states[|es|], Step(states[|es|], Finish(k, up)));
    assert AnswerKept(s.submits[k]);
    assert t.replies != s.replies ==> t.replies[|s.replies|].success == !HandsOff(s.submits[k].phase.result);
  }

  // ---------------------------------------------------------------- what is written to a row

  // A write that has passed its insert and is still at work.
  predicate HasInserted(u: Submission) {
    && KeepsStatus(u.msg)
    && match u.phase
       case Anchoring => true
       case Updating(_) => true
       case Stored(r) => HandsOff(r)
       case Handed(_) => true
       case _ => false
  }

  lemma StepKeepsRow(s: State, e: Event, k: nat)
    requires AnswersInv(s) && Enabled(s, e) && k < |Step(s, e).submits| && HasInserted(Step(s, e).submits[k])
    requires k < |s.submits| && HasInserted(s.submits[k]) ==> RowOf(s.submits[k].msg) in s.rows
    ensures RowOf(Step(s, e).submits[k].msg) in Step(s, e).rows
  {
    if k < |s.submits| {
      assert AnswerKept(s.submits[k]);
    }
  }

  // Such a write has its row.
  lemma {:induction false} RowIsThere(states: seq<State>, es: seq<Event>, n: nat, k: nat)
    requires IsRun(states, es) && n <= |es| && k < |states[n].submits| && HasInserted(states[n].submits[k])
    ensures RowOf(states[n].submits[k].msg) in states[n].rows
  {
    if n > 0 {
      var s := states[n - 1];
      if k < |s.submits| && HasInserted(s.submits[k]) {
        RowIsThere(states, es, n - 1, k);
      }
      EveryRun(states, es, n - 1);
      StepKeepsRow(s, es[n - 1], k);
    }
  }

  // A single entry in a batched Postgres table, which has no status column.
  predicate HasNoColumn(m: SubmitMessage) {
    m.strategy.BatchedHybrid? && !m.isBatch && m.db.Postgres?
  }

  // What an insert does: a new row is pending, and the write goes on to the chain; a key that is
  // taken ends the write, but for the record of a batch in Postgres, which stays as it is.
  lemma InsertWrites(s: State, k: nat, how: InsertOutcome)
    requires Enabled(s, Insert(k, how))
    ensures var (t, m) := (Step(s, Insert(k, how)), s.submits[k].msg);
      var taken := RowOf(m) in s.rows;
      if how.InsertFails? || (taken && !(m.strategy.BatchedHybrid? && m.isBatch && m.db.Postgres?)) then
        t.rows == s.rows && t.submits[k].phase == Stored(StorageResult(false, None, None))
      else
        && t.rows == (if taken || HasNoColumn(m) then s.rows else s.rows[RowOf(m) := Pending])
        && t.submits[k].phase == (if how.LinkFails? then Stored(StorageResult(false, None, None)) else Anchoring)
  {}

  // What the chain's answer leads to: it is the result of a chain write, and the status that
  // every other write still has to record.
  lemma AnswerLeads(s: State, k: nat, a: AnchorResult)
    requires Enabled(s, Anchor(k, a))
    ensures var u := Step(s, Anchor(k, a)).submits[k];
      && u.anchor == Some(a)
      && u.phase == if u.msg.strategy.ChainOnly? then Stored(StorageResult(a.success, a.txId, a.confirmed)) else Updating(a)
  {}

  lemma {:induction false} StorageOnly(states: seq<State>, es: seq<Event>, n: nat, k: nat)
    requires IsRun(states, es) && n <= |es| && k < |states[n].submits|
    requires states[n].submits[k].phase.Anchoring? || states[n].submits[k].phase.Updating?
    ensures var m := states[n].submits[k].msg; KeepsStatus(m) || HasNoColumn(m)
  {
    if n > 0 && k < |states[n - 1].submits| {
      assert states[n].submits[k].msg == states[n - 1].submits[k].msg;
      if states[n - 1].submits[k].phase.Anchoring? {
        StorageOnly(states, es, n - 1, k);
      } else if states[n - 1].submits[k].phase.Updating? {
        StorageOnly(states, es, n - 1, k);
      }
    }
  }

  // In every run, the last update of a write leaves its own row confirmed exactly when the chain
  // had confirmed, pending when it had only accepted, and failed when it had refused; other rows
  // stay.  The result of a batch says whether the chain accepted; that of a single entry is a
  // success even if it refused.
  lemma UpdateWrites(states: seq<State>, es: seq<Event>, n: nat, k: nat)
    requires IsRun(states, es) && n < |es| && es[n] == Update(k, true) && !HasNoColumn(states[n].submits[k].msg)
    ensures var (s, t, u) := (states[n], states[n + 1], states[n].submits[k]);
      && u.anchor.Some? && RowOf(u.msg) in t.rows
      && var a := u.anchor.value;
         && (t.rows[RowOf(u.msg)] == Confirmed <==> a.confirmed == Some(true))
         && (t.rows[RowOf(u.msg)] == Failed <==> a.confirmed != Some(true) && !a.success)
         && t.rows.Keys == s.rows.Keys && (forall r :: r in s.rows && r != RowOf(u.msg) ==> t.rows[r] == s.rows[r])
         && t.submits[k].phase == Stored(StorageResult(u.msg.isBatch ==> a.success, a.txId, a.confirmed))
  {
    EveryRun(states, es, n);
    StorageOnly(states, es, n, k);
    RowIsThere(states, es, n, k);
    assert AnswerKept(states[n].submits[k]);
  }

  // An update that fails, or has no column to write to, ends the write with no result.
  lemma UpdateFails(s: State, k: nat, up: bool)
    requires Enabled(s, Update(k, up)) && (!up || HasNoColumn(s.submits[k].msg))
    ensures var t := Step(s, Update(k, up));
      t.rows == s.rows && t.submits[k].phase == Stored(StorageResult(false, None, None))
  {}

  // What the end of a submit handler does, where the queue takes the message: what the chain
  // accepted and did not confirm yet is handed over, with its transaction and the row it is to
  // confirm; everything else is replied at once.
  lemma FinishHandsOver(states: seq<State>, es: seq<Event>, n: nat, k: nat)
    requires IsRun(states, es) && n < |es| && es[n] == Finish(k, true)
    ensures var (s, t, u) := (states[n], states[n + 1], states[n].submits[k]);
      var over := u.phase.result != NO_RESULT && u.anchor.Some? && u.anchor.value.success;
      && (t.submits[k].phase == (if over then Handed(|s.confirms|) else Replied(u.phase.result)))
      && |t.confirms| == |s.confirms| + (if over then 1 else 0) && s.confirms <= t.confirms
      && (over ==>
            var c := t.confirms[|s.confirms|];
            && c.origin == k && Some(c.txHash) == u.anchor.value.txId && c.phase == Checking(0)
            && (!IsStray(u.msg) && !u.msg.strategy.ChainOnly? ==> c.row == RowOf(u.msg)))
  {
    EveryRun(states, es, n);
    assert AnswerKept(states[n].submits[k]);
    StrategyFits(states, es, n, k);
  }

  lemma {:induction false} StrategyFits(states: seq<State>, es: seq<Event>, n: nat, k: nat)
    requires IsRun(states, es) && n <= |es| && k < |states[n].submits| && !states[n].submits[k].phase.Queued?
    requires !states[n].submits[k].phase.Aborted?
    ensures var m := states[n].submits[k].msg; !(m.strategy.AnchoredHybrid? && m.isBatch)
  {
    if n > 0 && k < |states[n - 1].submits| {
      assert states[n].submits[k].msg == states[n - 1].submits[k].msg;
      if !states[n - 1].submits[k].phase.Queued? && !states[n - 1].submits[k].phase.Aborted? {
        StrategyFits(states, es, n - 1, k);
      }
    }
  }

  // A check counts, and ends the confirmation's polling when it is decisive or the sixtieth.
  lemma CheckCounts(s: State, j: nat, found: CheckResult)
    requires Enabled(s, Check(j, found)) && LinksInv(s)
    ensures var (c, d) := (s.confirms[j], Step(s, Check(j, found)).confirms[j]);
      && d == c.(phase := d.phase, last := found)
      && d.phase == (if found.confirmed || !found.pending || c.phase.attempts == 59 then Checked else Checking(c.phase.attempts + 1))
  {
    assert Linked(s, j);
  }

  // In every run, the update at the end of a confirmation leaves the row it is about confirmed
  // exactly when the last check did, failed when it found the transaction neither confirmed nor
  // pending, and pending else; other rows stay.  Only the row that a stray entry names can be missing.
  lemma RecordWrites(states: seq<State>, es: seq<Event>, n: nat, j: nat)
    requires IsRun(states, es) && n < |es| && es[n] == Record(j, true) && !states[n].confirms[j].strategy.ChainOnly?
    ensures var (s, t, c) := (states[n], states[n + 1], states[n].confirms[j]);
      && c.origin < |s.submits| && (c.row !in s.rows ==> IsStray(s.submits[c.origin].msg))
      && (c.row in s.rows ==>
            && c.row in t.rows
            && (t.rows[c.row] == Confirmed <==> c.last.confirmed)
            && (t.rows[c.row] == Failed <==> !c.last.confirmed && !c.last.pending))
      && t.rows.Keys == s.rows.Keys && (forall r :: r in s.rows && r != c.row ==> t.rows[r] == s.rows[r])
  {
    EveryRun(states, es, n);
    assert Linked(states[n], j);
    RowIsThere(states, es, n, states[n].confirms[j].origin);
  }

  // ---------------------------------------------------------------- success and the row

  // The confirmations that confirmed the row have left it confirmed.
  ghost predicate DoneInv(r: RowKey, s: State) {
    forall j :: 0 <= j < |s.confirms| && ConfirmSays(s.confirms[j]) && !s.confirms[j].strategy.ChainOnly? && s.confirms[j].row == r ==>
      r in s.rows && s.rows[r] == Confirmed
  }

  // No stray entry is on its way to this row.
  ghost predicate NoStray(r: RowKey, s: State) {
    forall k :: 0 <= k < |s.submits| && StrayTo(s.submits[k].msg, r) ==> !s.submits[k].phase.Handed? && !Active(s, k, r)
  }

  predicate StrayTo(m: SubmitMessage, r: RowKey) {
    IsStray(m) && m.db.Mongo? && ConfirmRow(m) == r
  }

  lemma StepKeepsNoStray(r: RowKey, s: State, e: Event)
    requires NoStray(r, s) && LinksInv(s) && AnswersInv(s) && Enabled(s, e) && !Disturbs(s, e, r)
    ensures NoStray(r, Step(s, e))
  {
    var t := Step(s, e);
    forall k | 0 <= k < |t.submits| && StrayTo(t.submits[k].msg, r)
      ensures !t.submits[k].phase.Handed? && !Active(t, k, r)
    {
      if k < |s.submits| {
        assert !s.submits[k].phase.Handed? && !Active(s, k, r);
        assert AnswerKept(s.submits[k]);
      }
    }
  }

  lemma StepKeepsDone(r: RowKey, s: State, e: Event)
    requires DoneInv(r, s) && OwnerInv(r, s) && NoStray(r, s) && LinksInv(s) && AnswersInv(s) && Enabled(s, e)
    requires !Disturbs(s, e, r)
    ensures DoneInv(r, Step(s, e))
  {
    StepKeepsConfirmed(r, s, e);
    var t := Step(s, e);
    forall j | 0 <= j < |t.confirms| && ConfirmSays(t.confirms[j]) && !t.confirms[j].strategy.ChainOnly? && t.confirms[j].row == r
      ensures r in t.rows && t.rows[r] == Confirmed
    {
      if e.Record? && e.j == j {
        assert Linked(s, j);
        assert Active(s, s.confirms[j].origin, r);
      } else {
        assert j < |s.confirms| && t.confirms[j].phase == s.confirms[j].phase && t.confirms[j].last == s.confirms[j].last;
      }
    }
  }

  lemma {:induction false} EveryRunDone(states: seq<State>, es: seq<Event>, n: nat, r: RowKey)
    requires IsRun(states, es) && n <= |es| && Undisturbed(states, es, n, r)
    ensures DoneInv(r, states[n]) && NoStray(r, states[n])
  {
    if n > 0 {
      EveryRunDone(states, es, n - 1, r);
      EveryRun(states, es, n - 1);
      EveryRunOwns(states, es, n - 1, r);
      StepKeepsDone(r, states[n - 1], es[n - 1]);
      StepKeepsNoStray(r, states[n - 1], es[n - 1]);
    }
  }

  // A success reply of a hybrid strategy's confirm handler means that the row is confirmed,
  // then and ever after, while nothing disturbs it.
  lemma SuccessMeansConfirmed(states: seq<State>, es: seq<Event>, i: nat, j: nat)
    requires IsRun(states, es) && i < |states[|es|].replies| && j < |states[|es|].confirms|
    requires var (s, c) := (states[|es|], states[|es|].confirms[j]);
      && s.replies[i] == Reply(c.origin, true) && !c.strategy.ChainOnly? && Undisturbed(states, es, |es|, c.row)
    ensures var (s, c) := (states[|es|], states[|es|].confirms[j]);
      c.row in s.rows && s.rows[c.row] == Confirmed
  {
    EveryRun(states, es, |es|);
    var (s, c) := (states[|es|], states[|es|].confirms[j]);
    assert Linked(s, j);
    assert Meaning(s, s.replies[i]);
    EveryRunDone(states, es, |es|, c.row);
  }

  // ---------------------------------------------------------------- when a confirmed row is lost

  // The last update of a storage write, or a check that does not confirm, on the row.
  predicate Rewrites(s: State, e: Event, r: RowKey)
    requires Enabled(s, e)
  {
    || (e.Update? && e.up && KeepsStatus(s.submits[e.k].msg) && RowOf(s.submits[e.k].msg) == r)
    || (e.Record? && e.up && !s.confirms[e.j].strategy.ChainOnly? && s.confirms[e.j].row == r
        && !s.confirms[e.j].last.confirmed)
  }

  lemma RewritesIff(s: State, e: Event, r: RowKey)
    requires AnswersInv(s) && Enabled(s, e) && r in s.rows && s.rows[r] == Confirmed
    ensures r in Step(s, e).rows
    ensures Step(s, e).rows[r] != Confirmed <==> Rewrites(s, e, r)
  {
    if e.Update? {
      assert AnswerKept(s.submits[e.k]);
    }
  }

  // A confirmed row is lost in exactly those steps, and only after a write that disturbs it.
  lemma LostIff(states: seq<State>, es: seq<Event>, n: nat, r: RowKey)
    requires IsRun(states, es) && n < |es| && r in states[n].rows && states[n].rows[r] == Confirmed
    ensures r in states[n + 1].rows
    ensures states[n + 1].rows[r] != Confirmed <==> Rewrites(states[n], es[n], r)
    ensures Rewrites(states[n], es[n], r) ==> exists i :: 0 <= i < n && Disturbs(states[i], es[i], r)
  {
    EveryRun(states, es, n);
    RewritesIff(states[n], es[n], r);
    if Undisturbed(states, es, n, r) {
      EveryRunOwns(states, es, n, r);
      if !Disturbs(states[n], es[n], r) {
        StepKeepsConfirmed(r, states[n], es[n]);
      }
    }
  }

  lemma {:induction false} MessageStays(states: seq<State>, es: seq<Event>, m: nat, n: nat, k: nat)
    requires IsRun(states, es) && m <= n <= |es| && k < |states[m].submits|
    ensures k < |states[n].submits| && states[n].submits[k].msg == states[m].submits[k].msg
    ensures forall r :: r in states[m].rows ==> r in states[n].rows
    decreases n
  {
    if m < n {
      MessageStays(states, es, m, n - 1, k);
    }
  }

  // Conversely, a batch that is written through under a root of the table leaves the row
  // unconfirmed, whatever its status was and whatever happens in between.
  lemma DisturbedIsLost(states: seq<State>, es: seq<Event>, m: nat, n: nat, k: nat, how: InsertOutcome, r: RowKey)
    requires IsRun(states, es) && m < n < |es| && es[m] == Insert(k, how) && es[n] == Update(k, true)
    requires Disturbs(states[m], es[m], r) && IsBatchWrite(states[m].submits[k].msg)
    ensures r in states[n + 1].rows && states[n + 1].rows[r] != Confirmed
  {
    MessageStays(states, es, m, n, k);
    EveryRun(states, es, n);
    assert AnswerKept(states[n].submits[k]);
  }

  // The other kind: a stray Mongo entry whose own transaction is not confirmed leaves the batch
  // unconfirmed under whose root it was written.
  lemma StrayIsLost(states: seq<State>, es: seq<Event>, m: nat, n: nat, k: nat, how: InsertOutcome, j: nat, r: RowKey)
    requires IsRun(states, es) && m < n < |es| && es[m] == Insert(k, how) && es[n] == Record(j, true)
    requires StrayTo(states[m].submits[k].msg, r) && r in states[m].rows
    requires states[n].confirms[j].origin == k && !states[n].confirms[j].last.confirmed
    ensures Disturbs(states[m], es[m], r)
    ensures r in states[n + 1].rows && states[n + 1].rows[r] != Confirmed
  {
    MessageStays(states, es, m, n, k);
    EveryRun(states, es, n);
    assert Linked(states[n], j);
  }

  lemma Extended(states: seq<State>, es: seq<Event>, e: Event) returns (more: seq<State>, fs: seq<Event>)
    requires IsRun(states, es) && Enabled(states[|es|], e)
    ensures IsRun(more, fs) && fs == es + [e] && more == states + [Step(states[|es|], e)]
  {
    more, fs := states + [Step(states[|es|], e)], es + [e];
    forall i | 0 <= i < |fs| ensures Enabled(more[i], fs[i]) && more[i + 1] == Step(more[i], fs[i]) {
      if i < |es| {
        assert more[i] == states[i] && more[i + 1] == states[i + 1] && fs[i] == es[i];
      }
    }
  }

  // A batch submitted, confirmed and closed.
  lemma ConfirmedOnce(m: SubmitMessage) returns (states: seq<State>, es: seq<Event>)
    requires IsBatchWrite(m)
    ensures IsRun(states, es)
    ensures states[|es|].rows == map[RowOf(m) := Confirmed] && |states[|es|].submits| == |states[|es|].confirms| == 1
  {
    var a := AnchorResult(true, Some("t"), Some(false));
    states, es := [FRESH], [];
    states, es := Extended(states, es, Publish(m));
    assert states[|es|] == State(map[], [Submission(m, Queued, None)], [], []);
    states, es := Extended(states, es, Insert(0, InsertWorks));
    assert states[|es|] == State(map[RowOf(m) := Pending], [Submission(m, Anchoring, None)], [], []);
    states, es := Extended(states, es, Anchor(0, a));
    states, es := Extended(states, es, Update(0, true));
    states, es := ConfirmLast(states, es, m);
  }

  lemma ConfirmLast(states: seq<State>, es: seq<Event>, m: SubmitMessage) returns (more: seq<State>, fs: seq<Event>)
    requires IsRun(states, es) && IsBatchWrite(m)
    requires var a := AnchorResult(true, Some("t"), Some(false));
      states[|es|] == State(map[RowOf(m) := Pending], [Submission(m, Stored(ResultOf(m, a)), Some(a))], [], [])
    ensures IsRun(more, fs)
    ensures more[|fs|].rows == map[RowOf(m) := Confirmed] && |more[|fs|].submits| == |more[|fs|].confirms| == 1
  {
    more, fs := Extended(states, es, Finish(0, true));
    assert |more[|fs|].confirms| == 1 && more[|fs|].confirms[0].phase == Checking(0);
    more, fs := Extended(more, fs, Check(0, CheckResult(true, false)));
    more, fs := Extended(more, fs, Record(0, true));
  }

  // A run in which a second batch under the same root takes a confirmed row back.
  lemma ConfirmedCanBeLost(m: SubmitMessage) returns (states: seq<State>, es: seq<Event>, n: nat)
    requires IsBatchWrite(m) && m.db.Postgres?
    ensures IsRun(states, es) && n <= |es|
    ensures states[n].rows == map[RowOf(m) := Confirmed] && states[|es|].rows == map[RowOf(m) := Pending]
  {
    states, es := ConfirmedOnce(m);
    n := |es|;
    ghost var s := states[n];
    states, es := Extended(states, es, Publish(m));
    assert states[|es|].submits[1] == Submission(m, Queued, None);
    states, es := Extended(states, es, Insert(1, InsertWorks));
    assert states[|es|].rows == s.rows && states[|es|].submits[1] == Submission(m, Anchoring, None);
    states, es := Extended(states, es, Anchor(1, AnchorResult(true, Some("u"), Some(false))));
    states, es := Extended(states, es, Update(1, true));
  }

  // ---------------------------------------------------------------- stray entries

  // A stray entry under the root of a confirmed batch, up to the moment when it is handed over.
  lemma StrayHandedOver(m: SubmitMessage, stray: SubmitMessage) returns (states: seq<State>, es: seq<Event>)
    requires IsBatchWrite(m) && m.db.Mongo? && StrayTo(stray, RowOf(m))
    ensures IsRun(states, es)
    ensures var s := states[|es|];
      && s.rows == map[RowOf(m) := Confirmed, RowOf(stray) := Pending]
      && |s.submits| == |s.confirms| == 2 && s.submits[1].msg == stray && s.submits[1].phase == Handed(1)
      && s.confirms[1].origin == 1 && s.confirms[1].row == RowOf(m) && s.confirms[1].strategy.BatchedHybrid?
      && s.confirms[1].wantsReply == stray.wantsReply && s.confirms[1].phase == Checking(0)
  {
    var a := AnchorResult(true, Some("u"), Some(false));
    states, es := ConfirmedOnce(m);
    ghost var s := states[|es|];
    states, es := Extended(states, es, Publish(stray));
    assert states[|es|].submits[1] == Submission(stray, Queued, None);
    states, es := Extended(states, es, Insert(1, InsertWorks));
    assert states[|es|].rows == map[RowOf(m) := Confirmed, RowOf(stray) := Pending];
    assert states[|es|].submits[1] == Submission(stray, Anchoring, None) && states[|es|].confirms == s.confirms;
    states, es := Extended(states, es, Anchor(1, a));
    states, es := Extended(states, es, Update(1, true));
    assert states[|es|].rows == map[RowOf(m) := Confirmed, RowOf(stray) := Pending];
    assert states[|es|].submits[1] == Submission(stray, Stored(ResultOf(stray, a)), Some(a));
    states, es := Extended(states, es, Finish(1, true));
  }

  // If its own transaction fails, the batch's row ends failed and the stray row pending; if it
  // is confirmed, the stray entry is told so, while its row stays pending.
  lemma StrayRun(m: SubmitMessage, stray: SubmitMessage, found: CheckResult) returns (states: seq<State>, es: seq<Event>, n: nat)
    requires IsBatchWrite(m) && m.db.Mongo? && StrayTo(stray, RowOf(m)) && stray.wantsReply && Decisive(found)
    ensures IsRun(states, es) && n <= |es|
    ensures RowOf(m) in states[n].rows && states[n].rows[RowOf(m)] == Confirmed
    ensures states[|es|].rows == map[RowOf(m) := CheckStatus(found), RowOf(stray) := Pending]
    ensures states[|es|].replies == states[n].replies + [Reply(1, found.confirmed)]
  {
    states, es := StrayHandedOver(m, stray);
    n := |es|;
    ghost var s := states[n];
    states, es := Extended(states, es, Check(1, found));
    assert states[|es|].rows == s.rows && states[|es|].replies == s.replies;
    states, es := Extended(states, es, Record(1, true));
  }

  lemma HandedKeepsStatus(s: State, k: nat)
    requires LinksInv(s) && k < |s.submits| && s.submits[k].phase.Handed?
    ensures s.submits[k].msg.strategy.ChainOnly? || KeepsStatus(s.submits[k].msg)
  {
    assert Linked(s, s.submits[k].phase.j);
  }

  // In every run, a single entry sent to a batched storage in Postgres is never handed over:
  // its write fails, and it is told a success unless the handler threw.
  lemma PostgresStrayFails(states: seq<State>, es: seq<Event>, k: nat)
    requires IsRun(states, es) && k < |states[|es|].submits|
    requires IsStray(states[|es|].submits[k].msg) && states[|es|].submits[k].msg.db.Postgres?
    ensures var u := states[|es|].submits[k];
      && !u.phase.Handed?
      && (u.phase.Replied? ==> u.phase.result == NO_RESULT)
      && (forall i :: 0 <= i < |states[|es|].replies| && states[|es|].replies[i].origin == k ==>
            (states[|es|].replies[i].success <==> u.phase.Replied?))
  {
    EveryRun(states, es, |es|);
    var s := states[|es|];
    assert AnswerKept(s.submits[k]);
    if s.submits[k].phase.Handed? {
      HandedKeepsStatus(s, k);
    }
    forall i | 0 <= i < |s.replies| && s.replies[i].origin == k
      ensures s.replies[i].success <==> s.submits[k].phase.Replied?
    {
      assert Meaning(s, s.replies[i]);
    }
  }

  // In Mongo the same entry is handed over, but its confirmation is recorded elsewhere: in no
  // run is a row of a batched table confirmed.
  lemma {:induction false} BatchedRowsNeverConfirmed(states: seq<State>, es: seq<Event>, n: nat, r: RowKey)
    requires IsRun(states, es) && n <= |es| && r.table.BatchedTable?
    ensures r in states[n].rows ==> states[n].rows[r] != Confirmed
  {
    if n > 0 {
      BatchedRowsNeverConfirmed(states, es, n - 1, r);
      EveryRun(states, es, n - 1);
      BatchedNotConfirmed(states[n - 1], es[n - 1], r);
    }
  }

  lemma BatchedNotConfirmed(s: State, e: Event, r: RowKey)
    requires LinksInv(s) && AnswersInv(s) && Enabled(s, e) && r.table.BatchedTable?
    requires r in s.rows ==> s.rows[r] != Confirmed
    ensures r in Step(s, e).rows ==> Step(s, e).rows[r] != Confirmed
  {
    if e.Record? {
      assert Linked(s, e.j);
    }
    if e.Update? {
      assert AnswerKept(s.submits[e.k]);
    }
  }

  // ---------------------------------------------------------------- the handlers

  // The loop that asks the chain, at most sixty times.
  method PollTx(answers: nat -> CheckResult) returns (result: CheckResult, checks: nat)
    ensures 1 <= checks <= MAX_RETRIES && result == answers(checks - 1)
    ensures forall i :: 0 <= i < checks - 1 ==> !Decisive(answers(i))
    ensures Decisive(result) || checks == MAX_RETRIES
  {
    result, checks := CheckResult(false, true), 0;
    while checks < MAX_RETRIES
      invariant 0 <= checks <= MAX_RETRIES
      invariant checks > 0 ==> result == answers(checks - 1)
      invariant forall i :: 0 <= i < checks ==> !Decisive(answers(i))
    {
      result := answers(checks);
      checks := checks + 1;
      if result.confirmed || !result.pending {
        break;
      }
    }
  }

  class Subscriber {
    var rows: map<RowKey, Status>
    var submits: seq<Submission>
    var confirms: seq<Confirmation>
    var replies: seq<Reply>

    ghost function Contents(): State
      reads this
    {
      State(rows, submits, confirms, replies)
    }

    constructor ()
      ensures Contents() == FRESH
    {
      rows, submits, confirms, replies := map[], [], [], [];
    }

    method ReplyResult(wanted: bool, origin: nat, success: bool)
      modifies this`replies
      ensures Contents() == Answered(old(Contents()), wanted, origin, success)
    {
      if wanted {
        replies := replies + [Reply(origin, success)];
      }
    }

    // The catch branch of the submit handler, before storage has answered.
    method CatchError(k: nat)
      requires Enabled(Contents(), Throws(k))
      modifies this
      ensures Contents() == Step(old(Contents()), Throws(k))
    {
      var m := submits[k].msg;
      submits := submits[k := submits[k].(phase := Aborted)];
      ReplyResult(m.wantsReply, k, false);
    }

    // The first statements of the storage's write: the row appears, pending.
    method InsertPending(k: nat, how: InsertOutcome)
      requires Enabled(Contents(), Insert(k, how))
      modifies this
      ensures Contents() == Step(old(Contents()), Insert(k, how))
    {
      var u := submits[k];
      var taken := RowOf(u.msg) in rows;
      if how.InsertFails? || (taken && !(IsBatchWrite(u.msg) && u.msg.db.Postgres?)) {
        submits := submits[k := u.(phase := Stored(NO_RESULT))];
        return;
      }
      if KeepsStatus(u.msg) && !taken {
        rows := rows[RowOf(u.msg) := Pending];
      }
      submits := submits[k := u.(phase := if how.LinkFails? then Stored(NO_RESULT) else Anchoring)];
    }

    // The end of the submit handler: hand over to the confirm queue, or reply.
    method EndSubmit(k: nat, publishes: bool)
      requires Enabled(Contents(), Finish(k, publishes))
      modifies this
      ensures Contents() == Step(old(Contents()), Finish(k, publishes))
    {
      var m := submits[k].msg;
      var r := submits[k].phase.result;
      var confirmed := if r.confirmed.Some? then r.confirmed.value else true;
      if Truthy(r.txId) && !confirmed {
        if publishes {
          var c := Confirmation(k, m.strategy, ConfirmRow(m), r.txId.value, m.wantsReply, Checking(0), CheckResult(false, true));
          submits := submits[k := submits[k].(phase := Handed(|confirms|))];
          confirms := confirms + [c];
          return;
        }
        submits := submits[k := submits[k].(phase := Aborted)];
        ReplyResult(m.wantsReply, k, false);
      } else {
        submits := submits[k := submits[k].(phase := Replied(r))];
        ReplyResult(m.wantsReply, k, true);
      }
    }

    // The last statement of the storage's write: the row gets its status.
    method UpdateStatus(k: nat, up: bool)
      requires Enabled(Contents(), Update(k, up))
      modifies this
      ensures Contents() == Step(old(Contents()), Update(k, up))
    {
      var u := submits[k];
      var result := NO_RESULT;
      if up && KeepsStatus(u.msg) {
        if RowOf(u.msg) in rows {
          rows := rows[RowOf(u.msg) := StatusOf(u.phase.anchored)];
        }
        result := ResultOf(u.msg, u.phase.anchored);
      }
      submits := submits[k := u.(phase := Stored(result))];
    }

    // One round of the confirm handler's loop.
    method CheckOnce(j: nat, found: CheckResult)
      requires Enabled(Contents(), Check(j, found))
      modifies this
      ensures Contents() == Step(old(Contents()), Check(j, found))
    {
      var c := confirms[j];
      var n := c.phase.attempts + 1;
      var phase := Checking(n);
      if Decisive(found) || n >= MAX_RETRIES {
        phase := Checked;
      }
      confirms := confirms[j := c.(phase := phase, last := found)];
    }

    // The rest of the confirm handler: update the row of a hybrid strategy, then reply.
    method EndConfirm(j: nat, up: bool)
      requires Enabled(Contents(), Record(j, up))
      modifies this
      ensures Contents() == Step(old(Contents()), Record(j, up))
    {
      var c := confirms[j];
      confirms := confirms[j := c.(phase := Closed(up))];
      var confirmed := c.last.confirmed;
      if !c.strategy.ChainOnly? {
        if !up {
          ReplyResult(c.wantsReply, c.origin, false);
          return;
        }
        if c.row in rows {
          rows := rows[c.row := CheckStatus(c.last)];
        }
      }
      ReplyResult(c.wantsReply, c.origin, confirmed);
    }
  }
}
