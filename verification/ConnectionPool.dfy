/** The client connection pool: its shared state, and the futures that hold reservations in
    it, stepped through every interleaving. */
module ConnectionPool {
  import opened Bytes

  type Key = string

  // The identity of an open connection.
  type Conn = nat

  // ---------------------------------------------------------------- shared state

  // A slot of `waiters` is vacant (not in the map), taken (None), or holds the sending end
  // of a channel (Some, with the future that owns the receiving end).
  datatype PoolState = PoolState(
    limit: nat, acquired: nat, available: map<Key, seq<Conn>>,
    waiters: map<nat, Option<nat>>, queue: seq<(Key, nat)>)

  datatype Acquire = Reused(conn: Conn) | Available | NotAvailable

  // Pops connections from the back until one is usable, dropping the stale ones on the way.
  function PopUsable(conns: seq<Conn>, usable: Conn -> bool): (r: (seq<Conn>, Option<Conn>))
    ensures r.0 <= conns
    ensures r.1.Some? ==> r.0 + [r.1.value] <= conns && usable(r.1.value)
    ensures forall i :: |r.0| + (if r.1.Some? then 1 else 0) <= i < |conns| ==> !usable(conns[i])
    ensures r.1.None? ==> r.0 == []
    decreases |conns|
  {
    if conns == [] then ([], None)
    else
      var last := |conns| - 1;
      if usable(conns[last]) then (conns[..last], Some(conns[last])) else PopUsable(conns[..last], usable)
  }

  function TryAcquire(p: PoolState, key: Key, usable: Conn -> bool): (r: (PoolState, Acquire))
  {
    if p.limit > 0 && p.acquired >= p.limit then (p, NotAvailable)
    else
      var q := p.(acquired := p.acquired + 1);
      if key in p.available then
        var (kept, conn) := PopUsable(p.available[key], usable);
        (q.(available := p.available[key := kept]), if conn.Some? then Reused(conn.value) else Available)
      else (q, Available)
  }

  // `acquired -= 1`; Err is the arithmetic underflow.
  function Release(p: PoolState): Result<PoolState> {
    if p.acquired == 0 then Err else Ok(p.(acquired := p.acquired - 1))
  }

  function ReleaseConn(p: PoolState, key: Key, conn: Conn): Result<PoolState> {
    var q :- Release(p);
    Ok(q.(available := q.available[key := (if key in q.available then q.available[key] else []) + [conn]]))
  }

  // Registers a waiter under a vacant slot; Err is the failed insert assertion.
  function WaitFor(p: PoolState, key: Key, token: nat, receiver: nat): Result<PoolState> {
    if (key, token) in p.queue then Err
    else Ok(p.(waiters := p.waiters[token := Some(receiver)], queue := p.queue + [(key, token)]))
  }

  function Without<T(==)>(q: seq<T>, x: T): (r: seq<T>) {
    if q == [] then [] else if q[0] == x then q[1..] else [q[0]] + Without(q[1..], x)
  }

  // Frees a slot and forgets its place in the queue; Err is the slab's panic on a vacant slot.
  function ReleaseWaiter(p: PoolState, key: Key, token: nat): Result<PoolState> {
    if token !in p.waiters then Err
    else Ok(p.(waiters := p.waiters - {token}, queue := Without(p.queue, (key, token))))
  }

  // `swap_remove_index(0)`: the last entry takes the place of the first.
  function SwapRemoveFirst<T>(q: seq<T>): (r: seq<T>)
    requires q != []
    ensures |r| == |q| - 1
  {
    if |q| == 1 then [] else [q[|q| - 1]] + q[1..|q| - 1]
  }

  // ---------------------------------------------------------------- futures

  datatype Task =
    | Connecting(key: Key)                                 // awaiting the connector, no guard yet
    | Handshaking(key: Key)                                // an OpenGuard
    | Using(key: Key, conn: Conn)                          // a client's Acquired
    | Waiting(key: Key, token: nat)                        // a WaiterGuard, nothing received yet
    | Served(key: Key, token: nat, got: Option<Conn>)      // the same, its channel filled or closed
    | Opening(key: Key, receiver: nat)                     // an OpenWaitingConnection

  predicate Holds(t: Task) {
    t.Connecting? || t.Handshaking? || t.Using? || t.Opening? || (t.Served? && t.got.Some?)
  }

  predicate Listens(t: Task) {
    t.Waiting? || t.Served?
  }

  // `leaked` counts reservations that no future holds any more and nobody released;
  // `stranded` counts slots whose waiter was served and left without freeing them; `born`
  // remembers for which key each connection was opened.
  datatype System = System(
    pool: PoolState, tasks: map<nat, Task>, nextId: nat, leaked: nat, stranded: nat, born: map<Conn, Key>)

  function Init(limit: nat): System {
    System(PoolState(limit, 0, map[], map[], []), map[], 0, 0, 0, map[])
  }

  // Sending to a future that still listens fills its channel.
  function Deliver(tasks: map<nat, Task>, receiver: nat, conn: Option<Conn>): map<nat, Task>
    requires receiver in tasks && tasks[receiver].Waiting?
  {
    tasks[receiver := Served(tasks[receiver].key, tasks[receiver].token, conn)]
  }

  datatype Iteration = Stop | Broken | Again(next: System)

  // One round of the support loop.  Broken stands for an unwrap of None, for the `continue`
  // that would spin on a taken slot, and for a send to a dropped receiver, whose returned
  // connection would be released while the pool is still borrowed.
  function SupportRound(s: System, usable: Conn -> bool): Iteration {
    if s.pool.queue == [] then Stop
    else
      var (key, token) := s.pool.queue[0];
      if token !in s.pool.waiters || s.pool.waiters[token].None? then Broken
      else
        var receiver := s.pool.waiters[token].value;
        var (p, a) := TryAcquire(s.pool, key, usable);
        var q := p.(waiters := p.waiters[token := None], queue := SwapRemoveFirst(p.queue));
        match a
        case NotAvailable => Stop
        case Reused(conn) =>
          if receiver in s.tasks && s.tasks[receiver].Waiting?
          then Again(s.(pool := q, tasks := Deliver(s.tasks, receiver, Some(conn))))
          else Broken
        case Available =>
          Again(s.(pool := q, tasks := s.tasks[s.nextId := Opening(key, receiver)], nextId := s.nextId + 1))
  }

  function SupportPoll(s: System, usable: Conn -> bool): Result<System>
    decreases |s.pool.queue|
  {
    match SupportRound(s, usable)
    case Stop => Ok(s)
    case Broken => Err
    case Again(next) => SupportPoll(next, usable)
  }

  // What can happen between two awaits.  `usable` says which idle connections pass the age
  // and read checks at that moment; `token` is the vacant slot the slab offers.
  datatype Event =
    | Call(key: Key, token: nat, usable: Conn -> bool)
    | Support(usable: Conn -> bool)
    | ConnectFails(id: nat)
    | ConnectedH1(id: nat, conn: Conn)
    | ConnectedH2(id: nat)
    | HandshakeDone(id: nat, conn: Conn)
    | GiveUp(id: nat)                   // the caller drops its future, or its handshake fails
    | Receive(id: nat)
    | OpenFails(id: nat)
    | OpenDone(id: nat, conn: Conn)
    | OpenDropped(id: nat)
    | GiveBack(id: nat)
    | Close(id: nat)
    | DropConn(id: nat)

  predicate Enabled(s: System, e: Event) {
    match e
    case Call(_, token, _) => token !in s.pool.waiters
    case Support(_) => true
    case ConnectFails(id) => id in s.tasks && s.tasks[id].Connecting?
    case ConnectedH1(id, conn) => id in s.tasks && s.tasks[id].Connecting? && conn !in s.born
    case ConnectedH2(id) => id in s.tasks && s.tasks[id].Connecting?
    case HandshakeDone(id, conn) => id in s.tasks && s.tasks[id].Handshaking? && conn !in s.born
    case GiveUp(id) => id in s.tasks && (s.tasks[id].Connecting? || s.tasks[id].Handshaking? || Listens(s.tasks[id]))
    case Receive(id) => id in s.tasks && s.tasks[id].Served?
    case OpenFails(id) => id in s.tasks && s.tasks[id].Opening?
    case OpenDone(id, conn) => id in s.tasks && s.tasks[id].Opening? && conn !in s.born
    case OpenDropped(id) => id in s.tasks && s.tasks[id].Opening?
    case GiveBack(id) => id in s.tasks && s.tasks[id].Using?
    case Close(id) => id in s.tasks && s.tasks[id].Using?
    case DropConn(id) => id in s.tasks && s.tasks[id].Using?
  }

  function CallStep(s: System, key: Key, token: nat, usable: Conn -> bool): Result<System> {
    var (p, a) := TryAcquire(s.pool, key, usable);
    var id := s.nextId;
    match a
    case Reused(conn) => Ok(s.(pool := p, tasks := s.tasks[id := Using(key, conn)], nextId := id + 1))
    case Available => Ok(s.(pool := p, tasks := s.tasks[id := Connecting(key)], nextId := id + 1))
    case NotAvailable =>
      var q :- WaitFor(p, key, token, id);
      Ok(s.(pool := q, tasks := s.tasks[id := Waiting(key, token)], nextId := id + 1))
  }

  function GiveUpStep(s: System, id: nat): Result<System>
    requires id in s.tasks
  {
    var rest := s.(tasks := s.tasks - {id});
    match s.tasks[id]
    case Connecting(_) => Ok(rest.(leaked := s.leaked + 1))
    case Waiting(key, token) =>
      var p :- ReleaseWaiter(s.pool, key, token);
      Ok(rest.(pool := p))
    case Served(key, token, conn) =>
      var p :- ReleaseWaiter(s.pool, key, token);
      var q :- if conn.Some? then Release(p) else Ok(p);
      Ok(rest.(pool := q))
    case _ =>
      var p :- Release(s.pool);
      Ok(rest.(pool := p))
  }

  // The end of an OpenWaitingConnection.  Its sender, if it still reaches a listening
  // future, delivers the connection or closes the channel.
  function OpenEnds(s: System, id: nat, conn: Option<Conn>): Result<map<nat, Task>>
    requires id in s.tasks && s.tasks[id].Opening?
  {
    var r := s.tasks[id].receiver;
    if r !in s.tasks then Ok(s.tasks - {id})
    else if !s.tasks[r].Waiting? then Err
    else Ok(Deliver(s.tasks, r, conn) - {id})
  }

  // A direct open succeeds: its reservation passes to the client with the connection.
  function Established(s: System, id: nat, conn: Conn): System
    requires id in s.tasks
  {
    var key := s.tasks[id].key;
    s.(tasks := s.tasks[id := Using(key, conn)], born := s.born[conn := key])
  }

  function Step(s: System, e: Event): Result<System>
    requires Enabled(s, e)
  {
    match e
    case Call(key, token, usable) => CallStep(s, key, token, usable)
    case Support(usable) => SupportPoll(s, usable)
    case ConnectFails(id) => Ok(s.(tasks := s.tasks - {id}, leaked := s.leaked + 1))
    case ConnectedH1(id, conn) => Ok(Established(s, id, conn))
    case ConnectedH2(id) => Ok(s.(tasks := s.tasks[id := Handshaking(s.tasks[id].key)]))
    case HandshakeDone(id, conn) => Ok(Established(s, id, conn))
    case GiveUp(id) => GiveUpStep(s, id)
    case Receive(id) =>
      // the guard is consumed: the taken slot stays behind
      var tasks := if s.tasks[id].got.Some? then s.tasks[id := Using(s.tasks[id].key, s.tasks[id].got.value)]
                   else s.tasks - {id};
      Ok(s.(tasks := tasks, stranded := s.stranded + 1))
    case OpenFails(id) =>
      // the pool reference is taken before the error is sent, so nothing is released
      var tasks :- OpenEnds(s, id, None);
      Ok(s.(tasks := tasks, leaked := s.leaked + 1))
    case OpenDone(id, conn) =>
      var tasks :- OpenEnds(s, id, Some(conn));
      var born := s.born[conn := s.tasks[id].key];
      if s.tasks[id].receiver in s.tasks then Ok(s.(tasks := tasks, born := born))
      else
        var p :- Release(s.pool);
        Ok(s.(tasks := tasks, born := born, pool := p))
    case OpenDropped(id) =>
      var tasks :- OpenEnds(s, id, None);
      var p :- Release(s.pool);
      Ok(s.(tasks := tasks, pool := p))
    case GiveBack(id) =>
      var p :- ReleaseConn(s.pool, s.tasks[id].key, s.tasks[id].conn);
      Ok(s.(pool := p, tasks := s.tasks - {id}))
    case Close(id) =>
      var p :- Release(s.pool);
      Ok(s.(pool := p, tasks := s.tasks - {id}))
    case DropConn(id) =>
      var p :- Release(s.pool);
      Ok(s.(pool := p, tasks := s.tasks - {id}))
  }

  // ---------------------------------------------------------------- invariant

  ghost function Holders(tasks: map<nat, Task>): set<nat> {
    set id | id in tasks && Holds(tasks[id])
  }

  ghost function Listeners(tasks: map<nat, Task>): set<nat> {
    set id | id in tasks && Listens(tasks[id])
  }

  // Reservations: every one is held by a live future or leaked, and the limit is kept.
  ghost predicate Accounted(s: System) {
    && s.pool.acquired == |Holders(s.tasks)| + s.leaked
    && (s.pool.limit > 0 ==> s.pool.acquired <= s.pool.limit)
  }

  // Slots: every one belongs to a listening future or is stranded.
  ghost predicate SlotsAccounted(s: System) {
    |s.pool.waiters| == |Listeners(s.tasks)| + s.stranded
  }

  ghost predicate DistinctTokens(q: seq<(Key, nat)>) {
    forall i, j :: 0 <= i < j < |q| ==> q[i].1 != q[j].1
  }

  // The queue has no token twice, its entries are slots still holding Some, every such slot
  // has its entry, and the receiving end of each is a future that waits.
  ghost predicate Queued(s: System) {
    var (q, w) := (s.pool.queue, s.pool.waiters);
    && DistinctTokens(q)
    && (forall e :: e in q ==> e.1 in w && w[e.1].Some? && w[e.1].value in s.tasks
                               && s.tasks[w[e.1].value] == Waiting(e.0, e.1))
    && (forall t :: t in w && w[t].Some? ==>
          w[t].value in s.tasks && s.tasks[w[t].value].Waiting? && (s.tasks[w[t].value].key, t) in q)
  }

  // Every listening future owns its slot alone, and every sender that left its slot
  // reaches a future of its own that has received nothing, or nobody.
  ghost predicate Linked(s: System) {
    var (t, w) := (s.tasks, s.pool.waiters);
    && (forall a :: a in t ==> a < s.nextId)
    && (forall a :: a in t && Listens(t[a]) ==> t[a].token in w && (w[t[a].token].Some? ==> w[t[a].token].value == a))
    && (forall a :: a in t && t[a].Served? ==> w[t[a].token].None?)
    && (forall a, b :: a in t && b in t && Listens(t[a]) && Listens(t[b]) && t[a].token == t[b].token ==> a == b)
    && (forall a :: a in t && t[a].Opening? ==> t[a].receiver < s.nextId)
    && (forall a :: a in t && t[a].Opening? && t[a].receiver in t ==>
          t[t[a].receiver].Waiting? && w[t[t[a].receiver].token].None?)
    && (forall a, b :: a in t && b in t && t[a].Opening? && t[b].Opening? && t[a].receiver == t[b].receiver ==> a == b)
  }

  ghost predicate Inv(s: System) {
    Linked(s) && Queued(s) && Accounted(s) && SlotsAccounted(s)
  }

  lemma InitInv(limit: nat)
    ensures Inv(Init(limit))
  {}

  // ---------------------------------------------------------------- counting

  function Count(b: bool): nat {
    if b then 1 else 0
  }

  lemma SetTask(tasks: map<nat, Task>, id: nat, t: Task)
    ensures |Holders(tasks[id := t])| + Count(id in tasks && Holds(tasks[id])) == |Holders(tasks)| + Count(Holds(t))
    ensures |Listeners(tasks[id := t])| + Count(id in tasks && Listens(tasks[id])) == |Listeners(tasks)| + Count(Listens(t))
  {
    SetHolder(tasks, id, t);
    SetListener(tasks, id, t);
  }

  lemma SetHolder(tasks: map<nat, Task>, id: nat, t: Task)
    ensures |Holders(tasks[id := t])| + Count(id in tasks && Holds(tasks[id])) == |Holders(tasks)| + Count(Holds(t))
  {
    var (before, after) := (Holders(tasks), Holders(tasks[id := t]));
    assert after == if Holds(t) then before + {id} else before - {id};
    SetCount(before, id);
  }

  lemma SetListener(tasks: map<nat, Task>, id: nat, t: Task)
    ensures |Listeners(tasks[id := t])| + Count(id in tasks && Listens(tasks[id])) == |Listeners(tasks)| + Count(Listens(t))
  {
    var (before, after) := (Listeners(tasks), Listeners(tasks[id := t]));
    assert after == if Listens(t) then before + {id} else before - {id};
    SetCount(before, id);
  }

  lemma SetCount(x: set<nat>, id: nat)
    ensures |x + {id}| == |x| + Count(id !in x)
    ensures |x - {id}| == |x| - Count(id in x)
  {
    if id in x {
      assert x + {id} == x;
    } else {
      assert x - {id} == x;
    }
  }

  lemma DropTask(tasks: map<nat, Task>, id: nat)
    requires id in tasks
    ensures |Holders(tasks - {id})| + Count(Holds(tasks[id])) == |Holders(tasks)|
    ensures |Listeners(tasks - {id})| + Count(Listens(tasks[id])) == |Listeners(tasks)|
  {
    assert Holders(tasks - {id}) == Holders(tasks) - {id};
    assert Listeners(tasks - {id}) == Listeners(tasks) - {id};
  }

  // A future that holds a reservation shows that one is counted.
  lemma HolderCounted(s: System, id: nat)
    requires Accounted(s) && id in s.tasks && Holds(s.tasks[id])
    ensures s.pool.acquired > 0
  {
    assert id in Holders(s.tasks);
  }

  // ---------------------------------------------------------------- each event keeps the invariant

  // A future that neither listens nor has a sender.
  predicate Plain(t: Task) {
    !Listens(t) && !t.Opening?
  }

  // Plain futures come, change and go without touching the queue and its links.
  lemma PlainKeepsLinks(s: System, s': System, id: nat)
    requires Linked(s) && Queued(s)
    requires id in s.tasks ==> Plain(s.tasks[id])
    requires s'.pool.waiters == s.pool.waiters && s'.pool.queue == s.pool.queue
    requires || s'.tasks == s.tasks - {id}
             || (id in s'.tasks && Plain(s'.tasks[id]) && id < s'.nextId && s'.tasks == s.tasks[id := s'.tasks[id]])
    requires s.nextId <= s'.nextId && (id in s.tasks || id == s.nextId)
    ensures Linked(s') && Queued(s')
  {}

  lemma ConnectKeepsInv(s: System, e: Event)
    requires Inv(s) && Enabled(s, e)
    requires e.ConnectFails? || e.ConnectedH1? || e.ConnectedH2? || e.HandshakeDone?
    ensures Step(s, e).Ok? && Inv(Step(s, e).value)
  {
    var s' := Step(s, e).value;
    PlainKeepsLinks(s, s', e.id);
    if e.ConnectFails? {
      DropTask(s.tasks, e.id);
    } else {
      SetTask(s.tasks, e.id, s'.tasks[e.id]);
    }
  }

  lemma ClientKeepsInv(s: System, e: Event)
    requires Inv(s) && Enabled(s, e)
    requires e.GiveBack? || e.Close? || e.DropConn?
    ensures Step(s, e).Ok? && Inv(Step(s, e).value)
  {
    HolderCounted(s, e.id);
    DropTask(s.tasks, e.id);
    PlainKeepsLinks(s, Step(s, e).value, e.id);
  }

  // A served future leaves: its slot stays behind, taken.
  lemma ServedLeaves(s: System, s': System, id: nat)
    requires Linked(s) && Queued(s) && id in s.tasks && s.tasks[id].Served?
    requires s'.pool == s.pool && s'.nextId == s.nextId
    requires s'.tasks == s.tasks - {id} || (id in s'.tasks && Plain(s'.tasks[id]) && s'.tasks == s.tasks[id := s'.tasks[id]])
    ensures Linked(s') && Queued(s')
  {}

  lemma ReceiveKeepsInv(s: System, e: Event)
    requires Inv(s) && Enabled(s, e) && e.Receive?
    ensures Step(s, e).Ok? && Inv(Step(s, e).value)
  {
    var t := s.tasks[e.id];
    ServedLeaves(s, Step(s, e).value, e.id);
    if t.got.Some? {
      SetTask(s.tasks, e.id, Using(t.key, t.got.value));
    } else {
      DropTask(s.tasks, e.id);
    }
  }

  lemma {:induction false} WithoutKeepsRest<T>(q: seq<T>, x: T)
    ensures forall y :: y in Without(q, x) ==> y in q
    ensures forall y :: y in q && y != x ==> y in Without(q, x)
  {
    if q != [] && q[0] != x {
      WithoutKeepsRest(q[1..], x);
    }
  }

  lemma {:induction false} WithoutKeepsDistinct(q: seq<(Key, nat)>, x: (Key, nat))
    requires DistinctTokens(q)
    ensures DistinctTokens(Without(q, x)) && x !in Without(q, x)
  {
    if q != [] {
      assert forall y :: y in q[1..] ==> y.1 != q[0].1;
      if q[0] != x {
        WithoutKeepsDistinct(q[1..], x);
        WithoutKeepsRest(q[1..], x);
      }
    }
  }

  // A listening future is dropped: its slot is freed and its queue entry, if any, removed.
  lemma ListenerDropped(s: System, s': System, id: nat)
    requires Linked(s) && Queued(s) && id in s.tasks && Listens(s.tasks[id])
    requires s'.tasks == s.tasks - {id} && s'.nextId == s.nextId
    requires s'.pool.waiters == s.pool.waiters - {s.tasks[id].token}
    requires s'.pool.queue == Without(s.pool.queue, (s.tasks[id].key, s.tasks[id].token))
    ensures Linked(s') && Queued(s')
  {
    var x := (s.tasks[id].key, s.tasks[id].token);
    WithoutKeepsRest(s.pool.queue, x);
    WithoutKeepsDistinct(s.pool.queue, x);
    var (q, q') := (s.pool.queue, s'.pool.queue);
    forall e | e in q' ensures e.1 != x.1 {
      assert e in q;
    }
  }

  lemma GiveUpKeepsInv(s: System, e: Event)
    requires Inv(s) && Enabled(s, e) && e.GiveUp?
    ensures Step(s, e).Ok? && Inv(Step(s, e).value)
  {
    var t := s.tasks[e.id];
    DropTask(s.tasks, e.id);
    if Holds(t) {
      HolderCounted(s, e.id);
    }
    assert GiveUpStep(s, e.id).Ok?;
    var s' := GiveUpStep(s, e.id).value;
    if Listens(t) {
      assert s'.pool.waiters == s.pool.waiters - {t.token};
      ListenerDropped(s, s', e.id);
    } else {
      PlainKeepsLinks(s, s', e.id);
    }
  }

  // An opening future ends, and its receiver, if it still listens, is served.
  lemma OpenEndsKeepsLinks(s: System, s': System, id: nat, got: Option<Conn>)
    requires Linked(s) && Queued(s) && id in s.tasks && s.tasks[id].Opening?
    requires OpenEnds(s, id, got) == Ok(s'.tasks)
    requires s'.pool.waiters == s.pool.waiters && s'.pool.queue == s.pool.queue && s'.nextId == s.nextId
    ensures Linked(s') && Queued(s')
  {}

  lemma OpenEndsCounts(s: System, id: nat, got: Option<Conn>)
    requires Linked(s) && id in s.tasks && s.tasks[id].Opening?
    ensures OpenEnds(s, id, got).Ok?
    ensures var tasks := OpenEnds(s, id, got).value;
      && |Holders(tasks)| + 1 == |Holders(s.tasks)| + Count(s.tasks[id].receiver in s.tasks && got.Some?)
      && |Listeners(tasks)| == |Listeners(s.tasks)|
  {
    var r := s.tasks[id].receiver;
    if r in s.tasks {
      SetTask(s.tasks, r, Served(s.tasks[r].key, s.tasks[r].token, got));
      DropTask(Deliver(s.tasks, r, got), id);
    } else {
      DropTask(s.tasks, id);
    }
  }

  lemma OpenKeepsInv(s: System, e: Event)
    requires Inv(s) && Enabled(s, e)
    requires e.OpenFails? || e.OpenDone? || e.OpenDropped?
    ensures Step(s, e).Ok? && Inv(Step(s, e).value)
  {
    var got := if e.OpenDone? then Some(e.conn) else None;
    HolderCounted(s, e.id);
    OpenEndsCounts(s, e.id, got);
    OpenEndsKeepsLinks(s, Step(s, e).value, e.id, got);
  }

  // A new future registers under a vacant slot.
  lemma WaiterJoins(s: System, s': System, key: Key, token: nat)
    requires Linked(s) && Queued(s) && token !in s.pool.waiters
    requires s'.tasks == s.tasks[s.nextId := Waiting(key, token)] && s'.nextId == s.nextId + 1
    requires s'.pool.waiters == s.pool.waiters[token := Some(s.nextId)]
    requires s'.pool.queue == s.pool.queue + [(key, token)]
    ensures Linked(s') && Queued(s')
  {}

  lemma CallKeepsInv(s: System, e: Event)
    requires Inv(s) && Enabled(s, e) && e.Call?
    ensures Step(s, e).Ok? && Inv(Step(s, e).value)
  {
    assert (e.key, e.token) !in s.pool.queue;
    var (p, a) := TryAcquire(s.pool, e.key, e.usable);
    var id := s.nextId;
    match a
    case NotAvailable =>
      SetTask(s.tasks, id, Waiting(e.key, e.token));
      WaiterJoins(s, Step(s, e).value, e.key, e.token);
    case Available =>
      SetTask(s.tasks, id, Connecting(e.key));
      PlainKeepsLinks(s, Step(s, e).value, id);
    case Reused(conn) =>
      SetTask(s.tasks, id, Using(e.key, conn));
      PlainKeepsLinks(s, Step(s, e).value, id);
  }

  lemma SwapRemoveFacts(q: seq<(Key, nat)>)
    requires q != [] && DistinctTokens(q)
    ensures DistinctTokens(SwapRemoveFirst(q)) && q[0] !in SwapRemoveFirst(q)
    ensures forall x :: x in q && x != q[0] ==> x in SwapRemoveFirst(q)
    ensures forall x :: x in SwapRemoveFirst(q) ==> x in q && x.1 != q[0].1
  {
    if |q| > 1 {
      var r := SwapRemoveFirst(q);
      var last := |q| - 1;
      assert r[0] == q[last] && forall i :: 1 <= i < last ==> r[i] == q[i];
      forall x | x in q && x != q[0] ensures x in r {
        var i :| 0 <= i < |q| && q[i] == x;
        if i < last {
          assert r[i] == x;
        }
      }
    }
  }

  // The first waiter's sender leaves its slot for a new opening future,
  lemma OpeningKeepsLinks(s: System, s': System)
    requires Linked(s) && Queued(s) && s.pool.queue != []
    requires var (key, token) := s.pool.queue[0];
      && s'.pool.waiters == s.pool.waiters[token := None]
      && s'.pool.queue == SwapRemoveFirst(s.pool.queue)
      && s'.nextId == s.nextId + 1
      && s'.tasks == s.tasks[s.nextId := Opening(key, s.pool.waiters[token].value)]
    ensures Linked(s') && Queued(s')
  {
    SwapRemoveFacts(s.pool.queue);
    assert s.pool.queue[0] in s.pool.queue;
  }

  // or fills its channel.
  lemma ServingKeepsLinks(s: System, s': System, got: Option<Conn>)
    requires Linked(s) && Queued(s) && s.pool.queue != []
    requires s.pool.queue[0] in s.pool.queue
    requires var (key, token) := s.pool.queue[0];
      && s'.pool.waiters == s.pool.waiters[token := None]
      && s'.pool.queue == SwapRemoveFirst(s.pool.queue)
      && s'.nextId == s.nextId
      && s'.tasks == Deliver(s.tasks, s.pool.waiters[token].value, got)
    ensures Linked(s') && Queued(s')
  {
    SwapRemoveFacts(s.pool.queue);
  }

  lemma RoundKeepsInv(s: System, usable: Conn -> bool)
    requires Inv(s)
    ensures !SupportRound(s, usable).Broken?
    ensures var r := SupportRound(s, usable);
      r.Again? ==> Inv(r.next) && |r.next.pool.queue| == |s.pool.queue| - 1
  {
    if s.pool.queue != [] {
      var (key, token) := s.pool.queue[0];
      assert s.pool.queue[0] in s.pool.queue;
      var receiver := s.pool.waiters[token].value;
      match SupportRound(s, usable)
      case Stop =>
      case Again(s') =>
        var (_, a) := TryAcquire(s.pool, key, usable);
        if a.Reused? {
          assert s'.tasks == Deliver(s.tasks, receiver, Some(a.conn));
          SetTask(s.tasks, receiver, Served(key, token, Some(a.conn)));
          ServingKeepsLinks(s, s', Some(a.conn));
        } else {
          SetTask(s.tasks, s.nextId, Opening(key, receiver));
          OpeningKeepsLinks(s, s');
        }
    }
  }

  lemma {:induction false} SupportKeepsInv(s: System, usable: Conn -> bool)
    requires Inv(s)
    ensures SupportPoll(s, usable).Ok? && Inv(SupportPoll(s, usable).value)
    decreases |s.pool.queue|
  {
    RoundKeepsInv(s, usable);
    match SupportRound(s, usable)
    case Stop =>
    case Again(next) => SupportKeepsInv(next, usable);
  }

  // No enabled event panics, spins or underflows, and each keeps the invariant.
  lemma StepKeepsInv(s: System, e: Event)
    requires Inv(s) && Enabled(s, e)
    ensures Step(s, e).Ok? && Inv(Step(s, e).value)
  {
    match e
    case Call(_, _, _) => CallKeepsInv(s, e);
    case Support(usable) => SupportKeepsInv(s, usable);
    case GiveUp(_) => GiveUpKeepsInv(s, e);
    case Receive(_) => ReceiveKeepsInv(s, e);
    case OpenFails(_) => OpenKeepsInv(s, e);
    case OpenDone(_, _) => OpenKeepsInv(s, e);
    case OpenDropped(_) => OpenKeepsInv(s, e);
    case GiveBack(_) => ClientKeepsInv(s, e);
    case Close(_) => ClientKeepsInv(s, e);
    case DropConn(_) => ClientKeepsInv(s, e);
    case _ => ConnectKeepsInv(s, e);
  }

  // ---------------------------------------------------------------- whole runs

  // A schedule of events; one that is not possible when its turn comes is passed over.
  function Run(s: System, es: seq<Event>): Result<System>
    decreases |es|
  {
    if es == [] then Ok(s)
    else if !Enabled(s, es[0]) then Run(s, es[1..])
    else
      var next :- Step(s, es[0]);
      Run(next, es[1..])
  }

  lemma {:induction false} RunKeepsInv(s: System, es: seq<Event>)
    requires Inv(s)
    ensures Run(s, es).Ok? && Inv(Run(s, es).value)
    decreases |es|
  {
    if es != [] {
      if Enabled(s, es[0]) {
        StepKeepsInv(s, es[0]);
        RunKeepsInv(Step(s, es[0]).value, es[1..]);
      } else {
        RunKeepsInv(s, es[1..]);
      }
    }
  }

  // Whatever the schedule, nothing panics; reservations are exactly those of the live
  // holders and the leaked ones, within the limit; and the queue is exactly the set of slots
  // still holding Some, each once.
  lemma EveryRun(limit: nat, es: seq<Event>)
    ensures Run(Init(limit), es).Ok?
    ensures var s := Run(Init(limit), es).value;
      && s.pool.acquired == |Holders(s.tasks)| + s.leaked
      && (s.pool.limit > 0 ==> s.pool.acquired <= s.pool.limit)
      && |s.pool.waiters| == |Listeners(s.tasks)| + s.stranded
      && DistinctTokens(s.pool.queue)
      && (set e | e in s.pool.queue :: e.1) == (set t | t in s.pool.waiters && s.pool.waiters[t].Some?)
  {
    InitInv(limit);
    RunKeepsInv(Init(limit), es);
    var s := Run(Init(limit), es).value;
    forall t | t in s.pool.waiters && s.pool.waiters[t].Some? ensures t in set e | e in s.pool.queue :: e.1 {
      assert (s.tasks[s.pool.waiters[t].value].key, t) in s.pool.queue;
    }
  }

  // The events after which a reservation belongs to nobody.
  predicate Leaks(s: System, e: Event)
    requires Enabled(s, e)
  {
    e.ConnectFails? || e.OpenFails? || (e.GiveUp? && s.tasks[e.id].Connecting?)
  }

  lemma {:induction false} SupportKeepsLeaked(s: System, usable: Conn -> bool)
    requires SupportPoll(s, usable).Ok?
    ensures var s' := SupportPoll(s, usable).value;
      s'.leaked == s.leaked && s'.stranded == s.stranded && s'.pool.limit == s.pool.limit
    decreases |s.pool.queue|
  {
    match SupportRound(s, usable)
    case Stop =>
    case Again(next) => SupportKeepsLeaked(next, usable);
  }

  // A step leaks a reservation exactly in those events, and strands a slot exactly when a
  // served waiter takes what it was sent.
  lemma StepLeaks(s: System, e: Event)
    requires Enabled(s, e) && Step(s, e).Ok?
    ensures Step(s, e).value.leaked == s.leaked + Count(Leaks(s, e))
    ensures Step(s, e).value.stranded == s.stranded + Count(e.Receive?)
    ensures Step(s, e).value.pool.limit == s.pool.limit
  {
    if e.Support? {
      SupportKeepsLeaked(s, e.usable);
    }
  }

  // Leaked reservations are never given back: once they fill the limit, no future holds a
  // connection again, whatever happens.
  lemma {:induction false} FilledByLeaks(s: System, es: seq<Event>)
    requires Inv(s) && s.pool.limit > 0 && s.leaked == s.pool.limit
    ensures Run(s, es).Ok? && Holders(Run(s, es).value.tasks) == {}
    decreases |es|
  {
    if es != [] {
      if Enabled(s, es[0]) {
        StepKeepsInv(s, es[0]);
        StepLeaks(s, es[0]);
        FilledByLeaks(Step(s, es[0]).value, es[1..]);
      } else {
        FilledByLeaks(s, es[1..]);
      }
    }
  }

  lemma {:induction false} RunSplits(s: System, es: seq<Event>, fs: seq<Event>)
    ensures Run(s, es + fs) == match Run(s, es) case Ok(t) => Run(t, fs) case Err => Err
    decreases |es|
  {
    if es == [] {
      assert es + fs == fs;
    } else {
      assert (es + fs)[1..] == es[1..] + fs;
      if !Enabled(s, es[0]) {
        RunSplits(s, es[1..], fs);
      } else if Step(s, es[0]).Ok? {
        RunSplits(Step(s, es[0]).value, es[1..], fs);
      }
    }
  }

  // Calls that each open a connection, and whose connector fails.
  function FailingCalls(key: Key, usable: Conn -> bool, n: nat): seq<Event> {
    if n == 0 then [] else FailingCalls(key, usable, n - 1) + [Call(key, 0, usable), ConnectFails(n - 1)]
  }

  lemma {:induction false} FailingCallsLeak(limit: nat, key: Key, usable: Conn -> bool, n: nat)
    requires limit == 0 || n <= limit
    ensures Run(Init(limit), FailingCalls(key, usable, n))
         == Ok(System(PoolState(limit, n, map[], map[], []), map[], n, n, 0, map[]))
  {
    if n > 0 {
      FailingCallsLeak(limit, key, usable, n - 1);
      RunSplits(Init(limit), FailingCalls(key, usable, n - 1), [Call(key, 0, usable), ConnectFails(n - 1)]);
      FailOnce(limit, key, usable, n - 1);
    }
  }

  lemma OneEvent(s: System, e: Event)
    requires Enabled(s, e)
    ensures Run(s, [e]) == Step(s, e)
  {
    assert [e][1..] == [];
  }

  lemma FailOnce(limit: nat, key: Key, usable: Conn -> bool, n: nat)
    requires limit == 0 || n < limit
    ensures Run(System(PoolState(limit, n, map[], map[], []), map[], n, n, 0, map[]), [Call(key, 0, usable), ConnectFails(n)])
         == Ok(System(PoolState(limit, n + 1, map[], map[], []), map[], n + 1, n + 1, 0, map[]))
  {
    var s := System(PoolState(limit, n, map[], map[], []), map[], n, n, 0, map[]);
    var es := [Call(key, 0, usable), ConnectFails(n)];
    var called := s.(pool := s.pool.(acquired := n + 1), tasks := map[n := Connecting(key)], nextId := n + 1);
    assert Step(s, es[0]) == Ok(called);
    assert es[1..] == [ConnectFails(n)];
    var failed := called.(tasks := called.tasks - {n}, leaked := n + 1);
    assert called.tasks - {n} == map[];
    OneEvent(called, ConnectFails(n));
    assert Run(s, es) == Run(called, es[1..]);
  }

  // As many failed opens as the limit allows stop the pool: in every continuation of that run
  // no future holds a connection again.
  lemma PoolCanFill(limit: nat, key: Key, usable: Conn -> bool, later: seq<Event>)
    requires limit > 0
    ensures var run := Run(Init(limit), FailingCalls(key, usable, limit) + later);
      run.Ok? && run.value.leaked == limit && Holders(run.value.tasks) == {}
  {
    FailingCallsLeak(limit, key, usable, limit);
    RunSplits(Init(limit), FailingCalls(key, usable, limit), later);
    var full := System(PoolState(limit, limit, map[], map[], []), map[], limit, limit, 0, map[]);
    InitInv(limit);
    RunKeepsInv(Init(limit), FailingCalls(key, usable, limit));
    FilledByLeaks(full, later);
    RunKeepsInv(full, later);
    LeakedStaysFull(full, later);
  }

  lemma {:induction false} LeakedStaysFull(s: System, es: seq<Event>)
    requires Inv(s)
    ensures Run(s, es).Ok? && Run(s, es).value.leaked >= s.leaked && Run(s, es).value.pool.limit == s.pool.limit
    decreases |es|
  {
    if es != [] {
      if Enabled(s, es[0]) {
        StepKeepsInv(s, es[0]);
        StepLeaks(s, es[0]);
        LeakedStaysFull(Step(s, es[0]).value, es[1..]);
      } else {
        LeakedStaysFull(s, es[1..]);
      }
    }
  }

  // No future holds a connection now, and none ever will.
  ghost predicate Stopped(s: System) {
    forall es :: Run(s, es).Ok? && Holders(Run(s, es).value.tasks) == {}
  }

  // A pool has stopped exactly when leaks fill its limit.
  lemma StoppedIff(s: System)
    requires Inv(s)
    ensures Stopped(s) <==> s.pool.limit > 0 && s.leaked == s.pool.limit
  {
    if s.pool.limit > 0 && s.leaked == s.pool.limit {
      forall es ensures Run(s, es).Ok? && Holders(Run(s, es).value.tasks) == {} {
        FilledByLeaks(s, es);
      }
    } else if Holders(s.tasks) != {} {
      assert Run(s, []) == Ok(s);
    } else {
      var token := VacantSlot(s.pool.waiters.Keys);
      CallFindsRoom(s, Call("", token, _ => true));
    }
  }

  // While no future holds a connection and leaks do not fill the limit, the next call gets one.
  lemma CallFindsRoom(s: System, e: Event)
    requires Inv(s) && Holders(s.tasks) == {} && (s.pool.limit > 0 ==> s.leaked != s.pool.limit)
    requires e.Call? && Enabled(s, e)
    ensures Run(s, [e]).Ok? && Holders(Run(s, [e]).value.tasks) != {}
  {
    OneEvent(s, e);
    assert s.pool.acquired == s.leaked;
    var s' := Step(s, e).value;
    assert s.nextId in s'.tasks && Holds(s'.tasks[s.nextId]);
    assert s.nextId in Holders(s'.tasks);
  }

  lemma {:induction false} VacantSlot(taken: set<nat>) returns (token: nat)
    ensures token !in taken && forall t :: t in taken ==> t < token
  {
    if taken == {} {
      token := 0;
    } else {
      var t :| t in taken;
      var vacant := VacantSlot(taken - {t});
      token := if t < vacant then vacant else t + 1;
      forall x | x in taken ensures x < token {
        assert x == t || x in taken - {t};
      }
    }
  }

  // ---------------------------------------------------------------- who gets a connection

  predicate HasRoom(p: PoolState) {
    p.limit == 0 || p.acquired < p.limit
  }

  function Idle(p: PoolState, key: Key): seq<Conn> {
    if key in p.available then p.available[key] else []
  }

  predicate HasUsable(conns: seq<Conn>, usable: Conn -> bool) {
    exists i :: 0 <= i < |conns| && usable(conns[i])
  }

  // The last usable connection, and what is kept: those before it.
  predicate TakesLast(conns: seq<Conn>, usable: Conn -> bool, conn: Conn, kept: seq<Conn>) {
    && |kept| < |conns| && kept == conns[..|kept|] && conns[|kept|] == conn && usable(conn)
    && forall i :: |kept| < i < |conns| ==> !usable(conns[i])
  }

  lemma AcquireIff(p: PoolState, key: Key, usable: Conn -> bool)
    ensures var (q, a) := TryAcquire(p, key, usable);
      && (a.NotAvailable? <==> !HasRoom(p))
      && (a.Reused? <==> HasRoom(p) && HasUsable(Idle(p, key), usable))
      && (a.Reused? ==> TakesLast(Idle(p, key), usable, a.conn, Idle(q, key)))
      && (a.Available? ==> Idle(q, key) == [])
      && (forall k :: k != key ==> Idle(q, k) == Idle(p, k))
      && q == p.(acquired := q.acquired, available := q.available)
      && q.acquired == (if HasRoom(p) then p.acquired + 1 else p.acquired)
  {
    var conns := Idle(p, key);
    var (kept, conn) := PopUsable(conns, usable);
    if conn.Some? {
      assert conns[|kept|] == (kept + [conn.value])[|kept|];
      assert kept == conns[..|kept|];
    }
  }

  // What a new future for the key is, by room and idle connections.
  ghost predicate Serves(s: System, t: System, key: Key, token: nat, usable: Conn -> bool, task: Task) {
    match task
    case Using(k, conn) => k == key && HasRoom(s.pool) && TakesLast(Idle(s.pool, key), usable, conn, Idle(t.pool, key))
    case Connecting(k) => k == key && HasRoom(s.pool) && !HasUsable(Idle(s.pool, key), usable)
    case Waiting(k, own) => k == key && own == token && !HasRoom(s.pool) && t.pool.queue == s.pool.queue + [(key, token)]
    case _ => false
  }

  // A call at once holds the last idle connection of its key that is usable, or opens one when
  // there is none, or waits at the end of the queue when there is no room.
  lemma CallServes(s: System, key: Key, token: nat, usable: Conn -> bool)
    requires Inv(s) && token !in s.pool.waiters
    ensures Step(s, Call(key, token, usable)).Ok?
    ensures var t := Step(s, Call(key, token, usable)).value;
      && s.nextId in t.tasks && t.tasks == s.tasks[s.nextId := t.tasks[s.nextId]]
      && (forall k :: k != key ==> Idle(t.pool, k) == Idle(s.pool, k))
      && Serves(s, t, key, token, usable, t.tasks[s.nextId])
  {
    assert (key, token) !in s.pool.queue;
    AcquireIff(s.pool, key, usable);
    match TryAcquire(s.pool, key, usable).1
    case Reused(conn) => assert CallStep(s, key, token, usable).value.tasks[s.nextId] == Using(key, conn);
    case Available => assert CallStep(s, key, token, usable).value.tasks[s.nextId] == Connecting(key);
    case NotAvailable => assert CallStep(s, key, token, usable).value.tasks[s.nextId] == Waiting(key, token);
  }

  // The state in which the support loop finds its next waiter, and what it makes of it.
  lemma RoundServes(s: System, usable: Conn -> bool)
    requires Inv(s)
    ensures SupportRound(s, usable).Stop? <==> s.pool.queue == [] || !HasRoom(s.pool)
    ensures SupportRound(s, usable).Again? ==>
      var (t, e) := (SupportRound(s, usable).next, s.pool.queue[0]);
      var receiver := Receiver(s, e);
      && (if HasUsable(Idle(s.pool, e.0), usable) then
            exists conn :: TakesLast(Idle(s.pool, e.0), usable, conn, Idle(t.pool, e.0))
                           && t.tasks == s.tasks[receiver := Served(e.0, e.1, Some(conn))] && t.nextId == s.nextId
          else
            && Idle(t.pool, e.0) == []
            && t.tasks == s.tasks[s.nextId := Opening(e.0, receiver)] && t.nextId == s.nextId + 1)
      && t.pool.acquired == s.pool.acquired + 1 && t.pool.limit == s.pool.limit
      && t.pool.queue == SwapRemoveFirst(s.pool.queue) && t.pool.waiters == s.pool.waiters[e.1 := None]
      && (forall k :: k != e.0 ==> Idle(t.pool, k) == Idle(s.pool, k))
  {
    RoundKeepsInv(s, usable);
    if s.pool.queue != [] {
      var e := s.pool.queue[0];
      assert e in s.pool.queue;
      AcquireIff(s.pool, e.0, usable);
    }
  }

  // The future at the receiving end of a queued waiter.
  function Receiver(s: System, e: (Key, nat)): nat {
    if e.1 in s.pool.waiters && s.pool.waiters[e.1].Some? then s.pool.waiters[e.1].value else 0
  }

  // The waiter was given a usable idle connection of its key.
  ghost predicate GivenIdle(s: System, t: System, e: (Key, nat), usable: Conn -> bool) {
    && Receiver(s, e) in t.tasks
    && exists conn :: conn in Idle(s.pool, e.0) && usable(conn) && t.tasks[Receiver(s, e)] == Served(e.0, e.1, Some(conn))
  }

  // A connection is being opened for the waiter, and no idle connection of its key is left.
  ghost predicate GivenOpen(s: System, t: System, e: (Key, nat)) {
    && Idle(t.pool, e.0) == []
    && Receiver(s, e) in t.tasks && t.tasks[Receiver(s, e)] == Waiting(e.0, e.1)
    && exists id :: s.nextId <= id < t.nextId && id in t.tasks && t.tasks[id] == Opening(e.0, Receiver(s, e))
  }

  lemma {:induction false} PollStops(s: System, usable: Conn -> bool)
    ensures var poll := SupportPoll(s, usable);
      poll.Ok? ==> poll.value.pool.queue == [] || (poll.value.pool.limit > 0 && poll.value.pool.acquired >= poll.value.pool.limit)
    decreases |s.pool.queue|
  {
    match SupportRound(s, usable)
    case Stop =>
    case Broken =>
    case Again(next) => PollStops(next, usable);
  }

  predicate Queueing(s: System, id: nat)
    requires id in s.tasks
  {
    s.tasks[id].Waiting? && (s.tasks[id].key, s.tasks[id].token) in s.pool.queue
  }

  // A poll leaves the futures alone that do not wait in the queue,
  lemma {:induction false} PollKeeps(s: System, usable: Conn -> bool)
    requires Inv(s)
    ensures SupportPoll(s, usable).Ok?
    ensures var t := SupportPoll(s, usable).value;
      forall id :: id in s.tasks && !Queueing(s, id) ==> id in t.tasks && t.tasks[id] == s.tasks[id]
    decreases |s.pool.queue|
  {
    RoundKeepsInv(s, usable);
    RoundServes(s, usable);
    match SupportRound(s, usable)
    case Stop =>
    case Again(next) =>
      PollKeeps(next, usable);
      var t := SupportPoll(s, usable).value;
      var e := s.pool.queue[0];
      assert e in s.pool.queue;
      SwapRemoveFacts(s.pool.queue);
      forall id | id in s.tasks && !Queueing(s, id) ensures id in t.tasks && t.tasks[id] == s.tasks[id] {
        assert id != Receiver(s, e) && id != s.nextId;
        assert next.tasks[id] == s.tasks[id] && !Queueing(next, id);
      }
  }

  // and takes idle connections from the back only.
  lemma {:induction false} PollTakes(s: System, usable: Conn -> bool)
    requires Inv(s)
    ensures SupportPoll(s, usable).Ok?
    ensures var t := SupportPoll(s, usable).value;
      s.nextId <= t.nextId && forall k :: Idle(t.pool, k) <= Idle(s.pool, k)
    decreases |s.pool.queue|
  {
    RoundKeepsInv(s, usable);
    match SupportRound(s, usable)
    case Stop =>
    case Again(next) =>
      PollTakes(next, usable);
      RoundShrinks(s, next, usable);
      var t := SupportPoll(s, usable).value;
      forall k ensures Idle(t.pool, k) <= Idle(s.pool, k) {
        assert Idle(next.pool, k) <= Idle(s.pool, k);
      }
  }

  lemma RoundShrinks(s: System, next: System, usable: Conn -> bool)
    requires Inv(s) && SupportRound(s, usable) == Again(next)
    ensures s.nextId <= next.nextId && forall k :: Idle(next.pool, k) <= Idle(s.pool, k)
  {
    RoundServes(s, usable);
    var key := s.pool.queue[0].0;
    assert Idle(next.pool, key) <= Idle(s.pool, key);
  }

  lemma FirstServed(s: System, next: System, t: System, usable: Conn -> bool)
    requires Inv(s) && SupportRound(s, usable) == Again(next) && SupportPoll(next, usable) == Ok(t)
    ensures GivenIdle(s, t, s.pool.queue[0], usable) || GivenOpen(s, t, s.pool.queue[0])
  {
    RoundServes(s, usable);
    RoundKeepsInv(s, usable);
    PollKeeps(next, usable);
    PollTakes(next, usable);
    var e := s.pool.queue[0];
    assert e in s.pool.queue;
    SwapRemoveFacts(s.pool.queue);
    var receiver := Receiver(s, e);
    assert s.tasks[receiver] == Waiting(e.0, e.1);
    assert !Queueing(next, receiver);
    if HasUsable(Idle(s.pool, e.0), usable) {
      var conn :| TakesLast(Idle(s.pool, e.0), usable, conn, Idle(next.pool, e.0))
                  && next.tasks == s.tasks[receiver := Served(e.0, e.1, Some(conn))];
      assert t.tasks[receiver] == Served(e.0, e.1, Some(conn));
    } else {
      assert !Queueing(next, s.nextId);
      assert t.tasks[s.nextId] == Opening(e.0, receiver);
    }
  }

  lemma LaterServed(s: System, next: System, t: System, e: (Key, nat), usable: Conn -> bool)
    requires Receiver(next, e) == Receiver(s, e) && Idle(next.pool, e.0) <= Idle(s.pool, e.0) && s.nextId <= next.nextId
    requires GivenIdle(next, t, e, usable) || GivenOpen(next, t, e)
    ensures GivenIdle(s, t, e, usable) || GivenOpen(s, t, e)
  {
    if GivenIdle(next, t, e, usable) {
      var conn :| conn in Idle(next.pool, e.0) && usable(conn) && t.tasks[Receiver(next, e)] == Served(e.0, e.1, Some(conn));
      assert conn in Idle(s.pool, e.0);
    }
  }

  // One poll of the support loop goes on until nobody waits or the limit is reached; it takes
  // one reservation for each waiter that leaves the queue, and gives it an idle connection or
  // opens one.
  lemma {:induction false} PollServes(s: System, usable: Conn -> bool)
    requires Inv(s)
    ensures SupportPoll(s, usable).Ok?
    ensures var t := SupportPoll(s, usable).value;
      && (t.pool.queue == [] || (t.pool.limit > 0 && t.pool.acquired >= t.pool.limit))
      && t.pool.acquired + |t.pool.queue| == s.pool.acquired + |s.pool.queue|
      && (forall e :: e in t.pool.queue ==> e in s.pool.queue)
      && (forall e :: e in s.pool.queue && e !in t.pool.queue ==> GivenIdle(s, t, e, usable) || GivenOpen(s, t, e))
    decreases |s.pool.queue|
  {
    RoundKeepsInv(s, usable);
    RoundServes(s, usable);
    match SupportRound(s, usable)
    case Stop =>
    case Again(next) =>
      PollStops(s, usable);
      PollServes(next, usable);
      PollKeeps(next, usable);
      var t := SupportPoll(s, usable).value;
      SwapRemoveFacts(s.pool.queue);
      RoundShrinks(s, next, usable);
      forall e | e in s.pool.queue && e !in t.pool.queue ensures GivenIdle(s, t, e, usable) || GivenOpen(s, t, e) {
        if e == s.pool.queue[0] {
          FirstServed(s, next, t, usable);
        } else {
          assert e in next.pool.queue && Receiver(next, e) == Receiver(s, e);
          LaterServed(s, next, t, e, usable);
        }
      }
  }

  // The queue is not served in its order: when there is room for one, the last waiter takes the
  // place of the first.
  lemma LastJumpsQueue(s: System, usable: Conn -> bool)
    requires Inv(s) && s.pool.acquired + 1 == s.pool.limit && |s.pool.queue| > 1
    ensures SupportPoll(s, usable).Ok?
    ensures var (q, last) := (s.pool.queue, |s.pool.queue| - 1);
      SupportPoll(s, usable).value.pool.queue == [q[last]] + q[1..last]
  {
    RoundKeepsInv(s, usable);
    RoundServes(s, usable);
    var next := SupportRound(s, usable).next;
    RoundServes(next, usable);
    assert SupportPoll(next, usable) == Ok(next);
  }

  // What becomes of the future that an event is about: an open connection makes its owner a client
  // of its key, after the handshake if there is one; a waiter becomes a client of what it was sent,
  // or ends; and a waiting open fills the channel of its receiver, if that still listens.
  lemma FutureAfter(s: System, e: Event)
    requires Enabled(s, e) && Step(s, e).Ok?
    ensures var t := Step(s, e).value.tasks;
      match e
      case ConnectedH1(id, conn) => t == s.tasks[id := Using(s.tasks[id].key, conn)]
      case ConnectedH2(id) => t == s.tasks[id := Handshaking(s.tasks[id].key)]
      case HandshakeDone(id, conn) => t == s.tasks[id := Using(s.tasks[id].key, conn)]
      case Receive(id) =>
        t == (if s.tasks[id].got.Some? then s.tasks[id := Using(s.tasks[id].key, s.tasks[id].got.value)] else s.tasks - {id})
      case OpenDone(id, conn) => t == Answered(s, id, Some(conn))
      case OpenFails(id) => t == Answered(s, id, None)
      case OpenDropped(id) => t == Answered(s, id, None)
      case Call(_, _, _) => true
      case Support(_) => true
      case _ => t == s.tasks - {e.id}
  {}

  function Answered(s: System, id: nat, got: Option<Conn>): map<nat, Task>
    requires id in s.tasks && s.tasks[id].Opening?
  {
    var r := s.tasks[id].receiver;
    if r in s.tasks && s.tasks[r].Waiting? then s.tasks[r := Served(s.tasks[r].key, s.tasks[r].token, got)] - {id}
    else s.tasks - {id}
  }
}
