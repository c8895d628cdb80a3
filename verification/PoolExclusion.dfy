/** No connection of the pool is ever lent twice, or lent for another authority. */
module PoolExclusion {
  import opened Bytes
  import opened ConnectionPool

  // The connection a future has in its hands or in its channel.
  function InHand(t: Task): Option<Conn> {
    match t
    case Using(_, conn) => Some(conn)
    case Served(_, _, got) => got
    case _ => None
  }

  // Idle connections stand once, under the key they were opened for,
  ghost predicate IdleOnce(s: System) {
    && (forall k, c :: c in Idle(s.pool, k) ==> c in s.born && s.born[c] == k)
    && (forall k, i, j :: 0 <= i < j < |Idle(s.pool, k)| ==> Idle(s.pool, k)[i] != Idle(s.pool, k)[j])
  }

  // lent ones are not idle, belong to the borrower's key, and to one borrower.
  ghost predicate LentOnce(s: System) {
    var t := s.tasks;
    && (forall a :: a in t && InHand(t[a]).Some? ==>
          var c := InHand(t[a]).value; c in s.born && s.born[c] == t[a].key && c !in Idle(s.pool, t[a].key))
    && (forall a, b :: a in t && b in t && InHand(t[a]).Some? && InHand(t[a]) == InHand(t[b]) ==> a == b)
  }

  // A connection being opened for a waiter is opened for the waiter's key.
  ghost predicate OpensForWaiter(s: System) {
    forall a :: a in s.tasks && s.tasks[a].Opening? && s.tasks[a].receiver in s.tasks ==>
      s.tasks[s.tasks[a].receiver].key == s.tasks[a].key
  }

  ghost predicate Exclusive(s: System) {
    IdleOnce(s) && LentOnce(s) && OpensForWaiter(s)
  }

  // A future without a connection comes, changes or goes.
  lemma EmptyHanded(s: System, s': System, id: nat)
    requires Exclusive(s)
    requires s'.pool.available == s.pool.available && s'.born == s.born
    requires || s'.tasks == s.tasks - {id}
             || (id in s'.tasks && InHand(s'.tasks[id]).None? && s'.tasks == s.tasks[id := s'.tasks[id]]
                 && (id in s.tasks ==> s'.tasks[id].key == s.tasks[id].key)
                 && OpensForWaiter(s'))
    ensures Exclusive(s')
  {
    assert forall k :: Idle(s'.pool, k) == Idle(s.pool, k);
  }

  // A future receives a connection nobody else has.
  lemma Lent(s: System, s': System, id: nat, c: Conn)
    requires Linked(s) && Exclusive(s)
    requires id in s.tasks || id == s.nextId
    requires id in s'.tasks && s'.tasks == s.tasks[id := s'.tasks[id]]
    requires InHand(s'.tasks[id]) == Some(c) && (id in s.tasks ==> s'.tasks[id].key == s.tasks[id].key)
    requires forall a :: a in s.tasks && a != id ==> InHand(s.tasks[a]) != Some(c)
    requires IdleOnce(s') && c in s'.born && s'.born[c] == s'.tasks[id].key
    requires c !in Idle(s'.pool, s'.tasks[id].key)
    requires Shrinks(s, s')
    requires forall x :: x in s.born ==> x in s'.born && (x != c ==> s'.born[x] == s.born[x])
    ensures Exclusive(s')
  {}

  // No idle list gains a connection.
  ghost predicate Shrinks(s: System, s': System) {
    forall k, x :: x in Idle(s'.pool, k) ==> x in Idle(s.pool, k)
  }

  lemma IdlePrefixes(s: System, s': System)
    requires IdleOnce(s) && s'.born == s.born
    requires forall k :: Idle(s'.pool, k) <= Idle(s.pool, k)
    ensures IdleOnce(s') && Shrinks(s, s')
  {
    forall k, i, j | 0 <= i < j < |Idle(s'.pool, k)|
      ensures Idle(s'.pool, k)[i] != Idle(s'.pool, k)[j]
    {
      assert Idle(s.pool, k)[i] != Idle(s.pool, k)[j];
    }
  }

  // A successful acquire takes a suffix off one idle list; a reused connection was in it.
  lemma AcquireTakes(s: System, key: Key, usable: Conn -> bool, s': System)
    requires Exclusive(s) && s'.born == s.born
    requires s'.pool.available == TryAcquire(s.pool, key, usable).0.available
    ensures IdleOnce(s') && Shrinks(s, s')
    ensures var a := TryAcquire(s.pool, key, usable).1;
      a.Reused? ==>
        && a.conn in s.born && s.born[a.conn] == key && a.conn !in Idle(s'.pool, key)
        && a.conn in Idle(s.pool, key)
  {
    IdlePrefixes(s, s');
    var a := TryAcquire(s.pool, key, usable).1;
    if a.Reused? {
      var (was, kept) := (Idle(s.pool, key), Idle(s'.pool, key));
      assert kept + [a.conn] <= was;
      assert was[|kept|] == a.conn;
    }
  }

  lemma IdleIsNotLent(s: System, key: Key, c: Conn)
    requires Exclusive(s) && c in Idle(s.pool, key)
    ensures forall b :: b in s.tasks ==> InHand(s.tasks[b]) != Some(c)
  {}

  // ---------------------------------------------------------------- each event

  lemma ConnectExcludes(s: System, e: Event)
    requires Linked(s) && Exclusive(s) && Enabled(s, e) && Step(s, e).Ok?
    requires e.ConnectFails? || e.ConnectedH1? || e.ConnectedH2? || e.HandshakeDone?
    ensures Exclusive(Step(s, e).value)
  {
    var s' := Step(s, e).value;
    if e.ConnectFails? || e.ConnectedH2? {
      EmptyHanded(s, s', e.id);
    } else {
      Lent(s, s', e.id, e.conn);
    }
  }

  lemma LeaveExcludes(s: System, e: Event)
    requires Linked(s) && Exclusive(s) && Enabled(s, e) && Step(s, e).Ok?
    requires e.GiveUp? || e.Close? || e.DropConn? || e.Receive?
    ensures Exclusive(Step(s, e).value)
  {
    var s' := Step(s, e).value;
    if e.Receive? && s.tasks[e.id].got.Some? {
      Lent(s, s', e.id, s.tasks[e.id].got.value);
    } else {
      EmptyHanded(s, s', e.id);
    }
  }

  lemma GiveBackExcludes(s: System, e: Event)
    requires Linked(s) && Exclusive(s) && Enabled(s, e) && Step(s, e).Ok? && e.GiveBack?
    ensures Exclusive(Step(s, e).value)
  {
    var s' := Step(s, e).value;
    var Using(key, conn) := s.tasks[e.id];
    assert Idle(s'.pool, key) == Idle(s.pool, key) + [conn];
    forall k | k != key ensures Idle(s'.pool, k) == Idle(s.pool, k) {}
  }

  lemma FreshBorn(s: System, s': System, c: Conn, k: Key)
    requires Exclusive(s) && c !in s.born && s' == s.(born := s.born[c := k])
    ensures Exclusive(s')
  {}

  lemma OpenExcludes(s: System, e: Event)
    requires Linked(s) && Exclusive(s) && Enabled(s, e) && Step(s, e).Ok?
    requires e.OpenFails? || e.OpenDone? || e.OpenDropped?
    ensures Exclusive(Step(s, e).value)
  {
    var s' := Step(s, e).value;
    var Opening(key, r) := s.tasks[e.id];
    var s1 := s;
    if r in s.tasks {
      if e.OpenDone? {
        s1 := s.(tasks := Deliver(s.tasks, r, Some(e.conn)), born := s'.born);
        Lent(s, s1, r, e.conn);
      } else {
        s1 := s.(tasks := Deliver(s.tasks, r, None));
        EmptyHanded(s, s1, r);
      }
    } else if e.OpenDone? {
      s1 := s.(born := s'.born);
      FreshBorn(s, s1, e.conn, key);
    }
    EmptyHanded(s1, s', e.id);
  }

  lemma AcquiredExcludes(s: System, s': System, key: Key, usable: Conn -> bool, id: nat)
    requires Linked(s) && Exclusive(s)
    requires s'.pool.available == TryAcquire(s.pool, key, usable).0.available && s'.born == s.born
    requires id in s.tasks || id == s.nextId
    requires id in s'.tasks && s'.tasks == s.tasks[id := s'.tasks[id]] && s'.tasks[id].key == key
    requires id in s.tasks ==> s.tasks[id].key == key
    requires match TryAcquire(s.pool, key, usable).1
      case Reused(conn) => InHand(s'.tasks[id]) == Some(conn)
      case _ => InHand(s'.tasks[id]).None? && OpensForWaiter(s')
    ensures Exclusive(s')
  {
    AcquireTakes(s, key, usable, s');
    match TryAcquire(s.pool, key, usable).1
    case Reused(conn) =>
      IdleIsNotLent(s, key, conn);
      Lent(s, s', id, conn);
    case _ =>
      var s1 := s.(pool := s'.pool);
      assert LentOnce(s1) && OpensForWaiter(s1);
      EmptyHanded(s1, s', id);
  }

  lemma CallExcludes(s: System, e: Event)
    requires Linked(s) && Exclusive(s) && Enabled(s, e) && Step(s, e).Ok? && e.Call?
    ensures Exclusive(Step(s, e).value)
  {
    var s' := Step(s, e).value;
    AcquiredExcludes(s, s', e.key, e.usable, s.nextId);
  }

  lemma RoundExcludes(s: System, usable: Conn -> bool)
    requires Inv(s) && Exclusive(s)
    ensures var r := SupportRound(s, usable); r.Again? ==> Exclusive(r.next)
  {
    if s.pool.queue != [] && SupportRound(s, usable).Again? {
      var (key, token) := s.pool.queue[0];
      assert s.pool.queue[0] in s.pool.queue;
      var receiver := s.pool.waiters[token].value;
      var s' := SupportRound(s, usable).next;
      AcquiredExcludes(s, s', key, usable,
                       if TryAcquire(s.pool, key, usable).1.Reused? then receiver else s.nextId);
    }
  }

  lemma {:induction false} SupportExcludes(s: System, usable: Conn -> bool)
    requires Inv(s) && Exclusive(s)
    ensures SupportPoll(s, usable).Ok? && Exclusive(SupportPoll(s, usable).value)
    decreases |s.pool.queue|
  {
    RoundKeepsInv(s, usable);
    RoundExcludes(s, usable);
    match SupportRound(s, usable)
    case Stop =>
    case Again(next) => SupportExcludes(next, usable);
  }

  lemma StepExcludes(s: System, e: Event)
    requires Inv(s) && Exclusive(s) && Enabled(s, e) && Step(s, e).Ok?
    ensures Exclusive(Step(s, e).value)
  {
    match e
    case Call(_, _, _) => CallExcludes(s, e);
    case Support(usable) => SupportExcludes(s, usable);
    case OpenFails(_) => OpenExcludes(s, e);
    case OpenDone(_, _) => OpenExcludes(s, e);
    case OpenDropped(_) => OpenExcludes(s, e);
    case GiveBack(_) => GiveBackExcludes(s, e);
    case GiveUp(_) => LeaveExcludes(s, e);
    case Close(_) => LeaveExcludes(s, e);
    case DropConn(_) => LeaveExcludes(s, e);
    case Receive(_) => LeaveExcludes(s, e);
    case _ => ConnectExcludes(s, e);
  }

  lemma {:induction false} RunExcludes(s: System, es: seq<Event>)
    requires Inv(s) && Exclusive(s)
    ensures Run(s, es).Ok? && Exclusive(Run(s, es).value)
    decreases |es|
  {
    if es != [] {
      if Enabled(s, es[0]) {
        StepKeepsInv(s, es[0]);
        StepExcludes(s, es[0]);
        RunExcludes(Step(s, es[0]).value, es[1..]);
      } else {
        RunExcludes(s, es[1..]);
      }
    }
  }

  // In every run, two clients never use one connection, and every client's connection was
  // opened for the authority it asked for and is not idle at the same time.
  lemma EveryRunExcludes(limit: nat, es: seq<Event>, a: nat)
    ensures Run(Init(limit), es).Ok?
    ensures var s := Run(Init(limit), es).value;
      a in s.tasks && s.tasks[a].Using? ==>
        var Using(key, conn) := s.tasks[a];
        && conn in s.born && s.born[conn] == key
        && (forall k :: conn !in Idle(s.pool, k))
        && (forall b :: b in s.tasks && b != a ==> InHand(s.tasks[b]) != Some(conn))
  {
    InitInv(limit);
    RunExcludes(Init(limit), es);
  }

  // ---------------------------------------------------------------- what becomes of a connection

  // A connection that nobody holds, and nobody can get.
  ghost predicate Gone(s: System, c: Conn) {
    && c in s.born
    && (forall k :: c !in Idle(s.pool, k))
    && (forall a :: a in s.tasks ==> InHand(s.tasks[a]) != Some(c))
  }

  lemma RoundKeepsGone(s: System, usable: Conn -> bool, c: Conn)
    requires Inv(s) && Gone(s, c) && SupportRound(s, usable).Again?
    ensures Gone(SupportRound(s, usable).next, c)
  {
    var next := SupportRound(s, usable).next;
    RoundServes(s, usable);
    RoundShrinks(s, next, usable);
    var e := s.pool.queue[0];
    assert forall x :: x in Idle(next.pool, e.0) ==> x in Idle(s.pool, e.0);
    forall a | a in next.tasks ensures InHand(next.tasks[a]) != Some(c) {
      if a in s.tasks {
        assert InHand(s.tasks[a]) != Some(c);
      }
    }
  }

  lemma {:induction false} SupportKeepsGone(s: System, usable: Conn -> bool, c: Conn)
    requires Inv(s) && Gone(s, c)
    ensures SupportPoll(s, usable).Ok? && Gone(SupportPoll(s, usable).value, c)
    decreases |s.pool.queue|
  {
    RoundKeepsInv(s, usable);
    match SupportRound(s, usable)
    case Stop =>
    case Again(next) =>
      RoundKeepsGone(s, usable, c);
      SupportKeepsGone(next, usable, c);
  }

  lemma CallKeepsGone(s: System, e: Event, c: Conn)
    requires Inv(s) && Gone(s, c) && Enabled(s, e) && e.Call?
    ensures Step(s, e).Ok? && Gone(Step(s, e).value, c)
  {
    CallServes(s, e.key, e.token, e.usable);
    AcquireIff(s.pool, e.key, e.usable);
    var t := Step(s, e).value;
    assert forall x :: x in Idle(t.pool, e.key) ==> x in Idle(s.pool, e.key);
  }

  lemma StepKeepsGone(s: System, e: Event, c: Conn)
    requires Inv(s) && Gone(s, c) && Enabled(s, e)
    ensures Step(s, e).Ok? && Gone(Step(s, e).value, c)
  {
    StepKeepsInv(s, e);
    match e
    case Call(_, _, _) => CallKeepsGone(s, e, c);
    case Support(usable) => SupportKeepsGone(s, usable, c);
    case GiveBack(_) => BackKeepsGone(s, e, c);
    case OpenFails(_) => OpenKeepsGone(s, e, c);
    case OpenDone(_, _) => OpenKeepsGone(s, e, c);
    case OpenDropped(_) => OpenKeepsGone(s, e, c);
    case _ => OwnKeepsGone(s, e, c);
  }

  // Idle lists stay, and no future gets the connection.
  lemma NobodyGets(s: System, t: System, c: Conn)
    requires Gone(s, c) && t.pool.available == s.pool.available && c in t.born
    requires forall a :: a in t.tasks ==> (a in s.tasks && InHand(t.tasks[a]) == InHand(s.tasks[a])) || InHand(t.tasks[a]) != Some(c)
    ensures Gone(t, c)
  {
    assert forall k :: Idle(t.pool, k) == Idle(s.pool, k);
  }

  lemma OpenKeepsGone(s: System, e: Event, c: Conn)
    requires Gone(s, c) && Enabled(s, e) && Step(s, e).Ok? && (e.OpenFails? || e.OpenDone? || e.OpenDropped?)
    ensures Gone(Step(s, e).value, c)
  {
    NobodyGets(s, Step(s, e).value, c);
  }

  lemma OwnKeepsGone(s: System, e: Event, c: Conn)
    requires Gone(s, c) && Enabled(s, e) && Step(s, e).Ok?
    requires !e.Call? && !e.Support? && !e.OpenFails? && !e.OpenDone? && !e.OpenDropped? && !e.GiveBack?
    ensures Gone(Step(s, e).value, c)
  {
    NobodyGets(s, Step(s, e).value, c);
  }

  lemma BackKeepsGone(s: System, e: Event, c: Conn)
    requires Gone(s, c) && Enabled(s, e) && e.GiveBack? && Step(s, e).Ok?
    ensures Gone(Step(s, e).value, c)
  {
    var (t, Using(key, conn)) := (Step(s, e).value, s.tasks[e.id]);
    assert InHand(s.tasks[e.id]) == Some(conn);
    assert Idle(t.pool, key) == Idle(s.pool, key) + [conn];
    assert forall k :: k != key ==> Idle(t.pool, k) == Idle(s.pool, k);
  }

  lemma {:induction false} RunKeepsGone(s: System, es: seq<Event>, c: Conn)
    requires Inv(s) && Gone(s, c)
    ensures Run(s, es).Ok? && Gone(Run(s, es).value, c)
    decreases |es|
  {
    if es != [] {
      if Enabled(s, es[0]) {
        StepKeepsInv(s, es[0]);
        StepKeepsGone(s, es[0], c);
        RunKeepsGone(Step(s, es[0]).value, es[1..], c);
      } else {
        RunKeepsGone(s, es[1..], c);
      }
    }
  }

  // A connection that its client closes or drops is never lent again, in any further run.
  lemma ClosedIsGone(s: System, e: Event, es: seq<Event>)
    requires Inv(s) && Exclusive(s) && Enabled(s, e) && (e.Close? || e.DropConn?)
    ensures var run := Run(s, [e] + es);
      run.Ok? && Gone(run.value, s.tasks[e.id].conn)
  {
    StepKeepsInv(s, e);
    var (c, t) := (s.tasks[e.id].conn, Step(s, e).value);
    assert t.tasks == s.tasks - {e.id} && t.born == s.born && t.pool.available == s.pool.available;
    forall k ensures c !in Idle(t.pool, k) {
      assert Idle(t.pool, k) == Idle(s.pool, k);
    }
    RunKeepsGone(t, es, c);
    assert ([e] + es)[1..] == es;
  }

  // One that is given back goes to the next call for its key, if it is still usable.
  lemma GivenBackIsReused(s: System, id: nat, token: nat, usable: Conn -> bool)
    requires Inv(s) && Enabled(s, GiveBack(id)) && token !in s.pool.waiters && usable(s.tasks[id].conn)
    ensures var Using(key, conn) := s.tasks[id];
      var run := Run(s, [GiveBack(id), Call(key, token, usable)]);
      run.Ok? && s.nextId in run.value.tasks && run.value.tasks[s.nextId] == Using(key, conn)
  {
    var Using(key, conn) := s.tasks[id];
    StepKeepsInv(s, GiveBack(id));
    HolderCounted(s, id);
    var t := Step(s, GiveBack(id)).value;
    var idle := Idle(t.pool, key);
    assert idle == Idle(s.pool, key) + [conn] && idle[|idle| - 1] == conn;
    CallServes(t, key, token, usable);
    var es := [GiveBack(id), Call(key, token, usable)];
    assert es[1..] == [Call(key, token, usable)];
    OneEvent(t, Call(key, token, usable));
  }
}
