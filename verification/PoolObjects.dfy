/** The pool as the program has it: a record updated in place by its methods and by the
    support loop, each proved to do what the transition functions say. */
module PoolObjects {
  import opened Bytes
  import opened ConnectionPool

  class Inner {
    const limit: nat
    var acquired: nat
    var available: map<Key, seq<Conn>>
    var waiters: map<nat, Option<nat>>
    var queue: seq<(Key, nat)>

    ghost function State(): PoolState
      reads this
    {
      PoolState(limit, acquired, available, waiters, queue)
    }

    constructor (limit: nat)
      ensures State() == Init(limit).pool
    {
      this.limit := limit;
      acquired, available, waiters, queue := 0, map[], map[], [];
    }

    method ReleaseReservation()
      requires Release(State()).Ok?
      modifies this`acquired
      ensures Ok(State()) == Release(old(State()))
    {
      acquired := acquired - 1;
    }

    method ReleaseConnection(key: Key, io: Conn)
      requires Release(State()).Ok?
      modifies this`acquired, this`available
      ensures Ok(State()) == ReleaseConn(old(State()), key, io)
    {
      acquired := acquired - 1;
      var idle := if key in available then available[key] else [];
      available := available[key := idle + [io]];
    }

    method FreeWaiter(key: Key, token: nat)
      requires token in waiters
      modifies this`waiters, this`queue
      ensures Ok(State()) == ReleaseWaiter(old(State()), key, token)
    {
      waiters := waiters - {token};
      queue := Without(queue, (key, token));
    }

    method Register(key: Key, token: nat, receiver: nat)
      requires token !in waiters && (key, token) !in queue
      modifies this`waiters, this`queue
      ensures Ok(State()) == WaitFor(old(State()), key, token, receiver)
    {
      waiters := waiters[token := Some(receiver)];
      queue := queue + [(key, token)];
    }

    // Checks the limit, reserves, and pops idle connections until one is usable.
    method AcquireConnection(key: Key, usable: Conn -> bool) returns (a: Acquire)
      modifies this`acquired, this`available
      ensures (State(), a) == TryAcquire(old(State()), key, usable)
    {
      if limit > 0 && acquired >= limit {
        return NotAvailable;
      }
      acquired := acquired + 1;
      if key in available {
        var connections := available[key];
        while connections != []
          invariant PopUsable(connections, usable) == PopUsable(old(available)[key], usable)
          decreases |connections|
        {
          var conn := connections[|connections| - 1];
          connections := connections[..|connections| - 1];
          if usable(conn) {
            available := available[key := connections];
            return Reused(conn);
          }
        }
        available := available[key := connections];
      }
      a := Available;
    }
  }

  // The support future with the futures it serves and spawns.
  class Support {
    const inner: Inner
    var tasks: map<nat, Task>
    var nextId: nat
    ghost var leaked: nat
    ghost var stranded: nat
    ghost var born: map<Conn, Key>

    ghost function State(): System
      reads this, inner
    {
      System(inner.State(), tasks, nextId, leaked, stranded, born)
    }

    constructor (limit: nat)
      ensures State() == Init(limit) && fresh(inner)
    {
      inner := new Inner(limit);
      tasks, nextId := map[], 0;
      leaked, stranded, born := 0, 0, map[];
    }

    // One turn of the loop: the first waiter gets what there is room for.
    method ServeFirst(usable: Conn -> bool) returns (served: bool)
      requires Inv(State()) && inner.queue != []
      modifies this`tasks, this`nextId, inner`acquired, inner`available, inner`waiters, inner`queue
      ensures SupportRound(old(State()), usable) == if served then Again(State()) else Stop
      ensures !served ==> State() == old(State())
    {
      RoundKeepsInv(State(), usable);
      var (key, token) := inner.queue[0];
      assert inner.queue[0] in inner.queue;
      var a := inner.AcquireConnection(key, usable);
      if a.NotAvailable? {
        return false;
      }
      var receiver := inner.waiters[token].value;
      inner.waiters := inner.waiters[token := None];
      if a.Reused? {
        tasks := Deliver(tasks, receiver, Some(a.conn));
      } else {
        tasks := tasks[nextId := Opening(key, receiver)];
        nextId := nextId + 1;
      }
      inner.queue := SwapRemoveFirst(inner.queue);
      served := true;
    }

    // The loop over the queue.  Under the invariant every unwrap succeeds, no round spins
    // on a taken slot, and each send reaches a live receiver.
    method Poll(usable: Conn -> bool)
      requires Inv(State())
      modifies this`tasks, this`nextId, inner`acquired, inner`available, inner`waiters, inner`queue
      ensures Ok(State()) == SupportPoll(old(State()), usable)
      ensures Inv(State())
      ensures inner.queue == [] || (inner.limit > 0 && inner.acquired >= inner.limit)
    {
      PollStops(State(), usable);
      while inner.queue != []
        invariant Inv(State())
        invariant SupportPoll(State(), usable) == SupportPoll(old(State()), usable)
        decreases |inner.queue|
      {
        RoundKeepsInv(State(), usable);
        var served := ServeFirst(usable);
        if !served {
          break;
        }
      }
    }
  }
}
