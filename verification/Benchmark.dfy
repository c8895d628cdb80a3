/** The benchmark's semaphore, its success and failure counts, and its sampling. */
module Benchmark {
  import BatchWriter

  // ---------------------------------------------------------------- the semaphore

  // `queue` holds waiting tasks; `granted` and `asked` are the history: who got a slot, in
  // order, and how many tasks have asked. Tasks are numbered in the order of asking.
  datatype Sem = Sem(current: int, queue: seq<nat>, granted: seq<nat>, asked: nat)

  const IDLE := Sem(0, [], [], 0)

  function Ask(max: int, s: Sem): Sem {
    if s.current < max
    then Sem(s.current + 1, s.queue, s.granted + [s.asked], s.asked + 1)
    else Sem(s.current, s.queue + [s.asked], s.granted, s.asked + 1)
  }

  // A release hands its slot to the first waiter, if there is one.
  function HandOn(s: Sem): Sem {
    if |s.queue| > 0
    then Sem(s.current, s.queue[1..], s.granted + [s.queue[0]], s.asked)
    else s.(current := s.current - 1)
  }

  class Semaphore {
    const max: int
    var current: int
    var queue: seq<nat>
    ghost var granted: seq<nat>
    ghost var asked: nat

    ghost function Contents(): Sem
      reads this
    {
      Sem(current, queue, granted, asked)
    }

    constructor (max: int)
      ensures this.max == max && Contents() == IDLE
    {
      this.max := max;
      current, queue, granted, asked := 0, [], [], 0;
    }

    // The task is told whether it may go on at once.
    method Acquire(task: nat) returns (now: bool)
      requires task == asked
      modifies this
      ensures Contents() == Ask(max, old(Contents()))
      ensures now <==> task in granted[|old(granted)|..]
    {
      now := current < max;
      if now {
        current := current + 1;
        granted := granted + [task];
      } else {
        queue := queue + [task];
      }
      asked := asked + 1;
    }

    method Release() returns (next: seq<nat>)
      modifies this
      ensures Contents() == HandOn(old(Contents()))
      ensures granted == old(granted) + next
    {
      next := [];
      if |queue| > 0 {
        next := [queue[0]];
        queue := queue[1..];
        granted := granted + next;
      } else {
        current := current - 1;
      }
    }
  }

  // ---------------------------------------------------------------- a run over the semaphore

  datatype TaskEnd = Succeeded | Unsuccessful | Threw

  // `catches` is set in the branch that counts a throwing write as a failure; in the other
  // one the run itself is rejected. `ended` is the history of finished tasks.
  datatype Run = Run(sem: Sem, ended: seq<(nat, TaskEnd)>, successes: nat, failures: nat, rejected: bool)

  datatype Event = Asks | Ends(task: nat, how: TaskEnd)

  const START := Run(IDLE, [], 0, 0, false)

  function Step(max: int, catches: bool, r: Run, e: Event): Run {
    match e
    case Asks => r.(sem := Ask(max, r.sem))
    case Ends(task, how) =>
      var counted := r.(sem := HandOn(r.sem), ended := r.ended + [(task, how)]);
      match how
      case Succeeded => counted.(successes := r.successes + 1)
      case Unsuccessful => counted.(failures := r.failures + 1)
      case Threw => if catches then counted.(failures := r.failures + 1) else counted.(rejected := true)
  }

  ghost function EndedTasks(ended: seq<(nat, TaskEnd)>): set<nat> {
    set i | 0 <= i < |ended| :: ended[i].0
  }

  ghost function Granted(s: Sem): set<nat> {
    set i | 0 <= i < |s.granted| :: s.granted[i]
  }

  // The tasks between their acquire and their release.
  ghost function Holders(r: Run): set<nat> {
    Granted(r.sem) - EndedTasks(r.ended)
  }

  ghost predicate Enabled(r: Run, e: Event) {
    e.Ends? ==> e.task in Holders(r)
  }

  function UpTo(n: nat): (s: seq<nat>)
    ensures |s| == n
    ensures forall i :: 0 <= i < n ==> s[i] == i
  {
    seq(n, i => i)
  }

  function Slots(max: int): nat {
    if max < 0 then 0 else max
  }

  function CountEnds(ended: seq<(nat, TaskEnd)>, how: TaskEnd): nat {
    if ended == [] then 0
    else CountEnds(ended[..|ended| - 1], how) + (if ended[|ended| - 1].1 == how then 1 else 0)
  }

  // Slots are granted in the order of asking.
  ghost predicate Fifo(s: Sem) {
    s.granted + s.queue == UpTo(s.asked)
  }

  ghost predicate SlotsInv(max: int, r: Run) {
    && r.sem.current == |Holders(r)| <= Slots(max)
    && (r.sem.queue != [] ==> r.sem.current == Slots(max))
    && |r.sem.granted| == |r.ended| + r.sem.current
  }

  ghost predicate CountsInv(catches: bool, r: Run) {
    && r.successes == CountEnds(r.ended, Succeeded)
    && r.failures == CountEnds(r.ended, Unsuccessful) + (if catches then CountEnds(r.ended, Threw) else 0)
    && (r.rejected <==> !catches && CountEnds(r.ended, Threw) > 0)
  }

  ghost predicate Inv(max: int, catches: bool, r: Run) {
    Fifo(r.sem) && EndedTasks(r.ended) <= Granted(r.sem) && SlotsInv(max, r) && CountsInv(catches, r)
  }

  // The numbers granted so far are an initial stretch.
  lemma GrantedIsStretch(s: Sem)
    requires Fifo(s)
    ensures forall i :: 0 <= i < |s.granted| ==> s.granted[i] == i
    ensures forall i :: 0 <= i < |s.queue| ==> s.queue[i] == |s.granted| + i
    ensures |s.granted| + |s.queue| == s.asked
  {
    var all := s.granted + s.queue;
    forall i | 0 <= i < |s.granted| ensures s.granted[i] == i {
      assert all[i] == s.granted[i];
    }
    forall i | 0 <= i < |s.queue| ensures s.queue[i] == |s.granted| + i {
      assert all[|s.granted| + i] == s.queue[i];
    }
  }

  lemma FifoAsk(max: int, s: Sem)
    requires Fifo(s) && (s.queue != [] ==> s.current >= max)
    ensures Fifo(Ask(max, s)) && s.asked !in Granted(s)
  {
    GrantedIsStretch(s);
    assert UpTo(s.asked + 1) == UpTo(s.asked) + [s.asked];
    assert s.granted + (s.queue + [s.asked]) == s.granted + s.queue + [s.asked];
    if s.queue == [] {
      assert s.granted + s.queue == s.granted;
      assert s.granted + [s.asked] + [] == s.granted + [s.asked];
    }
  }

  lemma FifoHandOn(s: Sem)
    requires Fifo(s)
    ensures Fifo(HandOn(s))
    ensures s.queue != [] ==> s.queue[0] !in Granted(s)
  {
    GrantedIsStretch(s);
    if s.queue != [] {
      assert s.granted + [s.queue[0]] + s.queue[1..] == s.granted + s.queue;
    }
  }

  lemma GrantOne(s: Sem, t: Sem, task: nat)
    requires t.granted == s.granted + [task]
    ensures Granted(t) == Granted(s) + {task}
  {
    assert t.granted[|s.granted|] == task;
    forall x | x in Granted(s) ensures x in Granted(t) {
      var i :| 0 <= i < |s.granted| && s.granted[i] == x;
      assert t.granted[i] == x;
    }
  }

  lemma EndOne(ended: seq<(nat, TaskEnd)>, task: nat, how: TaskEnd)
    ensures EndedTasks(ended + [(task, how)]) == EndedTasks(ended) + {task}
    ensures forall h: TaskEnd :: CountEnds(ended + [(task, how)], h) == CountEnds(ended, h) + (if h == how then 1 else 0)
  {
    var after := ended + [(task, how)];
    assert after[|ended|] == (task, how) && after[..|ended|] == ended;
    forall x | x in EndedTasks(ended) ensures x in EndedTasks(after) {
      var i :| 0 <= i < |ended| && ended[i].0 == x;
      assert after[i].0 == x;
    }
  }

  lemma AskKeepsInv(max: int, catches: bool, r: Run)
    requires Inv(max, catches, r)
    ensures Inv(max, catches, Step(max, catches, r, Asks))
  {
    var t := Step(max, catches, r, Asks);
    FifoAsk(max, r.sem);
    if r.sem.current < max {
      GrantOne(r.sem, t.sem, r.sem.asked);
      assert Holders(t) == Holders(r) + {r.sem.asked};
    } else {
      assert Granted(t.sem) == Granted(r.sem);
    }
  }

  // The holder that ends leaves, and the first waiter, if any, joins.
  lemma HoldersChange(r: Run, t: Run, task: nat, how: TaskEnd)
    requires Fifo(r.sem) && EndedTasks(r.ended) <= Granted(r.sem) && task in Holders(r)
    requires t.sem == HandOn(r.sem) && t.ended == r.ended + [(task, how)]
    ensures EndedTasks(t.ended) <= Granted(t.sem)
    ensures r.sem.queue == [] ==> Holders(t) == Holders(r) - {task}
    ensures r.sem.queue != [] ==> r.sem.queue[0] !in Holders(r)
    ensures r.sem.queue != [] ==> Holders(t) == Holders(r) - {task} + {r.sem.queue[0]}
  {
    FifoHandOn(r.sem);
    EndOne(r.ended, task, how);
    if r.sem.queue != [] {
      GrantOne(r.sem, t.sem, r.sem.queue[0]);
    } else {
      assert Granted(t.sem) == Granted(r.sem);
    }
  }

  lemma EndKeepsSlots(max: int, r: Run, t: Run, task: nat, how: TaskEnd)
    requires Fifo(r.sem) && EndedTasks(r.ended) <= Granted(r.sem) && SlotsInv(max, r) && task in Holders(r)
    requires t.sem == HandOn(r.sem) && t.ended == r.ended + [(task, how)]
    ensures SlotsInv(max, t)
  {
    HoldersChange(r, t, task, how);
    var left := Holders(r) - {task};
    assert |left| == |Holders(r)| - 1;
    if r.sem.queue != [] {
      assert |left + {r.sem.queue[0]}| == |left| + 1;
    }
  }

  lemma EndKeepsCounts(max: int, catches: bool, r: Run, task: nat, how: TaskEnd)
    requires CountsInv(catches, r)
    ensures CountsInv(catches, Step(max, catches, r, Ends(task, how)))
  {
    EndOne(r.ended, task, how);
  }

  lemma StepKeepsInv(max: int, catches: bool, r: Run, e: Event)
    requires Inv(max, catches, r) && Enabled(r, e)
    ensures Inv(max, catches, Step(max, catches, r, e))
  {
    match e
    case Asks => AskKeepsInv(max, catches, r);
    case Ends(task, how) =>
      var t := Step(max, catches, r, e);
      assert t.sem == HandOn(r.sem) && t.ended == r.ended + [(task, how)];
      FifoHandOn(r.sem);
      HoldersChange(r, t, task, how);
      EndKeepsSlots(max, r, t, task, how);
      EndKeepsCounts(max, catches, r, task, how);
  }

  function RunFrom(max: int, catches: bool, r: Run, es: seq<Event>): Run {
    if es == [] then r else Step(max, catches, RunFrom(max, catches, r, es[..|es| - 1]), es[|es| - 1])
  }

  ghost predicate Possible(max: int, catches: bool, r: Run, es: seq<Event>) {
    es != [] ==>
      && Possible(max, catches, r, es[..|es| - 1])
      && Enabled(RunFrom(max, catches, r, es[..|es| - 1]), es[|es| - 1])
  }

  lemma {:induction false} EveryRun(max: int, catches: bool, es: seq<Event>)
    requires Possible(max, catches, START, es)
    ensures Inv(max, catches, RunFrom(max, catches, START, es))
  {
    if es == [] {
      assert Holders(START) == {};
    } else {
      EveryRun(max, catches, es[..|es| - 1]);
      StepKeepsInv(max, catches, RunFrom(max, catches, START, es[..|es| - 1]), es[|es| - 1]);
    }
  }

  // With at least one slot, a waiting task always has a holder to wait for.
  lemma WaitersHaveHolders(max: int, catches: bool, r: Run)
    requires Inv(max, catches, r) && max >= 1 && r.sem.queue != []
    ensures Holders(r) != {}
  {}

  lemma {:induction false} EndsAddUp(ended: seq<(nat, TaskEnd)>)
    ensures CountEnds(ended, Succeeded) + CountEnds(ended, Unsuccessful) + CountEnds(ended, Threw) == |ended|
  {
    if ended != [] {
      EndsAddUp(ended[..|ended| - 1]);
    }
  }

  // When no task holds a slot any more, all that asked have ended; the counts add up to them
  // exactly when the run was not rejected.
  lemma WrittenAddsUpIff(max: int, catches: bool, r: Run)
    requires Inv(max, catches, r) && max >= 1 && Holders(r) == {}
    ensures |r.ended| == r.sem.asked && EndedTasks(r.ended) == Granted(r.sem)
    ensures r.successes + r.failures == r.sem.asked <==> !r.rejected
  {
    GrantedIsStretch(r.sem);
    EndsAddUp(r.ended);
  }

  // ---------------------------------------------------------------- the other branches

  // Replies to be collected, counted against the number of published logs.  More replies than
  // logs, and so a negative count, can only come from a redelivered message: delivered once,
  // each log is replied to once.
  method CountReplies(total: nat, collected: seq<bool>) returns (successes: nat, failures: int)
    ensures successes + failures == total
    ensures successes == multiset(collected)[true]
    ensures |collected| <= total ==> failures >= total - |collected|
    ensures failures < 0 <==> multiset(collected)[true] > total
  {
    successes, failures := 0, 0;
    for i := 0 to |collected|
      invariant successes + failures == i
      invariant successes == multiset(collected[..i])[true] && failures >= 0
    {
      assert collected[..i + 1] == collected[..i] + [collected[i]];
      if collected[i] {
        successes := successes + 1;
      } else {
        failures := failures + 1;
      }
    }
    assert collected[..|collected|] == collected;
    failures := failures + (total - |collected|);
  }

  // What the handlers of the settled promises count.
  function Tally(ps: seq<BatchWriter.Promise>): (c: (nat, nat)) {
    if ps == [] then (0, 0)
    else
      var (s, f) := Tally(ps[..|ps| - 1]);
      match ps[|ps| - 1]
      case Unsettled => (s, f)
      case Resolved(r) => if r.success then (s + 1, f) else (s, f + 1)
      case Rejected(_) => (s, f + 1)
  }

  lemma {:induction false} TallyAddsUpIff(ps: seq<BatchWriter.Promise>)
    ensures Tally(ps).0 + Tally(ps).1 <= |ps|
    ensures Tally(ps).0 + Tally(ps).1 == |ps| <==> forall i :: 0 <= i < |ps| ==> !ps[i].Unsettled?
  {
    if ps != [] {
      TallyAddsUpIff(ps[..|ps| - 1]);
    }
  }

  // Successes are the promises that resolved with one; failures are those that resolved without
  // or were rejected.
  lemma {:induction false} TallyIs(ps: seq<BatchWriter.Promise>)
    ensures Tally(ps).0 == |set i: nat | i < |ps| && ps[i].Resolved? && ps[i].result.success|
    ensures Tally(ps).1 == |set i: nat | i < |ps| && (ps[i].Rejected? || (ps[i].Resolved? && !ps[i].result.success))|
  {
    if ps != [] {
      var last := |ps| - 1;
      var init := ps[..last];
      TallyIs(init);
      var won := set i: nat | i < |ps| && ps[i].Resolved? && ps[i].result.success;
      var lost := set i: nat | i < |ps| && (ps[i].Rejected? || (ps[i].Resolved? && !ps[i].result.success));
      assert won - {last} == set i: nat | i < |init| && init[i].Resolved? && init[i].result.success;
      assert lost - {last} == set i: nat | i < |init| && (init[i].Rejected? || (init[i].Resolved? && !init[i].result.success));
    }
  }

  // A batched run returns once every promise has settled, and then its counts add up.
  lemma BatchedAddsUp(c: BatchWriter.Config, es: seq<BatchWriter.Event>)
    requires BatchWriter.Possible(c, BatchWriter.FRESH, es)
    requires var s := BatchWriter.RunFrom(c, BatchWriter.FRESH, es);
      !s.armed && forall k :: 0 <= k < |s.flushes| ==> s.flushes[k].phase != BatchWriter.Writing
    ensures var s := BatchWriter.RunFrom(c, BatchWriter.FRESH, es);
      Tally(s.promises).0 + Tally(s.promises).1 == |s.written|
  {
    BatchWriter.EveryRun(c, es);
    var s := BatchWriter.RunFrom(c, BatchWriter.FRESH, es);
    BatchWriter.QuietIsSettled(c, s);
    TallyAddsUpIff(s.promises);
  }

  // ---------------------------------------------------------------- sampling

  function Swap<T>(s: seq<T>, i: nat, j: nat): (r: seq<T>)
    requires i < |s| && j < |s|
    ensures |r| == |s|
  {
    s[i := s[j]][j := s[i]]
  }

  // The shuffle of the first |picks| items, from the last one down; picks[i] is the choice
  // made at index i.
  function Shuffle<T>(pool: seq<T>, picks: seq<nat>): (r: seq<T>)
    requires |picks| <= |pool| && ValidPicks(picks)
    ensures |r| == |pool|
    decreases |picks|
  {
    if picks == [] then pool
    else
      var i := |picks| - 1;
      Shuffle(Swap(pool, i, picks[i]), picks[..i])
  }

  predicate ValidPicks(picks: seq<nat>) {
    forall i :: 0 <= i < |picks| ==> picks[i] <= i
  }

  lemma SwapPermutes<T>(s: seq<T>, i: nat, j: nat)
    requires i < |s| && j < |s|
    ensures multiset(Swap(s, i, j)) == multiset(s)
  {}

  lemma {:induction false} ShufflePermutes<T>(pool: seq<T>, picks: seq<nat>)
    requires |picks| <= |pool| && ValidPicks(picks)
    ensures multiset(Shuffle(pool, picks)) == multiset(pool)
    decreases |picks|
  {
    if picks != [] {
      var i := |picks| - 1;
      SwapPermutes(pool, i, picks[i]);
      ShufflePermutes(Swap(pool, i, picks[i]), picks[..i]);
    }
  }

  // Every arrangement of the pool is the result of some choices.
  lemma {:induction false} ShuffleReaches<T>(pool: seq<T>, n: nat, target: seq<T>) returns (picks: seq<nat>)
    requires n <= |pool| == |target| && pool[n..] == target[n..]
    requires multiset(pool[..n]) == multiset(target[..n])
    ensures |picks| == n && ValidPicks(picks) && Shuffle(pool, picks) == target
    decreases n
  {
    if n == 0 {
      picks := [];
      assert pool[0..] == pool && target[0..] == target;
    } else {
      var i := n - 1;
      var j := PositionOf(pool[..n], target[..n]);
      var next := Swap(pool, i, j);
      SwapPrefix(pool, target, n, j);
      var rest := ShuffleReaches(next, i, target);
      picks := rest + [j];
      assert picks[..i] == rest;
    }
  }

  // Where the last item of one arrangement stands in another.
  lemma PositionOf<T>(s: seq<T>, t: seq<T>) returns (j: nat)
    requires t != [] && multiset(s) == multiset(t)
    ensures j < |s| == |t| && s[j] == t[|t| - 1]
  {
    assert |s| == |multiset(s)| == |multiset(t)| == |t|;
    assert t[|t| - 1] in multiset(t);
    assert t[|t| - 1] in multiset(s);
    assert t[|t| - 1] in s;
    j :| 0 <= j < |s| && s[j] == t[|t| - 1];
  }

  lemma SwapPrefix<T>(pool: seq<T>, target: seq<T>, n: nat, j: nat)
    requires 0 < n <= |pool| == |target| && pool[n..] == target[n..] && j < n
    requires multiset(pool[..n]) == multiset(target[..n]) && pool[j] == target[n - 1]
    ensures var next := Swap(pool, n - 1, j);
      next[n - 1..] == target[n - 1..] && multiset(next[..n - 1]) == multiset(target[..n - 1])
  {
    var next := Swap(pool, n - 1, j);
    assert next[..n] == Swap(pool[..n], n - 1, j);
    SwapPermutes(pool[..n], n - 1, j);
    assert next[n..] == pool[n..];
    SplitLast(next, n);
    SplitLast(target, n);
    SameWithout(next[..n - 1], target[..n - 1], target[n - 1]);
  }

  lemma SplitLast<T>(s: seq<T>, n: nat)
    requires 0 < n <= |s|
    ensures s[..n] == s[..n - 1] + [s[n - 1]] && s[n - 1..] == [s[n - 1]] + s[n..]
  {}

  lemma SameWithout<T>(a: seq<T>, b: seq<T>, x: T)
    requires multiset(a + [x]) == multiset(b + [x])
    ensures multiset(a) == multiset(b)
  {
    assert multiset(a) == multiset(a + [x]) - multiset{x};
    assert multiset(b) == multiset(b + [x]) - multiset{x};
  }

  // The random choices are given; a sample is the start of a rearrangement.
  method PickRandom<T>(logs: seq<T>, n: nat, picks: seq<nat>) returns (sample: seq<T>)
    requires |picks| == |logs| && ValidPicks(picks)
    ensures |sample| == if n < |logs| then n else |logs|
    ensures sample == Shuffle(logs, picks)[..|sample|]
    ensures multiset(sample) <= multiset(logs)
  {
    var pool := logs;
    var i := |pool| - 1;
    assert picks[..|logs|] == picks;
    while i > 0
      invariant -1 <= i < |pool| == |logs| && (|logs| > 0 ==> i >= 0)
      invariant Shuffle(pool, picks[..i + 1]) == Shuffle(logs, picks)
    {
      var j := picks[i];
      assert picks[..i + 1][..i] == picks[..i];
      pool := pool[i := pool[j]][j := pool[i]];
      i := i - 1;
    }
    if |logs| > 0 {
      LastPick(pool, picks[..1]);
    }
    ShufflePermutes(logs, picks);
    var m := if n < |pool| then n else |pool|;
    sample := pool[..m];
    assert pool == pool[..m] + pool[m..];
  }

  // The choice at index zero is always the item itself.
  lemma LastPick<T>(pool: seq<T>, picks: seq<nat>)
    requires |picks| == 1 <= |pool| && ValidPicks(picks)
    ensures Shuffle(pool, picks) == pool
  {
    assert Swap(pool, 0, 0) == pool;
  }
}
