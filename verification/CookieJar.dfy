/** The cookie jar: the cookies a client sent, the changes since, and what the client holds
    after it applied them. */
module CookieJar {
  import opened Bytes

  // `expired` says whether the Expires attribute, if any, lies in the past.
  datatype Cookie = Cookie(
    name: string, value: string, maxAge: Option<int>, expired: bool, path: Option<string>, domain: Option<string>)

  datatype DeltaCookie = DeltaCookie(cookie: Cookie, removed: bool)

  // Sets of delta cookies compared by name, that is, maps from names.
  datatype Jar = Jar(original: map<string, DeltaCookie>, delta: map<string, DeltaCookie>)

  // ---------------------------------------------------------------- operations

  function Get(jar: Jar, name: string): Option<Cookie> {
    var found := if name in jar.delta then Some(jar.delta[name])
                 else if name in jar.original then Some(jar.original[name])
                 else None;
    if found.Some? && !found.value.removed then Some(found.value.cookie) else None
  }

  function AddOriginal(jar: Jar, c: Cookie): Jar {
    jar.(original := jar.original[c.name := DeltaCookie(c, false)])
  }

  function Add(jar: Jar, c: Cookie): Jar {
    jar.(delta := jar.delta[c.name := DeltaCookie(c, false)])
  }

  // The cookie that makes a client forget: no value, no age left, expired.
  function Removal(c: Cookie): Cookie {
    c.(value := "", maxAge := Some(0), expired := true)
  }

  function Remove(jar: Jar, c: Cookie): Jar {
    if c.name in jar.original then jar.(delta := jar.delta[c.name := DeltaCookie(Removal(c), true)])
    else jar.(delta := jar.delta - {c.name})
  }

  function ForceRemove(jar: Jar, c: Cookie): Jar {
    Jar(jar.original - {c.name}, jar.delta - {c.name})
  }

  class Cookies {
    var original: map<string, DeltaCookie>
    var delta: map<string, DeltaCookie>

    ghost function Contents(): Jar
      reads this
    {
      Jar(original, delta)
    }

    constructor ()
      ensures Contents() == Jar(map[], map[])
    {
      original, delta := map[], map[];
    }

    method Lookup(name: string) returns (c: Option<Cookie>)
      ensures c == Get(Contents(), name)
    {
      var found: Option<DeltaCookie> := if name in delta then Some(delta[name]) else None;
      if found.None? && name in original {
        found := Some(original[name]);
      }
      c := if found.Some? && !found.value.removed then Some(found.value.cookie) else None;
    }

    method InsertOriginal(c: Cookie)
      modifies this
      ensures Contents() == AddOriginal(old(Contents()), c)
    {
      original := original[c.name := DeltaCookie(c, false)];
    }

    method Insert(c: Cookie)
      modifies this
      ensures Contents() == Add(old(Contents()), c)
    {
      delta := delta[c.name := DeltaCookie(c, false)];
    }

    method RemoveCookie(c: Cookie)
      modifies this
      ensures Contents() == Remove(old(Contents()), c)
    {
      if c.name in original {
        var gone := c.(value := "", maxAge := Some(0), expired := true);
        delta := delta[c.name := DeltaCookie(gone, true)];
      } else {
        delta := delta - {c.name};
      }
    }

    method ForceRemoveCookie(c: Cookie)
      modifies this
      ensures Contents() == ForceRemove(old(Contents()), c)
    {
      original := original - {c.name};
      delta := delta - {c.name};
    }

    // The originals are taken away before each is removed, so no removal cookie is made:
    // the jar ends up empty, delta and all.
    method Clear()
      modifies this
      ensures Contents() == Jar(map[], map[])
    {
      delta := map[];
      var taken := original;
      original := map[];
      while taken != map[]
        invariant Contents() == Jar(map[], map[])
        decreases |taken|
      {
        var name :| name in taken;
        RemoveCookie(taken[name].cookie);
        taken := taken - {name};
      }
    }
  }

  datatype Op =
    | OpAddOriginal(c: Cookie)
    | OpAdd(c: Cookie)
    | OpRemove(c: Cookie)
    | OpForceRemove(c: Cookie)
    | OpClear

  function Apply(jar: Jar, op: Op): Jar {
    match op
    case OpAddOriginal(c) => AddOriginal(jar, c)
    case OpAdd(c) => Add(jar, c)
    case OpRemove(c) => Remove(jar, c)
    case OpForceRemove(c) => ForceRemove(jar, c)
    case OpClear => Jar(map[], map[])
  }

  function Run(jar: Jar, ops: seq<Op>): Jar
    decreases |ops|
  {
    if ops == [] then jar else Run(Apply(jar, ops[0]), ops[1..])
  }

  // ---------------------------------------------------------------- invariant

  // Cookies stand under their names, originals are not removed, and a removal names an
  // original and is a cookie that makes a client forget.
  ghost predicate Valid(jar: Jar) {
    && (forall k :: k in jar.original ==> jar.original[k].cookie.name == k && !jar.original[k].removed)
    && (forall k :: k in jar.delta ==> jar.delta[k].cookie.name == k)
    && (forall k :: k in jar.delta && jar.delta[k].removed ==> k in jar.original && Forgets(jar.delta[k].cookie))
  }

  // Whether a client drops the cookie: Max-Age decides, else Expires (RFC 6265, 5.3).
  predicate Forgets(c: Cookie) {
    if c.maxAge.Some? then c.maxAge.value <= 0 else c.expired
  }

  lemma {:induction false} RunKeepsValid(jar: Jar, ops: seq<Op>)
    requires Valid(jar)
    ensures Valid(Run(jar, ops))
    decreases |ops|
  {
    if ops != [] {
      RunKeepsValid(Apply(jar, ops[0]), ops[1..]);
    }
  }

  // ---------------------------------------------------------------- what each operation shows

  // What the jar shows under a name after an operation: the added cookie, an original only if
  // no change of the name hides it, nothing after a removal, and the same as before under every
  // other name.
  lemma GetAfter(jar: Jar, op: Op, name: string)
    ensures var now := Get(Apply(jar, op), name);
      match op
      case OpAdd(c) => now == if name == c.name then Some(c) else Get(jar, name)
      case OpAddOriginal(c) => now == if name == c.name && name !in jar.delta then Some(c) else Get(jar, name)
      case OpRemove(c) => now == if name == c.name then None else Get(jar, name)
      case OpForceRemove(c) => now == if name == c.name then None else Get(jar, name)
      case OpClear => now == None
  {}

  // What is sent to the client for a name: the last cookie that was added under it, or, for an
  // original that was removed, a cookie without value, age or time left, with the path and domain
  // that the caller gave.
  lemma DeltaAfter(jar: Jar, op: Op, name: string)
    ensures var delta := Apply(jar, op).delta;
      match op
      case OpAdd(c) => name == c.name ==> name in delta && delta[name] == DeltaCookie(c, false)
      case OpRemove(c) => name == c.name ==>
        if name in jar.original then
          name in delta && delta[name] == DeltaCookie(Cookie(name, "", Some(0), true, c.path, c.domain), true)
        else name !in delta
      case OpForceRemove(c) => name == c.name ==> name !in delta
      case OpAddOriginal(c) => delta == jar.delta
      case OpClear => delta == map[]
    ensures !op.OpClear? && op.c.name != name ==>
      (name in Apply(jar, op).delta <==> name in jar.delta)
      && (name in jar.delta ==> Apply(jar, op).delta[name] == jar.delta[name])
  {}

  // ---------------------------------------------------------------- iteration

  // The names of a set of cookies in some order, each once.
  ghost predicate Enumerates(names: seq<string>, s: set<string>) {
    && (forall x :: x in names <==> x in s)
    && (forall i, j :: 0 <= i < j < |names| ==> names[i] != names[j])
  }

  // The cookies under these names that are not removed, in this order.
  function Shown(m: map<string, DeltaCookie>, names: seq<string>): seq<Cookie>
    requires forall x :: x in names ==> x in m
  {
    if names == [] then []
    else (if m[names[0]].removed then [] else [m[names[0]].cookie]) + Shown(m, names[1..])
  }

  lemma {:induction false} ShownIs(m: map<string, DeltaCookie>, names: seq<string>)
    requires forall x :: x in names ==> x in m && m[x].cookie.name == x
    requires forall i, j :: 0 <= i < j < |names| ==> names[i] != names[j]
    ensures var r := Shown(m, names);
      && (forall i :: 0 <= i < |r| ==> r[i].name in names && !m[r[i].name].removed && m[r[i].name].cookie == r[i])
      && (forall x :: x in names && !m[x].removed ==> m[x].cookie in r)
      && (forall i, j :: 0 <= i < j < |r| ==> r[i].name != r[j].name)
  {
    if names != [] {
      ShownIs(m, names[1..]);
      assert names == [names[0]] + names[1..];
      var rest := Shown(m, names[1..]);
      assert names[0] !in names[1..];
      assert forall i :: 0 <= i < |rest| ==> rest[i].name != names[0];
    }
  }

  function Chain(jar: Jar, changed: seq<string>, kept: seq<string>): seq<Cookie>
    requires (forall x :: x in changed ==> x in jar.delta) && (forall x :: x in kept ==> x in jar.original)
  {
    Shown(jar.delta, changed) + Shown(jar.original, kept)
  }

  lemma ChainNames(jar: Jar, changed: seq<string>, kept: seq<string>)
    requires Valid(jar)
    requires Enumerates(changed, jar.delta.Keys) && Enumerates(kept, jar.original.Keys - jar.delta.Keys)
    ensures var all := Chain(jar, changed, kept);
      forall i, j :: 0 <= i < j < |all| ==> all[i].name != all[j].name
  {
    ShownIs(jar.delta, changed);
    ShownIs(jar.original, kept);
    var (a, b) := (Shown(jar.delta, changed), Shown(jar.original, kept));
    forall i, j | 0 <= i < |a| && 0 <= j < |b| ensures a[i].name != b[j].name {
      assert a[i].name in changed && b[j].name in kept;
    }
  }

  lemma ChainHolds(jar: Jar, changed: seq<string>, kept: seq<string>, c: Cookie)
    requires Valid(jar)
    requires Enumerates(changed, jar.delta.Keys) && Enumerates(kept, jar.original.Keys - jar.delta.Keys)
    ensures c in Chain(jar, changed, kept) <==> Get(jar, c.name) == Some(c)
  {
    ShownIs(jar.delta, changed);
    ShownIs(jar.original, kept);
    var (a, b) := (Shown(jar.delta, changed), Shown(jar.original, kept));
    if c in a {
      var i :| 0 <= i < |a| && a[i] == c;
      assert c.name in changed;
    }
    if c in b {
      var i :| 0 <= i < |b| && b[i] == c;
      assert c.name in kept;
    }
  }

  // `iter` chains the changes with the originals they do not override.
  lemma IterIsGet(jar: Jar, changed: seq<string>, kept: seq<string>)
    requires Valid(jar)
    requires Enumerates(changed, jar.delta.Keys) && Enumerates(kept, jar.original.Keys - jar.delta.Keys)
    ensures var all := Chain(jar, changed, kept);
      && (forall i, j :: 0 <= i < j < |all| ==> all[i].name != all[j].name)
      && (forall c :: c in all <==> Get(jar, c.name) == Some(c))
      && (forall name :: Get(jar, name).Some? ==> Get(jar, name).value in all && Get(jar, name).value.name == name)
  {
    ChainNames(jar, changed, kept);
    forall c ensures c in Chain(jar, changed, kept) <==> Get(jar, c.name) == Some(c) {
      ChainHolds(jar, changed, kept, c);
    }
    forall name | Get(jar, name).Some? ensures Get(jar, name).value.name == name {}
  }

  // ---------------------------------------------------------------- the client

  // What a client stores a cookie under: name, domain and path (RFC 6265, 5.3).
  datatype StoreKey = StoreKey(name: string, domain: Option<string>, path: Option<string>)

  function KeyOf(c: Cookie): StoreKey {
    StoreKey(c.name, c.domain, c.path)
  }

  type Store = map<StoreKey, Cookie>

  // A client that stores, or drops, one cookie of a response.
  function Receive(held: Store, c: Cookie): Store {
    if Forgets(c) then held - {KeyOf(c)} else held[KeyOf(c) := c]
  }

  // The client after the delta, received in some order.
  function ReceiveAll(held: Store, delta: map<string, DeltaCookie>, order: seq<string>): Store
    requires forall x :: x in order ==> x in delta
  {
    if order == [] then held
    else Receive(ReceiveAll(held, delta, order[..|order| - 1]), delta[order[|order| - 1]].cookie)
  }

  // All that a client has under a name, and all that the jar shows under it.
  ghost function Seen(held: Store, name: string): set<Cookie> {
    set k | k in held && k.name == name :: held[k]
  }

  function Visible(jar: Jar, name: string): set<Cookie> {
    if Get(jar, name).Some? then {Get(jar, name).value} else {}
  }

  ghost predicate KeyedByKey(held: Store) {
    forall k :: k in held ==> KeyOf(held[k]) == k
  }

  // The delta changes what it names and nothing else.
  lemma {:induction false} ReceivedAt(held: Store, delta: map<string, DeltaCookie>, order: seq<string>, k: StoreKey)
    requires forall x :: x in order ==> x in delta && delta[x].cookie.name == x
    ensures var r := ReceiveAll(held, delta, order);
      if k.name in order && KeyOf(delta[k.name].cookie) == k
      then (k in r <==> !Forgets(delta[k.name].cookie)) && (k in r ==> r[k] == delta[k.name].cookie)
      else (k in r <==> k in held) && (k in r ==> r[k] == held[k])
  {
    if order != [] {
      var init := order[..|order| - 1];
      assert order == init + [order[|order| - 1]];
      ReceivedAt(held, delta, init, k);
    }
  }

  // The client has no other cookie of the name than this one.
  ghost predicate OnlyKey(held: Store, name: string, key: StoreKey) {
    forall k :: k in held && k.name == name ==> k == key
  }

  // Whether the delta makes a client with this store agree with the jar on a name.  A change
  // must not be visible and expired at once, and must reach the one cookie of that name;
  // without a change, the client must have what the jar shows.
  ghost predicate Effective(jar: Jar, held: Store, name: string) {
    if name in jar.delta then
      var d := jar.delta[name];
      (d.removed || !Forgets(d.cookie)) && OnlyKey(held, name, KeyOf(d.cookie))
    else Seen(held, name) == Visible(jar, name)
  }

  lemma DeltaTakesEffectIff(jar: Jar, held: Store, order: seq<string>, name: string)
    requires Valid(jar) && KeyedByKey(held) && Enumerates(order, jar.delta.Keys)
    ensures Seen(ReceiveAll(held, jar.delta, order), name) == Visible(jar, name) <==> Effective(jar, held, name)
  {
    var r := ReceiveAll(held, jar.delta, order);
    forall k: StoreKey | k.name == name
      ensures if name in jar.delta && KeyOf(jar.delta[name].cookie) == k
              then (k in r <==> !Forgets(jar.delta[name].cookie)) && (k in r ==> r[k] == jar.delta[name].cookie)
              else (k in r <==> k in held) && (k in r ==> r[k] == held[k])
    {
      ReceivedAt(held, jar.delta, order, k);
    }
    if name in jar.delta {
      ChangedName(jar, held, r, name);
    } else {
      assert Seen(r, name) == Seen(held, name);
    }
  }

  // The case of a changed name, with the store's new content under it.
  lemma ChangedName(jar: Jar, held: Store, r: Store, name: string)
    requires Valid(jar) && KeyedByKey(held) && name in jar.delta
    requires forall k: StoreKey :: k.name == name ==>
      if KeyOf(jar.delta[name].cookie) == k
      then (k in r <==> !Forgets(jar.delta[name].cookie)) && (k in r ==> r[k] == jar.delta[name].cookie)
      else (k in r <==> k in held) && (k in r ==> r[k] == held[k])
    ensures Seen(r, name) == Visible(jar, name) <==> Effective(jar, held, name)
  {
    var d := jar.delta[name];
    var key := KeyOf(d.cookie);
    if OnlyKey(held, name, key) {
      assert forall k :: k in r && k.name == name ==> k == key;
      assert Seen(r, name) == if Forgets(d.cookie) then {} else {d.cookie} by {
        if !Forgets(d.cookie) {
          assert key in r && r[key] == d.cookie;
        }
      }
    } else {
      var k :| k in held && k.name == name && k != key;
      assert k in r && r[k] == held[k];
      assert held[k] in Seen(r, name) && KeyOf(held[k]) == k;
      assert held[k] != d.cookie;
    }
  }

  // The client that holds exactly the jar's originals, as they are in the jar.
  function StoreOf(original: map<string, DeltaCookie>): Store
    requires forall n :: n in original ==> original[n].cookie.name == n
  {
    map k | k in (set n | n in original :: KeyOf(original[n].cookie)) :: original[k.name].cookie
  }

  lemma StoreOfIs(original: map<string, DeltaCookie>, k: StoreKey)
    requires forall n :: n in original ==> original[n].cookie.name == n
    ensures k in StoreOf(original) <==> k.name in original && KeyOf(original[k.name].cookie) == k
    ensures k in StoreOf(original) ==> StoreOf(original)[k] == original[k.name].cookie
  {}

  // For that client: a change must not be visible and expired at once, and must have the path
  // and the domain of the original that it replaces or removes.
  lemma OriginalsTakeEffectIff(jar: Jar, order: seq<string>, name: string)
    requires Valid(jar) && Enumerates(order, jar.delta.Keys)
    ensures Seen(ReceiveAll(StoreOf(jar.original), jar.delta, order), name) == Visible(jar, name) <==>
      (name in jar.delta ==>
         && (jar.delta[name].removed || !Forgets(jar.delta[name].cookie))
         && (name in jar.original ==> KeyOf(jar.original[name].cookie) == KeyOf(jar.delta[name].cookie)))
  {
    var held := StoreOf(jar.original);
    forall k ensures (k in held <==> k.name in jar.original && KeyOf(jar.original[k.name].cookie) == k)
                     && (k in held ==> held[k] == jar.original[k.name].cookie)
    {
      StoreOfIs(jar.original, k);
    }
    DeltaTakesEffectIff(jar, held, order, name);
    if name in jar.original {
      assert KeyOf(jar.original[name].cookie) in held;
    }
    if name !in jar.delta {
      assert Seen(held, name) == Visible(jar, name);
    }
  }

  // ---------------------------------------------------------------- the client over whole runs

  const FRESH := Jar(map[], map[])

  // What the client sent: every original that was added, under its own key.
  function SentBy(ops: seq<Op>): Store {
    if ops == [] then map[]
    else
      var held := SentBy(ops[..|ops| - 1]);
      match ops[|ops| - 1]
      case OpAddOriginal(c) => held[KeyOf(c) := c]
      case _ => held
  }

  // The last original of a name.
  function LastSent(ops: seq<Op>, name: string): (c: Option<Cookie>)
    ensures c.Some? ==> c.value.name == name
  {
    if ops == [] then None
    else
      match ops[|ops| - 1]
      case OpAddOriginal(c) => if c.name == name then Some(c) else LastSent(ops[..|ops| - 1], name)
      case _ => LastSent(ops[..|ops| - 1], name)
  }

  // Whether the jar was cleared, or the name removed by force, after its last original.
  predicate Dropped(ops: seq<Op>, name: string) {
    if ops == [] then false
    else
      match ops[|ops| - 1]
      case OpAddOriginal(c) => c.name != name && Dropped(ops[..|ops| - 1], name)
      case OpForceRemove(c) => c.name == name || Dropped(ops[..|ops| - 1], name)
      case OpClear => true
      case _ => Dropped(ops[..|ops| - 1], name)
  }

  // Every original of the name came with this path and domain.
  predicate OnlySent(ops: seq<Op>, name: string, key: StoreKey) {
    forall i :: 0 <= i < |ops| && ops[i].OpAddOriginal? && ops[i].c.name == name ==> KeyOf(ops[i].c) == key
  }

  lemma {:induction false} RunSplits(jar: Jar, ops: seq<Op>, last: Op)
    ensures Run(jar, ops + [last]) == Apply(Run(jar, ops), last)
    decreases |ops|
  {
    if ops == [] {
      assert ([] + [last])[1..] == [];
    } else {
      assert (ops + [last])[1..] == ops[1..] + [last];
      RunSplits(Apply(jar, ops[0]), ops[1..], last);
    }
  }

  // The jar's originals are what was sent last and not dropped since.
  lemma {:induction false} OriginalIs(ops: seq<Op>, name: string)
    ensures var jar := Run(FRESH, ops);
      && (name in jar.original <==> LastSent(ops, name).Some? && !Dropped(ops, name))
      && (name in jar.original ==> jar.original[name] == DeltaCookie(LastSent(ops, name).value, false))
  {
    if ops != [] {
      var init := ops[..|ops| - 1];
      assert ops == init + [ops[|ops| - 1]];
      RunSplits(FRESH, init, ops[|ops| - 1]);
      OriginalIs(init, name);
    }
  }

  lemma {:induction false} SentFacts(ops: seq<Op>, name: string)
    ensures KeyedByKey(SentBy(ops))
    ensures LastSent(ops, name).Some? ==>
      KeyOf(LastSent(ops, name).value) in SentBy(ops) && SentBy(ops)[KeyOf(LastSent(ops, name).value)] == LastSent(ops, name).value
    ensures LastSent(ops, name).None? ==> forall k :: k in SentBy(ops) ==> k.name != name
  {
    if ops != [] {
      SentFacts(ops[..|ops| - 1], name);
    }
  }

  lemma {:induction false} SentKeys(ops: seq<Op>, name: string, key: StoreKey)
    ensures OnlySent(ops, name, key) <==> OnlyKey(SentBy(ops), name, key)
  {
    if ops != [] {
      var (init, last) := (ops[..|ops| - 1], ops[|ops| - 1]);
      assert ops == init + [last];
      SentKeys(init, name, key);
      OnlySentLast(init, last, name, key);
      if last.OpAddOriginal? {
        assert forall k :: k in SentBy(ops) <==> k in SentBy(init) || k == KeyOf(last.c);
      }
    }
  }

  lemma OnlySentLast(init: seq<Op>, last: Op, name: string, key: StoreKey)
    ensures OnlySent(init + [last], name, key) <==>
      OnlySent(init, name, key) && (last.OpAddOriginal? && last.c.name == name ==> KeyOf(last.c) == key)
  {
    var ops := init + [last];
    assert ops[|init|] == last;
    assert forall i :: 0 <= i < |init| ==> ops[i] == init[i];
  }

  // The condition on a sequence of operations.
  predicate Agrees(ops: seq<Op>, name: string) {
    var jar := Run(FRESH, ops);
    if name in jar.delta then
      var d := jar.delta[name];
      (d.removed || !Forgets(d.cookie)) && OnlySent(ops, name, KeyOf(d.cookie))
    else
      match LastSent(ops, name)
      case None => true
      case Some(c) => !Dropped(ops, name) && OnlySent(ops, name, KeyOf(c))
  }

  // Over every sequence of operations: a client that held what it sent and applied the delta, in
  // any order, has under a name what the jar shows exactly when
  // - a change of the name is a removal or not expired, and has the path and the domain of every
  //   original of the name;
  // - or, without a change, the name was never sent, or it was sent under one path and domain
  //   and not dropped by a clear or a forced removal since.
  lemma ClientAgreesIff(ops: seq<Op>, order: seq<string>, name: string)
    requires Enumerates(order, Run(FRESH, ops).delta.Keys)
    ensures Valid(Run(FRESH, ops)) && forall x :: x in order ==> x in Run(FRESH, ops).delta
    ensures Seen(ReceiveAll(SentBy(ops), Run(FRESH, ops).delta, order), name) == Visible(Run(FRESH, ops), name)
      <==> Agrees(ops, name)
  {
    var jar := Run(FRESH, ops);
    RunKeepsValid(FRESH, ops);
    SentFacts(ops, name);
    DeltaTakesEffectIff(jar, SentBy(ops), order, name);
    if name in jar.delta {
      SentKeys(ops, name, KeyOf(jar.delta[name].cookie));
    } else {
      UnchangedIff(ops, name);
    }
  }

  lemma UnchangedIff(ops: seq<Op>, name: string)
    requires name !in Run(FRESH, ops).delta
    ensures Seen(SentBy(ops), name) == Visible(Run(FRESH, ops), name) <==> Agrees(ops, name)
  {
    var held := SentBy(ops);
    OriginalIs(ops, name);
    SentFacts(ops, name);
    match LastSent(ops, name)
    case None => assert Seen(held, name) == {};
    case Some(c) =>
      SentKeys(ops, name, KeyOf(c));
      assert c in Seen(held, name);
      if OnlyKey(held, name, KeyOf(c)) {
        assert Seen(held, name) == {c};
      } else {
        var k :| k in held && k.name == name && k != KeyOf(c);
        assert held[k] in Seen(held, name) && held[k] != c;
      }
  }

  // Clearing, and removing a name by force, reach the client exactly when it never sent the
  // name: they leave no removal cookies.
  lemma ClearReachesClientIff(ops: seq<Op>, name: string)
    ensures var cleared := ops + [OpClear];
      && Run(FRESH, cleared) == FRESH
      && (Seen(ReceiveAll(SentBy(cleared), map[], []), name) == Visible(Run(FRESH, cleared), name) <==> LastSent(ops, name).None?)
  {
    var cleared := ops + [OpClear];
    assert cleared[..|ops|] == ops;
    RunSplits(FRESH, ops, OpClear);
    ClientAgreesIff(cleared, [], name);
  }

  lemma ForceRemoveReachesClientIff(ops: seq<Op>, c: Cookie, order: seq<string>)
    requires Enumerates(order, Run(FRESH, ops + [OpForceRemove(c)]).delta.Keys)
    ensures var (forced, jar) := (ops + [OpForceRemove(c)], Run(FRESH, ops + [OpForceRemove(c)]));
      && Get(jar, c.name).None?
      && (forall x :: x in order ==> x in jar.delta)
      && (Seen(ReceiveAll(SentBy(forced), jar.delta, order), c.name) == Visible(jar, c.name) <==> LastSent(ops, c.name).None?)
  {
    var forced := ops + [OpForceRemove(c)];
    assert forced[..|ops|] == ops;
    RunSplits(FRESH, ops, OpForceRemove(c));
    ClientAgreesIff(forced, order, c.name);
  }

  // Removing an original reaches the client exactly when the removal has the path and the
  // domain under which the name was sent, each time.
  lemma RemoveReachesClientIff(ops: seq<Op>, c: Cookie, order: seq<string>)
    requires c.name in Run(FRESH, ops).original
    requires Enumerates(order, Run(FRESH, ops + [OpRemove(c)]).delta.Keys)
    ensures var (removed, jar) := (ops + [OpRemove(c)], Run(FRESH, ops + [OpRemove(c)]));
      && Get(jar, c.name).None?
      && (forall x :: x in order ==> x in jar.delta)
      && (Seen(ReceiveAll(SentBy(removed), jar.delta, order), c.name) == {} <==> OnlySent(ops, c.name, KeyOf(c)))
  {
    RunSplits(FRESH, ops, OpRemove(c));
    ClientAgreesIff(ops + [OpRemove(c)], order, c.name);
    OnlySentLast(ops, OpRemove(c), c.name, KeyOf(c));
    assert KeyOf(Removal(c)) == KeyOf(c);
  }
}
