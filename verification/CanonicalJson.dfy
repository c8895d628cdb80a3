/** Sorting the keys of a JSON value at every depth, and what that does to its meaning. */
module CanonicalJson {
  import opened Bytes
  import opened Json

  // ---------------------------------------------------------------- key order

  predicate Less(a: string, b: string) {
    if b == "" then false
    else if a == "" then true
    else a[0] < b[0] || (a[0] == b[0] && Less(a[1..], b[1..]))
  }

  lemma {:induction false} LessIsTransitive(a: string, b: string, c: string)
    requires Less(a, b) && Less(b, c)
    ensures Less(a, c)
  {
    if a != "" && a[0] == b[0] == c[0] {
      LessIsTransitive(a[1..], b[1..], c[1..]);
    }
  }

  lemma {:induction false} LessIsTotal(a: string, b: string)
    ensures a == b || Less(a, b) || Less(b, a)
    ensures !(Less(a, b) && Less(b, a))
  {
    if a != "" && b != "" {
      LessIsTotal(a[1..], b[1..]);
      assert a == [a[0]] + a[1..] && b == [b[0]] + b[1..];
    }
  }

  // The order is that of a dictionary: where two keys first differ, the smaller character comes
  // first, and a key comes before those that it starts.
  lemma {:induction false} LessIff(a: string, b: string)
    ensures Less(a, b) <==>
      exists i :: 0 <= i <= |a| && i < |b| && a[..i] == b[..i] && (i == |a| || a[i] < b[i])
  {
    if a != "" && b != "" && a[0] == b[0] {
      LessIff(a[1..], b[1..]);
      if i :| 0 <= i <= |a[1..]| && i < |b[1..]| && a[1..][..i] == b[1..][..i] && (i == |a[1..]| || a[1..][i] < b[1..][i]) {
        SameStart(a, b, i);
      }
      if i :| 0 <= i <= |a| && i < |b| && a[..i] == b[..i] && (i == |a| || a[i] < b[i]) {
        assert i > 0;
        SameStart(a, b, i - 1);
      }
    } else if Less(a, b) {
      assert a[..0] == b[..0];
    } else if i :| 0 <= i <= |a| && i < |b| && a[..i] == b[..i] && (i == |a| || a[i] < b[i]) {
      assert i > 0 ==> a[..i][0] == b[..i][0];
    }
  }

  lemma SameStart(a: string, b: string, i: nat)
    requires a != "" && b != "" && a[0] == b[0] && i < |a| && i < |b|
    ensures a[1..][..i] == b[1..][..i] <==> a[..i + 1] == b[..i + 1]
  {
    assert a[..i + 1] == [a[0]] + a[1..][..i] && b[..i + 1] == [b[0]] + b[1..][..i];
  }

  // `Array.prototype.sort` on distinct strings, as insertion.
  function Insert(k: string, sorted: seq<string>): (r: seq<string>)
    ensures forall x :: x in r <==> x == k || x in sorted
  {
    if sorted == [] || Less(k, sorted[0]) then [k] + sorted
    else
      var rest := Insert(k, sorted[1..]);
      [sorted[0]] + rest
  }

  function Sort(keys: seq<string>): (r: seq<string>)
    ensures forall x :: x in r <==> x in keys
  {
    if keys == [] then [] else Insert(keys[0], Sort(keys[1..]))
  }

  ghost predicate Distinct(keys: seq<string>) {
    forall i, j :: 0 <= i < j < |keys| ==> keys[i] != keys[j]
  }

  ghost predicate Ascending(keys: seq<string>) {
    keys == [] || ((forall x :: x in keys[1..] ==> Less(keys[0], x)) && Ascending(keys[1..]))
  }

  lemma {:induction false} InsertKeepsAscending(k: string, sorted: seq<string>)
    requires Ascending(sorted) && k !in sorted
    ensures Ascending(Insert(k, sorted))
  {
    var r := Insert(k, sorted);
    if sorted != [] {
      if Less(k, sorted[0]) {
        assert r[1..] == sorted;
        forall x | x in sorted ensures Less(k, x) {
          if x != sorted[0] {
            assert x in sorted[1..];
            LessIsTransitive(k, sorted[0], x);
          }
        }
      } else {
        LessIsTotal(k, sorted[0]);
        InsertKeepsAscending(k, sorted[1..]);
        assert r[1..] == Insert(k, sorted[1..]);
      }
    }
  }

  lemma {:induction false} SortAscends(keys: seq<string>)
    requires Distinct(keys)
    ensures Ascending(Sort(keys))
  {
    if keys != [] {
      assert Distinct(keys[1..]) && keys[0] !in keys[1..];
      SortAscends(keys[1..]);
      InsertKeepsAscending(keys[0], Sort(keys[1..]));
    }
  }

  // An ascending list is determined by its elements.
  lemma {:induction false} AscendingIsUnique(a: seq<string>, b: seq<string>)
    requires Ascending(a) && Ascending(b)
    requires forall x :: x in a <==> x in b
    ensures a == b
  {
    assert b != [] ==> b[0] in b;
    if a != [] {
      assert a[0] in a;
      assert b != [] && b[0] in b;
      LessIsTotal(a[0], b[0]);
      assert a == [a[0]] + a[1..] && b == [b[0]] + b[1..];
      forall x ensures x in a[1..] <==> x in b[1..] {
        LessIsTotal(a[0], x);
        LessIsTotal(x, x);
        if x in a[1..] { assert x in a; assert x != b[0]; }
        if x in b[1..] { assert x in b; assert x != a[0]; }
      }
      AscendingIsUnique(a[1..], b[1..]);
      assert a == [a[0]] + a[1..] && b == [b[0]] + b[1..];
    }
  }

  // ---------------------------------------------------------------- objects

  function Keys(ms: seq<Member>): (keys: seq<string>)
    ensures |keys| == |ms| && forall i :: 0 <= i < |ms| ==> keys[i] == ms[i].key
  {
    if ms == [] then [] else [ms[0].key] + Keys(ms[1..])
  }

  function Lookup(ms: seq<Member>, k: string): (v: Option<Json>)
    ensures v.Some? <==> k in Keys(ms)
    ensures v.Some? ==> Member(k, v.value) in ms
  {
    if ms == [] then None else if ms[0].key == k then Some(ms[0].value) else Lookup(ms[1..], k)
  }

  // Assigning `obj[PROTO] = v` sets the prototype instead of an own property.
  const PROTO: string := "__proto__"

  predicate AllDigits(k: string) {
    forall i :: 0 <= i < |k| ==> '0' <= k[i] <= '9'
  }

  function Decimal(digits: string): nat
    requires AllDigits(digits)
  {
    if digits == "" then 0
    else
      var last := |digits| - 1;
      Decimal(digits[..last]) * 10 + (digits[last] - '0') as nat
  }

  // Keys that are array indexes are enumerated first, in numeric order.
  function ArrayIndex(k: string): Option<nat> {
    if k == "" || !AllDigits(k) || (k[0] == '0' && k != "0") || Decimal(k) >= 0xFFFF_FFFF then None
    else Some(Decimal(k))
  }

  // Where a new property lands in enumeration order.
  function Place(acc: seq<Member>, m: Member): (r: seq<Member>)
    ensures forall x :: x in r <==> x == m || x in acc
  {
    if acc == [] then [m]
    else
      var (i, first) := (ArrayIndex(m.key), ArrayIndex(acc[0].key));
      if i.Some? && (first.None? || i.value < first.value) then [m] + acc
      else
        var rest := Place(acc[1..], m);
        [acc[0]] + rest
  }

  // `acc[m.key] = m.value` for a key that acc does not have.
  function Assign(acc: seq<Member>, m: Member): seq<Member> {
    if m.key == PROTO then acc else Place(acc, m)
  }

  // The `reduce` over sorted keys.
  function Rebuild(acc: seq<Member>, keys: seq<string>, ms: seq<Member>): seq<Member>
    requires forall k :: k in keys ==> k in Keys(ms)
    decreases |keys|
  {
    if keys == [] then acc
    else Rebuild(Assign(acc, Member(keys[0], Lookup(ms, keys[0]).value)), keys[1..], ms)
  }

  function SortKeysDeep(v: Json): Json
    decreases v, 1
  {
    match v
    case Arr(items) => Arr(SortItems(items))
    case Obj(members) =>
      var done := SortMembers(members);
      Obj(Rebuild([], Sort(Keys(done)), done))
    case _ => v
  }

  function SortItems(items: seq<Json>): (r: seq<Json>)
    ensures |r| == |items|
    ensures forall i :: 0 <= i < |items| ==> r[i] == SortKeysDeep(items[i])
    decreases items, 0
  {
    if items == [] then [] else [SortKeysDeep(items[0])] + SortItems(items[1..])
  }

  function SortMembers(ms: seq<Member>): (r: seq<Member>)
    ensures |r| == |ms|
    ensures forall i :: 0 <= i < |ms| ==> r[i] == Member(ms[i].key, SortKeysDeep(ms[i].value))
    decreases ms, 0
  {
    if ms == [] then [] else [Member(ms[0].key, SortKeysDeep(ms[0].value))] + SortMembers(ms[1..])
  }

  // ---------------------------------------------------------------- meaning

  // An object value has no key twice, at any depth.
  ghost predicate Proper(v: Json)
    decreases v
  {
    match v
    case Arr(items) => forall i :: 0 <= i < |items| ==> Proper(items[i])
    case Obj(members) =>
      Distinct(Keys(members)) && forall i :: 0 <= i < |members| ==> Proper(members[i].value)
    case _ => true
  }

  // The same value up to the order of keys at every depth, not looking at PROTO keys.
  ghost predicate Same(v: Json, w: Json)
    decreases v
  {
    match (v, w)
    case (Arr(a), Arr(b)) => |a| == |b| && forall i :: 0 <= i < |a| ==> Same(a[i], b[i])
    case (Obj(a), Obj(b)) =>
      && (forall k :: k != PROTO ==> (k in Keys(a) <==> k in Keys(b)))
      && (forall i, j :: 0 <= i < |a| && 0 <= j < |b| && a[i].key == b[j].key != PROTO ==> Same(a[i].value, b[j].value))
    case _ => v == w
  }

  // ---------------------------------------------------------------- lookups through the rebuild

  lemma {:induction false} LookupAt(ms: seq<Member>, i: nat)
    requires i < |ms| && Distinct(Keys(ms))
    ensures Lookup(ms, ms[i].key) == Some(ms[i].value)
  {
    if i > 0 {
      assert Keys(ms)[0] != Keys(ms)[i];
      assert Distinct(Keys(ms[1..])) by {
        assert Keys(ms)[1..] == Keys(ms[1..]);
      }
      LookupAt(ms[1..], i - 1);
    }
  }

  lemma {:induction false} PlaceLooksUp(acc: seq<Member>, m: Member, k: string)
    requires m.key !in Keys(acc)
    ensures Lookup(Place(acc, m), k) == if k == m.key then Some(m.value) else Lookup(acc, k)
  {
    var r := Place(acc, m);
    if acc != [] {
      assert Keys(acc) == [acc[0].key] + Keys(acc[1..]);
      if r == [m] + acc {
        assert r[1..] == acc;
      } else {
        assert r[1..] == Place(acc[1..], m);
        PlaceLooksUp(acc[1..], m, k);
      }
    }
  }

  lemma {:induction false} PlaceKeepsDistinct(acc: seq<Member>, m: Member)
    requires m.key !in Keys(acc) && Distinct(Keys(acc))
    ensures Distinct(Keys(Place(acc, m)))
    ensures forall k :: k in Keys(Place(acc, m)) <==> k == m.key || k in Keys(acc)
  {
    var r := Place(acc, m);
    if acc != [] {
      assert Keys(acc) == [acc[0].key] + Keys(acc[1..]);
      assert Distinct(Keys(acc[1..])) && acc[0].key !in Keys(acc[1..]) by {
        assert Keys(acc)[1..] == Keys(acc[1..]);
      }
      if r == [m] + acc {
        assert Keys(r) == [m.key] + Keys(acc);
      } else {
        PlaceKeepsDistinct(acc[1..], m);
        assert Keys(r) == [acc[0].key] + Keys(Place(acc[1..], m));
      }
    }
  }

  lemma {:induction false} RebuildLooksUp(acc: seq<Member>, keys: seq<string>, ms: seq<Member>, k: string)
    requires forall x :: x in keys ==> x in Keys(ms) && x !in Keys(acc)
    requires Ascending(keys) && Distinct(Keys(acc))
    ensures Distinct(Keys(Rebuild(acc, keys, ms)))
    ensures Lookup(Rebuild(acc, keys, ms), k) == if k in keys && k != PROTO then Lookup(ms, k) else Lookup(acc, k)
    decreases |keys|
  {
    if keys != [] {
      var m := Member(keys[0], Lookup(ms, keys[0]).value);
      LessIsTotal(keys[0], keys[0]);
      assert keys == [keys[0]] + keys[1..] && keys[0] !in keys[1..];
      if m.key != PROTO {
        PlaceLooksUp(acc, m, k);
        PlaceKeepsDistinct(acc, m);
      }
      RebuildLooksUp(Assign(acc, m), keys[1..], ms, k);
    }
  }

  function WithoutProto(keys: seq<string>): (r: seq<string>)
    ensures forall x :: x in r <==> x in keys && x != PROTO
  {
    if keys == [] then []
    else
      var rest := WithoutProto(keys[1..]);
      if keys[0] == PROTO then rest else [keys[0]] + rest
  }

  lemma {:induction false} WithoutProtoAscends(keys: seq<string>)
    requires Ascending(keys)
    ensures Ascending(WithoutProto(keys))
  {
    if keys != [] {
      WithoutProtoAscends(keys[1..]);
      var r := WithoutProto(keys);
      if keys[0] != PROTO {
        assert r[1..] == WithoutProto(keys[1..]);
      }
    }
  }

  // The rebuild reads its source only through lookups of keys other than PROTO.
  lemma {:induction false} RebuildReads(acc: seq<Member>, keys: seq<string>, a: seq<Member>, b: seq<Member>)
    requires forall k :: k in keys ==> k in Keys(a)
    requires forall k :: k in keys && k != PROTO ==> Lookup(a, k) == Lookup(b, k)
    ensures forall k :: k in WithoutProto(keys) ==> k in Keys(b)
    ensures Rebuild(acc, keys, a) == Rebuild(acc, WithoutProto(keys), b)
    decreases |keys|
  {
    if keys != [] {
      var m := Member(keys[0], Lookup(a, keys[0]).value);
      assert keys == [keys[0]] + keys[1..];
      RebuildReads(Assign(acc, m), keys[1..], a, b);
      if keys[0] != PROTO {
        var w := WithoutProto(keys);
        assert w == [keys[0]] + WithoutProto(keys[1..]);
        assert w[1..] == WithoutProto(keys[1..]);
      }
    }
  }

  // Objects that agree on every key but PROTO rebuild alike.
  lemma RebuildAgrees(a: seq<Member>, b: seq<Member>)
    requires Distinct(Keys(a)) && Distinct(Keys(b))
    requires forall k :: k != PROTO ==> Lookup(a, k) == Lookup(b, k)
    ensures Rebuild([], Sort(Keys(a)), a) == Rebuild([], Sort(Keys(b)), b)
  {
    var (ka, kb) := (Sort(Keys(a)), Sort(Keys(b)));
    SortAscends(Keys(a));
    SortAscends(Keys(b));
    WithoutProtoAscends(ka);
    WithoutProtoAscends(kb);
    forall k ensures k in WithoutProto(ka) <==> k in WithoutProto(kb) {
      assert k in ka <==> Lookup(a, k).Some?;
      assert k in kb <==> Lookup(b, k).Some?;
    }
    AscendingIsUnique(WithoutProto(ka), WithoutProto(kb));
    RebuildReads([], ka, a, a);
    RebuildReads([], kb, b, a);
  }

  lemma {:induction false} SortedLookup(ms: seq<Member>, k: string)
    ensures Keys(SortMembers(ms)) == Keys(ms)
    ensures Lookup(SortMembers(ms), k)
         == if k in Keys(ms) then Some(SortKeysDeep(Lookup(ms, k).value)) else None
  {
    if ms != [] {
      SortedLookup(ms[1..], k);
      assert SortMembers(ms)[1..] == SortMembers(ms[1..]);
    }
  }

  // What the sorted form of an object holds under each key.
  lemma SortedObject(ms: seq<Member>, k: string)
    requires Distinct(Keys(ms))
    ensures var r := SortKeysDeep(Obj(ms)).members;
      && Distinct(Keys(r))
      && Lookup(r, k) == if k in Keys(ms) && k != PROTO then Some(SortKeysDeep(Lookup(ms, k).value)) else None
  {
    var done := SortMembers(ms);
    SortedLookup(ms, k);
    SortAscends(Keys(done));
    RebuildLooksUp([], Sort(Keys(done)), done, k);
  }

  // ---------------------------------------------------------------- theorems

  // Values that are the same up to key order have one sorted form,
  lemma {:induction false} SameSortsAlike(v: Json, w: Json)
    requires Proper(v) && Proper(w) && Same(v, w)
    ensures SortKeysDeep(v) == SortKeysDeep(w)
    decreases v
  {
    if v.Arr? {
      forall i | 0 <= i < |v.items| ensures SortKeysDeep(v.items[i]) == SortKeysDeep(w.items[i]) {
        SameSortsAlike(v.items[i], w.items[i]);
      }
      assert SortItems(v.items) == SortItems(w.items);
    } else if v.Obj? {
      var (a, b) := (SortMembers(v.members), SortMembers(w.members));
      forall k | k != PROTO ensures Lookup(a, k) == Lookup(b, k) {
        SortedLookup(v.members, k);
        SortedLookup(w.members, k);
        if k in Keys(v.members) {
          SameAtKey(v.members, w.members, k);
        }
      }
      SortedLookup(v.members, PROTO);
      SortedLookup(w.members, PROTO);
      RebuildAgrees(a, b);
    }
  }

  lemma SameAtKey(a: seq<Member>, b: seq<Member>, k: string)
    requires Proper(Obj(a)) && Proper(Obj(b)) && Same(Obj(a), Obj(b)) && k in Keys(a) && k != PROTO
    ensures k in Keys(b) && SortKeysDeep(Lookup(a, k).value) == SortKeysDeep(Lookup(b, k).value)
    decreases Obj(a), 0
  {
    var i :| 0 <= i < |a| && a[i] == Member(k, Lookup(a, k).value);
    var j :| 0 <= j < |b| && b[j] == Member(k, Lookup(b, k).value);
    SameSortsAlike(a[i].value, b[j].value);
  }

  // and values with one sorted form are the same up to key order.
  lemma {:induction false} SortedAlikeIsSame(v: Json, w: Json)
    requires Proper(v) && Proper(w) && SortKeysDeep(v) == SortKeysDeep(w)
    ensures Same(v, w)
    decreases v
  {
    if v.Arr? {
      forall i | 0 <= i < |v.items| ensures Same(v.items[i], w.items[i]) {
        assert SortItems(v.items)[i] == SortItems(w.items)[i];
        SortedAlikeIsSame(v.items[i], w.items[i]);
      }
    } else if v.Obj? {
      var (a, b) := (v.members, w.members);
      forall k | k != PROTO ensures k in Keys(a) <==> k in Keys(b) {
        SortedObject(a, k);
        SortedObject(b, k);
      }
      forall i, j | 0 <= i < |a| && 0 <= j < |b| && a[i].key == b[j].key != PROTO ensures Same(a[i].value, b[j].value) {
        SortedObject(a, a[i].key);
        SortedObject(b, b[j].key);
        LookupAt(a, i);
        LookupAt(b, j);
        assert Keys(a)[i] == a[i].key && Keys(b)[j] == b[j].key;
        SortedAlikeIsSame(a[i].value, b[j].value);
      }
    }
  }

  // Sorting keeps the meaning of a value, and an object stays one.
  lemma {:induction false} SortKeepsMeaning(v: Json)
    requires Proper(v)
    ensures Proper(SortKeysDeep(v)) && Same(SortKeysDeep(v), v)
    decreases v
  {
    if v.Arr? {
      forall i | 0 <= i < |v.items|
        ensures Proper(SortItems(v.items)[i]) && Same(SortItems(v.items)[i], v.items[i])
      {
        SortKeepsMeaning(v.items[i]);
      }
    } else if v.Obj? {
      forall j | 0 <= j < |v.members| ensures KeptBySort(v.members[j].value) {
        SortKeepsMeaning(v.members[j].value);
      }
      ObjectKeepsMeaning(v.members);
    }
  }

  ghost predicate KeptBySort(v: Json) {
    Proper(SortKeysDeep(v)) && Same(SortKeysDeep(v), v)
  }

  lemma ObjectKeepsMeaning(a: seq<Member>)
    requires Proper(Obj(a)) && forall j :: 0 <= j < |a| ==> KeptBySort(a[j].value)
    ensures KeptBySort(Obj(a))
  {
    var r := SortKeysDeep(Obj(a)).members;
    SortedObject(a, PROTO);
    forall k ensures k in Keys(r) <==> k in Keys(a) && k != PROTO {
      SortedObject(a, k);
    }
    forall i | 0 <= i < |r| ensures Proper(r[i].value) {
      var j := MemberBehind(a, r, i);
      assert KeptBySort(a[j].value);
    }
    forall i, j | 0 <= i < |r| && 0 <= j < |a| && r[i].key == a[j].key != PROTO ensures Same(r[i].value, a[j].value) {
      var m := MemberBehind(a, r, i);
      assert Keys(a)[j] == Keys(a)[m];
      assert KeptBySort(a[m].value);
    }
  }

  // Each member of the sorted object is a member of the object with its value sorted.
  lemma MemberBehind(a: seq<Member>, r: seq<Member>, i: nat) returns (j: nat)
    requires Distinct(Keys(a)) && r == SortKeysDeep(Obj(a)).members && i < |r|
    ensures j < |a| && a[j].key == r[i].key && r[i].value == SortKeysDeep(a[j].value)
  {
    var k := r[i].key;
    SortedObject(a, k);
    LookupAt(r, i);
    j :| 0 <= j < |a| && a[j] == Member(k, Lookup(a, k).value);
  }

  lemma SortIsIdempotent(v: Json)
    requires Proper(v)
    ensures SortKeysDeep(SortKeysDeep(v)) == SortKeysDeep(v)
  {
    SortKeepsMeaning(v);
    SameSortsAlike(SortKeysDeep(v), v);
  }

  // Two values are hashed alike exactly when they are the same up to key order.
  lemma CanonicalTextIff(v: Json, w: Json)
    requires Proper(v) && Proper(w)
    ensures Stringify(SortKeysDeep(v)) == Stringify(SortKeysDeep(w)) <==> Same(v, w)
  {
    if Same(v, w) {
      SameSortsAlike(v, w);
    }
    if Stringify(SortKeysDeep(v)) == Stringify(SortKeysDeep(w)) {
      StringifyInjective(SortKeysDeep(v), SortKeysDeep(w));
      SortedAlikeIsSame(v, w);
    }
  }

  // A PROTO key escapes the sorted form: with or without it the text is the same.
  lemma ProtoIsNotHashed(members: seq<Member>, x: Json)
    requires PROTO !in Keys(members) && Proper(Obj(members)) && Proper(x)
    ensures var more := members + [Member(PROTO, x)];
      more != members && Stringify(SortKeysDeep(Obj(more))) == Stringify(SortKeysDeep(Obj(members)))
  {
    var more := members + [Member(PROTO, x)];
    assert Keys(more) == Keys(members) + [PROTO];
    assert Proper(Obj(more));
    forall k | k != PROTO ensures k in Keys(more) <==> k in Keys(members) {}
    forall i, j | 0 <= i < |more| && 0 <= j < |members| && more[i].key == members[j].key != PROTO
      ensures Same(more[i].value, members[j].value)
    {
      assert Keys(members)[i] == Keys(members)[j];
      SameIsReflexive(members[j].value);
    }
    SameSortsAlike(Obj(more), Obj(members));
  }

  lemma {:induction false} SameIsReflexive(v: Json)
    requires Proper(v)
    ensures Same(v, v)
    decreases v
  {
    if v.Arr? {
      forall i | 0 <= i < |v.items| ensures Same(v.items[i], v.items[i]) {
        SameIsReflexive(v.items[i]);
      }
    } else if v.Obj? {
      var ms := v.members;
      forall i, j | 0 <= i < |ms| && 0 <= j < |ms| && ms[i].key == ms[j].key != PROTO ensures Same(ms[i].value, ms[j].value) {
        assert Keys(ms)[i] == Keys(ms)[j];
        SameIsReflexive(ms[i].value);
      }
    }
  }

  // ---------------------------------------------------------------- the order in the text

  // A number as it is written, without leading zeros.
  function IndexText(n: nat): string {
    if n < 10 then ['0' + n as char] else IndexText(n / 10) + ['0' + (n % 10) as char]
  }

  lemma {:induction false} NumberReads(n: nat)
    ensures var t := IndexText(n); t != "" && AllDigits(t) && Decimal(t) == n && (t[0] == '0' ==> t == "0")
  {
    var t := IndexText(n);
    if n < 10 {
      assert t[..0] == "";
    } else {
      NumberReads(n / 10);
      assert t[..|t| - 1] == IndexText(n / 10);
    }
  }

  lemma {:induction false} NumberIsText(k: string)
    requires k != "" && AllDigits(k) && (k[0] == '0' ==> k == "0")
    ensures IndexText(Decimal(k)) == k && (k[0] != '0' ==> Decimal(k) > 0)
  {
    var (init, d) := (k[..|k| - 1], k[|k| - 1]);
    if init == "" {
      assert k == [d];
    } else {
      NumberIsText(init);
      LastDigit(Decimal(init), (d - '0') as nat);
      assert k == init + [d];
    }
  }

  lemma LastDigit(n: nat, d: nat)
    requires d < 10
    ensures (n * 10 + d) / 10 == n && (n * 10 + d) % 10 == d
  {}

  // An array index is a number below 2^32 - 1 as it is written.
  lemma ArrayIndexIff(k: string, n: nat)
    ensures ArrayIndex(k) == Some(n) <==> n < 0xFFFF_FFFF && k == IndexText(n)
  {
    NumberReads(n);
    if k != "" && AllDigits(k) && (k[0] == '0' ==> k == "0") {
      NumberIsText(k);
    }
  }

  // Array indexes in numeric order before all other keys, and these as in a dictionary.
  predicate Before(a: string, b: string) {
    match (ArrayIndex(a), ArrayIndex(b))
    case (Some(i), Some(j)) => i < j
    case (Some(_), None) => true
    case (None, Some(_)) => false
    case (None, None) => Less(a, b)
  }

  ghost predicate Ordered(ms: seq<Member>) {
    ms == [] || ((forall x :: x in ms[1..] ==> Before(ms[0].key, x.key)) && Ordered(ms[1..]))
  }

  lemma GoesFirst(acc: seq<Member>, k: string)
    requires acc != [] && Ordered(acc) && ArrayIndex(k).Some?
    requires ArrayIndex(acc[0].key).None? || ArrayIndex(k).value < ArrayIndex(acc[0].key).value
    ensures forall x :: x in acc ==> Before(k, x.key)
  {
    forall x | x in acc ensures Before(k, x.key) {
      if x != acc[0] {
        assert x in acc[1..];
        assert Before(acc[0].key, x.key);
      }
    }
  }

  lemma GoesBehind(a: string, k: string)
    requires a != k && (ArrayIndex(a).None? && ArrayIndex(k).None? ==> Less(a, k))
    requires !(ArrayIndex(k).Some? && (ArrayIndex(a).None? || ArrayIndex(k).value < ArrayIndex(a).value))
    ensures Before(a, k)
  {
    if ArrayIndex(k).Some? {
      ArrayIndexIff(k, ArrayIndex(k).value);
      ArrayIndexIff(a, ArrayIndex(a).value);
    }
  }

  lemma {:induction false} PlaceOrders(acc: seq<Member>, m: Member)
    requires Ordered(acc) && m.key !in Keys(acc)
    requires forall x :: x in acc ==> Less(x.key, m.key)
    ensures Ordered(Place(acc, m))
  {
    var r := Place(acc, m);
    if acc != [] {
      assert Keys(acc) == [acc[0].key] + Keys(acc[1..]) && acc[0] in acc;
      if r == [m] + acc {
        assert r[1..] == acc;
        if ArrayIndex(m.key).Some? && (ArrayIndex(acc[0].key).None? || ArrayIndex(m.key).value < ArrayIndex(acc[0].key).value) {
          GoesFirst(acc, m.key);
        }
      } else {
        PlaceOrders(acc[1..], m);
        GoesBehind(acc[0].key, m.key);
        assert r[1..] == Place(acc[1..], m);
      }
    }
  }

  lemma {:induction false} RebuildOrders(acc: seq<Member>, keys: seq<string>, ms: seq<Member>)
    requires forall k :: k in keys ==> k in Keys(ms) && k !in Keys(acc)
    requires Ascending(keys) && Ordered(acc) && Distinct(Keys(acc))
    requires forall x, k :: x in acc && k in keys ==> Less(x.key, k)
    ensures Ordered(Rebuild(acc, keys, ms))
    decreases |keys|
  {
    if keys != [] {
      var m := Member(keys[0], Lookup(ms, keys[0]).value);
      AssignOrders(acc, m);
      LessIsTotal(keys[0], keys[0]);
      assert keys == [keys[0]] + keys[1..] && keys[0] !in keys[1..];
      forall x, k | x in Assign(acc, m) && k in keys[1..] ensures Less(x.key, k) {
        assert (x in acc || x == m) && k in keys;
      }
      RebuildOrders(Assign(acc, m), keys[1..], ms);
    }
  }

  lemma AssignOrders(acc: seq<Member>, m: Member)
    requires Ordered(acc) && Distinct(Keys(acc)) && m.key !in Keys(acc)
    requires forall x :: x in acc ==> Less(x.key, m.key)
    ensures Ordered(Assign(acc, m)) && Distinct(Keys(Assign(acc, m)))
    ensures forall k :: k in Keys(Assign(acc, m)) ==> k == m.key || k in Keys(acc)
    ensures forall x :: x in Assign(acc, m) ==> x in acc || x == m
  {
    PlaceOrders(acc, m);
    PlaceKeepsDistinct(acc, m);
  }

  // The keys of a sorted object stand in this order in its text.
  lemma SortedKeysOrdered(ms: seq<Member>)
    requires Distinct(Keys(ms))
    ensures SortKeysDeep(Obj(ms)).Obj? && Ordered(SortKeysDeep(Obj(ms)).members)
  {
    var done := SortMembers(ms);
    assert Keys(done) == Keys(ms);
    SortAscends(Keys(done));
    RebuildOrders([], Sort(Keys(done)), done);
  }
}
