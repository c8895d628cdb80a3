/** JSON values, their text, and the key-sorted form that log hashes are taken of. */
module Json {
  import opened Bytes

  // The text of a number as `JSON.stringify` prints it.
  predicate IsNumberChar(c: char) {
    '0' <= c <= '9' || c == '-' || c == '+' || c == '.' || c == 'e'
  }

  type NumberText = t: string | t != "" && forall c :: c in t ==> IsNumberChar(c) witness "0"

  // An object lists its own properties in enumeration order.
  datatype Json =
    | Null
    | Bool(b: bool)
    | Num(text: NumberText)
    | Str(s: string)
    | Arr(items: seq<Json>)
    | Obj(members: seq<Member>)

  datatype Member = Member(key: string, value: Json)

  // ---------------------------------------------------------------- text

  function HexDigit(n: int): char
    requires 0 <= n < 16
  {
    if n < 10 then '0' + n as char else 'a' + (n - 10) as char
  }

  const BACKSPACE: char := 8 as char
  const TAB: char := 9 as char
  const LINE_FEED: char := 10 as char
  const FORM_FEED: char := 12 as char
  const RETURN: char := 13 as char

  function Escape(c: char): (e: string)
    ensures e != "" && e[0] != '"'
  {
    if c == '"' || c == '\\' then ['\\', c]
    else if c == BACKSPACE then ['\\', 'b']
    else if c == TAB then ['\\', 't']
    else if c == LINE_FEED then ['\\', 'n']
    else if c == FORM_FEED then ['\\', 'f']
    else if c == RETURN then ['\\', 'r']
    else if c < ' ' then ['\\', 'u', '0', '0', HexDigit(c as int / 16), HexDigit(c as int % 16)]
    else [c]
  }

  // The rest of a quoted string, with its closing quote.
  function QuoteTail(s: string): (q: string)
    ensures q != ""
  {
    if s == "" then ['"'] else Escape(s[0]) + QuoteTail(s[1..])
  }

  function Quote(s: string): string {
    ['"'] + QuoteTail(s)
  }

  function Stringify(v: Json): (t: string)
    ensures t != ""
    decreases v, 1
  {
    match v
    case Null => "null"
    case Bool(b) => if b then "true" else "false"
    case Num(text) => text
    case Str(s) => Quote(s)
    case Arr(items) => "[" + (if items == [] then "]" else Stringify(items[0]) + ItemsTail(items[1..]))
    case Obj(members) =>
      "{" + (if members == [] then "}"
             else MemberText(members[0]) + MembersTail(members[1..]))
  }

  function MemberText(m: Member): (t: string)
    ensures t != ""
    decreases m, 0
  {
    Quote(m.key) + (":" + Stringify(m.value))
  }

  function ItemsTail(items: seq<Json>): (t: string)
    ensures t != "" && Delimited(t)
    decreases items, 0
  {
    if items == [] then "]" else "," + Stringify(items[0]) + ItemsTail(items[1..])
  }

  function MembersTail(members: seq<Member>): (t: string)
    ensures t != "" && Delimited(t)
    decreases members, 0
  {
    if members == [] then "}" else "," + MemberText(members[0]) + MembersTail(members[1..])
  }

  // Text that can follow a value.
  predicate Delimited(t: string) {
    t == "" || t[0] == ',' || t[0] == ']' || t[0] == '}'
  }

  // ---------------------------------------------------------------- the text determines the value

  lemma CutFirst(a: string, x: string)
    requires a != ""
    ensures (a + x)[0] == a[0] && (a + x)[1..] == a[1..] + x
  {}

  lemma Regroup(a: string, b: string, x: string)
    ensures a + b + x == a + (b + x)
  {}

  lemma EscapeIsPrefixFree(c: char, d: char, x: string, y: string)
    requires Escape(c) + x == Escape(d) + y
    ensures c == d && x == y
  {
    var (p, q) := (Escape(c), Escape(d));
    assert (p + x)[0] == p[0] && (q + y)[0] == q[0];
    if p[0] == '\\' {
      assert (p + x)[1] == p[1] && (q + y)[1] == q[1];
      if p[1] == 'u' {
        assert (p + x)[4] == p[4] && (q + y)[4] == q[4];
        assert (p + x)[5] == p[5] && (q + y)[5] == q[5];
      }
    }
    assert (p + x)[|p|..] == x && (q + y)[|q|..] == y;
  }

  lemma {:induction false} QuoteTailIsPrefixFree(s: string, t: string, x: string, y: string)
    requires QuoteTail(s) + x == QuoteTail(t) + y
    ensures s == t && x == y
  {
    CutFirst(QuoteTail(s), x);
    CutFirst(QuoteTail(t), y);
    if s != "" && t != "" {
      Regroup(Escape(s[0]), QuoteTail(s[1..]), x);
      Regroup(Escape(t[0]), QuoteTail(t[1..]), y);
      EscapeIsPrefixFree(s[0], t[0], QuoteTail(s[1..]) + x, QuoteTail(t[1..]) + y);
      QuoteTailIsPrefixFree(s[1..], t[1..], x, y);
      assert s == [s[0]] + s[1..] && t == [t[0]] + t[1..];
    }
  }

  lemma QuoteIsPrefixFree(s: string, t: string, x: string, y: string)
    requires Quote(s) + x == Quote(t) + y
    ensures s == t && x == y
  {
    CutFirst(Quote(s), x);
    CutFirst(Quote(t), y);
    QuoteTailIsPrefixFree(s, t, x, y);
  }

  lemma {:induction false} NumberIsPrefixFree(s: string, t: string, x: string, y: string)
    requires forall c :: c in s || c in t ==> IsNumberChar(c)
    requires Delimited(x) && Delimited(y)
    requires s + x == t + y
    ensures s == t && x == y
  {
    assert s == "" ==> s + x == x;
    assert t == "" ==> t + y == y;
    assert s != "" ==> (s + x)[0] == s[0] && s[0] in s;
    assert t != "" ==> (t + y)[0] == t[0] && t[0] in t;
    if s != "" && t != "" {
      assert (s + x)[1..] == s[1..] + x && (t + y)[1..] == t[1..] + y;
      assert (s + x)[0] == s[0] && (t + y)[0] == t[0];
      NumberIsPrefixFree(s[1..], t[1..], x, y);
    }
  }

  // What each kind of value starts with.
  predicate StartsLike(v: Json, c: char) {
    match v
    case Null => c == 'n'
    case Bool(b) => c == if b then 't' else 'f'
    case Num(_) => IsNumberChar(c)
    case Str(_) => c == '"'
    case Arr(_) => c == '['
    case Obj(_) => c == '{'
  }

  lemma Starts(v: Json)
    ensures StartsLike(v, Stringify(v)[0])
  {
    if v.Num? {
      assert v.text[0] in v.text;
    }
  }

  // In a text that a value and a delimiter open, the value is determined.
  lemma {:induction false} StringifyIsPrefixFree(v: Json, w: Json, x: string, y: string)
    requires Delimited(x) && Delimited(y)
    requires Stringify(v) + x == Stringify(w) + y
    ensures v == w && x == y
    decreases v, 1
  {
    Starts(v);
    Starts(w);
    CutFirst(Stringify(v), x);
    CutFirst(Stringify(w), y);
    match v
    case Null =>
      assert (Stringify(v) + x)[4..] == x && (Stringify(w) + y)[4..] == y;
    case Bool(b) =>
      var n := if b then 4 else 5;
      assert (Stringify(v) + x)[n..] == x && (Stringify(w) + y)[n..] == y;
    case Num(text) =>
      NumberIsPrefixFree(text, w.text, x, y);
    case Str(s) =>
      QuoteIsPrefixFree(s, w.s, x, y);
    case Arr(items) =>
      ArrIsPrefixFree(items, w.items, x, y);
    case Obj(members) =>
      ObjIsPrefixFree(members, w.members, x, y);
  }

  lemma {:induction false} ItemsTailIsPrefixFree(s: seq<Json>, t: seq<Json>, x: string, y: string)
    requires ItemsTail(s) + x == ItemsTail(t) + y
    ensures s == t && x == y
    decreases s, 0
  {
    CutFirst(ItemsTail(s), x);
    CutFirst(ItemsTail(t), y);
    if s != [] && t != [] {
      var (v, w) := (Stringify(s[0]), Stringify(t[0]));
      var (a, b) := (ItemsTail(s[1..]), ItemsTail(t[1..]));
      assert ItemsTail(s)[1..] == v + a && ItemsTail(t)[1..] == w + b;
      Regroup(v, a, x);
      Regroup(w, b, y);
      StringifyIsPrefixFree(s[0], t[0], a + x, b + y);
      ItemsTailIsPrefixFree(s[1..], t[1..], x, y);
      assert s == [s[0]] + s[1..] && t == [t[0]] + t[1..];
    }
  }

  // The text of a list with items does not go on with a closing bracket.
  lemma ItemsStart(s: seq<Json>)
    requires s != []
    ensures |Stringify(Arr(s))| > 1 && Stringify(Arr(s))[1] != ']'
  {
    Starts(s[0]);
    CutFirst(Stringify(s[0]), ItemsTail(s[1..]));
  }

  lemma ArrIsPrefixFree(s: seq<Json>, t: seq<Json>, x: string, y: string)
    requires Stringify(Arr(s)) + x == Stringify(Arr(t)) + y
    ensures s == t && x == y
    decreases s, 2
  {
    var (p, q) := (Stringify(Arr(s)), Stringify(Arr(t)));
    CutFirst(p, x);
    CutFirst(q, y);
    CutFirst(p[1..], x);
    CutFirst(q[1..], y);
    if s != [] && t != [] {
      var (v, w) := (Stringify(s[0]), Stringify(t[0]));
      var (a, b) := (ItemsTail(s[1..]), ItemsTail(t[1..]));
      assert p[1..] == v + a && q[1..] == w + b;
      Regroup(v, a, x);
      Regroup(w, b, y);
      StringifyIsPrefixFree(s[0], t[0], a + x, b + y);
      ItemsTailIsPrefixFree(s[1..], t[1..], x, y);
      assert s == [s[0]] + s[1..] && t == [t[0]] + t[1..];
    } else if s != [] {
      ItemsStart(s);
    } else if t != [] {
      ItemsStart(t);
    }
  }

  lemma MemberIsPrefixFree(m: Member, n: Member, x: string, y: string)
    requires Delimited(x) && Delimited(y)
    requires MemberText(m) + x == MemberText(n) + y
    ensures m == n && x == y
    decreases m, 0
  {
    var (v, w) := (":" + Stringify(m.value), ":" + Stringify(n.value));
    Regroup(Quote(m.key), v, x);
    Regroup(Quote(n.key), w, y);
    QuoteIsPrefixFree(m.key, n.key, v + x, w + y);
    CutFirst(v, x);
    CutFirst(w, y);
    assert v[1..] == Stringify(m.value) && w[1..] == Stringify(n.value);
    StringifyIsPrefixFree(m.value, n.value, x, y);
  }

  lemma {:induction false} MembersTailIsPrefixFree(s: seq<Member>, t: seq<Member>, x: string, y: string)
    requires MembersTail(s) + x == MembersTail(t) + y
    ensures s == t && x == y
    decreases s, 0
  {
    CutFirst(MembersTail(s), x);
    CutFirst(MembersTail(t), y);
    if s != [] && t != [] {
      var (v, w) := (MemberText(s[0]), MemberText(t[0]));
      var (a, b) := (MembersTail(s[1..]), MembersTail(t[1..]));
      assert MembersTail(s)[1..] == v + a && MembersTail(t)[1..] == w + b;
      Regroup(v, a, x);
      Regroup(w, b, y);
      MemberIsPrefixFree(s[0], t[0], a + x, b + y);
      MembersTailIsPrefixFree(s[1..], t[1..], x, y);
      assert s == [s[0]] + s[1..] && t == [t[0]] + t[1..];
    }
  }

  lemma ObjIsPrefixFree(s: seq<Member>, t: seq<Member>, x: string, y: string)
    requires Stringify(Obj(s)) + x == Stringify(Obj(t)) + y
    ensures s == t && x == y
    decreases s, 2
  {
    var (p, q) := (Stringify(Obj(s)), Stringify(Obj(t)));
    CutFirst(p, x);
    CutFirst(q, y);
    CutFirst(p[1..], x);
    CutFirst(q[1..], y);
    if s != [] && t != [] {
      var (v, w) := (MemberText(s[0]), MemberText(t[0]));
      var (a, b) := (MembersTail(s[1..]), MembersTail(t[1..]));
      assert p[1..] == v + a && q[1..] == w + b;
      Regroup(v, a, x);
      Regroup(w, b, y);
      MemberIsPrefixFree(s[0], t[0], a + x, b + y);
      MembersTailIsPrefixFree(s[1..], t[1..], x, y);
      assert s == [s[0]] + s[1..] && t == [t[0]] + t[1..];
    }
  }

  lemma StringifyInjective(v: Json, w: Json)
    requires Stringify(v) == Stringify(w)
    ensures v == w
  {
    assert Stringify(v) + "" == Stringify(v) && Stringify(w) + "" == Stringify(w);
    StringifyIsPrefixFree(v, w, "", "");
  }
}
