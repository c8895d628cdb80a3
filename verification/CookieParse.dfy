/** The cookie parser as it runs: slices of the input, index pairs, and accessors. */
module CookieParse {
  import opened Bytes
  import opened CookieText
  import Utf8

  // A borrowed string: the address of its first byte and its text.
  datatype Str = Str(ptr: nat, text: string) {
    function Size(): nat {
      |Utf8.Encode(text)|
    }

    // A slice between two characters.
    function Sub(i: nat, j: nat): Str
      requires i <= j <= |text|
    {
      Str(ptr + Utf8.Offset(text, i), text[i..j])
    }

    ghost predicate StandsAt(s: Str, p: nat) {
      && p + |text| <= |s.text| && text == s.text[p..p + |text|]
      && ptr == s.ptr + Utf8.Offset(s.text, p)
    }

    // This string is a part of the other one, in memory and as text.
    ghost predicate Within(s: Str) {
      exists p: nat :: StandsAt(s, p)
    }
  }

  lemma SliceOfSlice(s: string, p: nat, q: nat, i: nat, j: nat)
    requires p <= q <= |s| && i <= j <= q - p
    ensures s[p..q][i..j] == s[p + i..p + j]
  {
    var (a, b) := (s[p..q][i..j], s[p + i..p + j]);
    assert |a| == |b|;
    assert forall k :: 0 <= k < |a| ==> a[k] == s[p..q][i + k] == s[p + i + k] == b[k];
  }

  lemma SubWithin(v: Str, i: nat, j: nat, s: Str)
    requires i <= j <= |v.text| && v.Within(s)
    ensures v.Sub(i, j).Within(s)
  {
    var p: nat :| v.StandsAt(s, p);
    Utf8.OffsetNested(s.text, p, p + |v.text|, i);
    SliceOfSlice(s.text, p, p + |v.text|, i, j);
    assert v.Sub(i, j).StandsAt(s, p + i);
  }

  // For a part of the haystack the byte offsets are in bounds, on character boundaries, and
  // select the needle.
  function IndexesOf(needle: Str, haystack: Str): (r: Option<(nat, nat)>)
    ensures needle.Within(haystack) ==>
      r.Some? && CanSlice(haystack.text, r.value.0, r.value.1)
      && Utf8.ByteSlice(haystack.text, r.value.0, r.value.1) == needle.text
  {
    PartIsSliced(needle, haystack);
    if needle.ptr < haystack.ptr then None
    else if needle.ptr + needle.Size() > haystack.ptr + haystack.Size() then None
    else Some((needle.ptr - haystack.ptr, needle.ptr - haystack.ptr + needle.Size()))
  }

  // Whether `&s[i..j]` does not panic.
  predicate CanSlice(s: string, i: nat, j: nat) {
    i <= j && Utf8.IsBoundary(Utf8.Encode(s), i) && Utf8.IsBoundary(Utf8.Encode(s), j)
  }

  lemma PartIsSliced(needle: Str, haystack: Str)
    ensures needle.Within(haystack) ==> Sliced(needle, haystack)
  {
    if needle.Within(haystack) {
      var p: nat :| needle.StandsAt(haystack, p);
      PartAt(needle, haystack, p);
    }
  }

  ghost predicate Sliced(needle: Str, haystack: Str) {
    && haystack.ptr <= needle.ptr && needle.ptr + needle.Size() <= haystack.ptr + haystack.Size()
    && var (i, j) := (needle.ptr - haystack.ptr, needle.ptr - haystack.ptr + needle.Size());
       CanSlice(haystack.text, i, j) && Utf8.ByteSlice(haystack.text, i, j) == needle.text
  }

  lemma PartAt(needle: Str, haystack: Str, p: nat)
    requires needle.StandsAt(haystack, p)
    ensures Sliced(needle, haystack)
  {
    Utf8.PartReads(haystack.text, p, p + |needle.text|);
  }

  // ---------------------------------------------------------------- slices of slices

  lemma {:induction false} TrimStartIsSuffix(s: string)
    ensures |TrimStart(s)| <= |s| && TrimStart(s) == s[|s| - |TrimStart(s)|..]
  {
    if s != "" && IsWhite(s[0]) {
      TrimStartIsSuffix(s[1..]);
    }
  }

  lemma {:induction false} TrimEndIsPrefix(s: string)
    ensures |TrimEnd(s)| <= |s| && TrimEnd(s) == s[..|TrimEnd(s)|]
  {
    if s != "" && IsWhite(s[|s| - 1]) {
      TrimEndIsPrefix(s[..|s| - 1]);
    }
  }

  // Where the trimmed text lies; a string of white space is trimmed to its empty start.
  function TrimBounds(s: string): (b: (nat, nat))
    ensures b.0 <= b.1 <= |s| && s[b.0..b.1] == Trim(s)
  {
    TrimStartIsSuffix(s);
    TrimEndIsPrefix(TrimStart(s));
    var start := |s| - |TrimStart(s)|;
    var end := start + |Trim(s)|;
    assert s[start..][..end - start] == s[start..end];
    if Trim(s) == "" then (0, 0) else (start, end)
  }

  function TrimSlice(v: Str): (r: Str)
    ensures r.text == Trim(v.text)
  {
    v.Sub(TrimBounds(v.text).0, TrimBounds(v.text).1)
  }

  lemma TrimWithin(v: Str, s: Str)
    requires v.Within(s)
    ensures TrimSlice(v).Within(s)
  {
    SubWithin(v, TrimBounds(v.text).0, TrimBounds(v.text).1, s);
  }

  lemma {:induction false} HeadAndAfter(s: string, sep: char)
    ensures |Head(s, sep)| <= |s| && Head(s, sep) == s[..|Head(s, sep)|]
    ensures After(s, sep) == if |Head(s, sep)| == |s| then None else Some(s[|Head(s, sep)| + 1..])
  {
    if s != "" && s[0] != sep {
      HeadAndAfter(s[1..], sep);
    }
  }

  // The slice before the first separator and the one after it.
  function SplitSlice(v: Str, sep: char): (r: (Str, Option<Str>))
    ensures r.0.text == Head(v.text, sep)
    ensures TextOf(r.1) == After(v.text, sep)
  {
    HeadAndAfter(v.text, sep);
    var k := |Head(v.text, sep)|;
    if k == |v.text| then (v.Sub(0, k), None)
    else
      assert v.text[k + 1..|v.text|] == v.text[k + 1..];
      (v.Sub(0, k), Some(v.Sub(k + 1, |v.text|)))
  }

  function TextOf(v: Option<Str>): Option<string> {
    if v.Some? then Some(v.value.text) else None
  }

  ghost predicate WithinIfAny(v: Option<Str>, s: Str) {
    v.Some? ==> v.value.Within(s)
  }

  lemma SplitWithin(v: Str, sep: char, s: Str)
    requires v.Within(s)
    ensures SplitSlice(v, sep).0.Within(s) && WithinIfAny(SplitSlice(v, sep).1, s)
  {
    HeadAndAfter(v.text, sep);
    var k := |Head(v.text, sep)|;
    SubWithin(v, 0, k, s);
    if k < |v.text| {
      SubWithin(v, k + 1, |v.text|, s);
    }
  }

  // ---------------------------------------------------------------- cookies

  datatype CookieStr = Indexed(start: nat, end: nat) | Concrete(owned: string)

  // The index pair lies in the base string on character boundaries, so that reading it does
  // not panic.
  predicate Readable(c: CookieStr, base: Option<string>) {
    c.Indexed? ==> base.Some? && CanSlice(base.value, c.start, c.end)
  }

  function ToStr(c: CookieStr, base: Option<string>): string
    requires Readable(c, base)
  {
    match c
    case Indexed(i, j) => Utf8.ByteSlice(base.value, i, j)
    case Concrete(s) => s
  }

  predicate ReadableIfAny(c: Option<CookieStr>, base: Option<string>) {
    c.Some? ==> Readable(c.value, base)
  }

  function ToStrIfAny(c: Option<CookieStr>, base: Option<string>): Option<string>
    requires ReadableIfAny(c, base)
  {
    if c.Some? then Some(ToStr(c.value, base)) else None
  }

  class Formatter {
    var text: string

    constructor ()
      ensures text == ""
    {
      text := "";
    }

    // `write!(f, "; ...")`, after the attributes that are written already.
    method Write(attr: string, ghost start: string, ghost done: seq<string>)
      requires text == start + Attached(done)
      modifies this
      ensures text == start + Attached(done + [attr])
    {
      AttachedAppend(done, [attr]);
      JoinThree(start, Attached(done), Attached([attr]));
      assert Attached([attr]) == ";" + (" " + attr) + Attached([attr][1..]);
      text := text + (";" + (" " + attr));
    }
  }

  class Cookie {
    var cookieString: Option<string>
    var name: CookieStr
    var value: CookieStr
    var maxAge: Option<int>
    var domain: Option<CookieStr>
    var path: Option<CookieStr>
    var secure: Option<bool>
    var httpOnly: Option<bool>
    var sameSite: Option<SameSite>

    ghost predicate ReadableIn(base: Option<string>)
      reads this
    {
      && Readable(name, base) && Readable(value, base)
      && ReadableIfAny(domain, base) && ReadableIfAny(path, base)
    }

    ghost function FieldsIn(base: Option<string>): Fields
      requires ReadableIn(base)
      reads this
    {
      Fields(ToStr(name, base), ToStr(value, base), httpOnly, secure, sameSite,
             ToStrIfAny(path, base), ToStrIfAny(domain, base), maxAge)
    }

    ghost predicate Valid()
      reads this
    {
      ReadableIn(cookieString)
    }

    ghost function Contents(): Fields
      requires Valid()
      reads this
    {
      FieldsIn(cookieString)
    }

    constructor (name: CookieStr, value: CookieStr)
      ensures this.name == name && this.value == value && cookieString == None
      ensures maxAge == None && domain == None && path == None
      ensures secure == None && httpOnly == None && sameSite == None
    {
      this.cookieString := None;
      this.name := name;
      this.value := value;
      this.maxAge, this.domain, this.path := None, None, None;
      this.secure, this.httpOnly, this.sameSite := None, None, None;
    }

    function Name(): (r: string)
      requires Valid()
      reads this
      ensures r == Contents().name
    {
      ToStr(name, cookieString)
    }

    function Value(): (r: string)
      requires Valid()
      reads this
      ensures r == Contents().value
    {
      ToStr(value, cookieString)
    }

    function Path(): (r: Option<string>)
      requires Valid()
      reads this
      ensures r == Contents().path
    {
      ToStrIfAny(path, cookieString)
    }

    function Domain(): (r: Option<string>)
      requires Valid()
      reads this
      ensures r == Contents().domain
    {
      ToStrIfAny(domain, cookieString)
    }

    // One attribute of the input, stored as index pairs into it.
    method ApplyAttribute(attr: Str, s: Str)
      requires attr.Within(s) && ReadableIn(Some(s.text))
      modifies this
      ensures ReadableIn(Some(s.text))
      ensures cookieString == old(cookieString) && name == old(name) && value == old(value)
      ensures FieldsIn(Some(s.text)) == ApplyAttr(old(FieldsIn(Some(s.text))), attr.text)
    {
      var (before, after) := SplitSlice(attr, '=');
      SplitWithin(attr, '=', s);
      var key := TrimSlice(before).text;
      var value := None;
      if after.Some? {
        TrimWithin(after.value, s);
        value := Some(TrimSlice(after.value));
      }
      StorePair(Lower(key), value, s);
    }

    method StorePair(key: string, v: Option<Str>, s: Str)
      requires WithinIfAny(v, s) && ReadableIn(Some(s.text))
      modifies this
      ensures ReadableIn(Some(s.text))
      ensures cookieString == old(cookieString) && name == old(name) && value == old(value)
      ensures FieldsIn(Some(s.text)) == ApplyPair(old(FieldsIn(Some(s.text))), key, TextOf(v))
    {
      if key == "secure" {
        secure := Some(true);
      } else if key == "httponly" {
        httpOnly := Some(true);
      } else if key == "max-age" && v.Some? {
        var parsed := ParseI64(v.value.text);
        if parsed.Some? {
          maxAge := Some(ClampAge(parsed.value));
        }
      } else if key == "domain" && v.Some? && v.value.text != "" {
        var d := v.value;
        if d.text[0] == '.' {
          SubWithin(d, 1, |d.text|, s);
          assert d.text[1..|d.text|] == d.text[1..];
          d := d.Sub(1, |d.text|);
        }
        var indexes := IndexesOf(d, s);
        domain := Some(Indexed(indexes.value.0, indexes.value.1));
      } else if key == "path" && v.Some? {
        var indexes := IndexesOf(v.value, s);
        path := Some(Indexed(indexes.value.0, indexes.value.1));
      } else if key == "samesite" && v.Some? {
        if Lower(v.value.text) == "strict" {
          sameSite := Some(Strict);
        } else if Lower(v.value.text) == "lax" {
          sameSite := Some(Lax);
        }
      }
    }

    // The parameters, each written to the formatter when it is there.
    method FmtParameters(f: Formatter)
      requires Valid()
      modifies f
      ensures f.text == old(f.text) + Attached(Attributes(Contents()))
    {
      ghost var (c, start) := (Contents(), f.text);
      assert start + Attached([]) == start;
      FmtFlags(f, start, []);
      assert [] + FlagAttrs(c) == FlagAttrs(c);
      FmtSite(f, start, FlagAttrs(c));
      FmtPlace(f, start, FlagAttrs(c) + SiteAttrs(c));
      ghost var done := FlagAttrs(c) + SiteAttrs(c) + PathAttrs(c) + DomainAttrs(c);
      assert done + [] == done;
      if maxAge.Some? {
        f.Write("Max-Age" + "=" + IntText(maxAge.value), start, done);
      }
    }

    method FmtFlags(f: Formatter, ghost start: string, ghost done: seq<string>)
      requires Valid() && f.text == start + Attached(done)
      modifies f
      ensures f.text == start + Attached(done + FlagAttrs(Contents()))
    {
      ghost var first := if httpOnly == Some(true) then ["HttpOnly"] else [];
      assert done + [] == done && done + first + [] == done + first;
      if httpOnly == Some(true) {
        f.Write("HttpOnly", start, done);
      }
      if secure == Some(true) {
        f.Write("Secure", start, done + first);
        assert done + first + ["Secure"] == done + (first + ["Secure"]);
      } else {
        assert first + [] == first;
      }
    }

    method FmtSite(f: Formatter, ghost start: string, ghost done: seq<string>)
      requires Valid() && f.text == start + Attached(done)
      modifies f
      ensures f.text == start + Attached(done + SiteAttrs(Contents()))
    {
      if sameSite == Some(Strict) {
        f.Write("SameSite" + "=" + "Strict", start, done);
      } else if sameSite == Some(Lax) {
        f.Write("SameSite" + "=" + "Lax", start, done);
      } else {
        assert done + [] == done;
      }
    }

    method FmtPlace(f: Formatter, ghost start: string, ghost done: seq<string>)
      requires Valid() && f.text == start + Attached(done)
      modifies f
      ensures f.text == start + Attached(done + PathAttrs(Contents()) + DomainAttrs(Contents()))
    {
      ghost var first := done + PathAttrs(Contents());
      assert done + [] == done && first + [] == first;
      if path.Some? {
        f.Write("Path" + "=" + Path().value, start, done);
      }
      if domain.Some? {
        f.Write("Domain" + "=" + Domain().value, start, first);
      }
    }

    method FmtEncoded(f: Formatter)
      requires Valid()
      modifies f
      ensures f.text == old(f.text) + DisplayEncoded(Contents())
    {
      f.text := f.text + (PctEncode(Name()) + "=" + PctEncode(Value()));
      FmtParameters(f);
      JoinThree(old(f.text), PctEncode(Name()) + "=" + PctEncode(Value()), Attached(Attributes(Contents())));
    }

    method FmtPlain(f: Formatter)
      requires Valid()
      modifies f
      ensures f.text == old(f.text) + DisplayPlain(Contents())
    {
      f.text := f.text + (Name() + "=" + Value());
      FmtParameters(f);
      JoinThree(old(f.text), Name() + "=" + Value(), Attached(Attributes(Contents())));
    }

    method SetName(name: string)
      requires Valid()
      modifies this`name
      ensures Valid() && Contents() == old(Contents()).(name := name)
    {
      this.name := Concrete(name);
    }

    method SetPath(path: string)
      requires Valid()
      modifies this`path
      ensures Valid() && Contents() == old(Contents()).(path := Some(path))
    {
      this.path := Some(Concrete(path));
    }

    method SetDomain(domain: string)
      requires Valid()
      modifies this`domain
      ensures Valid() && Contents() == old(Contents()).(domain := Some(domain))
    {
      this.domain := Some(Concrete(domain));
    }
  }

  datatype CookieResult = Done(cookie: Cookie) | Refused(error: ParseError)

  // The first part of the input; in the mode that does not decode, the name and value are
  // index pairs too.
  method ParsePair(pair: Str, s: Str, decode: bool) returns (r: CookieResult)
    requires pair.Within(s)
    ensures r.Done? <==> PairOf(pair.text, decode).Parsed?
    ensures r.Refused? ==> PairOf(pair.text, decode) == Failed(r.error)
    ensures r.Done? ==>
      && fresh(r.cookie) && r.cookie.cookieString == None && r.cookie.ReadableIn(Some(s.text))
      && PairOf(pair.text, decode) == Parsed(r.cookie.FieldsIn(Some(s.text)))
    ensures r.Done? && !decode ==> r.cookie.name.Indexed? && r.cookie.value.Indexed?
  {
    var (before, after) := SplitSlice(pair, '=');
    SplitWithin(pair, '=', s);
    if after.None? {
      return Refused(MissingPair);
    }
    var (name, value) := (TrimSlice(before), TrimSlice(after.value));
    TrimWithin(before, s);
    TrimWithin(after.value, s);
    if name.text == "" {
      return Refused(EmptyName);
    }
    var n, v;
    if decode {
      var (dn, dv) := (PctDecode(name.text), PctDecode(value.text));
      if dn.None? || dv.None? {
        return Refused(NotUtf8);
      }
      n, v := Concrete(dn.value), Concrete(dv.value);
    } else {
      var (ni, vi) := (IndexesOf(name, s), IndexesOf(value, s));
      n, v := Indexed(ni.value.0, ni.value.1), Indexed(vi.value.0, vi.value.1);
    }
    var cookie := new Cookie(n, v);
    return Done(cookie);
  }

  method ParseInner(s: Str, decode: bool) returns (r: CookieResult)
    ensures r.Done? <==> Parse(s.text, decode).Parsed?
    ensures r.Refused? ==> Parse(s.text, decode) == Failed(r.error)
    ensures r.Done? ==>
      && fresh(r.cookie) && r.cookie.ReadableIn(Some(s.text))
      && Parse(s.text, decode) == Parsed(r.cookie.FieldsIn(Some(s.text)))
    ensures r.Done? && !decode ==> r.cookie.name.Indexed? && r.cookie.value.Indexed?
  {
    assert s.StandsAt(s, 0) by {
      assert s.text[..0] == "";
    }
    var (pair, rest) := SplitSlice(s, ';');
    SplitWithin(s, ';', s);
    r := ParsePair(pair, s, decode);
    if r.Done? {
      var cookie := r.cookie;
      ghost var base := Some(s.text);
      ghost var start := cookie.FieldsIn(base);
      while rest.Some?
        invariant WithinIfAny(rest, s) && cookie.ReadableIn(base)
        invariant ApplyAttrs(start, After(s.text, ';')) == ApplyAttrs(cookie.FieldsIn(base), TextOf(rest))
        invariant !decode ==> cookie.name.Indexed? && cookie.value.Indexed?
        decreases if rest.Some? then |rest.value.text| + 1 else 0
      {
        SplitWithin(rest.value, ';', s);
        var (attr, next) := SplitSlice(rest.value, ';');
        cookie.ApplyAttribute(attr, s);
        rest := next;
      }
    }
  }

  // A parsed cookie holds its input, so every accessor reads within bounds and gives the
  // field that the parser specifies.
  method ParseCookie(s: Str, decode: bool) returns (r: CookieResult)
    ensures r.Done? <==> Parse(s.text, decode).Parsed?
    ensures r.Refused? ==> Parse(s.text, decode) == Failed(r.error)
    ensures r.Done? ==>
      && fresh(r.cookie) && r.cookie.Valid()
      && Parse(s.text, decode) == Parsed(r.cookie.Contents())
  {
    r := ParseInner(s, decode);
    if r.Done? {
      r.cookie.cookieString := Some(s.text);
    }
  }
}
