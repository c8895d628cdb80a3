/** Printing a cookie for a Set-Cookie header and parsing it back. */
module CookieText {
  import opened Bytes
  import opened PercentCoding
  import Utf8

  datatype SameSite = Strict | Lax | NoRestriction

  // A cookie's attributes as the accessors give them; Expires is not part of this model.
  datatype Fields = Fields(
    name: string, value: string, httpOnly: Option<bool>, secure: Option<bool>, sameSite: Option<SameSite>,
    path: Option<string>, domain: Option<string>, maxAge: Option<int>)

  datatype ParseError = MissingPair | EmptyName | NotUtf8

  datatype Outcome = Parsed(cookie: Fields) | Failed(error: ParseError)

  // ---------------------------------------------------------------- percent coding of text

  function FromAscii(b: Bytes): (s: string)
    requires forall i :: 0 <= i < |b| ==> b[i] < 128
    ensures |s| == |b|
  {
    if b == [] then "" else [b[0] as char] + FromAscii(b[1..])
  }

  lemma {:induction false} AsciiEncodes(b: Bytes)
    requires forall i :: 0 <= i < |b| ==> b[i] < 128
    ensures Utf8.Encode(FromAscii(b)) == b
  {
    if b != [] {
      AsciiEncodes(b[1..]);
      assert FromAscii(b)[1..] == FromAscii(b[1..]);
      assert b == [b[0]] + b[1..];
    }
  }

  // A byte that stands in encoded text: never a blank, a semicolon or an equals sign.
  predicate Safe(b: byte) {
    b == PERCENT || (32 < b < 127 && !Escaped(b))
  }

  lemma {:induction false} EncodedIsSafe(b: Bytes)
    ensures forall i :: 0 <= i < |EncodeBytes(b)| ==> Safe(EncodeBytes(b)[i])
    ensures EncodeBytes(b) == [] <==> b == []
  {
    if b != [] {
      EncodedIsSafe(b[1..]);
    }
  }

  function PctEncode(s: string): string {
    EncodedIsSafe(Utf8.Encode(s));
    FromAscii(EncodeBytes(Utf8.Encode(s)))
  }

  function PctDecode(t: string): Option<string> {
    Utf8.Decode(DecodeBytes(Utf8.Encode(t)))
  }

  // A name or value survives the coding exactly when no percent sign in it is followed by
  // two hexadecimal digits.
  lemma PctRoundTripIff(s: string)
    ensures PctDecode(PctEncode(s)) == Some(s) <==> NoTriplet(Utf8.Encode(s))
  {
    var b := Utf8.Encode(s);
    EncodedIsSafe(b);
    AsciiEncodes(EncodeBytes(b));
    RoundTripIff(b);
    Utf8.DecodeInverts(s);
    Utf8.DecodedEncodes(DecodeBytes(EncodeBytes(b)));
  }

  // ---------------------------------------------------------------- text

  // The White_Space property.
  predicate IsWhite(c: char) {
    var n := c as int;
    9 <= n <= 13 || n == 32 || n == 0x85 || n == 0xA0 || n == 0x1680 || 0x2000 <= n <= 0x200A
    || n == 0x2028 || n == 0x2029 || n == 0x202F || n == 0x205F || n == 0x3000
  }

  function TrimStart(s: string): (r: string)
    ensures |r| <= |s|
  {
    if s != "" && IsWhite(s[0]) then TrimStart(s[1..]) else s
  }

  function TrimEnd(s: string): (r: string)
    ensures |r| <= |s|
  {
    if s != "" && IsWhite(s[|s| - 1]) then TrimEnd(s[..|s| - 1]) else s
  }

  function Trim(s: string): string {
    TrimEnd(TrimStart(s))
  }

  function LowerChar(c: char): char {
    if 'A' <= c <= 'Z' then c - 'A' + 'a' else c
  }

  function Lower(s: string): (r: string)
    ensures |r| == |s|
  {
    seq(|s|, i requires 0 <= i < |s| => LowerChar(s[i]))
  }

  // The part before the first separator.
  function Head(s: string, sep: char): (r: string)
    ensures r <= s
  {
    if s == "" || s[0] == sep then "" else [s[0]] + Head(s[1..], sep)
  }

  // What follows the first separator, if there is one.
  function After(s: string, sep: char): (r: Option<string>)
    ensures r.Some? ==> |r.value| < |s|
  {
    if s == "" then None else if s[0] == sep then Some(s[1..]) else After(s[1..], sep)
  }

  lemma {:induction false} Separates(a: string, sep: char, b: string)
    requires sep !in a
    ensures Head(a, sep) == a && After(a, sep) == None
    ensures Head(a + [sep] + b, sep) == a && After(a + [sep] + b, sep) == Some(b)
  {
    var t := a + [sep] + b;
    if a == "" {
      assert t[1..] == b;
    } else {
      assert a[0] in a && sep !in a[1..];
      assert t[1..] == a[1..] + [sep] + b;
      Separates(a[1..], sep, b);
      assert a == [a[0]] + a[1..];
    }
  }

  // ---------------------------------------------------------------- integers

  const I64_MAX: int := 0x7FFF_FFFF_FFFF_FFFF

  // chrono::Duration::max_value().num_seconds()
  const MAX_SECONDS: int := 9_223_372_036_854_775

  function DecimalText(n: nat): (t: string)
    ensures t != ""
  {
    if n < 10 then ['0' + n as char] else DecimalText(n / 10) + ['0' + (n % 10) as char]
  }

  function IntText(n: int): string {
    if n < 0 then "-" + DecimalText(-n) else DecimalText(n)
  }

  function DigitsValue(s: string, acc: nat): Option<nat> {
    if s == "" then Some(acc)
    else if '0' <= s[0] <= '9' then DigitsValue(s[1..], acc * 10 + (s[0] - '0') as nat)
    else None
  }

  // i64's FromStr.
  function ParseI64(s: string): Option<int> {
    var (sign, digits) := if s != "" && s[0] == '-' then (-1, s[1..])
                          else if s != "" && s[0] == '+' then (1, s[1..])
                          else (1, s);
    if digits == "" then None
    else
      match DigitsValue(digits, 0)
      case None => None
      case Some(n) => if -I64_MAX - 1 <= sign * n <= I64_MAX then Some(sign * n) else None
  }

  lemma {:induction false} DigitsAppend(s: string, d: nat, acc: nat)
    requires d < 10
    ensures DigitsValue(s + ['0' + d as char], acc)
         == match DigitsValue(s, acc) case Some(n) => Some(n * 10 + d) case None => None
  {
    var t := s + ['0' + d as char];
    if s == "" {
      assert t[1..] == "";
    } else {
      assert t[1..] == s[1..] + ['0' + d as char];
      if '0' <= s[0] <= '9' {
        DigitsAppend(s[1..], d, acc * 10 + (s[0] - '0') as nat);
      }
    }
  }

  lemma {:induction false} DecimalReads(n: nat)
    ensures DigitsValue(DecimalText(n), 0) == Some(n)
    ensures forall i :: 0 <= i < |DecimalText(n)| ==> '0' <= DecimalText(n)[i] <= '9'
  {
    if n >= 10 {
      DecimalReads(n / 10);
      DigitsAppend(DecimalText(n / 10), n % 10, 0);
    }
  }

  lemma IntReads(n: int)
    ensures ParseI64(IntText(n)) == if -I64_MAX - 1 <= n <= I64_MAX then Some(n) else None
    ensures IntText(n) != "" && !IsWhite(IntText(n)[0]) && !IsWhite(IntText(n)[|IntText(n)| - 1])
    ensures ';' !in IntText(n)
  {
    var m := if n < 0 then -n else n;
    DecimalReads(m);
    if n < 0 {
      assert IntText(n)[1..] == DecimalText(m);
    }
  }

  // ---------------------------------------------------------------- printing

  function FlagAttrs(c: Fields): seq<string> {
    (if c.httpOnly == Some(true) then ["HttpOnly"] else [])
    + (if c.secure == Some(true) then ["Secure"] else [])
  }

  function SiteAttrs(c: Fields): seq<string> {
    if c.sameSite == Some(Strict) then ["SameSite" + "=" + "Strict"]
    else if c.sameSite == Some(Lax) then ["SameSite" + "=" + "Lax"]
    else []
  }

  function PathAttrs(c: Fields): seq<string> {
    if c.path.Some? then ["Path" + "=" + c.path.value] else []
  }

  function DomainAttrs(c: Fields): seq<string> {
    if c.domain.Some? then ["Domain" + "=" + c.domain.value] else []
  }

  function AgeAttrs(c: Fields): seq<string> {
    if c.maxAge.Some? then ["Max-Age" + "=" + IntText(c.maxAge.value)] else []
  }

  // The attributes that the parameters print, in their order.
  function Attributes(c: Fields): seq<string> {
    FlagAttrs(c) + SiteAttrs(c) + PathAttrs(c) + DomainAttrs(c) + AgeAttrs(c)
  }

  function Attached(attrs: seq<string>): string {
    if attrs == [] then "" else ";" + (" " + attrs[0]) + Attached(attrs[1..])
  }

  lemma {:induction false} AttachedAppend(xs: seq<string>, ys: seq<string>)
    ensures Attached(xs + ys) == Attached(xs) + Attached(ys)
    decreases |xs|
  {
    if xs == [] {
      assert xs + ys == ys;
    } else {
      assert (xs + ys)[1..] == xs[1..] + ys;
      AttachedAppend(xs[1..], ys);
      JoinThree(";" + (" " + xs[0]), Attached(xs[1..]), Attached(ys));
    }
  }

  lemma JoinThree(a: string, b: string, c: string)
    ensures a + b + c == a + (b + c)
  {}

  // The Display of an encoded cookie.
  function DisplayEncoded(c: Fields): string {
    PctEncode(c.name) + "=" + PctEncode(c.value) + Attached(Attributes(c))
  }

  // ---------------------------------------------------------------- parsing

  function KeyOf(attr: string): string {
    Trim(Head(attr, '='))
  }

  function ValueOf(attr: string): Option<string> {
    match After(attr, '=')
    case Some(v) => Some(Trim(v))
    case None => None
  }

  function WithoutDot(domain: string): string {
    if domain != "" && domain[0] == '.' then domain[1..] else domain
  }

  function ClampAge(n: int): int {
    if n <= 0 then 0 else if n < MAX_SECONDS then n else MAX_SECONDS
  }

  // One attribute; what is not understood is ignored.
  function ApplyAttr(c: Fields, attr: string): Fields {
    ApplyPair(c, Lower(KeyOf(attr)), ValueOf(attr))
  }

  function ApplyPair(c: Fields, key: string, value: Option<string>): Fields {
    if key == "secure" then c.(secure := Some(true))
    else if key == "httponly" then c.(httpOnly := Some(true))
    else
      match value
      case None => c
      case Some(v) =>
        if key == "max-age" then
          match ParseI64(v)
          case Some(n) => c.(maxAge := Some(ClampAge(n)))
          case None => c
        else if key == "domain" && v != "" then c.(domain := Some(WithoutDot(v)))
        else if key == "path" then c.(path := Some(v))
        else if key == "samesite" then
          if Lower(v) == "strict" then c.(sameSite := Some(Strict))
          else if Lower(v) == "lax" then c.(sameSite := Some(Lax))
          else c
        else c
  }

  function ApplyAttrs(c: Fields, rest: Option<string>): Fields
    decreases if rest.Some? then |rest.value| + 1 else 0
  {
    match rest
    case None => c
    case Some(s) => ApplyAttrs(ApplyAttr(c, Head(s, ';')), After(s, ';'))
  }

  function Plain(name: string, value: string): Fields {
    Fields(name, value, None, None, None, None, None, None)
  }

  // The name and value before the first semicolon.
  function PairOf(pair: string, decode: bool): Outcome {
    match After(pair, '=')
    case None => Failed(MissingPair)
    case Some(v) =>
      var (name, value) := (Trim(Head(pair, '=')), Trim(v));
      if name == "" then Failed(EmptyName)
      else if !decode then Parsed(Plain(name, value))
      else
        match PctDecode(name)
        case None => Failed(NotUtf8)
        case Some(n) =>
          match PctDecode(value)
          case None => Failed(NotUtf8)
          case Some(v) => Parsed(Plain(n, v))
  }

  function Parse(s: string, decode: bool): Outcome {
    match PairOf(Head(s, ';'), decode)
    case Failed(e) => Failed(e)
    case Parsed(c) => Parsed(ApplyAttrs(c, After(s, ';')))
  }

  // ---------------------------------------------------------------- what each printed attribute does

  lemma {:induction false} TrimStartBlank(s: string)
    ensures Trim(" " + s) == Trim(s)
  {
    assert (" " + s)[1..] == s;
  }

  // Text without white space at its ends is its own trim.
  lemma TrimPlain(s: string)
    requires s == "" || (!IsWhite(s[0]) && !IsWhite(s[|s| - 1]))
    ensures Trim(s) == s
  {}

  lemma PairRead(key: string, v: string)
    requires key != "" && '=' !in key && !IsWhite(key[0]) && !IsWhite(key[|key| - 1])
    ensures KeyOf(" " + (key + "=" + v)) == key && ValueOf(" " + (key + "=" + v)) == Some(Trim(v))
  {
    assert " " + (key + "=" + v) == (" " + key) + ['='] + v;
    Separates(" " + key, '=', v);
    TrimStartBlank(key);
    TrimPlain(key);
  }

  lemma FlagRead(key: string)
    requires key != "" && '=' !in key && !IsWhite(key[0]) && !IsWhite(key[|key| - 1])
    ensures KeyOf(" " + key) == key && ValueOf(" " + key) == None
  {
    Separates(" " + key, '=', "");
    TrimStartBlank(key);
    TrimPlain(key);
  }

  lemma LowerFlags()
    ensures Lower("HttpOnly") == "httponly" && Lower("Secure") == "secure"
  {}

  lemma LowerPlaces()
    ensures Lower("Path") == "path" && Lower("Domain") == "domain" && Lower("Max-Age") == "max-age"
  {}

  lemma LowerSameSite()
    ensures Lower("SameSite") == "samesite" && Lower("Strict") == "strict" && Lower("Lax") == "lax"
  {}

  lemma FlagsRead(c: Fields)
    ensures ApplyAttr(c, " " + "HttpOnly") == c.(httpOnly := Some(true))
    ensures ApplyAttr(c, " " + "Secure") == c.(secure := Some(true))
  {
    FlagRead("HttpOnly");
    FlagRead("Secure");
    LowerFlags();
  }

  lemma SameSiteReads(c: Fields, v: string)
    requires v == "Strict" || v == "Lax"
    ensures ApplyAttr(c, " " + ("SameSite" + "=" + v)) == c.(sameSite := Some(if v == "Strict" then Strict else Lax))
  {
    PairRead("SameSite", v);
    TrimPlain(v);
    LowerSameSite();
  }

  lemma PathReads(c: Fields, p: string)
    ensures ApplyAttr(c, " " + ("Path" + "=" + p)) == c.(path := Some(Trim(p)))
  {
    PairRead("Path", p);
    LowerPlaces();
  }

  lemma DomainReads(c: Fields, d: string)
    ensures ApplyAttr(c, " " + ("Domain" + "=" + d))
         == if Trim(d) == "" then c else c.(domain := Some(WithoutDot(Trim(d))))
  {
    PairRead("Domain", d);
    LowerPlaces();
  }

  // An age is kept when it is positive and a duration can hold it; below it is zero, above the
  // longest duration, and beyond 64 bits the attribute is ignored.
  lemma MaxAgeReads(c: Fields, n: int)
    ensures ApplyAttr(c, " " + ("Max-Age" + "=" + IntText(n))) ==
      if n < -0x8000_0000_0000_0000 || n > 0x7FFF_FFFF_FFFF_FFFF then c
      else if n <= 0 then c.(maxAge := Some(0))
      else if n <= 9_223_372_036_854_775 then c.(maxAge := Some(n))
      else c.(maxAge := Some(9_223_372_036_854_775))
  {
    PairRead("Max-Age", IntText(n));
    IntReads(n);
    TrimPlain(IntText(n));
    LowerPlaces();
  }

  // ---------------------------------------------------------------- the round trip

  function ApplyList(c: Fields, attrs: seq<string>): Fields
    decreases |attrs|
  {
    if attrs == [] then c else ApplyList(ApplyAttr(c, " " + attrs[0]), attrs[1..])
  }

  lemma {:induction false} ApplyListAppend(c: Fields, xs: seq<string>, ys: seq<string>)
    ensures ApplyList(c, xs + ys) == ApplyList(ApplyList(c, xs), ys)
    decreases |xs|
  {
    if xs == [] {
      assert xs + ys == ys;
    } else {
      assert (xs + ys)[1..] == xs[1..] + ys;
      ApplyListAppend(ApplyAttr(c, " " + xs[0]), xs[1..], ys);
    }
  }

  // Splitting at semicolons recovers the pair and the attributes.
  lemma {:induction false} AttachedReads(prefix: string, attrs: seq<string>, c: Fields)
    requires ';' !in prefix && forall a :: a in attrs ==> ';' !in a
    ensures Head(prefix + Attached(attrs), ';') == prefix
    ensures ApplyAttrs(c, After(prefix + Attached(attrs), ';')) == ApplyList(c, attrs)
    decreases |attrs|
  {
    var t := prefix + Attached(attrs);
    if attrs == [] {
      assert t == prefix;
      Separates(prefix, ';', "");
    } else {
      var next := (" " + attrs[0]) + Attached(attrs[1..]);
      assert t == prefix + [';'] + next;
      Separates(prefix, ';', next);
      AttachedReads(" " + attrs[0], attrs[1..], ApplyAttr(c, " " + attrs[0]));
    }
  }

  function TrueOrNone(b: Option<bool>): Option<bool> {
    if b == Some(true) then b else None
  }

  function SiteKept(site: Option<SameSite>): Option<SameSite> {
    if site == Some(NoRestriction) then None else site
  }

  function DomainKept(domain: Option<string>): Option<string> {
    if domain.Some? && Trim(domain.value) != "" then Some(WithoutDot(Trim(domain.value))) else None
  }

  // What a parser makes of the printed attributes: a false flag and SameSite=None are not
  // printed, paths and domains lose white space at their ends, an empty domain is ignored,
  // one leading dot is dropped, and a negative age becomes zero.
  function Normalize(c: Fields, name: string, value: string): Fields {
    Fields(name, value, TrueOrNone(c.httpOnly), TrueOrNone(c.secure),
           SiteKept(c.sameSite),
           if c.path.Some? then Some(Trim(c.path.value)) else None,
           DomainKept(c.domain),
           if c.maxAge.Some? then Some(ClampAge(c.maxAge.value)) else None)
  }

  // A duration in seconds, as the type of Max-Age holds it.
  predicate DurationInRange(c: Fields) {
    c.maxAge.Some? ==> -MAX_SECONDS <= c.maxAge.value <= MAX_SECONDS
  }

  lemma Single(c: Fields, a: string)
    ensures ApplyList(c, [a]) == ApplyAttr(c, " " + a)
  {}

  lemma FlagsApply(from: Fields, c: Fields)
    requires from.httpOnly == None && from.secure == None
    ensures ApplyList(from, FlagAttrs(c))
         == from.(httpOnly := TrueOrNone(c.httpOnly), secure := TrueOrNone(c.secure))
  {
    var xs := if c.httpOnly == Some(true) then ["HttpOnly"] else [];
    var ys := if c.secure == Some(true) then ["Secure"] else [];
    ApplyListAppend(from, xs, ys);
    FlagsRead(from);
    FlagsRead(from.(httpOnly := Some(true)));
    Single(from, "HttpOnly");
    Single(ApplyList(from, xs), "Secure");
  }

  lemma SiteApplies(from: Fields, c: Fields)
    requires from.sameSite == None
    ensures ApplyList(from, SiteAttrs(c)) == from.(sameSite := SiteKept(c.sameSite))
  {
    match c.sameSite
    case None =>
    case Some(Strict) =>
      SameSiteReads(from, "Strict");
      Single(from, "SameSite" + "=" + "Strict");
    case Some(Lax) =>
      SameSiteReads(from, "Lax");
      Single(from, "SameSite" + "=" + "Lax");
    case Some(NoRestriction) =>
  }

  lemma PathApplies(from: Fields, c: Fields)
    requires from.path == None
    ensures ApplyList(from, PathAttrs(c))
         == from.(path := if c.path.Some? then Some(Trim(c.path.value)) else None)
  {
    if c.path.Some? {
      PathReads(from, c.path.value);
      Single(from, PathAttrs(c)[0]);
    }
  }

  lemma DomainApplies(from: Fields, c: Fields)
    requires from.domain == None
    ensures ApplyList(from, DomainAttrs(c)) == from.(domain := DomainKept(c.domain))
  {
    if c.domain.Some? {
      DomainReads(from, c.domain.value);
      Single(from, DomainAttrs(c)[0]);
    }
  }

  lemma AgeApplies(from: Fields, c: Fields)
    requires DurationInRange(c) && from.maxAge == None
    ensures ApplyList(from, AgeAttrs(c))
         == from.(maxAge := if c.maxAge.Some? then Some(ClampAge(c.maxAge.value)) else None)
  {
    if c.maxAge.Some? {
      MaxAgeReads(from, c.maxAge.value);
      Single(from, AgeAttrs(c)[0]);
    }
  }

  lemma FiveApply(from: Fields, f: seq<string>, s: seq<string>, p: seq<string>, d: seq<string>, m: seq<string>)
    ensures ApplyList(from, f + s + p + d + m)
         == ApplyList(ApplyList(ApplyList(ApplyList(ApplyList(from, f), s), p), d), m)
  {
    ApplyListAppend(from, f, s);
    ApplyListAppend(from, f + s, p);
    ApplyListAppend(from, f + s + p, d);
    ApplyListAppend(from, f + s + p + d, m);
  }

  lemma AttributesApply(c: Fields, name: string, value: string)
    requires DurationInRange(c)
    ensures ApplyList(Plain(name, value), Attributes(c)) == Normalize(c, name, value)
  {
    var c0 := Plain(name, value);
    FiveApply(c0, FlagAttrs(c), SiteAttrs(c), PathAttrs(c), DomainAttrs(c), AgeAttrs(c));
    FlagsApply(c0, c);
    var c1 := ApplyList(c0, FlagAttrs(c));
    SiteApplies(c1, c);
    var c2 := ApplyList(c1, SiteAttrs(c));
    PathApplies(c2, c);
    var c3 := ApplyList(c2, PathAttrs(c));
    DomainApplies(c3, c);
    AgeApplies(ApplyList(c3, DomainAttrs(c)), c);
  }

  // No semicolon where the parser would split.
  predicate Unsplit(c: Fields) {
    (c.path.Some? ==> ';' !in c.path.value) && (c.domain.Some? ==> ';' !in c.domain.value)
  }

  lemma EncodedIsPlain(s: string)
    ensures ';' !in PctEncode(s) && '=' !in PctEncode(s) && Trim(PctEncode(s)) == PctEncode(s)
    ensures PctEncode(s) == "" <==> s == ""
  {
    var b := Utf8.Encode(s);
    EncodedIsSafe(b);
    AsciiIs(EncodeBytes(b));
    var t := PctEncode(s);
    assert forall i :: 0 <= i < |t| ==> Safe(t[i] as int);
    TrimPlain(t);
  }

  lemma {:induction false} AsciiIs(b: Bytes)
    requires forall i :: 0 <= i < |b| ==> b[i] < 128
    ensures forall i :: 0 <= i < |b| ==> FromAscii(b)[i] as int == b[i]
  {
    if b != [] {
      AsciiIs(b[1..]);
    }
  }

  lemma AttributesUnsplit(c: Fields)
    requires Unsplit(c) && DurationInRange(c)
    ensures forall a :: a in Attributes(c) ==> ';' !in a
  {
    if c.maxAge.Some? {
      IntReads(c.maxAge.value);
    }
    forall a | a in Attributes(c) ensures ';' !in a {
      if a in FlagAttrs(c) {
      } else if a in SiteAttrs(c) {
        assert a == "SameSite" + "=" + "Strict" || a == "SameSite" + "=" + "Lax";
      } else if a in PathAttrs(c) {
      } else if a in DomainAttrs(c) {
      } else {
        assert a in AgeAttrs(c);
      }
    }
  }

  // Parsing the encoded display gives back the cookie, normalised; the name and value come
  // back as percent decoding leaves them.
  lemma DisplayParses(c: Fields)
    requires Unsplit(c) && DurationInRange(c)
    ensures Parse(DisplayEncoded(c), true) ==
      if c.name == "" then Failed(EmptyName)
      else if PctDecode(PctEncode(c.name)).None? || PctDecode(PctEncode(c.value)).None? then Failed(NotUtf8)
      else Parsed(Normalize(c, PctDecode(PctEncode(c.name)).value, PctDecode(PctEncode(c.value)).value))
  {
    var (n, v) := (PctEncode(c.name), PctEncode(c.value));
    EncodedIsPlain(c.name);
    EncodedIsPlain(c.value);
    var pair := n + ['='] + v;
    Separates(n, '=', v);
    AttributesUnsplit(c);
    if PctDecode(n).Some? && PctDecode(v).Some? {
      var plain := Plain(PctDecode(n).value, PctDecode(v).value);
      AttachedReads(pair, Attributes(c), plain);
      AttributesApply(c, PctDecode(n).value, PctDecode(v).value);
    } else {
      AttachedReads(pair, Attributes(c), Plain("", ""));
    }
  }

  // Fields that normalising keeps.
  predicate Normal(c: Fields) {
    && c.httpOnly != Some(false) && c.secure != Some(false) && c.sameSite != Some(NoRestriction)
    && (c.path.Some? ==> Trim(c.path.value) == c.path.value)
    && (c.domain.Some? ==> c.domain.value != "" && Trim(c.domain.value) == c.domain.value && c.domain.value[0] != '.')
    && (c.maxAge.Some? ==> c.maxAge.value >= 0)
  }

  lemma FlagKept(b: Option<bool>)
    ensures TrueOrNone(b) == b <==> b != Some(false)
    ensures b != Some(true) ==> TrueOrNone(b) == None
  {
    if b.Some? {
      assert b.value == true || b.value == false;
    }
  }

  lemma NormalizeIff(c: Fields, name: string, value: string)
    requires DurationInRange(c)
    ensures Normalize(c, name, value) == c <==> name == c.name && value == c.value && Normal(c)
  {
    if c.domain.Some? {
      TrimShortens(c.domain.value);
    }
    var r := Normalize(c, name, value);
    FlagKept(c.httpOnly);
    FlagKept(c.secure);
    assert r.maxAge == c.maxAge <==> c.maxAge.None? || c.maxAge.value >= 0;
    assert r.path == c.path <==> c.path.None? || Trim(c.path.value) == c.path.value;
    assert r.domain == c.domain <==>
      (c.domain.Some? ==> c.domain.value != "" && Trim(c.domain.value) == c.domain.value && c.domain.value[0] != '.');
  }

  lemma TrimShortens(s: string)
    ensures |Trim(s)| <= |s|
  {}

  // ---------------------------------------------------------------- no semicolon comes back

  lemma {:induction false} HeadLacks(s: string, sep: char)
    ensures sep !in Head(s, sep)
  {
    if s != "" && s[0] != sep {
      HeadLacks(s[1..], sep);
    }
  }

  lemma {:induction false} HeadTakes(s: string, sep: char, c: char)
    requires c !in s
    ensures c !in Head(s, sep) && (After(s, sep).Some? ==> c !in After(s, sep).value)
  {
    if s != "" && s[0] != sep {
      assert c !in s[1..];
      HeadTakes(s[1..], sep, c);
    }
  }

  lemma {:induction false} TrimStartTakes(s: string, c: char)
    requires c !in s
    ensures c !in TrimStart(s)
  {
    if s != "" && IsWhite(s[0]) {
      TrimStartTakes(s[1..], c);
    }
  }

  lemma {:induction false} TrimEndTakes(s: string, c: char)
    requires c !in s
    ensures c !in TrimEnd(s)
  {
    if s != "" && IsWhite(s[|s| - 1]) {
      TrimEndTakes(s[..|s| - 1], c);
    }
  }

  lemma ValueTakes(attr: string)
    requires ';' !in attr
    ensures ValueOf(attr).Some? ==> ';' !in ValueOf(attr).value
  {
    HeadTakes(attr, '=', ';');
    if After(attr, '=').Some? {
      TrimStartTakes(After(attr, '=').value, ';');
      TrimEndTakes(TrimStart(After(attr, '=').value), ';');
    }
  }

  lemma PairKeepsUnsplit(c: Fields, key: string, value: Option<string>)
    requires Unsplit(c) && (value.Some? ==> ';' !in value.value)
    ensures Unsplit(ApplyPair(c, key, value))
  {}

  lemma {:induction false} AttrsUnsplit(c: Fields, rest: Option<string>)
    requires Unsplit(c)
    ensures Unsplit(ApplyAttrs(c, rest))
    decreases if rest.Some? then |rest.value| + 1 else 0
  {
    if rest.Some? {
      var attr := Head(rest.value, ';');
      HeadLacks(rest.value, ';');
      ValueTakes(attr);
      PairKeepsUnsplit(c, Lower(KeyOf(attr)), ValueOf(attr));
      AttrsUnsplit(ApplyAttr(c, attr), After(rest.value, ';'));
    }
  }

  // A parsed path or domain never holds a semicolon.
  lemma ParsedIsUnsplit(s: string, decode: bool)
    ensures Parse(s, decode).Parsed? ==> Unsplit(Parse(s, decode).cookie)
  {
    match PairOf(Head(s, ';'), decode)
    case Failed(_) =>
    case Parsed(c) => AttrsUnsplit(c, After(s, ';'));
  }

  // The same fields come back exactly when the name is not empty, neither name nor value
  // holds a percent triplet, path and domain hold no semicolon, and every attribute is in its
  // normal form.
  lemma CookieRoundTripIff(c: Fields)
    requires DurationInRange(c)
    ensures Parse(DisplayEncoded(c), true) == Parsed(c) <==>
      && c.name != "" && NoTriplet(Utf8.Encode(c.name)) && NoTriplet(Utf8.Encode(c.value))
      && Unsplit(c) && Normal(c)
  {
    if Unsplit(c) {
      UnsplitRoundTripIff(c);
    } else {
      ParsedIsUnsplit(DisplayEncoded(c), true);
    }
  }

  lemma UnsplitRoundTripIff(c: Fields)
    requires Unsplit(c) && DurationInRange(c)
    ensures Parse(DisplayEncoded(c), true) == Parsed(c) <==>
      && c.name != "" && NoTriplet(Utf8.Encode(c.name)) && NoTriplet(Utf8.Encode(c.value)) && Normal(c)
  {
    DisplayParses(c);
    PctRoundTripIff(c.name);
    PctRoundTripIff(c.value);
    var (n, v) := (PctDecode(PctEncode(c.name)), PctDecode(PctEncode(c.value)));
    if n.Some? && v.Some? {
      NormalizeIff(c, n.value, v.value);
    }
  }

  // ---------------------------------------------------------------- any text

  lemma {:induction false} AttrsKeepPair(c: Fields, rest: Option<string>)
    ensures ApplyAttrs(c, rest).name == c.name && ApplyAttrs(c, rest).value == c.value
    decreases if rest.Some? then |rest.value| + 1 else 0
  {
    if rest.Some? {
      AttrsKeepPair(ApplyAttr(c, Head(rest.value, ';')), After(rest.value, ';'));
    }
  }

  // In both modes the name is what stands before the first equals sign and the value what
  // stands between it and the first semicolon, without white space at their ends; an empty name
  // fails, and so does, where the parser decodes, a name or value that is not the text of its bytes.
  lemma ParsesIff(n: string, v: string, rest: Option<string>, decode: bool)
    requires '=' !in n && ';' !in n && ';' !in v
    ensures var s := n + ['='] + v + (if rest.Some? then [';'] + rest.value else "");
      match Parse(s, decode)
      case Failed(MissingPair) => false
      case Failed(EmptyName) => Trim(n) == ""
      case Failed(NotUtf8) => Trim(n) != "" && decode && (PctDecode(Trim(n)).None? || PctDecode(Trim(v)).None?)
      case Parsed(c) =>
        && Trim(n) != ""
        && (if decode then PctDecode(Trim(n)) == Some(c.name) && PctDecode(Trim(v)) == Some(c.value)
            else c.name == Trim(n) && c.value == Trim(v))
  {
    var pair := n + ['='] + v;
    var s := pair + (if rest.Some? then [';'] + rest.value else "");
    Separates(n, '=', v);
    if rest.Some? {
      assert s == pair + [';'] + rest.value;
      Separates(pair, ';', rest.value);
    } else {
      assert s == pair;
      Separates(pair, ';', "");
    }
    match PairOf(pair, decode)
    case Failed(_) =>
    case Parsed(c) => AttrsKeepPair(c, After(s, ';'));
  }

  // A text without an equals sign before the first semicolon is no cookie.
  lemma NoPair(pair: string, rest: Option<string>, decode: bool)
    requires '=' !in pair && ';' !in pair
    ensures Parse(pair + (if rest.Some? then [';'] + rest.value else ""), decode) == Failed(MissingPair)
  {
    var s := pair + (if rest.Some? then [';'] + rest.value else "");
    Separates(pair, '=', "");
    if rest.Some? {
      assert s == pair + [';'] + rest.value;
      Separates(pair, ';', rest.value);
    } else {
      assert s == pair;
      Separates(pair, ';', "");
    }
  }

  // ---------------------------------------------------------------- the plain round trip

  // The Display of a cookie.
  function DisplayPlain(c: Fields): string {
    c.name + "=" + c.value + Attached(Attributes(c))
  }

  lemma {:induction false} TrimEndKeepsStart(s: string)
    requires s == "" || !IsWhite(s[0])
    ensures TrimEnd(s) == "" || (!IsWhite(TrimEnd(s)[0]) && !IsWhite(TrimEnd(s)[|TrimEnd(s)| - 1]))
  {
    if s != "" && IsWhite(s[|s| - 1]) {
      TrimEndKeepsStart(s[..|s| - 1]);
    }
  }

  lemma {:induction false} TrimStartEnds(s: string)
    ensures TrimStart(s) == "" || !IsWhite(TrimStart(s)[0])
  {
    if s != "" && IsWhite(s[0]) {
      TrimStartEnds(s[1..]);
    }
  }

  lemma TrimTwice(s: string)
    ensures Trim(Trim(s)) == Trim(s)
  {
    TrimStartEnds(s);
    TrimEndKeepsStart(TrimStart(s));
    TrimPlain(Trim(s));
  }

  // A name and value that the parser splits off without decoding.
  predicate IsPlainPair(name: string, value: string) {
    && name != "" && '=' !in name && ';' !in name && ';' !in value
    && Trim(name) == name && Trim(value) == value
  }

  lemma ParsedIsPlainPair(s: string)
    ensures Parse(s, false).Parsed? ==> IsPlainPair(Parse(s, false).cookie.name, Parse(s, false).cookie.value)
  {
    var pair := Head(s, ';');
    HeadLacks(s, ';');
    match PairOf(pair, false)
    case Failed(_) =>
    case Parsed(c) =>
      AttrsKeepPair(c, After(s, ';'));
      var (n, v) := (Head(pair, '='), After(pair, '=').value);
      HeadLacks(pair, '=');
      HeadTakes(pair, '=', ';');
      TrimTakes(n, '=');
      TrimTakes(n, ';');
      TrimTakes(v, ';');
      TrimTwice(n);
      TrimTwice(v);
  }

  lemma TrimTakes(s: string, c: char)
    requires c !in s
    ensures c !in Trim(s)
  {
    TrimStartTakes(s, c);
    TrimEndTakes(TrimStart(s), c);
  }

  lemma PlainDisplayParses(c: Fields)
    requires Unsplit(c) && DurationInRange(c) && IsPlainPair(c.name, c.value)
    ensures Parse(DisplayPlain(c), false) == Parsed(Normalize(c, c.name, c.value))
  {
    var pair := c.name + ['='] + c.value;
    Separates(c.name, '=', c.value);
    AttributesUnsplit(c);
    AttachedReads(pair, Attributes(c), Plain(c.name, c.value));
    AttributesApply(c, c.name, c.value);
  }

  // The plain display comes back in the mode that does not decode exactly when the name is not
  // empty and holds no separator, the value no semicolon, neither white space at its ends, and
  // the attributes are as above.
  lemma PlainRoundTripIff(c: Fields)
    requires DurationInRange(c)
    ensures Parse(DisplayPlain(c), false) == Parsed(c) <==> IsPlainPair(c.name, c.value) && Unsplit(c) && Normal(c)
  {
    ParsedIsUnsplit(DisplayPlain(c), false);
    ParsedIsPlainPair(DisplayPlain(c));
    if IsPlainPair(c.name, c.value) && Unsplit(c) {
      PlainDisplayParses(c);
      NormalizeIff(c, c.name, c.value);
    }
  }
}
