/** The hand-written decimal printer behind the status line and the content-length header. */
module DecimalPrinter {
  import opened Buffers
  import opened Bytes

  // The two-digit texts of the numbers 10 * t to 10 * t + 9.
  function Tens(t: nat): string {
    match t
    case 0 => "00010203040506070809"
    case 1 => "10111213141516171819"
    case 2 => "20212223242526272829"
    case 3 => "30313233343536373839"
    case 4 => "40414243444546474849"
    case 5 => "50515253545556575859"
    case 6 => "60616263646566676869"
    case 7 => "70717273747576777879"
    case 8 => "80818283848586878889"
    case _ => "90919293949596979899"
  }

  // The table of two-digit texts, 0 to 99 in a row.
  const DEC_DIGITS_LUT: string := RowsFrom(Tens, 0)

  function RowsFrom(rows: nat -> string, t: nat): string
    requires t <= 10
    decreases 10 - t
  {
    if t == 10 then "" else rows(t) + RowsFrom(rows, t + 1)
  }

  // The pair of characters number j of the row spells a number below 100.
  ghost predicate Spells(row: string, j: nat, n: nat) {
    2 * j + 1 < |row| && row[2 * j] as int == 48 + n / 10 && row[2 * j + 1] as int == 48 + n % 10
  }

  // Ten pairs that begin with one digit and end with 0 to 9.
  function Pairs(d: char): string {
    [d, '0', d, '1', d, '2', d, '3', d, '4', d, '5', d, '6', d, '7', d, '8', d, '9']
  }

  lemma TensArePairs(t: nat)
    requires t < 10
    ensures Tens(t) == Pairs('0' + t as char)
  {}

  lemma PairsSpell(t: nat, j: nat)
    requires t < 10 && j < 10
    ensures |Pairs('0' + t as char)| == 20 && Spells(Pairs('0' + t as char), j, 10 * t + j)
  {}

  lemma TensSpell(t: nat, j: nat)
    requires t < 10 && j < 10
    ensures |Tens(t)| == 20 && Spells(Tens(t), j, 10 * t + j)
  {
    TensArePairs(t);
    PairsSpell(t, j);
  }

  // Ten pairs in front of a row shift it by ten.
  lemma Shift(ten: string, row: string, j: nat, n: nat)
    requires |ten| == 20
    ensures Spells(ten, j, n) ==> Spells(ten + row, j, n)
    ensures j >= 10 && Spells(row, j - 10, n) ==> Spells(ten + row, j, n)
  {}

  ghost predicate SpellsTens(row: string, t: nat, j: nat) {
    |row| == 20 && Spells(row, j, 10 * t + j)
  }

  lemma {:induction false} RowsSpell(rows: nat -> string, t: nat, k: nat)
    requires forall u, j :: 0 <= u < 10 && 0 <= j < 10 ==> SpellsTens(rows(u), u, j)
    requires t <= k / 10 < 10
    ensures Spells(RowsFrom(rows, t), k - 10 * t, k)
    decreases 10 - t
  {
    assert SpellsTens(rows(t), t, k % 10);
    Shift(rows(t), RowsFrom(rows, t + 1), k - 10 * t, k);
    if t < k / 10 {
      RowsSpell(rows, t + 1, k);
    }
  }

  lemma LutSpells(k: nat)
    requires k < 100
    ensures Spells(DEC_DIGITS_LUT, k, k)
  {
    forall u, j | 0 <= u < 10 && 0 <= j < 10 ensures SpellsTens(Tens(u), u, j) {
      TensSpell(u, j);
    }
    RowsSpell(Tens, 0, k);
  }

  // ---------------------------------------------------------------- decimal text

  // Canonical decimal digits, most significant first.
  function Decimal(n: nat): (d: Bytes)
    ensures d != []
  {
    if n < 10 then [48 + n] else Decimal(n / 10) + [48 + n % 10]
  }

  function DigitsValue(d: Bytes): int {
    if d == [] then 0 else DigitsValue(d[..|d| - 1]) * 10 + (d[|d| - 1] as int - 48)
  }

  // The text spells the number, has digits only, and no zero in front.
  lemma {:induction false} DecimalIsCanonical(n: nat)
    ensures DigitsValue(Decimal(n)) == n
    ensures forall i :: 0 <= i < |Decimal(n)| ==> 48 <= Decimal(n)[i] <= 57
    ensures |Decimal(n)| > 1 ==> Decimal(n)[0] != 48
    ensures n > 0 ==> Decimal(n)[0] != 48
  {
    var d := Decimal(n);
    if n >= 10 {
      DecimalIsCanonical(n / 10);
      assert d[..|d| - 1] == Decimal(n / 10);
    } else {
      assert d[..0] == [];
    }
  }

  function Pow10(k: nat): (p: nat)
    ensures p >= 1
  {
    if k == 0 then 1 else 10 * Pow10(k - 1)
  }

  lemma {:induction false} DecimalLength(n: nat, k: nat)
    requires k > 0 && n < Pow10(k)
    ensures |Decimal(n)| <= k
  {
    if n >= 10 {
      DecimalLength(n / 10, k - 1);
    }
  }

  function TwoDigits(k: nat): Bytes
    requires k < 100
  {
    [48 + k / 10, 48 + k % 10]
  }

  lemma SplitPair(n: nat)
    requires n >= 100
    ensures Decimal(n) == Decimal(n / 100) + TwoDigits(n % 100)
  {
    Hundreds(n);
    assert Decimal(n) == Decimal(n / 10 / 10) + [48 + n / 10 % 10] + [48 + n % 10];
  }

  lemma Hundreds(n: nat)
    ensures n / 10 / 10 == n / 100 && n % 100 / 10 == n / 10 % 10 && n % 100 % 10 == n % 10
  {}

  lemma SplitFour(n: nat)
    requires n >= 10_000
    ensures Decimal(n) == Decimal(n / 10_000) + (TwoDigits(n % 10_000 / 100) + TwoDigits(n % 10_000 % 100))
  {
    TenThousands(n);
    SplitPair(n);
    SplitPair(n / 100);
  }

  lemma TenThousands(n: nat)
    ensures n / 100 / 100 == n / 10_000
    ensures n % 10_000 / 100 == n / 100 % 100 && n % 10_000 % 100 == n % 100
  {}

  // ---------------------------------------------------------------- the printers

  // Copies one pair of table characters to the buffer.
  method CopyPair(d1: nat, buf: array<byte>, at: nat)
    requires d1 % 2 == 0 && d1 < 200 && at + 2 <= buf.Length
    modifies buf
    ensures buf[at] == 48 + d1 / 2 / 10 && buf[at + 1] == 48 + d1 / 2 % 10
    ensures forall i :: 0 <= i < buf.Length && i != at && i != at + 1 ==> buf[i] == old(buf[i])
  {
    LutSpells(d1 / 2);
    assert 2 * (d1 / 2) == d1;
    var (a, b) := (DEC_DIGITS_LUT[d1] as int, DEC_DIGITS_LUT[d1 + 1] as int);
    buf[at] := a;
    buf[at + 1] := b;
  }

  // The four digits of rem in front of what the buffer holds from the cursor on.
  method PrintFour(rem: nat, buf: array<byte>, cursor: nat) returns (curr: nat)
    requires rem < 10_000 && 4 <= cursor <= buf.Length
    modifies buf
    ensures curr == cursor - 4
    ensures buf[curr..] == TwoDigits(rem / 100) + TwoDigits(rem % 100) + old(buf[cursor..])
  {
    var d1 := rem / 100 * 2;
    var d2 := rem % 100 * 2;
    curr := cursor - 4;
    CopyPair(d1, buf, curr);
    CopyPair(d2, buf, curr + 2);
  }

  // The at most four digits that remain.
  method PrintLast(value: nat, buf: array<byte>, cursor: nat) returns (curr: nat)
    requires value < 10_000 && |Decimal(value)| <= cursor <= buf.Length
    modifies buf
    ensures curr == cursor - |Decimal(value)|
    ensures buf[curr..] == Decimal(value) + old(buf[cursor..])
  {
    var n := value;
    curr := cursor;
    if n >= 100 {
      SplitPair(n);
      var d1 := n % 100 * 2;
      n := n / 100;
      curr := curr - 2;
      CopyPair(d1, buf, curr);
      assert buf[curr..] == TwoDigits(value % 100) + old(buf[cursor..]);
      Regroup(Decimal(n), TwoDigits(value % 100), old(buf[cursor..]));
    }
    ghost var done := buf[curr..];
    assert Decimal(value) + old(buf[cursor..]) == Decimal(n) + done;
    curr := PrintFew(n, buf, curr);
  }

  // One digit, or two.
  method PrintFew(n: nat, buf: array<byte>, cursor: nat) returns (curr: nat)
    requires n < 100 && |Decimal(n)| <= cursor <= buf.Length
    modifies buf
    ensures curr == cursor - |Decimal(n)|
    ensures buf[curr..] == Decimal(n) + old(buf[cursor..])
  {
    curr := cursor;
    if n < 10 {
      curr := curr - 1;
      buf[curr] := 48 + n;
    } else {
      assert Decimal(n) == TwoDigits(n);
      curr := curr - 2;
      CopyPair(n * 2, buf, curr);
    }
    assert buf[curr..] == Decimal(n) + old(buf[cursor..]);
  }

  lemma TwentyDigits(n: nat)
    requires n < 0x1_0000_0000_0000_0000
    ensures |Decimal(n)| <= 20
  {
    assert Pow10(10) == 10_000_000_000;
    assert Pow10(20) == 10_000_000_000 * Pow10(10);
    DecimalLength(n, 20);
  }

  // Prints four digits at a time from the right; the cursor never leaves the buffer.
  method ConvertUsize(value: nat, out: Buffer)
    requires value < 0x1_0000_0000_0000_0000
    modifies out
    ensures out.bytes == old(out.bytes) + Decimal(value) + CRLF
  {
    TwentyDigits(value);
    var n := value;
    var curr := 39;
    var buf := new byte[41];
    buf[39], buf[40] := CR, LF;
    ghost var text := Decimal(value) + CRLF;
    assert buf[39..] == CRLF;
    while n >= 10_000
      invariant |Decimal(n)| + 19 <= curr <= 39
      invariant out.bytes == old(out.bytes)
      invariant Decimal(n) + buf[curr..] == text
    {
      SplitFour(n);
      ghost var tail := buf[curr..];
      var rem := n % 10_000;
      n := n / 10_000;
      curr := PrintFour(rem, buf, curr);
      Regroup(Decimal(n), TwoDigits(rem / 100) + TwoDigits(rem % 100), tail);
    }
    curr := PrintLast(n, buf, curr);
    out.ExtendFromSlice(buf[curr..]);
    Regroup(old(out.bytes), Decimal(value), CRLF);
  }

  lemma Regroup(a: Bytes, b: Bytes, c: Bytes)
    ensures a + b + c == a + (b + c)
  {}

  // CR LF "content-length: "
  const CONTENT_LENGTH: Bytes := [CR, LF, 99, 111, 110, 116, 101, 110, 116, 45, 108, 101, 110, 103, 116, 104, 58, 32]

  // The initialised buffer of a short header: its name, room for the digits, and CR LF.
  method Template(digits: nat) returns (buf: array<byte>)
    ensures fresh(buf) && buf.Length == 20 + digits
    ensures buf[..18] == CONTENT_LENGTH && buf[18 + digits..] == CRLF
  {
    var text := CONTENT_LENGTH + seq(digits, _ => 48) + CRLF;
    buf := new byte[20 + digits](i requires 0 <= i < |text| => text[i]);
  }

  // One, two and three digits are written in place; longer numbers by the general printer.
  // Every path gives the same text.
  method WriteContentLength(value: nat, out: Buffer)
    requires value < 0x1_0000_0000_0000_0000
    modifies out
    ensures out.bytes == old(out.bytes) + (CONTENT_LENGTH + Decimal(value) + CRLF)
  {
    if value < 10 {
      var buf := Template(1);
      buf[18] := 48 + value;
      assert buf[..] == buf[..18] + Decimal(value) + buf[19..];
      out.ExtendFromSlice(buf[..]);
    } else if value < 100 {
      var buf := Template(2);
      CopyPair(value * 2, buf, 18);
      assert Decimal(value) == TwoDigits(value);
      assert buf[..] == buf[..18] + Decimal(value) + buf[20..];
      out.ExtendFromSlice(buf[..]);
    } else if value < 1000 {
      var buf := Template(3);
      CopyPair(value % 100 * 2, buf, 19);
      buf[18] := 48 + value / 100;
      SplitPair(value);
      assert buf[..] == buf[..18] + Decimal(value) + buf[21..];
      out.ExtendFromSlice(buf[..]);
    } else {
      out.ExtendFromSlice(CONTENT_LENGTH);
      ConvertUsize(value, out);
    }
  }

  datatype Version = Http09 | Http10 | Http11 | Http2 | Http3

  // "HTTP/x.y " as it is printed: HTTP/2 only replaces the first digit, and HTTP/3 is left
  // to the default arm.
  function VersionText(v: Version): Bytes {
    match v
    case Http09 => [72, 84, 84, 80, 47, 48, 46, 57, 32]
    case Http10 => [72, 84, 84, 80, 47, 49, 46, 48, 32]
    case Http11 => [72, 84, 84, 80, 47, 49, 46, 49, 32]
    case Http2 => [72, 84, 84, 80, 47, 50, 46, 49, 32]
    case Http3 => [72, 84, 84, 80, 47, 49, 46, 49, 32]
  }

  // The same as request lines spell it.
  function IntendedText(v: Version): Bytes {
    match v
    case Http09 => [72, 84, 84, 80, 47, 48, 46, 57, 32]
    case Http10 => [72, 84, 84, 80, 47, 49, 46, 48, 32]
    case Http11 => [72, 84, 84, 80, 47, 49, 46, 49, 32]
    case Http2 => [72, 84, 84, 80, 47, 50, 46, 48, 32]
    case Http3 => [72, 84, 84, 80, 47, 51, 46, 48, 32]
  }

  // The status line names the right version exactly up to HTTP/1.1; it is ambiguous, too,
  // since HTTP/3 is printed as HTTP/1.1.
  lemma VersionIsRightIff(v: Version)
    ensures VersionText(v) == IntendedText(v) <==> v != Http2 && v != Http3
    ensures VersionText(Http3) == VersionText(Http11)
  {
    assert VersionText(Http2)[7] == 49 && IntendedText(Http2)[7] == 48;
    assert VersionText(Http3)[5] == 49 && IntendedText(Http3)[5] == 51;
  }

  // The initialised buffer with the version patched in.
  method VersionBuffer(version: Version) returns (buf: array<byte>)
    ensures fresh(buf) && buf.Length == 13
    ensures buf[..9] == VersionText(version) && buf[12] == 32
  {
    var text: Bytes := [72, 84, 84, 80, 47, 49, 46, 49, 32, 32, 32, 32, 32];
    buf := new byte[13](i requires 0 <= i < 13 => text[i]);
    match version {
      case Http2 => buf[5] := 50;
      case Http10 => buf[7] := 48;
      case Http09 =>
        buf[5] := 48;
        buf[7] := 57;
      case _ =>
    }
  }

  // A status code has three digits.
  method WriteStatusLine(version: Version, code: nat, out: Buffer)
    requires 100 <= code <= 999
    modifies out
    ensures out.bytes == old(out.bytes) + (VersionText(version) + Decimal(code) + [32])
  {
    var buf := VersionBuffer(version);
    var n := code;
    var curr := 12;
    var d1 := n % 100 * 2;
    n := n / 100;
    curr := curr - 2;
    CopyPair(d1, buf, curr);
    curr := curr - 1;
    buf[curr] := 48 + n;
    SplitPair(code);
    assert buf[..] == buf[..9] + Decimal(code) + [32];
    out.ExtendFromSlice(buf[..]);
  }
}
