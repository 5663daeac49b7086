/**
 * The parts of Go's `strings`, `strconv` and `fmt` packages that the query
 * library leans on, over Dafny strings (one char per code point).
 */
module Text {
  import opened Wrappers

  predicate IsDigit(c: char) {
    '0' <= c <= '9'
  }

  predicate AllDigits(s: string) {
    forall i :: 0 <= i < |s| ==> IsDigit(s[i])
  }

  function DigitChar(d: nat): (c: char)
    requires d < 10
    ensures IsDigit(c) && c as int - '0' as int == d
  {
    ('0' as int + d) as char
  }

  /** The value of a run of decimal digits, most significant first. */
  function DigitsValue(s: string): nat
    requires AllDigits(s)
  {
    if s == [] then 0
    else DigitsValue(s[..|s| - 1]) * 10 + (s[|s| - 1] as int - '0' as int)
  }

  /** `strconv.Itoa` / `fmt.Sprintf("%d", n)` for a non-negative `n`. */
  function NatToString(n: nat): (s: string)
    ensures |s| >= 1 && AllDigits(s)
    ensures |s| > 1 ==> s[0] != '0'
  {
    if n < 10 then [DigitChar(n)] else NatToString(n / 10) + [DigitChar(n % 10)]
  }

  /** `strconv.Itoa` / `fmt.Sprintf("%d", i)` for any integer. */
  function IntToString(i: int): (s: string)
    ensures |s| >= 1
    ensures (s[0] == '-') <==> i < 0
  {
    if i < 0 then "-" + NatToString(-i) else NatToString(i)
  }

  /** Reading the digits `NatToString` writes gives the number back. */
  lemma {:induction false} NatToStringValue(n: nat)
    ensures DigitsValue(NatToString(n)) == n
  {
    if n >= 10 {
      NatToStringValue(n / 10);
      var s := NatToString(n);
      assert s[..|s| - 1] == NatToString(n / 10);
    }
  }

  /** Decimal renderings of different numbers differ. */
  lemma NatToStringInjective(m: nat, n: nat)
    requires NatToString(m) == NatToString(n)
    ensures m == n
  {
    NatToStringValue(m);
    NatToStringValue(n);
  }

  /**
   * `strconv.Atoi`: an optional sign followed by at least one decimal digit
   * and nothing else, with a value that fits `int`; anything else is an
   * error (None).
   */
  function Atoi(s: string): (r: Option<int>)
    ensures r.Some? ==> |s| >= 1
  {
    var neg := |s| > 0 && s[0] == '-';
    var body := if |s| > 0 && (s[0] == '-' || s[0] == '+') then s[1..] else s;
    if body == [] || !AllDigits(body) then None
    else
      var v := if neg then -(DigitsValue(body) as int) else DigitsValue(body);
      if v < INT64_MIN || INT64_MAX < v then None else Some(v)
  }

  /** `strconv.Atoi(strconv.Itoa(i)) == i`. */
  lemma AtoiOfIntToString(i: int)
    requires INT64_MIN <= i <= INT64_MAX
    ensures Atoi(IntToString(i)) == Some(i)
  {
    if i < 0 {
      NatToStringValue(-i);
      assert IntToString(i)[1..] == NatToString(-i);
    } else {
      var s := NatToString(i);
      NatToStringValue(i);
      assert IsDigit(s[0]);
    }
  }

  /** The number of leading decimal digits of `s`. */
  function DigitRun(s: string): (k: nat)
    ensures k <= |s| && AllDigits(s[..k])
    ensures k < |s| ==> !IsDigit(s[k])
  {
    if s == [] || !IsDigit(s[0]) then 0
    else
      var k := 1 + DigitRun(s[1..]);
      assert s[..k] == [s[0]] + s[1..][..k - 1];
      k
  }

  /** The range of Go's `int` (64 bits). */
  const INT64_MIN: int := -0x8000_0000_0000_0000
  const INT64_MAX: int := 0x7FFF_FFFF_FFFF_FFFF

  const UINT64_MAX: int := 0xFFFF_FFFF_FFFF_FFFF

  /**
   * Whether `strconv.Atoi` calls its failure a range error: the digits
   * after the sign overflow 64 bits before any other character is met, or
   * they are all the text there is and their value falls outside `int`.
   * Every other failure is a syntax error.
   */
  predicate AtoiOutOfRange(s: string) {
    var neg := |s| > 0 && s[0] == '-';
    var body := if |s| > 0 && (s[0] == '-' || s[0] == '+') then s[1..] else s;
    var k := DigitRun(body);
    k > 0 && (UINT64_MAX < DigitsValue(body[..k])
              || (k == |body| && (if neg then INT64_MAX + 1 < DigitsValue(body) else INT64_MAX < DigitsValue(body))))
  }

  /** The text of the `*strconv.NumError` that `strconv.Atoi(s)` fails with. */
  function AtoiError(s: string): (e: string)
  {
    "strconv.Atoi: parsing " + Quote(s) + ": " + (if AtoiOutOfRange(s) then "value out of range" else "invalid syntax")
  }

  /** A range error is only ever reported for text that `Atoi` refuses. */
  lemma AtoiOutOfRangeFails(s: string)
    requires AtoiOutOfRange(s)
    ensures Atoi(s) == None
  {
    var body := if |s| > 0 && (s[0] == '-' || s[0] == '+') then s[1..] else s;
    var k := DigitRun(body);
    if k == |body| {
      assert body[..k] == body;
    } else {
      assert !IsDigit(body[k]);
    }
  }

  /** Text that does not start with a digit or a sign, such as a service name, fails with a syntax error. */
  lemma AtoiErrorOfNonNumber(s: string)
    requires s == [] || (!IsDigit(s[0]) && s[0] != '-' && s[0] != '+')
    ensures Atoi(s) == None
    ensures AtoiError(s) == "strconv.Atoi: parsing " + Quote(s) + ": " + "invalid syntax"
  {
  }

  /** One character between `strconv.Quote`'s quotes (for characters beyond ASCII see the notes). */
  function QuoteChar(c: char): (q: string)
    ensures |q| >= 1
  {
    if c == '"' || c == '\\' then ['\\', c]
    else if c as int == 7 then "\\a"
    else if c as int == 8 then "\\b"
    else if c as int == 12 then "\\f"
    else if c == '\n' then "\\n"
    else if c == '\r' then "\\r"
    else if c == '\t' then "\\t"
    else if c as int == 11 then "\\v"
    else if c as int < 0x20 || c as int == 0x7F then "\\x" + Hex2(c as int)
    else [c]
  }

  function QuoteBody(s: string): string
  {
    if s == [] then [] else QuoteChar(s[0]) + QuoteBody(s[1..])
  }

  /** `strconv.Quote`: the text in double quotes, with quotes, backslashes and control characters escaped. */
  function Quote(s: string): (q: string)
    ensures |q| >= |s| + 2 && q[0] == '"' && q[|q| - 1] == '"'
  {
    QuoteBodyLength(s);
    "\"" + QuoteBody(s) + "\""
  }

  lemma {:induction false} QuoteBodyLength(s: string)
    ensures |QuoteBody(s)| >= |s|
  {
    if s != [] {
      QuoteBodyLength(s[1..]);
    }
  }

  /** A character `Quote` leaves as it is: printable ASCII other than a quote or a backslash. */
  predicate PlainChar(c: char) {
    0x20 <= c as int < 0x7F && c != '"' && c != '\\'
  }

  /** Text of plain characters is quoted by putting quotes around it. */
  lemma {:induction false} QuotePlain(s: string)
    requires forall i :: 0 <= i < |s| ==> PlainChar(s[i])
    ensures Quote(s) == "\"" + s + "\""
  {
    QuoteBodyPlain(s);
  }

  lemma {:induction false} QuoteBodyPlain(s: string)
    requires forall i :: 0 <= i < |s| ==> PlainChar(s[i])
    ensures QuoteBody(s) == s
  {
    if s != [] {
      QuoteBodyPlain(s[1..]);
      assert s == [s[0]] + s[1..];
    }
  }

  /**
   * `fmt.Sscanf(s, "%d", &x)`: leading white space other than a newline is
   * skipped (a newline there is an error), then an optional sign and at
   * least one decimal digit are read; a value outside `int` is an error;
   * whatever follows the digits is ignored.
   */
  function ScanInt(s: string): (r: Option<int>)
    ensures r.Some? ==> INT64_MIN <= r.value <= INT64_MAX
    decreases |s|
  {
    if |s| > 0 && s[0] == '\n' then None
    else if |s| > 0 && IsSpace(s[0]) then ScanInt(s[1..])
    else
      var neg := |s| > 0 && s[0] == '-';
      var body := if |s| > 0 && (s[0] == '-' || s[0] == '+') then s[1..] else s;
      var k := DigitRun(body);
      if k == 0 then None
      else
        var v := if neg then -(DigitsValue(body[..k]) as int) else DigitsValue(body[..k]);
        if v < INT64_MIN || INT64_MAX < v then None else Some(v)
  }

  /** Scanning the decimal rendering of a number, with anything after it, gives the number. */
  lemma ScanIntOfNatToString(n: nat, rest: string)
    requires n <= INT64_MAX
    requires rest == [] || !IsDigit(rest[0])
    ensures ScanInt(NatToString(n) + rest) == Some(n)
  {
    var s := NatToString(n);
    DigitRunOfDigits(s, rest);
    assert (s + rest)[..|s|] == s;
    NatToStringValue(n);
  }

  /** Text that does not start with a sign, a digit or white space holds no number. */
  lemma ScanIntOfNonNumber(s: string)
    requires |s| > 0 && !IsDigit(s[0]) && !IsSpace(s[0]) && s[0] != '-' && s[0] != '+'
    ensures ScanInt(s) == None
  {
  }

  lemma {:induction false} DigitRunOfDigits(s: string, rest: string)
    requires AllDigits(s)
    requires rest == [] || !IsDigit(rest[0])
    ensures DigitRun(s + rest) == |s|
  {
    if s != [] {
      assert (s + rest)[1..] == s[1..] + rest;
      DigitRunOfDigits(s[1..], rest);
    }
  }

  /** `strconv.FormatBool`. */
  function FormatBool(b: bool): (s: string)
    ensures s == "true" <==> b
  {
    if b then "true" else "false"
  }

  function HexDigit(d: nat): (c: char)
    requires d < 16
  {
    if d < 10 then DigitChar(d) else ('a' as int + d - 10) as char
  }

  /** `fmt.Sprintf("%02x", b)` for a byte: two lower-case hex digits. */
  function Hex2(b: nat): (s: string)
    requires b < 0x100
    ensures |s| == 2
  {
    [HexDigit(b / 16), HexDigit(b % 16)]
  }

  /** Distinct bytes have distinct renderings. */
  lemma Hex2Injective(a: nat, b: nat)
    requires a < 0x100 && b < 0x100 && Hex2(a) == Hex2(b)
    ensures a == b
  {
    assert Hex2(a)[0] == Hex2(b)[0] && Hex2(a)[1] == Hex2(b)[1];
  }

  // ---------------------------------------------------------------- searching

  /** `strings.Contains(s, sub)`. */
  predicate Contains(s: string, sub: string) {
    exists i :: 0 <= i <= |s| - |sub| && sub <= s[i..]
  }

  /** `strings.Index(s, string(c))`, with None for -1. */
  function IndexOf(s: string, c: char): (r: Option<nat>)
    ensures r.None? <==> c !in s
    ensures r.Some? ==> r.value < |s| && s[r.value] == c && c !in s[..r.value]
  {
    if s == [] then None
    else if s[0] == c then Some(0)
    else match IndexOf(s[1..], c)
      case None => None
      case Some(k) =>
        assert s[..k + 1] == [s[0]] + s[1..][..k];
        Some(k + 1)
  }

  /** `strings.LastIndex(s, string(c))`, with None for -1. */
  function LastIndexOf(s: string, c: char): (r: Option<nat>)
    ensures r.None? <==> c !in s
    ensures r.Some? ==> r.value < |s| && s[r.value] == c && c !in s[r.value + 1..]
  {
    if s == [] then None
    else if s[|s| - 1] == c then Some(|s| - 1)
    else
      var r := LastIndexOf(s[..|s| - 1], c);
      if r.Some? then
        assert s[r.value + 1..] == s[..|s| - 1][r.value + 1..] + [s[|s| - 1]];
        r
      else
        assert s == s[..|s| - 1] + [s[|s| - 1]];
        r
  }

  /** The first occurrence is the only one with none before it. */
  lemma {:induction false} IndexOfAt(s: string, i: nat, c: char)
    requires i < |s| && s[i] == c && c !in s[..i]
    ensures IndexOf(s, c) == Some(i)
  {
    if i > 0 {
      assert s[0] in s[..i];
      assert s[..i] == [s[0]] + s[1..][..i - 1];
      IndexOfAt(s[1..], i - 1, c);
    }
  }

  /** The last occurrence is the only one with none after it. */
  lemma {:induction false} LastIndexOfAt(s: string, i: nat, c: char)
    requires i < |s| && s[i] == c && c !in s[i + 1..]
    ensures LastIndexOf(s, c) == Some(i)
  {
    if i < |s| - 1 {
      assert s[|s| - 1] in s[i + 1..];
      var t := s[..|s| - 1];
      assert s[i + 1..] == t[i + 1..] + [s[|s| - 1]];
      LastIndexOfAt(t, i, c);
    }
  }

  /** A character missing from a slice is missing from every slice inside it. */
  lemma NotInSubslice(s: string, a: nat, b: nat, c: nat, d: nat, x: char)
    requires a <= c <= d <= b <= |s| && x !in s[a..b]
    ensures x !in s[c..d]
  {
  }

  /** `strings.Split(s, string(sep))`: the pieces between the separators. */
  function Split(s: string, sep: char): (parts: seq<string>)
    ensures |parts| >= 1 && (sep in s ==> |parts| >= 2)
    ensures forall p :: p in parts ==> sep !in p
    decreases |s|
  {
    match IndexOf(s, sep)
      case None => [s]
      case Some(i) => [s[..i]] + Split(s[i + 1..], sep)
  }

  /** `strings.Join(parts, string(sep))`. */
  function Join(parts: seq<string>, sep: char): string
    requires |parts| >= 1
  {
    if |parts| == 1 then parts[0] else parts[0] + [sep] + Join(parts[1..], sep)
  }

  /** Splitting and joining again gives back the original text. */
  lemma {:induction false} JoinSplit(s: string, sep: char)
    ensures Join(Split(s, sep), sep) == s
    decreases |s|
  {
    match IndexOf(s, sep)
      case None =>
      case Some(i) =>
        JoinSplit(s[i + 1..], sep);
        assert Split(s, sep)[1..] == Split(s[i + 1..], sep);
        assert s == s[..i] + [sep] + s[i + 1..];
  }

  /** Pieces holding no separator come back from splitting their join. */
  lemma {:induction false} SplitJoin(parts: seq<string>, sep: char)
    requires |parts| >= 1 && forall p :: p in parts ==> sep !in p
    ensures Split(Join(parts, sep), sep) == parts
    decreases |parts|
  {
    if |parts| > 1 {
      var s := Join(parts, sep);
      var n := |parts[0]|;
      var t := Join(parts[1..], sep);
      assert s == parts[0] + [sep] + t;
      assert s[..n] == parts[0] && s[n + 1..] == t;
      IndexOfAt(s, n, sep);
      SplitJoin(parts[1..], sep);
    }
  }

  // ---------------------------------------------------------------- case and space

  /** `unicode.ToLower` on ASCII letters; other chars are left alone. */
  function LowerChar(c: char): char {
    if 'A' <= c <= 'Z' then (c as int + 32) as char else c
  }

  /** `strings.ToLower`, on ASCII letters. */
  function ToLower(s: string): (r: string)
    ensures |r| == |s| && forall i :: 0 <= i < |s| ==> r[i] == LowerChar(s[i])
  {
    seq(|s|, i requires 0 <= i < |s| => LowerChar(s[i]))
  }

  /** Lower-casing twice is lower-casing once. */
  lemma ToLowerIdempotent(s: string)
    ensures ToLower(ToLower(s)) == ToLower(s)
  {
  }

  /** `unicode.IsSpace`: the Unicode White_Space characters. */
  predicate IsSpace(c: char) {
    var x := c as int;
    (0x09 <= x <= 0x0D) || x == 0x20 || x == 0x85 || x == 0xA0 || x == 0x1680
    || (0x2000 <= x <= 0x200A) || x == 0x2028 || x == 0x2029 || x == 0x202F
    || x == 0x205F || x == 0x3000
  }

  function TrimLeft(s: string): (r: string)
    ensures |r| <= |s| && r == s[|s| - |r|..]
    ensures r == [] || !IsSpace(r[0])
  {
    if s != [] && IsSpace(s[0]) then TrimLeft(s[1..]) else s
  }

  /** What `TrimLeft` cuts off is white space. */
  lemma {:induction false} TrimLeftSpaces(s: string)
    ensures forall i :: 0 <= i < |s| - |TrimLeft(s)| ==> IsSpace(s[i])
  {
    if s != [] && IsSpace(s[0]) {
      TrimLeftSpaces(s[1..]);
    }
  }

  function TrimRight(s: string): (r: string)
    ensures |r| <= |s| && r == s[..|r|]
    ensures r == [] || !IsSpace(r[|r| - 1])
  {
    if s != [] && IsSpace(s[|s| - 1]) then TrimRight(s[..|s| - 1]) else s
  }

  /** What `TrimRight` cuts off is white space. */
  lemma {:induction false} TrimRightSpaces(s: string)
    ensures forall i :: |TrimRight(s)| <= i < |s| ==> IsSpace(s[i])
  {
    if s != [] && IsSpace(s[|s| - 1]) {
      TrimRightSpaces(s[..|s| - 1]);
    }
  }

  /** `strings.TrimSpace`: white space cut from both ends. */
  function TrimSpace(s: string): (r: string)
    ensures |r| <= |s|
    ensures r == [] || (!IsSpace(r[0]) && !IsSpace(r[|r| - 1]))
  {
    TrimRight(TrimLeft(s))
  }

  /**
   * `TrimSpace(s)` is the longest slice of `s` that neither starts nor ends
   * with white space: everything cut off is white space.
   */
  lemma TrimSpaceSlice(s: string)
    ensures var r := TrimSpace(s); var a := |s| - |TrimLeft(s)|;
      a + |r| <= |s| && r == s[a..a + |r|]
      && (forall i :: 0 <= i < a ==> IsSpace(s[i]))
      && (forall i :: a + |r| <= i < |s| ==> IsSpace(s[i]))
  {
    var l := TrimLeft(s);
    var r := TrimRight(l);
    var a := |s| - |l|;
    assert l == s[a..];
    assert r == l[..|r|];
    assert r == s[a..a + |r|];
    TrimLeftSpaces(s);
    TrimRightSpaces(l);
    forall i | a + |r| <= i < |s| ensures IsSpace(s[i]) {
      assert s[i] == l[i - a] && IsSpace(l[i - a]);
    }
  }

  /** Text that neither starts nor ends with white space is left as it is. */
  lemma TrimSpaceOfTrimmed(s: string)
    requires s == [] || (!IsSpace(s[0]) && !IsSpace(s[|s| - 1]))
    ensures TrimSpace(s) == s
  {
    if s != [] {
      assert TrimLeft(s) == s;
      assert TrimRight(s) == s;
    }
  }

  /** Trimming is idempotent. */
  lemma TrimSpaceIdempotent(s: string)
    ensures TrimSpace(TrimSpace(s)) == TrimSpace(s)
  {
    TrimSpaceOfTrimmed(TrimSpace(s));
  }
}
