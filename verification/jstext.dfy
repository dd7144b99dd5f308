/**
  The few JavaScript string and number built-ins the client relies on:
  `String.prototype.trim`, `String.prototype.endsWith(" ")`,
  `String.prototype.toUpperCase` (restricted to ASCII letters) and the global
  `parseInt`, following the algorithms of ECMAScript 2024 (sections 22.1.3.32
  and 19.2.5).
*/
module JsText {

  /** A JavaScript Number as `parseInt` can produce it: an integer or NaN. */
  datatype JsNumber = Num(n: int) | NaN

  // ---------------------------------------------------------------------------
  // Whitespace and trim
  // ---------------------------------------------------------------------------

  /** The WhiteSpace and LineTerminator code points that `trim` removes. */
  predicate IsJsSpace(c: char) {
    || c == '\t' || c == '\n' || c == '\U{B}' || c == '\U{C}' || c == '\r'
    || c == ' ' || c == '\U{A0}' || c == '\U{1680}'
    || ('\U{2000}' <= c <= '\U{200A}')
    || c == '\U{2028}' || c == '\U{2029}' || c == '\U{202F}' || c == '\U{205F}'
    || c == '\U{3000}' || c == '\U{FEFF}'
  }

  predicate AllSpace(s: string) {
    forall m :: 0 <= m < |s| ==> IsJsSpace(s[m])
  }

  /** Neither end of `s` is whitespace: what a trimmed string looks like. */
  predicate NoOuterSpace(s: string) {
    s == [] || (!IsJsSpace(s[0]) && !IsJsSpace(s[|s| - 1]))
  }

  /** `trimStart`: drop leading whitespace. */
  function TrimStart(s: string): (r: string)
    ensures |r| <= |s|
    ensures r == [] || !IsJsSpace(r[0])
  {
    if s != [] && IsJsSpace(s[0]) then TrimStart(s[1..]) else s
  }

  /** `trimEnd`: drop trailing whitespace. */
  function TrimEnd(s: string): (r: string)
    ensures |r| <= |s|
    ensures r == [] || !IsJsSpace(r[|r| - 1])
  {
    if s != [] && IsJsSpace(s[|s| - 1]) then TrimEnd(s[..|s| - 1]) else s
  }

  /** What trimStart keeps is a suffix, and what it drops is all whitespace. */
  lemma {:induction false} TrimStartIsSuffix(s: string)
    ensures TrimStart(s) == s[|s| - |TrimStart(s)|..]
    ensures AllSpace(s[..|s| - |TrimStart(s)|])
    decreases |s|
  {
    if s != [] && IsJsSpace(s[0]) {
      TrimStartIsSuffix(s[1..]);
      var k := |s| - |TrimStart(s)|;
      assert s[1..][k - 1..] == s[k..];
      assert s[..k] == [s[0]] + s[1..][..k - 1];
    }
  }

  /** What trimEnd keeps is a prefix, and what it drops is all whitespace. */
  lemma {:induction false} TrimEndIsPrefix(s: string)
    ensures TrimEnd(s) == s[..|TrimEnd(s)|]
    ensures AllSpace(s[|TrimEnd(s)|..])
    decreases |s|
  {
    if s != [] && IsJsSpace(s[|s| - 1]) {
      var p := s[..|s| - 1];
      TrimEndIsPrefix(p);
      var k := |TrimEnd(s)|;
      assert p[..k] == s[..k];
      assert s[k..] == p[k..] + [s[|s| - 1]];
    }
  }

  /** `trim`: drop whitespace from both ends. */
  function Trim(s: string): (r: string)
    ensures |r| <= |s|
    ensures NoOuterSpace(r)
  {
    var t := TrimStart(s);
    TrimEndIsPrefix(t);
    TrimEnd(t)
  }

  /**
    What trim keeps: a contiguous slice of `s` with only whitespace outside
    it (the slice itself has no outer whitespace, by Trim's contract).
  */
  lemma TrimIsSlice(s: string) returns (i: nat)
    ensures i + |Trim(s)| <= |s| && Trim(s) == s[i..i + |Trim(s)|]
    ensures AllSpace(s[..i]) && AllSpace(s[i + |Trim(s)|..])
  {
    var t := TrimStart(s);
    var r := TrimEnd(t);
    TrimStartIsSuffix(s);
    TrimEndIsPrefix(t);
    i := |s| - |t|;
    assert t == s[i..];
    assert s[i + |r|..] == t[|r|..];
  }

  lemma {:induction false} TrimStartOfSpacePadded(a: string, t: string)
    requires AllSpace(a)
    requires t == [] || !IsJsSpace(t[0])
    ensures TrimStart(a + t) == t
    decreases |a|
  {
    if a == [] {
      assert a + t == t;
    } else {
      assert (a + t)[0] == a[0];
      assert (a + t)[1..] == a[1..] + t;
      TrimStartOfSpacePadded(a[1..], t);
    }
  }

  lemma {:induction false} TrimEndOfSpacePadded(t: string, b: string)
    requires AllSpace(b)
    requires t == [] || !IsJsSpace(t[|t| - 1])
    ensures TrimEnd(t + b) == t
    decreases |b|
  {
    if b == [] {
      assert t + b == t;
    } else {
      assert (t + b)[|t + b| - 1] == b[|b| - 1];
      assert (t + b)[..|t + b| - 1] == t + b[..|b| - 1];
      TrimEndOfSpacePadded(t, b[..|b| - 1]);
    }
  }

  /**
    The converse of Trim's contract: a core without outer whitespace,
    padded on both sides with whitespace only, trims back to that core.
  */
  lemma TrimOfPadded(a: string, core: string, b: string)
    requires AllSpace(a) && AllSpace(b) && NoOuterSpace(core)
    ensures Trim(a + core + b) == core
  {
    if core == [] {
      assert a + core + b == a + b;
      TrimStartOfSpacePadded(a + b, []);
      assert a + b + [] == a + b;
      TrimEndOfSpacePadded([], []);
    } else {
      assert a + core + b == a + (core + b);
      TrimStartOfSpacePadded(a, core + b);
      TrimEndOfSpacePadded(core, b);
    }
  }

  /** A string without outer whitespace is its own trim. */
  lemma TrimFixesTrimmed(s: string)
    requires NoOuterSpace(s)
    ensures Trim(s) == s
  {
    assert [] + s + [] == s;
    TrimOfPadded([], s, []);
  }

  /** Trimming is idempotent. */
  lemma TrimIdempotent(s: string)
    ensures Trim(Trim(s)) == Trim(s)
  {
    var r := Trim(s);
    assert [] + r + [] == r;
    TrimOfPadded([], r, []);
  }

  /** Trim is empty exactly when the whole string is whitespace. */
  lemma TrimEmptyIffAllSpace(s: string)
    ensures Trim(s) == [] <==> AllSpace(s)
  {
    var i := TrimIsSlice(s);
    if AllSpace(s) {
      assert s + [] + [] == s;
      TrimOfPadded(s, [], []);
    }
  }

  // ---------------------------------------------------------------------------
  // endsWith(" ")
  // ---------------------------------------------------------------------------

  /** `value.endsWith(" ")`: the last character is an ASCII space. */
  predicate EndsWithSpace(v: string) {
    |v| > 0 && v[|v| - 1] == ' '
  }

  // ---------------------------------------------------------------------------
  // toUpperCase (ASCII letters only)
  // ---------------------------------------------------------------------------

  predicate IsAsciiLower(c: char) {
    'a' <= c <= 'z'
  }

  function UpperChar(c: char): (u: char)
    ensures !IsAsciiLower(u)
    ensures IsJsSpace(u) <==> IsJsSpace(c)
    ensures !IsAsciiLower(c) ==> u == c
  {
    if IsAsciiLower(c) then (c as int - 32) as char else c
  }

  /** `toUpperCase`, character by character, mapping a-z to A-Z. */
  function ToUpper(s: string): (r: string)
    ensures |r| == |s|
    ensures forall m :: 0 <= m < |s| ==> r[m] == UpperChar(s[m])
  {
    seq(|s|, m requires 0 <= m < |s| => UpperChar(s[m]))
  }

  predicate NoAsciiLower(s: string) {
    forall m :: 0 <= m < |s| ==> !IsAsciiLower(s[m])
  }

  /** Upper-casing changes no whitespace and removes every lower-case letter. */
  lemma ToUpperShape(s: string)
    ensures NoAsciiLower(ToUpper(s))
    ensures NoOuterSpace(s) ==> NoOuterSpace(ToUpper(s))
    ensures AllSpace(s) <==> AllSpace(ToUpper(s))
    ensures ToUpper(ToUpper(s)) == ToUpper(s)
  {
    var u := ToUpper(s);
    if AllSpace(u) {
      forall m | 0 <= m < |s| ensures IsJsSpace(s[m]) {
        assert IsJsSpace(u[m]);
      }
    }
  }

  /** A string without lower-case letters is its own upper case. */
  lemma ToUpperFixesUpper(s: string)
    requires NoAsciiLower(s)
    ensures ToUpper(s) == s
  {
  }

  // ---------------------------------------------------------------------------
  // parseInt
  // ---------------------------------------------------------------------------

  /**
    The radix argument as the client passes it: absent (`parseInt(v)`,
    which honours a `0x` prefix) or the literal 10 (`parseInt(v, 10)`).
  */
  datatype Radix = Auto | Decimal

  /** The value of an alphanumeric digit in radix up to 36, or 36 if `c` is none. */
  function DigitValue(c: char): (d: nat)
    ensures d <= 36
    ensures d < 10 <==> '0' <= c <= '9'
  {
    if '0' <= c <= '9' then c as int - '0' as int
    else if 'a' <= c <= 'z' then c as int - 'a' as int + 10
    else if 'A' <= c <= 'Z' then c as int - 'A' as int + 10
    else 36
  }

  predicate IsDigitIn(c: char, base: nat) {
    DigitValue(c) < base
  }

  predicate AllDigitsIn(s: string, base: nat) {
    forall m :: 0 <= m < |s| ==> IsDigitIn(s[m], base)
  }

  /** Length of the longest prefix of `s` made of radix-`base` digits. */
  function DigitRun(s: string, base: nat): (n: nat)
    ensures n <= |s|
    ensures AllDigitsIn(s[..n], base)
    ensures n < |s| ==> !IsDigitIn(s[n], base)
  {
    if s != [] && IsDigitIn(s[0], base) then
      var n := 1 + DigitRun(s[1..], base);
      assert s[..n] == [s[0]] + s[1..][..n - 1];
      n
    else 0
  }

  /** The mathematical value of a digit string, most significant digit first. */
  function DigitsValue(s: string, base: nat): nat
    requires AllDigitsIn(s, base)
  {
    if s == [] then 0
    else DigitsValue(s[..|s| - 1], base) * base + DigitValue(s[|s| - 1])
  }

  /**
    ECMAScript `parseInt`: skip leading whitespace, read an optional sign,
    then the unsigned number after it.
  */
  function ParseInt(v: string, radix: Radix): JsNumber
  {
    var s := TrimStart(v);
    if |s| > 0 && s[0] == '-' then Negate(ParseUnsigned(s[1..], radix))
    else if |s| > 0 && s[0] == '+' then ParseUnsigned(s[1..], radix)
    else ParseUnsigned(s, radix)
  }

  function Negate(x: JsNumber): JsNumber {
    match x
    case Num(m) => Num(-m)
    case NaN => NaN
  }

  predicate HasHexPrefix(u: string) {
    |u| >= 2 && u[0] == '0' && (u[1] == 'x' || u[1] == 'X')
  }

  /** With no radix a `0x`/`0X` prefix selects hexadecimal; otherwise decimal. */
  function ParseUnsigned(u: string, radix: Radix): JsNumber
  {
    if radix == Auto && HasHexPrefix(u) then ReadDigits(u[2..], 16)
    else ReadDigits(u, 10)
  }

  /** The longest run of radix-`base` digits, or NaN when there is none. */
  function ReadDigits(body: string, base: nat): JsNumber
  {
    var n := DigitRun(body, base);
    if n == 0 then NaN else Num(DigitsValue(body[..n], base))
  }

  /** The decimal numeral of a natural number, without sign or leading zeros. */
  function DecimalString(n: nat): (s: string)
    ensures |s| > 0
    ensures AllDigitsIn(s, 10)
    ensures n > 0 ==> s[0] != '0'
  {
    if n < 10 then ['0' + n as char]
    else
      var p := DecimalString(n / 10);
      assert (p + ['0' + (n % 10) as char])[0] == p[0];
      p + ['0' + (n % 10) as char]
  }

  lemma {:induction false} DecimalStringValue(n: nat)
    ensures DigitsValue(DecimalString(n), 10) == n
    decreases n
  {
    if n >= 10 {
      var p := DecimalString(n / 10);
      var s := DecimalString(n);
      assert s[..|s| - 1] == p;
      DecimalStringValue(n / 10);
    }
  }

  lemma {:induction false} DigitRunOfDigitsThenStop(d: string, tail: string, base: nat)
    requires AllDigitsIn(d, base)
    requires tail == [] || !IsDigitIn(tail[0], base)
    ensures DigitRun(d + tail, base) == |d|
    decreases |d|
  {
    if d == [] {
      assert d + tail == tail;
    } else {
      assert (d + tail)[0] == d[0];
      assert (d + tail)[1..] == d[1..] + tail;
      DigitRunOfDigitsThenStop(d[1..], tail, base);
    }
  }

  lemma ReadDecimalThenStop(n: nat, tail: string)
    requires tail == [] || !IsDigitIn(tail[0], 10)
    ensures ReadDigits(DecimalString(n) + tail, 10) == Num(n)
  {
    var d := DecimalString(n);
    DigitRunOfDigitsThenStop(d, tail, 10);
    assert (d + tail)[..|d|] == d;
    DecimalStringValue(n);
  }

  /** A decimal numeral never starts with a hexadecimal prefix. */
  lemma DecimalNotHex(n: nat, tail: string)
    requires tail == [] || (tail[0] != 'x' && tail[0] != 'X')
    ensures !HasHexPrefix(DecimalString(n) + tail)
  {
    var d := DecimalString(n);
    if |d| >= 2 {
      assert (d + tail)[1] == d[1] && IsDigitIn(d[1], 10);
    } else if tail != [] {
      assert (d + tail)[1] == tail[0];
    }
  }

  /**
    parseInt reads back what the decimal numeral says, with either radix
    argument, after any leading whitespace and before any trailing text
    that does not continue the number.
  */
  lemma ParseIntReadsDecimal(w: string, n: nat, tail: string, radix: Radix)
    requires AllSpace(w)
    requires tail == [] || (!IsDigitIn(tail[0], 10) && tail[0] != 'x' && tail[0] != 'X')
    ensures ParseInt(w + DecimalString(n) + tail, radix) == Num(n)
  {
    var d := DecimalString(n);
    assert w + d + tail == w + (d + tail);
    assert (d + tail)[0] == d[0] && IsDigitIn(d[0], 10);
    TrimStartOfSpacePadded(w, d + tail);
    DecimalNotHex(n, tail);
    ReadDecimalThenStop(n, tail);
  }

  /** A leading minus sign negates the value read. */
  lemma ParseIntReadsNegative(n: nat, radix: Radix)
    ensures ParseInt("-" + DecimalString(n), radix) == Num(0 - n)
  {
    var d := DecimalString(n);
    var v := "-" + d;
    assert v[0] == '-' && !IsJsSpace(v[0]);
    assert TrimStart(v) == v;
    assert v[1..] == d + [];
    DecimalNotHex(n, []);
    ReadDecimalThenStop(n, []);
  }

  /** Text with no digit where the number should start parses to NaN. */
  lemma ParseIntOfBlank(v: string, radix: Radix)
    requires AllSpace(v)
    ensures ParseInt(v, radix) == NaN
  {
    assert v + [] == v;
    TrimStartOfSpacePadded(v, []);
  }

  /**
    A fact about `parseInt` alone: without a radix "0x1A" reads as
    hexadecimal 26, with radix 10 as 0. The word-count fields are number
    inputs, so neither page is ever handed such text.
  */
  lemma HexPrefixOnlyWithoutRadix()
    ensures ParseInt("0x1A", Auto) == Num(26)
    ensures ParseInt("0x1A", Decimal) == Num(0)
  {
    var v := "0x1A";
    assert TrimStart(v) == v by {
      assert !IsJsSpace(v[0]);
    }
    assert ParseInt(v, Auto) == ReadDigits("1A", 16) by {
      assert HasHexPrefix(v) && v[2..] == "1A";
    }
    assert ReadDigits("1A", 16) == Num(26) by {
      assert AllDigitsIn("1A", 16);
      DigitRunOfDigitsThenStop("1A", [], 16);
      assert "1A" + [] == "1A" && "1A"[..2] == "1A";
      assert "1A"[..1] == "1" && "1"[..0] == "";
    }
    assert ParseInt(v, Decimal) == ReadDigits(v, 10);
    assert ReadDigits(v, 10) == Num(0) by {
      assert v == "0" + "x1A";
      DigitRunOfDigitsThenStop("0", "x1A", 10);
      assert v[..1] == "0" && "0"[..0] == "";
    }
  }
}
