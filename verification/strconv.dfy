/**
 * Go's `strconv.ParseInt(s, 0, 64)` and the decimal rendering `fmt` uses for
 * `%v` of an integer.
 *
 * Base 0 means the literal picks its own base: an optional `+` or `-`, then
 * `0b`/`0B` (binary), `0o`/`0O` (octal), `0x`/`0X` (hexadecimal), a bare leading
 * `0` (octal) or otherwise decimal; `_` may separate digits.  The value must fit
 * in a signed 64-bit integer.  Syntax and range errors are both `None` here.
 */
module Strconv {
  import opened Wrappers

  const MaxInt64: int := 0x7FFF_FFFF_FFFF_FFFF
  const MinInt64: int := -0x8000_0000_0000_0000

  predicate IsInt64(n: int) {
    MinInt64 <= n <= MaxInt64
  }

  predicate IsDecimalDigit(c: char) {
    '0' <= c <= '9'
  }

  predicate IsLetter(c: char) {
    'a' <= c <= 'z' || 'A' <= c <= 'Z'
  }

  /**
   * ASCII lower-casing.  Go writes it `c | 0x20` on bytes; the two agree
   * wherever the result is compared with a lower-case letter, which is the
   * only use made of it.
   */
  function Lower(c: char): (l: char) {
    if 'A' <= c <= 'Z' then (c as int + 32) as char else c
  }

  /** The value of a digit character: `0`-`9`, then `a`/`A` = 10 up to `z`/`Z` = 35. */
  function DigitValue(c: char): (d: nat)
    requires IsDecimalDigit(c) || IsLetter(c)
    ensures d < 36
  {
    if IsDecimalDigit(c) then c as int - '0' as int else Lower(c) as int - 'a' as int + 10
  }

  predicate IsDigitIn(c: char, base: nat) {
    (IsDecimalDigit(c) || IsLetter(c)) && DigitValue(c) < base
  }

  /** Every character is a digit of `base` or an underscore. */
  predicate DigitsIn(body: string, base: nat) {
    forall i :: 0 <= i < |body| ==> body[i] == '_' || IsDigitIn(body[i], base)
  }

  /** The base a base-0 literal selects, and the digits that follow its prefix. */
  datatype Literal = Literal(base: nat, body: string)

  /** The prefix rule of `ParseUint` for base 0 (a prefix needs at least one more character). */
  function SplitPrefix(u: string): (l: Literal)
    requires u != []
    ensures l.base in {2, 8, 10, 16}
  {
    if u[0] == '0' then
      if |u| >= 3 && Lower(u[1]) == 'b' then Literal(2, u[2..])
      else if |u| >= 3 && Lower(u[1]) == 'o' then Literal(8, u[2..])
      else if |u| >= 3 && Lower(u[1]) == 'x' then Literal(16, u[2..])
      else Literal(8, u[1..])
    else Literal(10, u)
  }

  /** The value of the digits read left to right, underscores skipped (ParseUint's loop). */
  function Accumulate(body: string, base: nat): (value: nat)
    requires DigitsIn(body, base)
  {
    if body == [] then 0
    else
      var c := body[|body| - 1];
      DigitsInInit(body, base);
      var n := Accumulate(body[..|body| - 1], base);
      if c == '_' then n else NatTimes(n, base); n * base + DigitValue(c)
  }

  /** The digits of `body` but the last, and the last one. */
  lemma DigitsInInit(body: string, base: nat)
    requires DigitsIn(body, base) && body != []
    ensures DigitsIn(body[..|body| - 1], base)
    ensures body[|body| - 1] == '_' || IsDigitIn(body[|body| - 1], base)
  {
  }

  lemma NatTimes(a: nat, b: nat)
    ensures a * b >= 0
  {
  }

  /** What `underscoreOK` last saw: start of number, a digit or prefix, an underscore, other. */
  datatype Saw = Start | Digit | Underscore | Other

  /** The scan of `underscoreOK` over the number proper. */
  function UnderscoreScan(s: string, saw: Saw, hex: bool): (ok: bool)
    decreases |s|
  {
    if s == [] then saw != Underscore
    else if IsDecimalDigit(s[0]) || (hex && 'a' <= Lower(s[0]) <= 'f') then UnderscoreScan(s[1..], Digit, hex)
    else if s[0] == '_' then saw == Digit && UnderscoreScan(s[1..], Underscore, hex)
    else if saw == Underscore then false
    else UnderscoreScan(s[1..], Other, hex)
  }

  /**
   * `underscoreOK`: every underscore sits between two digits, or between a
   * base prefix and a digit.
   */
  function UnderscoreOK(s: string): (ok: bool) {
    var t := if |s| >= 1 && (s[0] == '-' || s[0] == '+') then s[1..] else s;
    if |t| >= 2 && t[0] == '0' && (Lower(t[1]) == 'b' || Lower(t[1]) == 'o' || Lower(t[1]) == 'x') then
      UnderscoreScan(t[2..], Digit, Lower(t[1]) == 'x')
    else
      UnderscoreScan(t, Start, false)
  }

  /** `ParseUint(u, 0, _)` before its bit-size check: the unbounded magnitude. */
  function ParseMagnitude(u: string): (r: Option<nat>) {
    if u == [] then None
    else
      var l := SplitPrefix(u);
      if !DigitsIn(l.body, l.base) then None
      else if '_' in l.body && !UnderscoreOK(u) then None
      else Some(Accumulate(l.body, l.base))
  }

  /** `strconv.ParseInt(s, 0, 64)`: `Some(n)` when Go returns `n` with a nil error. */
  function ParseInt(s: string): (r: Option<int>)
    ensures r.Some? ==> IsInt64(r.value)
  {
    if s == [] then None
    else
      var neg := s[0] == '-';
      var u := if s[0] == '+' || s[0] == '-' then s[1..] else s;
      match ParseMagnitude(u)
      case None => None
      case Some(n) =>
        if neg then (if n <= -MinInt64 then Some(0 - n) else None)
        else (if n <= MaxInt64 then Some(n) else None)
  }

  /** The characters an accepted literal may contain. */
  predicate IsLiteralChar(c: char) {
    IsDecimalDigit(c) || IsLetter(c) || c == '_' || c == '+' || c == '-'
  }

  lemma MagnitudeAlphabet(u: string)
    requires ParseMagnitude(u).Some?
    ensures forall i :: 0 <= i < |u| ==> IsLiteralChar(u[i])
  {
    var l := SplitPrefix(u);
    var k := if u[0] != '0' then 0 else if l.body == u[1..] then 1 else 2;
    assert l.body == u[k..];
    assert k >= 1 ==> u[0] == '0';
    assert k == 2 ==> IsLetter(u[1]);
    forall i | 0 <= i < |u| ensures IsLiteralChar(u[i]) {
      if i >= k {
        assert u[i] == l.body[i - k];
      }
    }
  }

  /** ParseInt accepts no text with a space or any other foreign character in it. */
  lemma ParseIntAlphabet(s: string)
    requires ParseInt(s).Some?
    ensures s != [] && forall i :: 0 <= i < |s| ==> IsLiteralChar(s[i])
  {
    if s[0] == '+' || s[0] == '-' {
      MagnitudeAlphabet(s[1..]);
      assert forall i :: 1 <= i < |s| ==> s[i] == s[1..][i - 1];
    } else {
      MagnitudeAlphabet(s);
    }
  }

  function DigitChar(d: nat): (c: char)
    requires d < 10
    ensures IsDecimalDigit(c) && DigitValue(c) == d
  {
    ('0' as int + d) as char
  }

  /** Decimal digits of `n`, most significant first, no leading zero. */
  function FormatNat(n: nat): (s: string)
    ensures |s| >= 1
  {
    if n < 10 then [DigitChar(n)] else FormatNat(n / 10) + [DigitChar(n % 10)]
  }

  /** The rendering is all decimal digits, with a leading zero only for zero itself. */
  lemma {:induction false} FormatNatDigits(n: nat)
    ensures var s := FormatNat(n);
      (forall i :: 0 <= i < |s| ==> IsDecimalDigit(s[i])) && (s[0] == '0' <==> n == 0)
  {
    if n >= 10 {
      FormatNatDigits(n / 10);
      var s := FormatNat(n);
      assert s[0] == FormatNat(n / 10)[0];
    }
  }

  /** `fmt.Sprintf("%v", n)` for an integer: an optional `-` and the decimal digits. */
  function FormatInt(n: int): (s: string) {
    if n < 0 then "-" + FormatNat(-n) else FormatNat(n)
  }

  lemma {:induction false} AccumulateFormatNat(n: nat)
    ensures DigitsIn(FormatNat(n), 10) && Accumulate(FormatNat(n), 10) == n
  {
    var s := FormatNat(n);
    FormatNatDigits(n);
    if n >= 10 {
      AccumulateFormatNat(n / 10);
      assert s[..|s| - 1] == FormatNat(n / 10);
    }
  }

  /** Reading back the decimal digits of a magnitude gives the magnitude. */
  lemma ParseMagnitudeFormatNat(n: nat)
    ensures ParseMagnitude(FormatNat(n)) == Some(n)
  {
    var s := FormatNat(n);
    AccumulateFormatNat(n);
    FormatNatDigits(n);
    if n == 0 {
      assert s == "0";
      assert SplitPrefix(s) == Literal(8, "");
    } else {
      assert SplitPrefix(s) == Literal(10, s);
      assert '_' !in s by {
        forall i | 0 <= i < |s| ensures s[i] != '_' {
          assert IsDecimalDigit(s[i]);
        }
      }
    }
  }

  /**
   * Round trip: every 64-bit integer rendered the way `%v` renders it is read
   * back by ParseInt (base 0, 64 bits) as the same integer, and every integer
   * outside that range is rejected (Go's range error).
   */
  lemma ParseFormatRoundTrip(n: int)
    ensures ParseInt(FormatInt(n)) == if IsInt64(n) then Some(n) else None
  {
    if n < 0 {
      var m: nat := -n;
      ParseMagnitudeFormatNat(m);
      ParseIntNegative(FormatNat(m), m);
    } else {
      ParseMagnitudeFormatNat(n);
      FormatNatDigits(n);
      ParseIntUnsigned(FormatNat(n), n);
    }
  }

  /** A minus sign before a magnitude negates it when it fits, and is a range error otherwise. */
  lemma ParseIntNegative(u: string, m: nat)
    requires ParseMagnitude(u) == Some(m)
    ensures ParseInt("-" + u) == if m <= -MinInt64 then Some(-(m as int)) else None
  {
    var s := "-" + u;
    assert s[0] == '-' && s[1..] == u;
  }

  /** A magnitude with no sign in front is its own value when it fits, and a range error otherwise. */
  lemma ParseIntUnsigned(u: string, n: nat)
    requires ParseMagnitude(u) == Some(n)
    requires u != [] && IsDecimalDigit(u[0])
    ensures ParseInt(u) == if n <= MaxInt64 then Some(n) else None
  {
  }

  /** Signs and decimal literals. */
  lemma ParseIntDecimalExamples()
    ensures ParseInt("42") == Some(42) && ParseInt("+7") == Some(7) && ParseInt("-3") == Some(-3)
    ensures ParseInt("") == None && ParseInt("-") == None && ParseInt("4 ") == None
  {
    assert SplitPrefix("42") == Literal(10, "42");
    assert Accumulate("42", 10) == Accumulate("4", 10) * 10 + 2;
    assert "+7"[1..] == "7" && "-3"[1..] == "3";
  }

  /** Appending one character to the digits: Go's loop body. */
  lemma AccumulateSnoc(body: string, c: char, base: nat)
    requires DigitsIn(body + [c], base)
    ensures DigitsIn(body, base) && (c == '_' || IsDigitIn(c, base))
    ensures Accumulate(body + [c], base) == if c == '_' then Accumulate(body, base) else Accumulate(body, base) * base + DigitValue(c)
  {
    assert forall i :: 0 <= i < |body| ==> body[i] == (body + [c])[i];
    assert (body + [c])[|body|] == c;
    assert (body + [c])[..|body|] == body;
  }

  /** A bare leading zero selects octal. */
  lemma ParseIntOctalExamples()
    ensures ParseInt("010") == Some(8) && ParseInt("0") == Some(0) && ParseInt("08") == None
  {
    assert SplitPrefix("010") == Literal(8, "10");
    AccumulateSnoc("1", '0', 8);
    assert "1" + ['0'] == "10";
  }

  /** The hexadecimal prefix; digits above nine in either case. */
  lemma ParseIntHexExample()
    ensures ParseInt("0x1F") == Some(31) && ParseInt("0x") == None
  {
    assert SplitPrefix("0x1F") == Literal(16, "1F");
    AccumulateSnoc("1", 'F', 16);
    assert "1" + ['F'] == "1F";
  }

  /** The binary prefix, upper case. */
  lemma ParseIntBinaryExample()
    ensures ParseInt("0B101") == Some(5)
  {
    assert SplitPrefix("0B101") == Literal(2, "101");
    AccumulateSnoc("10", '1', 2);
    AccumulateSnoc("1", '0', 2);
    assert "1" + ['0'] == "10" && "10" + ['1'] == "101";
  }

  /** The explicit octal prefix, after a minus sign. */
  lemma ParseIntOctalPrefixExample()
    ensures ParseInt("-0o17") == Some(-15)
  {
    assert "-0o17"[1..] == "0o17";
    assert SplitPrefix("0o17") == Literal(8, "17");
    AccumulateSnoc("1", '7', 8);
    assert "1" + ['7'] == "17";
  }

  lemma DigitSeparatorScan()
    ensures UnderscoreOK("1_000")
  {
    assert "1_000"[1..] == "_000" && "_000"[1..] == "000" && "000"[1..] == "00" && "00"[1..] == "0" && "0"[1..] == "";
    assert UnderscoreScan("", Digit, false);
    assert UnderscoreScan("0", Digit, false);
    assert UnderscoreScan("00", Digit, false);
    assert UnderscoreScan("000", Underscore, false);
    assert UnderscoreScan("_000", Digit, false);
  }

  lemma DigitSeparatorValue()
    ensures DigitsIn("1_000", 10) && Accumulate("1_000", 10) == 1000
  {
    AccumulateSnoc("1_00", '0', 10);
    AccumulateSnoc("1_0", '0', 10);
    AccumulateSnoc("1_", '0', 10);
    AccumulateSnoc("1", '_', 10);
    assert "1" + ['_'] == "1_" && "1_" + ['0'] == "1_0" && "1_0" + ['0'] == "1_00" && "1_00" + ['0'] == "1_000";
  }

  /** Underscores may sit between digits ... */
  lemma ParseIntDigitSeparator()
    ensures ParseInt("1_000") == Some(1000)
  {
    DigitSeparatorScan();
    DigitSeparatorValue();
    assert SplitPrefix("1_000") == Literal(10, "1_000");
  }

  /** ... or right after a base prefix ... */
  lemma ParseIntPrefixSeparator()
    ensures ParseInt("0x_1") == Some(1)
  {
    assert SplitPrefix("0x_1") == Literal(16, "_1");
    assert UnderscoreScan("_1", Digit, true) by {
      assert "_1"[1..] == "1" && "1"[1..] == "";
      assert UnderscoreScan("1", Underscore, true);
    }
    AccumulateSnoc("_", '1', 16);
    assert "_" + ['1'] == "_1";
  }

  /** ... and nowhere else. */
  lemma ParseIntMisplacedUnderscores()
    ensures ParseInt("_1") == None && ParseInt("1__0") == None && ParseInt("1_") == None
  {
    assert !UnderscoreScan("_1", Start, false);
    assert !UnderscoreScan("__0", Digit, false);
    assert !UnderscoreScan("_", Digit, false) by {
      assert UnderscoreScan("_", Digit, false) == UnderscoreScan("", Underscore, false);
    }
  }
}
