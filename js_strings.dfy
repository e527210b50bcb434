/**
 * The parts of the JavaScript string built-ins that the components rely on:
 * `String.prototype.trim`, `parseInt` without a radix, and `length`
 * (which counts UTF-16 code units).
 */
module JsStrings {
  import opened Wrappers

  /** ECMAScript WhiteSpace and LineTerminator code points: what `trim` and `parseInt` skip. */
  predicate IsJsWhitespace(c: char) {
    || c == '\t' || c == '\n' || c == '\U{000B}' || c == '\U{000C}' || c == '\r'
    || c == ' ' || c == '\U{00A0}' || c == '\U{1680}'
    || ('\U{2000}' <= c <= '\U{200A}')
    || c == '\U{2028}' || c == '\U{2029}' || c == '\U{202F}' || c == '\U{205F}'
    || c == '\U{3000}' || c == '\U{FEFF}'
  }

  predicate AllWhitespace(s: string) {
    forall i :: 0 <= i < |s| ==> IsJsWhitespace(s[i])
  }

  /** `s.trimStart()` */
  function TrimStart(s: string): string {
    if |s| > 0 && IsJsWhitespace(s[0]) then TrimStart(s[1..]) else s
  }

  /** `s.trimEnd()` */
  function TrimEnd(s: string): string {
    if |s| > 0 && IsJsWhitespace(s[|s| - 1]) then TrimEnd(s[..|s| - 1]) else s
  }

  /** `trimStart` leaves the suffix that starts at the first non-whitespace character. */
  lemma {:induction false} TrimStartSuffix(s: string)
    ensures var r := TrimStart(s);
            && |r| <= |s| && r == s[|s| - |r|..]
            && AllWhitespace(s[..|s| - |r|])
            && (r == [] || !IsJsWhitespace(r[0]))
  {
    if |s| > 0 && IsJsWhitespace(s[0]) {
      TrimStartSuffix(s[1..]);
      var r := TrimStart(s);
      assert s[1..][..|s| - 1 - |r|] == s[1..|s| - |r|];
    }
  }

  /** `trimEnd` leaves the prefix that ends at the last non-whitespace character. */
  lemma {:induction false} TrimEndPrefix(s: string)
    ensures var r := TrimEnd(s);
            && |r| <= |s| && r == s[..|r|]
            && AllWhitespace(s[|r|..])
            && (r == [] || !IsJsWhitespace(r[|r| - 1]))
  {
    if |s| > 0 && IsJsWhitespace(s[|s| - 1]) {
      TrimEndPrefix(s[..|s| - 1]);
      var r := TrimEnd(s);
      assert s[..|s| - 1][|r|..] + [s[|s| - 1]] == s[|r|..];
    }
  }

  /** `s.trim()` */
  function Trim(s: string): string {
    TrimEnd(TrimStart(s))
  }

  /**
   * `trim()` leaves the middle of the string: only white space is cut on
   * either side, and the result neither starts nor ends with white space.
   */
  lemma TrimMiddle(s: string)
    ensures var r, i := Trim(s), |s| - |TrimStart(s)|;
            && 0 <= i && i + |r| <= |s| && r == s[i..i + |r|]
            && AllWhitespace(s[..i]) && AllWhitespace(s[i + |r|..])
            && (r == [] || (!IsJsWhitespace(r[0]) && !IsJsWhitespace(r[|r| - 1])))
  {
    var t := TrimStart(s);
    TrimStartSuffix(s);
    var i := |s| - |t|;
    var r := TrimEnd(t);
    TrimEndPrefix(t);
    SlicesOfSuffix(s, i, |r|);
    if r != [] {
      assert r[0] == t[0];
    }
  }

  /** Cutting a suffix of `s` again is cutting `s` itself. */
  lemma SlicesOfSuffix(s: string, i: nat, k: nat)
    requires i + k <= |s|
    ensures s[i..][..k] == s[i..i + k]
    ensures s[i..][k..] == s[i + k..]
  {
  }

  /** The components' emptiness test `s.trim() === ""` (equivalently `!s.trim()`). */
  predicate IsBlank(s: string) {
    Trim(s) == ""
  }

  /** A string trims to nothing exactly when every character of it is whitespace. */
  lemma BlankIffAllWhitespace(s: string)
    ensures IsBlank(s) <==> AllWhitespace(s)
  {
    var t := TrimStart(s);
    TrimStartSuffix(s);
    TrimEndPrefix(t);
  }

  // ---------------------------------------------------------------- parseInt

  /** The value of a digit character in radix up to 36; 36 for a non-digit. */
  function DigitValue(c: char): (v: nat)
    ensures v <= 36
  {
    if '0' <= c <= '9' then c as int - '0' as int
    else if 'a' <= c <= 'z' then c as int - 'a' as int + 10
    else if 'A' <= c <= 'Z' then c as int - 'A' as int + 10
    else 36
  }

  /** The length of the longest prefix of `s` made of digits of `radix`. */
  function DigitPrefixLength(s: string, radix: nat): (n: nat)
    ensures n <= |s|
    ensures forall i :: 0 <= i < n ==> DigitValue(s[i]) < radix
    ensures n == |s| || DigitValue(s[n]) >= radix
  {
    if |s| > 0 && DigitValue(s[0]) < radix then 1 + DigitPrefixLength(s[1..], radix) else 0
  }

  /** The number a digit string denotes in `radix`, most significant digit first. */
  function DigitsValue(digits: string, radix: nat): nat {
    if |digits| == 0 then 0
    else DigitsValue(digits[..|digits| - 1], radix) * radix + DigitValue(digits[|digits| - 1])
  }

  /**
   * `parseInt(s)` with no radix argument: skip leading whitespace, read an
   * optional sign, switch to radix 16 after a `0x`/`0X` prefix, then read the
   * longest run of digits. `None` stands for `NaN` (no digit at all).
   */
  function ParseInt(s: string): (r: Option<int>)
    ensures r.Some? ==> var t := TrimStart(s);
              |t| > 0 && (t[0] == '-' || t[0] == '+' || DigitValue(t[0]) < 10)
    ensures r.Some? && r.value < 0 ==> TrimStart(s)[0] == '-'
  {
    var t := TrimStart(s);
    var sign := if |t| > 0 && t[0] == '-' then -1 else 1;
    var u := if |t| > 0 && (t[0] == '-' || t[0] == '+') then t[1..] else t;
    match ParseMagnitude(u)
    case None => None
    case Some(v) => Some(sign * v)
  }

  /** The unsigned part of `parseInt`: radix 16 after `0x`/`0X`, else 10. */
  function ParseMagnitude(u: string): Option<nat> {
    var hex := |u| >= 2 && u[0] == '0' && (u[1] == 'x' || u[1] == 'X');
    var radix := if hex then 16 else 10;
    var body := if hex then u[2..] else u;
    var n := DigitPrefixLength(body, radix);
    if n == 0 then None else Some(DigitsValue(body[..n], radix))
  }

  /** `parseInt(s) || 0`: a `NaN` (and a zero) becomes 0. */
  function ParseIntOrZero(s: string): (n: int)
    ensures n == 0 <==> ParseInt(s).None? || ParseInt(s) == Some(0)
    ensures n != 0 ==> ParseInt(s) == Some(n)
  {
    ParseInt(s).GetOr(0)
  }

  /** A string with no digit after the optional sign parses to `NaN`. */
  lemma NonNumericIsNaN(s: string)
    requires var t := TrimStart(s);
             var u := if |t| > 0 && (t[0] == '-' || t[0] == '+') then t[1..] else t;
             u == [] || DigitValue(u[0]) >= 10
    ensures ParseInt(s) == None
    ensures ParseIntOrZero(s) == 0
  {
  }

  /** The decimal digit character for `d`. */
  function DigitChar(d: nat): char
    requires d < 10
  {
    ('0' as int + d) as char
  }

  /** The decimal text of a natural number, as `String(n)` writes it. */
  function NatToDecimal(n: nat): (s: string)
    ensures |s| >= 1
    ensures forall i :: 0 <= i < |s| ==> '0' <= s[i] <= '9'
    ensures s[0] == '0' ==> n == 0
  {
    if n < 10 then [DigitChar(n)] else NatToDecimal(n / 10) + [DigitChar(n % 10)]
  }

  /** The decimal text of an integer, as `String(n)` writes it. */
  function IntToDecimal(n: int): string {
    if n < 0 then "-" + NatToDecimal(-n) else NatToDecimal(n)
  }

  lemma {:induction false} DecimalValue(n: nat)
    ensures DigitsValue(NatToDecimal(n), 10) == n
  {
    var s := NatToDecimal(n);
    if n >= 10 {
      DecimalValue(n / 10);
      assert s[..|s| - 1] == NatToDecimal(n / 10);
    }
  }

  /** Whitespace in front of a non-blank start is all that `trimStart` removes. */
  lemma {:induction false} TrimStartAfterWhitespace(w: string, r: string)
    requires AllWhitespace(w)
    requires r == [] || !IsJsWhitespace(r[0])
    ensures TrimStart(w + r) == r
  {
    if |w| == 0 {
      assert w + r == r;
    } else {
      assert (w + r)[0] == w[0];
      assert (w + r)[1..] == w[1..] + r;
      TrimStartAfterWhitespace(w[1..], r);
    }
  }

  /** A run of digits followed by a non-digit (or nothing) is exactly the digit prefix. */
  lemma {:induction false} DigitPrefixOfConcat(d: string, t: string, radix: nat)
    requires forall i :: 0 <= i < |d| ==> DigitValue(d[i]) < radix
    requires t == [] || DigitValue(t[0]) >= radix
    ensures DigitPrefixLength(d + t, radix) == |d|
  {
    if |d| == 0 {
      assert d + t == t;
    } else {
      assert (d + t)[0] == d[0];
      assert (d + t)[1..] == d[1..] + t;
      DigitPrefixOfConcat(d[1..], t, radix);
    }
  }

  /** The unsigned part reads a decimal number back and stops at the first non-digit. */
  lemma MagnitudeOfDecimalPrefix(m: nat, t: string)
    requires t == [] || DigitValue(t[0]) >= 10
    requires m == 0 && t != [] ==> t[0] != 'x' && t[0] != 'X'
    ensures ParseMagnitude(NatToDecimal(m) + t) == Some(m)
  {
    var d := NatToDecimal(m);
    var u := d + t;
    if m == 0 {
      assert d == "0";
    }
    assert u[0] == d[0];
    assert |u| >= 2 ==> u[1] == (if |d| >= 2 then d[1] else t[0]);
    assert forall i :: 0 <= i < |d| ==> DigitValue(d[i]) < 10;
    DigitPrefixOfConcat(d, t, 10);
    assert u[..|d|] == d;
    DecimalValue(m);
  }

  /** `parseInt` depends on its argument only through `trimStart`. */
  lemma ParseIntOfTrimmed(s: string, r: string)
    requires TrimStart(s) == r
    requires r == [] || !IsJsWhitespace(r[0])
    ensures ParseInt(s) == ParseInt(r)
  {
    assert TrimStart(r) == r;
  }

  /** What follows the sign of `"-" + d + t` is `d + t`. */
  lemma SignThenDigits(d: string, t: string)
    ensures ("-" + d + t)[0] == '-'
    ensures ("-" + d + t)[1..] == d + t
  {
  }

  /** A minus sign (which is not whitespace) negates the magnitude after it. */
  lemma ParseIntAfterMinus(r: string, m: nat)
    requires |r| > 0 && r[0] == '-'
    requires ParseMagnitude(r[1..]) == Some(m)
    ensures ParseInt(r) == Some(-(m as int))
  {
    assert TrimStart(r) == r;
  }

  /** A minus sign in front of the digits negates the number they denote. */
  lemma ParseNegative(n: int, t: string)
    requires n < 0
    requires t == [] || DigitValue(t[0]) >= 10
    ensures ParseInt(IntToDecimal(n) + t) == Some(n)
  {
    var m: nat := -n;
    var d := NatToDecimal(m);
    assert IntToDecimal(n) == "-" + d;
    SignThenDigits(d, t);
    MagnitudeOfDecimalPrefix(m, t);
    ParseIntAfterMinus(IntToDecimal(n) + t, m);
  }

  /** Digits with no sign in front denote a non-negative number. */
  lemma ParseNonNegative(n: int, t: string)
    requires n >= 0
    requires t == [] || DigitValue(t[0]) >= 10
    requires n == 0 && t != [] ==> t[0] != 'x' && t[0] != 'X'
    ensures ParseInt(IntToDecimal(n) + t) == Some(n)
  {
    var d := NatToDecimal(n);
    var r := IntToDecimal(n) + t;
    assert TrimStart(r) == r && r == d + t && '0' <= r[0] <= '9' by {
      assert r == d + t;
      assert r[0] == d[0];
    }
    MagnitudeOfDecimalPrefix(n, t);
  }

  /**
   * `parseInt` reads an integer back from its decimal text, whatever
   * whitespace precedes it and whatever follows it from the first character
   * that is not a decimal digit on (`"1.5"` and `"1e3"` both read as 1); the
   * one exception is an `x` right after a lone `0`, which starts a hex number.
   */
  lemma ParseIntOfDecimalPrefix(w: string, n: int, t: string)
    requires AllWhitespace(w)
    requires t == [] || DigitValue(t[0]) >= 10
    requires n == 0 && t != [] ==> t[0] != 'x' && t[0] != 'X'
    ensures ParseInt(w + IntToDecimal(n) + t) == Some(n)
  {
    var d := IntToDecimal(n);
    var r := d + t;
    assert w + d + t == w + r;
    assert r[0] == d[0];
    TrimStartAfterWhitespace(w, r);
    ParseIntOfTrimmed(w + r, r);
    if n < 0 {
      ParseNegative(n, t);
    } else {
      ParseNonNegative(n, t);
    }
  }

  /** `parseInt` reads back every integer from its decimal text. */
  lemma ParseIntOfDecimal(n: int)
    ensures ParseInt(IntToDecimal(n)) == Some(n)
    ensures ParseIntOrZero(IntToDecimal(n)) == n
  {
    var d := IntToDecimal(n);
    assert d + [] == d;
    if n < 0 {
      ParseNegative(n, []);
    } else {
      ParseNonNegative(n, []);
    }
  }

  /**
   * When `parseInt` gives a number: exactly when a decimal digit follows the
   * optional sign, except that after a `0x`/`0X` prefix a hex digit must
   * follow the prefix (`"0x"` and `"0xg"` are `NaN`).
   */
  lemma ParseIntDefined(s: string)
    ensures var t := TrimStart(s);
            var u := if |t| > 0 && (t[0] == '-' || t[0] == '+') then t[1..] else t;
            var hex := |u| >= 2 && u[0] == '0' && (u[1] == 'x' || u[1] == 'X');
            ParseInt(s).Some? <==>
              if hex then |u| > 2 && DigitValue(u[2]) < 16 else |u| > 0 && DigitValue(u[0]) < 10
  {
    var t := TrimStart(s);
    var u := if |t| > 0 && (t[0] == '-' || t[0] == '+') then t[1..] else t;
    if |u| >= 2 && u[0] == '0' && (u[1] == 'x' || u[1] == 'X') {
      assert |u| > 2 ==> u[2..][0] == u[2];
    }
  }

  // ---------------------------------------------------------------- length

  /** `s.length`: the number of UTF-16 code units (two for a code point above U+FFFF). */
  function Utf16Length(s: string): (n: nat)
    ensures |s| <= n <= 2 * |s|
    ensures (forall i :: 0 <= i < |s| ==> s[i] as int <= 0xFFFF) ==> n == |s|
  {
    if |s| == 0 then 0
    else (if s[0] as int > 0xFFFF then 2 else 1) + Utf16Length(s[1..])
  }

  /** One character is one code unit, or two (a surrogate pair) above U+FFFF. */
  lemma Utf16LengthSingle(c: char)
    ensures Utf16Length([c]) == if c as int > 0xFFFF then 2 else 1
  {
    assert [c][1..] == [];
  }

  /** The length of a concatenation is the sum of the lengths. */
  lemma {:induction false} Utf16LengthConcat(a: string, b: string)
    ensures Utf16Length(a + b) == Utf16Length(a) + Utf16Length(b)
  {
    if |a| == 0 {
      assert a + b == b;
    } else {
      assert (a + b)[0] == a[0];
      assert (a + b)[1..] == a[1..] + b;
      Utf16LengthConcat(a[1..], b);
    }
  }
}
