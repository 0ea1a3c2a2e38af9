/**
 * The few pieces of Java's integer and string semantics the utilities rely on:
 * truncating division and remainder, `Math.abs`/`Math.min`, decimal rendering of
 * numbers, string concatenation of `null`, `Character.isWhitespace` and the
 * prefix/suffix/replace helpers of `java.lang.String`.
 */
module JavaLang {
  import opened Optional

  // ---------------------------------------------------------------------------
  // Integers. Java's `/` and `%` truncate toward zero; Dafny's are Euclidean.
  // ---------------------------------------------------------------------------

  /** Euclidean quotient bounds for a non-negative dividend. */
  lemma DivBounds(a: int, b: int)
    requires a >= 0 && b > 0
    ensures 0 <= a / b && (a / b) * b <= a < (a / b) * b + b
  {
    assert a == (a / b) * b + a % b;
  }

  /** Java `a / b` for a positive divisor (rounds toward zero). */
  function JDiv(a: int, b: int): (q: int)
    requires b > 0
    ensures a >= 0 ==> 0 <= q && q * b <= a < q * b + b
    ensures a < 0 ==> q * b - b < a <= q * b
  {
    if a >= 0 then DivBounds(a, b); a / b else DivBounds(-a, b); -((-a) / b)
  }

  /** Java `a % b` for a positive divisor (takes the sign of `a`). */
  function JRem(a: int, b: int): (r: int)
    requires b > 0
    ensures a >= 0 ==> 0 <= r < b && r == a % b
    ensures a < 0 ==> -b < r <= 0
    ensures a == JDiv(a, b) * b + r
  {
    a - JDiv(a, b) * b
  }

  /** Euclidean division is unique: any `q * b + r` with `0 <= r < b` is the one. */
  lemma ModUnique(x: int, q: int, r: int, b: int)
    requires b > 0 && 0 <= r < b && x == q * b + r
    ensures x / b == q && x % b == r
  {
    var q', r' := x / b, x % b;
    assert (q - q') * b == r' - r;
    if q > q' {
      assert (q - q') * b >= b by { MulAtLeast(q - q', b); }
    } else if q < q' {
      assert (q' - q) * b >= b by { MulAtLeast(q' - q, b); }
    }
  }

  lemma MulAtLeast(k: int, b: int)
    requires k >= 1 && b > 0
    ensures k * b >= b
  {
  }

  /** Scaling by a positive factor moves a number away from zero. */
  lemma MulGrows(x: int, b: int)
    requires b >= 1
    ensures x >= 0 ==> x * b >= x
    ensures x < 0 ==> x * b <= x
  {
    if x > 0 {
      MulAtLeast(b, x);
    } else if x < 0 {
      MulAtLeast(b, -x);
      assert (-x) * b == -(x * b);
    }
  }

  /** A Java remainder is zero exactly when Dafny's Euclidean one is. */
  lemma JRemZero(a: int, b: int)
    requires b > 0
    ensures JRem(a, b) == 0 <==> a % b == 0
  {
    if a < 0 {
      var q := (-a) / b;
      if (-a) % b == 0 {
        ModUnique(a, -q, 0, b);
      } else if a % b == 0 {
        ModUnique(-a, -(a / b), 0, b);
      }
    }
  }

  /** Java `Math.abs` on a value that does not overflow. */
  function Abs(x: int): (r: nat)
    ensures r == x || r == -x
  {
    if x < 0 then -x else x
  }

  /** Java `Math.min`. */
  function Min(a: int, b: int): (r: int)
    ensures r <= a && r <= b && (r == a || r == b)
  {
    if a <= b then a else b
  }

  // ---------------------------------------------------------------------------
  // Decimal text of numbers, as `StringBuilder.append(long)` and `%d` write it.
  // ---------------------------------------------------------------------------

  predicate IsDigit(ch: char) {
    '0' <= ch <= '9'
  }

  predicate AllDigits(s: string) {
    forall i :: 0 <= i < |s| ==> IsDigit(s[i])
  }

  function DigitChar(d: nat): (ch: char)
    requires d < 10
    ensures IsDigit(ch) && ch as int - '0' as int == d
  {
    "0123456789"[d]
  }

  /** Decimal digits of `n`, most significant first, without leading zeros. */
  function NatToString(n: nat): (s: string)
    ensures |s| >= 1 && AllDigits(s)
    ensures s[0] == '0' ==> n == 0
    decreases n
  {
    if n < 10 then [DigitChar(n)] else NatToString(n / 10) + [DigitChar(n % 10)]
  }

  /** Decimal text of any `int`, with a leading `-` for negative values. */
  function IntToString(i: int): (s: string)
    ensures i >= 0 ==> s == NatToString(i)
    ensures i < 0 ==> s == "-" + NatToString(-i)
  {
    if i < 0 then "-" + NatToString(-i) else NatToString(i)
  }

  /** Reads a string of decimal digits back as a number: the inverse of `NatToString`. */
  function ParseNat(s: string): nat
    requires AllDigits(s)
  {
    if s == [] then 0
    else ParseNat(s[..|s| - 1]) * 10 + (s[|s| - 1] as int - '0' as int)
  }

  lemma {:induction false} ParseNatToString(n: nat)
    ensures ParseNat(NatToString(n)) == n
    decreases n
  {
    var s := NatToString(n);
    if n >= 10 {
      ParseNatToString(n / 10);
      assert s[..|s| - 1] == NatToString(n / 10);
    }
  }

  /** Decimal rendering is injective: different numbers never print alike. */
  lemma NatToStringInjective(m: nat, n: nat)
    requires NatToString(m) == NatToString(n)
    ensures m == n
  {
    ParseNatToString(m);
    ParseNatToString(n);
  }

  // ---------------------------------------------------------------------------
  // Strings.
  // ---------------------------------------------------------------------------

  /** What string concatenation appends for a possibly-null string. */
  function JStr(s: Option<string>): (r: string)
    ensures s.Some? ==> r == s.value
    ensures s.None? ==> r == "null"
  {
    s.GetOr("null")
  }

  /**
   * `Character.isWhitespace`: the Unicode space, line and paragraph separators
   * except the three no-break spaces, plus the ASCII controls TAB, LF, VT, FF, CR
   * and the four information separators U+001C..U+001F.
   */
  predicate IsWhitespace(ch: char) {
    var n := ch as int;
    || 0x09 <= n <= 0x0D
    || 0x1C <= n <= 0x20
    || n == 0x1680
    || (0x2000 <= n <= 0x200A && n != 0x2007)
    || n == 0x2028 || n == 0x2029 || n == 0x205F || n == 0x3000
  }

  /** Space, tab and the line breaks are whitespace; a letter and the no-break spaces are not. */
  lemma IsWhitespaceExamples()
    ensures IsWhitespace(' ') && IsWhitespace('\t') && IsWhitespace('\n') && IsWhitespace('\r')
    ensures !IsWhitespace('a') && !IsWhitespace('\U{00A0}') && !IsWhitespace('\U{2007}') && !IsWhitespace('\U{202F}')
  {
  }

  /** `isSpace`: null, empty, or whitespace only. */
  predicate IsBlank(s: Option<string>) {
    s.None? || forall i :: 0 <= i < |s.value| ==> IsWhitespace(s.value[i])
  }

  /** `s.startsWith(String.valueOf(ch))`. */
  predicate StartsWith(s: string, ch: char) {
    |s| > 0 && s[0] == ch
  }

  /** `s.endsWith(String.valueOf(ch))`. */
  predicate EndsWith(s: string, ch: char) {
    |s| > 0 && s[|s| - 1] == ch
  }

  /** Index of the first `ch` in `s`, if any (`String.indexOf`). */
  function IndexOf(s: string, ch: char): (r: Option<nat>)
    ensures r.None? <==> ch !in s
    ensures r.Some? ==> r.value < |s| && s[r.value] == ch && ch !in s[..r.value]
  {
    if |s| == 0 then None
    else if s[0] == ch then Some(0)
    else match IndexOf(s[1..], ch)
      case None => None
      case Some(k) => assert s[..k + 1] == [s[0]] + s[1..][..k]; Some(k + 1)
  }

  /** `s.replaceFirst(ch, with)` for a pattern that is a single literal character. */
  function ReplaceFirst(s: string, ch: char, with: string): (r: string)
    ensures ch !in s ==> r == s
    ensures ch in s ==> exists k :: 0 <= k < |s| && s[k] == ch && ch !in s[..k] && r == s[..k] + with + s[k + 1..]
  {
    match IndexOf(s, ch)
    case None => s
    case Some(k) => s[..k] + with + s[k + 1..]
  }
}
