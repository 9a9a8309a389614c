/**
 * Decimal numerals: their value, Python's `float()` on the numerals the
 * detector meets, and the zero-padded integer formatting of `f"{n:0W}"`.
 */
module Numbers {
  import opened Wrappers
  import opened Text

  predicate IsDigit(c: char) { '0' <= c <= '9' }

  predicate AllDigits(s: string) {
    forall k :: 0 <= k < |s| ==> IsDigit(s[k])
  }

  /** The characters of the class `[\d\.]`. */
  predicate IsNumeralChar(c: char) { IsDigit(c) || c == '.' }

  predicate NumeralChars(s: string) {
    forall k :: 0 <= k < |s| ==> IsNumeralChar(s[k])
  }

  function DigitValue(c: char): nat
    requires IsDigit(c)
  {
    c as int - '0' as int
  }

  function DigitChar(d: nat): (c: char)
    requires d < 10
    ensures IsDigit(c) && DigitValue(c) == d
  {
    ('0' as int + d) as char
  }

  function Pow10(n: nat): (p: nat)
    ensures p >= 1
  {
    if n == 0 then 1 else 10 * Pow10(n - 1)
  }

  /** The value of a string of decimal digits; the empty string has value 0. */
  function DigitsValue(s: string): (v: nat)
    requires AllDigits(s)
    ensures v < Pow10(|s|)
  {
    if s == [] then 0 else DigitsValue(s[..|s| - 1]) * 10 + DigitValue(s[|s| - 1])
  }

  /** `str(n)`: the canonical decimal numeral of `n`, without leading zeros. */
  function NatToDigits(n: nat): (s: string)
    ensures |s| >= 1 && AllDigits(s)
    ensures DigitsValue(s) == n
    ensures |s| == 1 || s[0] != '0'
  {
    if n < 10 then [DigitChar(n)]
    else
      var front := NatToDigits(n / 10);
      var s := front + [DigitChar(n % 10)];
      assert s[..|s| - 1] == front;
      s
  }

  /** The numeral of a number below 10^k has at most k digits. */
  lemma {:induction false} NatToDigitsLength(n: nat, k: nat)
    ensures k >= 1 && n < Pow10(k) ==> |NatToDigits(n)| <= k
  {
    if n >= 10 && k >= 1 && n < Pow10(k) {
      assert k >= 2;
      assert n / 10 < Pow10(k - 1);
      NatToDigitsLength(n / 10, k - 1);
    }
  }

  /**
   * `f"{n:0<width>}"` for `n >= 0`: the numeral of `n` with zeros in front
   * up to `width` characters. Each step writes the last digit after the
   * padded numeral of the remaining digits, one position narrower.
   */
  function PadDigits(n: nat, width: nat): string
  {
    if n < 10 && width <= 1 then [DigitChar(n)]
    else PadDigits(n / 10, if width > 0 then width - 1 else 0) + [DigitChar(n % 10)]
  }

  /** The padded numeral is all digits, reads back as `n`, and is `width` wide when `n` fits. */
  lemma {:induction false} PadDigitsValue(n: nat, width: nat)
    ensures var s := PadDigits(n, width);
            && AllDigits(s) && DigitsValue(s) == n && |s| >= width && |s| >= 1
            && (width >= 1 && n < Pow10(width) ==> |s| == width)
  {
    var s := PadDigits(n, width);
    if n < 10 && width <= 1 {
      assert s[..0] == [];
    } else {
      var w := if width > 0 then width - 1 else 0;
      var front := PadDigits(n / 10, w);
      PadDigitsValue(n / 10, w);
      assert s[..|s| - 1] == front;
      if width >= 1 && n < Pow10(width) {
        assert width >= 2;
        assert n / 10 < Pow10(w);
      }
    }
  }

  /**
   * `f"{n:0<width>}"`: a non-negative number is its numeral zero-padded to
   * `width`; a negative one is a minus sign followed by its magnitude padded
   * to `width - 1`, the sign counting towards the width.
   */
  function FormatInt(n: int, width: nat): string
  {
    if n >= 0 then PadDigits(n, width)
    else "-" + PadDigits(-n, if width > 0 then width - 1 else 0)
  }

  /** What `FormatInt` writes: digits worth `n`, or a minus sign and digits worth `-n`. */
  lemma FormatIntDigits(n: int, width: nat)
    ensures var s := FormatInt(n, width);
            && (n >= 0 ==> AllDigits(s) && DigitsValue(s) == n && |s| >= width)
            && (n >= 0 && n < Pow10(width) && width >= 1 ==> |s| == width)
            && (n < 0 ==> |s| >= 2 && s[0] == '-' && AllDigits(s[1..]) && DigitsValue(s[1..]) == -n)
  {
    if n >= 0 {
      PadDigitsValue(n, width);
    } else {
      var w := if width > 0 then width - 1 else 0;
      PadDigitsValue(-n, w);
      assert FormatInt(n, width)[1..] == PadDigits(-n, w);
    }
  }

  /** Position of the first occurrence of `c` in `s`. */
  function IndexOf(s: string, c: char): (i: nat)
    requires c in s
    ensures i < |s| && s[i] == c && c !in s[..i]
  {
    if s[0] == c then 0
    else
      var i := 1 + IndexOf(s[1..], c);
      assert s[..i] == [s[0]] + s[1..][..i - 1];
      i
  }

  lemma FractionBelowOne(x: nat, p: nat)
    requires x < p
    ensures 0.0 <= x as real / p as real < 1.0
  {
    var q := x as real / p as real;
    assert q * p as real == x as real;
  }

  /** The value of the numeral `intDigits.fracDigits`. */
  function DecimalValue(intDigits: string, fracDigits: string): (v: real)
    requires AllDigits(intDigits) && AllDigits(fracDigits)
    ensures DigitsValue(intDigits) as real <= v < DigitsValue(intDigits) as real + 1.0
  {
    FractionBelowOne(DigitsValue(fracDigits), Pow10(|fracDigits|));
    DigitsValue(intDigits) as real + DigitsValue(fracDigits) as real / Pow10(|fracDigits|) as real
  }

  /**
   * `float(s)` for `s` made of ASCII digits and points: it succeeds on
   * `d+`, `d+.`, `.d+` and `d+.d+`, and raises (here `None`) on anything else.
   */
  function ParseUnsigned(s: string): (r: Option<real>)
    ensures r.Some? ==> r.value >= 0.0
  {
    if '.' !in s then
      if |s| > 0 && AllDigits(s) then Some(DigitsValue(s) as real) else None
    else
      var i := IndexOf(s, '.');
      if AllDigits(s[..i]) && AllDigits(s[i + 1..]) && |s| >= 2 then
        Some(DecimalValue(s[..i], s[i + 1..]))
      else None
  }

  lemma NoPointInDigits(s: string)
    requires AllDigits(s)
    ensures '.' !in s && Count(s, '.') == 0
  {
    assert forall k :: 0 <= k < |s| ==> s[k] != '.';
    CountZero(s, '.');
  }

  /** Over `[\d\.]`, a string is all digits exactly when it holds no point. */
  lemma DigitsIffNoPoint(s: string)
    requires NumeralChars(s)
    ensures AllDigits(s) <==> '.' !in s
  {
    if '.' !in s {
      assert forall k :: 0 <= k < |s| ==> s[k] != '.';
    } else {
      var k :| 0 <= k < |s| && s[k] == '.';
    }
  }

  /** Around its first point, a numeral splits into a point-free head and a tail. */
  lemma CountAroundPoint(s: string, i: nat)
    requires i < |s| && s[i] == '.' && '.' !in s[..i]
    ensures Count(s, '.') == 1 + Count(s[i + 1..], '.')
  {
    assert s == s[..i] + ([s[i]] + s[i + 1..]);
    CountConcat(s[..i], [s[i]] + s[i + 1..], '.');
    CountConcat([s[i]], s[i + 1..], '.');
    CountZero(s[..i], '.');
  }

  /**
   * `float()` accepts exactly the numerals over `[\d\.]` that hold at most
   * one point and at least one digit; `"1.2.3"` and `"."` are refused.
   */
  lemma ParseUnsignedAccepts(s: string)
    requires NumeralChars(s)
    ensures ParseUnsigned(s).Some? <==> Count(s, '.') <= 1 && Count(s, '.') < |s|
  {
    DigitsIffNoPoint(s);
    if '.' !in s {
      CountZero(s, '.');
    } else {
      var i := IndexOf(s, '.');
      CountAroundPoint(s, i);
      var head, tail := s[..i], s[i + 1..];
      assert NumeralChars(head) && NumeralChars(tail);
      DigitsIffNoPoint(head);
      DigitsIffNoPoint(tail);
      CountZero(tail, '.');
    }
  }

  /** Reading back a numeral `int.frac` gives its decimal value. */
  lemma ParseDecimalNumeral(intDigits: string, fracDigits: string)
    requires AllDigits(intDigits) && AllDigits(fracDigits)
    requires |intDigits| + |fracDigits| >= 1
    ensures ParseUnsigned(intDigits + "." + fracDigits) == Some(DecimalValue(intDigits, fracDigits))
  {
    var s := intDigits + "." + fracDigits;
    assert s[|intDigits|] == '.';
    assert forall k :: 0 <= k < |intDigits| ==> s[k] == intDigits[k] && s[k] != '.';
    var i := IndexOf(s, '.');
    assert i == |intDigits|;
    assert s[..i] == intDigits;
    assert s[i + 1..] == fracDigits;
  }

  /** Reading back a plain numeral gives its value. */
  lemma ParseDigits(digits: string)
    requires AllDigits(digits) && |digits| >= 1
    ensures ParseUnsigned(digits) == Some(DigitsValue(digits) as real)
  {
    NoPointInDigits(digits);
  }

  /**
   * Python's `float(s)`, over the inputs this model admits: surrounding
   * whitespace is dropped, an optional sign is read, then the unsigned numeral.
   */
  function PyFloat(s: string): (r: Option<real>)
  {
    var t := Strip(s);
    if |t| > 0 && t[0] == '-' then
      match ParseUnsigned(t[1..])
      case Some(v) => Some(-v)
      case None => None
    else if |t| > 0 && t[0] == '+' then ParseUnsigned(t[1..])
    else ParseUnsigned(t)
  }

  /** On a bare numeral, `float()` is the unsigned reading. */
  lemma PyFloatNumeral(s: string)
    requires NumeralChars(s)
    ensures PyFloat(s) == ParseUnsigned(s)
  {
    if s != [] {
      assert IsNumeralChar(s[0]) && IsNumeralChar(s[|s| - 1]);
    }
    StripUnchanged(s);
  }
}
