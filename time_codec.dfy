/**
 * The two time conversions of the detector: reading an `HH:MM:SS.ss`
 * progress token into seconds, and rendering seconds as `hh:mm:ss:mmm`
 * (a colon, not a point, before the milliseconds). Seconds are exact reals.
 */
module TimeCodec {
  import opened Wrappers
  import opened Text
  import opened Numbers

  /**
   * `time_str_to_seconds`: split on `:`, read the first three fields with
   * `float()` as hours, minutes and seconds; fewer than three fields or a
   * field `float()` refuses gives 0.0, and fields after the third are ignored.
   */
  function TimeStrToSeconds(timeStr: string): real
  {
    var parts := Split(timeStr, ':');
    if |parts| < 3 then 0.0
    else match (PyFloat(parts[0]), PyFloat(parts[1]), PyFloat(parts[2]))
      case (Some(h), Some(m), Some(s)) => h * 3600.0 + m * 60.0 + s
      case _ => 0.0
  }

  /** Three readable fields followed by any further colon-free fields give `h*3600 + m*60 + s`. */
  lemma TimeStrFields(a: string, b: string, c: string, tail: seq<string>, h: real, m: real, s: real)
    requires ':' !in a && ':' !in b && ':' !in c
    requires forall p :: p in tail ==> ':' !in p
    requires PyFloat(a) == Some(h) && PyFloat(b) == Some(m) && PyFloat(c) == Some(s)
    ensures TimeStrToSeconds(Join([a, b, c] + tail, ':')) == h * 3600.0 + m * 60.0 + s
  {
    FieldsSplit(a, b, c, tail);
  }

  lemma FieldsSplit(a: string, b: string, c: string, tail: seq<string>)
    requires ':' !in a && ':' !in b && ':' !in c
    requires forall p :: p in tail ==> ':' !in p
    ensures var parts := Split(Join([a, b, c] + tail, ':'), ':');
            |parts| >= 3 && parts[0] == a && parts[1] == b && parts[2] == c
  {
    var parts := [a, b, c] + tail;
    forall p | p in parts
      ensures ':' !in p
    {
      if p !in tail {
        assert p == a || p == b || p == c;
      }
    }
    SplitJoin(parts, ':');
  }

  /** A string with fewer than two colons has fewer than three fields and reads as 0.0. */
  lemma TimeStrTooFewFields(timeStr: string)
    requires Count(timeStr, ':') < 2
    ensures TimeStrToSeconds(timeStr) == 0.0
  {
  }

  /** One of the first three fields that `float()` refuses makes the whole reading 0.0. */
  lemma TimeStrBadField(a: string, b: string, c: string, tail: seq<string>)
    requires ':' !in a && ':' !in b && ':' !in c
    requires forall p :: p in tail ==> ':' !in p
    requires PyFloat(a).None? || PyFloat(b).None? || PyFloat(c).None?
    ensures TimeStrToSeconds(Join([a, b, c] + tail, ':')) == 0.0
  {
    FieldsSplit(a, b, c, tail);
  }

  lemma NoColonInDigits(s: string)
    requires NumeralChars(s)
    ensures ':' !in s
  {
    assert forall k :: 0 <= k < |s| ==> s[k] != ':';
  }

  /** An `HH:MM:SS.f` token made of digits reads as its exact value in seconds. */
  lemma TimeStrOfDigits(hh: string, mm: string, ss: string, frac: string)
    requires AllDigits(hh) && AllDigits(mm) && AllDigits(ss) && AllDigits(frac)
    requires |hh| >= 1 && |mm| >= 1 && |ss| >= 1
    ensures TimeStrToSeconds(hh + ":" + mm + ":" + ss + "." + frac)
         == DigitsValue(hh) as real * 3600.0 + DigitsValue(mm) as real * 60.0 + DecimalValue(ss, frac)
  {
    var sec := ss + "." + frac;
    SecondsField(ss, frac);
    WholeField(hh);
    WholeField(mm);
    var fields: seq<string> := [hh, mm, sec] + [];
    TimeStrFields(hh, mm, sec, [], DigitsValue(hh) as real, DigitsValue(mm) as real, DecimalValue(ss, frac));
    assert fields == [hh, mm, sec];
    JoinThree(hh, mm, sec, ':');
    assert Join(fields, ':') == hh + ":" + mm + ":" + ss + "." + frac;
  }

  lemma WholeField(d: string)
    requires AllDigits(d) && |d| >= 1
    ensures ':' !in d && PyFloat(d) == Some(DigitsValue(d) as real)
  {
    NoColonInDigits(d);
    PyFloatNumeral(d);
    ParseDigits(d);
  }

  lemma SecondsField(ss: string, frac: string)
    requires AllDigits(ss) && AllDigits(frac) && |ss| >= 1
    ensures ':' !in ss + "." + frac
    ensures PyFloat(ss + "." + frac) == Some(DecimalValue(ss, frac))
  {
    var sec := ss + "." + frac;
    assert NumeralChars(sec) by {
      forall k | 0 <= k < |sec|
        ensures IsNumeralChar(sec[k])
      {
        if k < |ss| {
          assert sec[k] == ss[k];
        } else if k > |ss| {
          assert sec[k] == frac[k - |ss| - 1];
        }
      }
    }
    NoColonInDigits(sec);
    PyFloatNumeral(sec);
    ParseDecimalNumeral(ss, frac);
  }

  /** The example of the source: `"00:14:27.799"` is 867.799 seconds. */
  lemma TimeStrExample()
    ensures TimeStrToSeconds("00:14:27.799") == 867.799
  {
    assert "00:14:27.799" == "00" + ":" + "14" + ":" + "27" + "." + "799";
    TimeStrOfDigits("00", "14", "27", "799");
    ExampleFields();
  }

  lemma ExampleFields()
    ensures DigitsValue("00") == 0 && DigitsValue("14") == 14
    ensures DecimalValue("27", "799") == 27.799
  {
    assert "00"[..1] == "0";
    assert "14"[..1] == "1";
    assert "27"[..1] == "2";
    assert "799"[..2] == "79" && "79"[..1] == "7";
    assert DigitsValue("799") == 799;
    assert Pow10(3) == 1000;
  }

  /** Python's `int()` on a float: truncation towards zero. */
  function Trunc(x: real): (n: int)
    ensures x >= 0.0 ==> n == x.Floor
    ensures x < 0.0 ==> x <= n as real < x + 1.0
  {
    if x >= 0.0 then x.Floor else -((-x).Floor)
  }

  /** Python's float `%`: the remainder takes the sign of the (positive) divisor. */
  function FloorMod(x: real, m: real): (r: real)
    requires m > 0.0
    ensures 0.0 <= r < m
  {
    FloorModBounds(x, m);
    x - m * (x / m).Floor as real
  }

  lemma FloorModBounds(x: real, m: real)
    requires m > 0.0
    ensures 0.0 <= x - m * (x / m).Floor as real < m
  {
    var q := x / m;
    DivThenMul(x, m);
    RemainderBounds(x, m, q, q.Floor as real);
  }

  lemma DivThenMul(x: real, m: real)
    requires m > 0.0
    ensures m * (x / m) == x
  {
  }

  lemma RemainderBounds(x: real, m: real, q: real, f: real)
    requires m > 0.0 && m * q == x && f <= q < f + 1.0
    ensures 0.0 <= x - m * f < m
  {
    MulNonNegative(m, q - f);
    MulNonNegative(m, f + 1.0 - q);
    Distribute(m, q, f);
    assert m * (f + 1.0 - q) > 0.0;
    assert m * f + m - m * q > 0.0;
    assert m * f + m - x > 0.0;
  }

  lemma Distribute(m: real, q: real, f: real)
    ensures m * (q - f) == m * q - m * f
    ensures m * (f + 1.0 - q) == m * f + m - m * q
  {
  }

  lemma MulNonNegative(a: real, b: real)
    requires a > 0.0 && b >= 0.0
    ensures a * b >= 0.0
    ensures b > 0.0 ==> a * b > 0.0
  {
  }

  /** The four integer fields `format_time_full` prints. */
  datatype Clock = Clock(hours: int, minutes: int, secs: int, msecs: int)

  /**
   * hours = `int(x // 3600)`, minutes = `int((x % 3600) // 60)`,
   * secs = `int(x % 60)`, msecs = `int((x - int(x)) * 1000)`.
   */
  function ClockOf(seconds: real): (c: Clock)
    ensures 0 <= c.minutes < 60 && 0 <= c.secs < 60
    ensures seconds >= 0.0 ==> c.hours >= 0 && 0 <= c.msecs < 1000
    ensures seconds >= 0.0 ==> c.hours * 3600 + c.minutes * 60 + c.secs == seconds.Floor
    ensures seconds >= 0.0 ==> c.msecs as real <= (seconds - seconds.Floor as real) * 1000.0 < c.msecs as real + 1.0
  {
    var h := (seconds / 3600.0).Floor;
    var r := FloorMod(seconds, 3600.0);
    var m := (r / 60.0).Floor;
    ClockIdentity(seconds, h, m);
    Clock(h, m, Trunc(FloorMod(seconds, 60.0)), Trunc((seconds - Trunc(seconds) as real) * 1000.0))
  }

  lemma ClockIdentity(x: real, h: int, m: int)
    requires h == (x / 3600.0).Floor && m == (FloorMod(x, 3600.0) / 60.0).Floor
    ensures 0 <= m < 60
    ensures (x / 60.0).Floor == 60 * h + m
    ensures h * 3600 + m * 60 + FloorMod(x, 60.0).Floor == x.Floor
  {
    var r := FloorMod(x, 3600.0);
    assert r == x - 3600.0 * h as real;
    assert x / 60.0 == (60 * h) as real + r / 60.0;
    assert (x / 60.0).Floor == 60 * h + m;
    assert FloorMod(x, 60.0) == x - (3600 * h + 60 * m) as real;
  }

  /** `format_time_full`: `hh:mm:ss:mmm`, each field zero-padded (hours may need more than two digits). */
  function FormatTimeFull(seconds: real): string
  {
    var c := ClockOf(seconds);
    Join([FormatInt(c.hours, 2), FormatInt(c.minutes, 2), FormatInt(c.secs, 2), FormatInt(c.msecs, 3)], ':')
  }

  /**
   * For a non-negative time the rendering has four colon-separated digit
   * fields of widths at least 2, exactly 2, 2 and 3, which read back as the
   * clock fields.
   */
  lemma FormatTimeFullFields(seconds: real)
    requires seconds >= 0.0
    ensures var c := ClockOf(seconds);
            var parts := Split(FormatTimeFull(seconds), ':');
            && |parts| == 4
            && AllDigits(parts[0]) && AllDigits(parts[1]) && AllDigits(parts[2]) && AllDigits(parts[3])
            && |parts[0]| >= 2 && |parts[1]| == 2 && |parts[2]| == 2 && |parts[3]| == 3
            && DigitsValue(parts[0]) == c.hours && DigitsValue(parts[1]) == c.minutes
            && DigitsValue(parts[2]) == c.secs && DigitsValue(parts[3]) == c.msecs
  {
    var c := ClockOf(seconds);
    var f := [FormatInt(c.hours, 2), FormatInt(c.minutes, 2), FormatInt(c.secs, 2), FormatInt(c.msecs, 3)];
    FormatIntDigits(c.hours, 2);
    FormatIntDigits(c.minutes, 2);
    FormatIntDigits(c.secs, 2);
    FormatIntDigits(c.msecs, 3);
    NoColonInDigits(f[0]);
    NoColonInDigits(f[1]);
    NoColonInDigits(f[2]);
    NoColonInDigits(f[3]);
    SplitJoin(f, ':');
  }

  /**
   * Reading a rendered time back with `time_str_to_seconds` gives its whole
   * seconds: the fourth (milliseconds) field is ignored by the reader.
   */
  lemma FormatThenRead(seconds: real)
    requires seconds >= 0.0
    ensures TimeStrToSeconds(FormatTimeFull(seconds)) == seconds.Floor as real
  {
    var parts := Split(FormatTimeFull(seconds), ':');
    FormatTimeFullFields(seconds);
    JoinSplit(FormatTimeFull(seconds), ':');
    assert parts == [parts[0], parts[1], parts[2]] + [parts[3]];
    NoColonInDigits(parts[0]);
    NoColonInDigits(parts[1]);
    NoColonInDigits(parts[2]);
    NoColonInDigits(parts[3]);
    PyFloatNumeral(parts[0]);
    PyFloatNumeral(parts[1]);
    PyFloatNumeral(parts[2]);
    ParseDigits(parts[0]);
    ParseDigits(parts[1]);
    ParseDigits(parts[2]);
    var c := ClockOf(seconds);
    TimeStrFields(parts[0], parts[1], parts[2], [parts[3]], c.hours as real, c.minutes as real, c.secs as real);
  }

  /** The example of the source: 867.799 seconds renders as `"00:14:27:799"`. */
  lemma FormatTimeFullExample()
    ensures FormatTimeFull(867.799) == "00:14:27:799"
  {
    var x := 867.799;
    assert (x / 3600.0).Floor == 0;
    assert FloorMod(x, 3600.0) == x;
    assert (x / 60.0).Floor == 14;
    assert FloorMod(x, 60.0) == 27.799;
    assert x.Floor == 867;
    assert (x - 867.0) * 1000.0 == 799.0;
    assert ClockOf(x) == Clock(0, 14, 27, 799);
    assert FormatInt(0, 2) == "00";
    assert FormatInt(14, 2) == "14";
    assert FormatInt(27, 2) == "27";
    assert FormatInt(799, 3) == "799";
    JoinFour("00", "14", "27", "799", ':');
  }
}
