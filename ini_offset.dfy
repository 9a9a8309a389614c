/**
 * The start-time offset read from the `<video>.ini` sidecar: the first
 * `START_TIME\s*=\s*"([^"]+)"` assignment, its value stripped, then read with
 * the anchored, all-optional pattern `(?:(\d+)h)?(?:(\d+)m)?(?:(\d+(?:\.\d+)?)s)?`.
 */
module IniOffset {
  import opened Wrappers
  import opened Text
  import opened Numbers

  predicate NotQuote(c: char) { c != '"' }

  /** The captured value of `START_TIME\s*=\s*"([^"]+)"` matched at position `i`, if it matches there. */
  function AssignmentAt(content: string, i: nat): (v: Option<string>)
    ensures v.Some? ==> |v.value| >= 1 && '"' !in v.value
  {
    if !LiteralAt(content, i, "START_TIME") then None
    else
      var eq := RunEnd(content, i + 10, IsSpace);
      if !LiteralAt(content, eq, "=") then None
      else
        var open := RunEnd(content, eq + 1, IsSpace);
        if !LiteralAt(content, open, "\"") then None
        else
          var close := RunEnd(content, open + 1, NotQuote);
          if close == open + 1 || close == |content| then None
          else
            var v := content[open + 1..close];
            assert forall k :: 0 <= k < |v| ==> v[k] == content[open + 1 + k];
            Some(v)
  }

  /** `pattern.search(content)`: the leftmost assignment, and its value stripped. */
  function StartTimeValue(content: string): (v: Option<string>)
    ensures v.Some? ==> exists i :: 0 <= i <= |content| && AssignmentAt(content, i).Some?
                                     && v.value == Strip(AssignmentAt(content, i).value)
                                     && forall j :: 0 <= j < i ==> AssignmentAt(content, j).None?
    ensures v.None? ==> forall i :: 0 <= i <= |content| ==> AssignmentAt(content, i).None?
  {
    var at := j => AssignmentAt(content, j);
    assert forall j :: at(j) == AssignmentAt(content, j);
    match Search(|content|, 0, at)
    case None => None
    case Some((_, v)) => Some(Strip(v))
  }

  /** A seconds component `<whole>[.<fraction>]s`; the fraction, when present, is a non-empty digit string. */
  datatype Seconds = Seconds(whole: nat, fraction: Option<string>)

  /** The three optional groups of the time pattern; a missing group is `None`. */
  datatype Components = Components(hours: Option<nat>, minutes: Option<nat>, seconds: Option<Seconds>)

  predicate WellFormedSeconds(s: Seconds) {
    s.fraction.Some? ==> |s.fraction.value| >= 1 && AllDigits(s.fraction.value)
  }

  predicate WellFormed(c: Components) {
    c.seconds.Some? ==> WellFormedSeconds(c.seconds.value)
  }

  function SecondsValue(s: Seconds): (v: real)
    requires WellFormedSeconds(s)
    ensures s.whole as real <= v < s.whole as real + 1.0
  {
    match s.fraction
    case None => s.whole as real
    case Some(f) =>
      assert DigitsValue(NatToDigits(s.whole)) == s.whole;
      DecimalValue(NatToDigits(s.whole), f)
  }

  /** `hours * 3600 + minutes * 60 + seconds`, each missing group counting as 0. */
  function ComponentsSeconds(c: Components): (v: real)
    requires WellFormed(c)
    ensures v >= 0.0
  {
    (if c.hours.Some? then c.hours.value as real else 0.0) * 3600.0
    + (if c.minutes.Some? then c.minutes.value as real else 0.0) * 60.0
    + (if c.seconds.Some? then SecondsValue(c.seconds.value) else 0.0)
  }

  /** The group `(?:(\d+)<unit>)?` at position `i`: the number and the position after the unit, or nothing and `i`. */
  function UnitAt(t: string, i: nat, unit: char): (r: (Option<nat>, nat))
    requires i <= |t|
    ensures i <= r.1 <= |t|
    ensures r.0.None? <==> r.1 == i
  {
    var k := RunEnd(t, i, IsDigit);
    if k > i && k < |t| && t[k] == unit then (Some(DigitsValue(t[i..k])), k + 1) else (None, i)
  }

  /** The group `(?:(\d+(?:\.\d+)?)s)?` at position `i`. */
  function SecondsAt(t: string, i: nat): (r: Option<Seconds>)
    requires i <= |t|
    ensures r.Some? ==> WellFormedSeconds(r.value)
  {
    var k := RunEnd(t, i, IsDigit);
    if k == i || k == |t| then None
    else if t[k] == 's' then Some(Seconds(DigitsValue(t[i..k]), None))
    else if t[k] == '.' then
      var f := RunEnd(t, k + 1, IsDigit);
      if f > k + 1 && f < |t| && t[f] == 's' then Some(Seconds(DigitsValue(t[i..k]), Some(t[k + 1..f])))
      else None
    else None
  }

  /** `time_pattern.match(t)`: it always matches, possibly the empty prefix. */
  function ParseComponents(t: string): (c: Components)
    ensures WellFormed(c)
  {
    var h := UnitAt(t, 0, 'h');
    var m := UnitAt(t, h.1, 'm');
    Components(h.0, m.0, SecondsAt(t, m.1))
  }

  /** The offset in seconds found in the sidecar's text; 0.0 without an assignment. */
  function StartTimeOffset(content: string): (offset: real)
    ensures offset >= 0.0
  {
    match StartTimeValue(content)
    case None => 0.0
    case Some(v) => ComponentsSeconds(ParseComponents(v))
  }

  /**
   * `parse_ini_offset`: `None` stands for a sidecar that cannot be read,
   * whose exception is caught and gives 0.0.
   */
  function ParseIniOffset(sidecar: Option<string>): (offset: real)
    ensures offset >= 0.0
    ensures sidecar.None? ==> offset == 0.0
  {
    match sidecar
    case None => 0.0
    case Some(content) => StartTimeOffset(content)
  }

  /** The digits of a seconds group as written: the whole part and, after a point, the fraction. */
  datatype SecondsNumeral = SecondsNumeral(whole: string, fraction: Option<string>)

  /**
   * A time as it is written in the sidecar, group by group: each number keeps
   * its digits as they appear, leading zeros included (`09h05m03.000s`).
   */
  datatype TimeText = TimeText(hours: Option<string>, minutes: Option<string>, seconds: Option<SecondsNumeral>)

  /** The text of a `\d+` group. */
  predicate IsNumeral(d: string) {
    |d| >= 1 && AllDigits(d)
  }

  predicate WellWrittenSeconds(s: SecondsNumeral) {
    IsNumeral(s.whole) && (s.fraction.Some? ==> IsNumeral(s.fraction.value))
  }

  predicate WellWritten(t: TimeText) {
    && (t.hours.Some? ==> IsNumeral(t.hours.value))
    && (t.minutes.Some? ==> IsNumeral(t.minutes.value))
    && (t.seconds.Some? ==> WellWrittenSeconds(t.seconds.value))
  }

  /** The text of group 3, `\d+(?:\.\d+)?`. */
  function SecondsNumber(s: SecondsNumeral): string {
    s.whole + (if s.fraction.Some? then "." + s.fraction.value else "")
  }

  function ReadSeconds(s: SecondsNumeral): (r: Seconds)
    requires WellWrittenSeconds(s)
    ensures WellFormedSeconds(r) && r.fraction == s.fraction
  {
    Seconds(DigitsValue(s.whole), s.fraction)
  }

  /** The groups captured from a written time, present exactly where the text has them. */
  function ReadTime(t: TimeText): (c: Components)
    requires WellWritten(t)
    ensures WellFormed(c)
    ensures c.hours.Some? == t.hours.Some? && c.minutes.Some? == t.minutes.Some?
    ensures c.seconds.Some? == t.seconds.Some?
  {
    Components(if t.hours.Some? then Some(DigitsValue(t.hours.value)) else None,
               if t.minutes.Some? then Some(DigitsValue(t.minutes.value)) else None,
               if t.seconds.Some? then Some(ReadSeconds(t.seconds.value)) else None)
  }

  /** Each captured number is what `float()` makes of its group's text, leading zeros and all. */
  lemma ReadTimeIsFloat(t: TimeText)
    requires WellWritten(t)
    ensures t.hours.Some? ==> ParseUnsigned(t.hours.value) == Some(ReadTime(t).hours.value as real)
    ensures t.minutes.Some? ==> ParseUnsigned(t.minutes.value) == Some(ReadTime(t).minutes.value as real)
    ensures t.seconds.Some? ==>
              ParseUnsigned(SecondsNumber(t.seconds.value)) == Some(SecondsValue(ReadTime(t).seconds.value))
  {
    if t.hours.Some? {
      ParseDigits(t.hours.value);
    }
    if t.minutes.Some? {
      ParseDigits(t.minutes.value);
    }
    if t.seconds.Some? {
      SecondsNumberIsFloat(t.seconds.value);
    }
  }

  lemma SecondsNumberIsFloat(s: SecondsNumeral)
    requires WellWrittenSeconds(s)
    ensures ParseUnsigned(SecondsNumber(s)) == Some(SecondsValue(ReadSeconds(s)))
  {
    match s.fraction
    case None =>
      assert SecondsNumber(s) == s.whole;
      ParseDigits(s.whole);
    case Some(f) =>
      assert SecondsNumber(s) == s.whole + "." + f;
      ParseDecimalNumeral(s.whole, f);
      CanonicalWhole(s.whole, f);
  }

  /** The value of a decimal does not depend on leading zeros in its whole part. */
  lemma CanonicalWhole(w: string, f: string)
    requires AllDigits(w) && AllDigits(f)
    ensures DecimalValue(NatToDigits(DigitsValue(w)), f) == DecimalValue(w, f)
  {
  }

  /** The numerals `str()` writes for the components, without leading zeros. */
  function Canonical(c: Components): (t: TimeText)
    requires WellFormed(c)
    ensures WellWritten(t) && ReadTime(t) == c
  {
    TimeText(if c.hours.Some? then Some(NatToDigits(c.hours.value)) else None,
             if c.minutes.Some? then Some(NatToDigits(c.minutes.value)) else None,
             if c.seconds.Some? then Some(SecondsNumeral(NatToDigits(c.seconds.value.whole), c.seconds.value.fraction))
             else None)
  }

  function RenderSeconds(s: SecondsNumeral): string {
    SecondsNumber(s) + "s"
  }

  function HoursText(t: TimeText): string {
    if t.hours.Some? then t.hours.value + "h" else ""
  }

  function MinutesText(t: TimeText): string {
    if t.minutes.Some? then t.minutes.value + "m" else ""
  }

  function SecondsText(t: TimeText): string {
    if t.seconds.Some? then RenderSeconds(t.seconds.value) else ""
  }

  /** Writes a time in the order and notation the pattern reads it; absent groups are left out. */
  function WriteTime(t: TimeText): string {
    HoursText(t) + MinutesText(t) + SecondsText(t)
  }

  /** Writes components with canonical numerals. */
  function RenderComponents(c: Components): string
    requires WellFormed(c)
  {
    WriteTime(Canonical(c))
  }

  lemma {:induction false} DigitRun(pre: string, d: string, post: string)
    requires AllDigits(d)
    requires post == [] || !IsDigit(post[0])
    ensures RunEnd(pre + d + post, |pre|, IsDigit) == |pre| + |d|
  {
    var t := pre + d + post;
    assert forall k :: |pre| <= k < |pre| + |d| ==> t[k] == d[k - |pre|];
    RunEndIs(t, |pre|, |pre| + |d|, IsDigit);
  }

  /** A present `<d><unit>` group is read as the value of `d`, and reading resumes after the unit. */
  lemma {:induction false} UnitAtPresent(pre: string, d: string, unit: char, rest: string)
    requires IsNumeral(d) && !IsDigit(unit)
    ensures UnitAt(pre + d + [unit] + rest, |pre|, unit) == (Some(DigitsValue(d)), |pre| + |d| + 1)
  {
    var t := pre + d + [unit] + rest;
    assert t == pre + d + ([unit] + rest);
    DigitRun(pre, d, [unit] + rest);
    assert t[|pre|..|pre| + |d|] == d;
  }

  /** Digits followed by another unit, or by no digit at all, leave the group empty. */
  lemma {:induction false} UnitAtAbsent(pre: string, d: string, x: char, rest: string, unit: char)
    requires AllDigits(d) && !IsDigit(x) && x != unit
    ensures UnitAt(pre + d + [x] + rest, |pre|, unit) == (None, |pre|)
  {
    assert pre + d + [x] + rest == pre + d + ([x] + rest);
    DigitRun(pre, d, [x] + rest);
  }

  lemma {:induction false} UnitAtAbsentEnd(pre: string, tail: string, unit: char)
    requires tail == [] || !IsDigit(tail[0])
    ensures UnitAt(pre + tail, |pre|, unit) == (None, |pre|)
  {
    assert pre + tail == pre + [] + tail;
    DigitRun(pre, [], tail);
  }

  lemma {:induction false} SecondsAtWhole(pre: string, d: string, tail: string)
    requires AllDigits(d) && |d| >= 1
    ensures SecondsAt(pre + d + (['s'] + tail), |pre|) == Some(Seconds(DigitsValue(d), None))
  {
    var t := pre + d + (['s'] + tail);
    DigitRun(pre, d, ['s'] + tail);
    assert t[|pre|..|pre| + |d|] == d;
  }

  lemma SecondsAtFraction(t: string, i: nat, k: nat, f: nat)
    requires i < k && k + 1 < f < |t|
    requires RunEnd(t, i, IsDigit) == k && t[k] == '.'
    requires RunEnd(t, k + 1, IsDigit) == f && t[f] == 's'
    ensures SecondsAt(t, i) == Some(Seconds(DigitsValue(t[i..k]), Some(t[k + 1..f])))
  {
  }

  lemma DigitsRunAt(t: string, i: nat, j: nat, d: string)
    requires AllDigits(d) && j == i + |d| && j <= |t| && t[i..j] == d
    requires j == |t| || !IsDigit(t[j])
    ensures RunEnd(t, i, IsDigit) == j
  {
    forall k | i <= k < j
      ensures IsDigit(t[k])
    {
      assert t[k] == d[k - i];
    }
    RunEndIs(t, i, j, IsDigit);
  }

  lemma SecondsAtParts(t: string, i: nat, k: nat, e: nat, d: string, f: string)
    requires AllDigits(d) && |d| >= 1 && AllDigits(f) && |f| >= 1
    requires k == i + |d| && e == k + 1 + |f| && e < |t|
    requires t[i..k] == d && t[k] == '.'
    requires t[k + 1..e] == f && t[e] == 's'
    ensures SecondsAt(t, i) == Some(Seconds(DigitsValue(d), Some(f)))
  {
    DigitsRunAt(t, i, k, d);
    DigitsRunAt(t, k + 1, e, f);
    SecondsAtFraction(t, i, k, e);
  }

  lemma DecimalLayout(pre: string, d: string, f: string, tail: string)
    ensures var t := (pre + d + ['.']) + f + (['s'] + tail);
            var i := |pre|;
            && i + |d| + 1 + |f| < |t|
            && t[i..i + |d|] == d && t[i + |d|] == '.'
            && t[i + |d| + 1..i + |d| + 1 + |f|] == f && t[i + |d| + 1 + |f|] == 's'
  {
  }

  lemma {:induction false} SecondsAtDecimal(pre: string, d: string, f: string, tail: string)
    requires AllDigits(d) && |d| >= 1 && AllDigits(f) && |f| >= 1
    ensures SecondsAt((pre + d + ['.']) + f + (['s'] + tail), |pre|) == Some(Seconds(DigitsValue(d), Some(f)))
  {
    DecimalLayout(pre, d, f, tail);
    SecondsAtParts((pre + d + ['.']) + f + (['s'] + tail), |pre|, |pre| + |d|, |pre| + |d| + 1 + |f|, d, f);
  }

  lemma {:induction false} SecondsAtPresent(pre: string, s: SecondsNumeral, tail: string)
    requires WellWrittenSeconds(s)
    ensures SecondsAt(pre + RenderSeconds(s) + tail, |pre|) == Some(ReadSeconds(s))
  {
    var d := s.whole;
    match s.fraction
    case None =>
      assert pre + RenderSeconds(s) + tail == pre + d + (['s'] + tail);
      SecondsAtWhole(pre, d, tail);
    case Some(f) =>
      assert pre + RenderSeconds(s) + tail == (pre + d + ['.']) + f + (['s'] + tail);
      SecondsAtDecimal(pre, d, f, tail);
  }

  lemma {:induction false} SecondsAtAbsentEnd(pre: string, tail: string)
    requires tail == [] || !IsDigit(tail[0])
    ensures SecondsAt(pre + tail, |pre|) == None
  {
    assert pre + tail == pre + [] + tail;
    DigitRun(pre, [], tail);
  }

  lemma {:induction false} SecondsGroup(t: TimeText, tail: string)
    requires WellWritten(t)
    requires tail == [] || !IsDigit(tail[0])
    ensures SecondsAt(WriteTime(t) + tail, |HoursText(t) + MinutesText(t)|) == ReadTime(t).seconds
  {
    var pre := HoursText(t) + MinutesText(t);
    if t.seconds.Some? {
      assert WriteTime(t) + tail == pre + RenderSeconds(t.seconds.value) + tail;
      SecondsAtPresent(pre, t.seconds.value, tail);
    } else {
      assert WriteTime(t) + tail == pre + tail;
      SecondsAtAbsentEnd(pre, tail);
    }
  }

  /** What follows an absent group: either a later group opening with digits and another unit, or the tail. */
  lemma {:induction false} AfterAbsentGroup(pre: string, later: TimeText, tail: string, unit: char)
    requires WellWritten(later) && unit != '.' && unit != 's'
    requires later.minutes.Some? ==> unit != 'm'
    requires later.hours.None?
    requires tail == [] || !IsDigit(tail[0])
    ensures UnitAt(pre + MinutesText(later) + SecondsText(later) + tail, |pre|, unit) == (None, |pre|)
  {
    if later.minutes.Some? {
      AbsentBeforeMinutes(pre, later, tail, unit);
    } else if later.seconds.Some? {
      AbsentBeforeSeconds(pre, later, tail, unit);
    } else {
      assert pre + MinutesText(later) + SecondsText(later) + tail == pre + tail;
      UnitAtAbsentEnd(pre, tail, unit);
    }
  }

  lemma {:induction false} AbsentBeforeMinutes(pre: string, later: TimeText, tail: string, unit: char)
    requires WellWritten(later) && later.minutes.Some? && unit != 'm'
    ensures UnitAt(pre + MinutesText(later) + SecondsText(later) + tail, |pre|, unit) == (None, |pre|)
  {
    var d := later.minutes.value;
    assert pre + MinutesText(later) + SecondsText(later) + tail == pre + d + ['m'] + (SecondsText(later) + tail);
    UnitAtAbsent(pre, d, 'm', SecondsText(later) + tail, unit);
  }

  lemma {:induction false} AbsentBeforeSeconds(pre: string, later: TimeText, tail: string, unit: char)
    requires WellWritten(later) && later.minutes.None? && later.seconds.Some? && unit != '.' && unit != 's'
    ensures UnitAt(pre + MinutesText(later) + SecondsText(later) + tail, |pre|, unit) == (None, |pre|)
  {
    var s := later.seconds.value;
    var d := s.whole;
    assert pre + MinutesText(later) + SecondsText(later) + tail == pre + RenderSeconds(s) + tail;
    match s.fraction
    case None =>
      assert pre + RenderSeconds(s) + tail == pre + d + ['s'] + tail;
      UnitAtAbsent(pre, d, 's', tail, unit);
    case Some(f) =>
      assert pre + RenderSeconds(s) + tail == pre + d + ['.'] + (f + "s" + tail);
      UnitAtAbsent(pre, d, '.', f + "s" + tail, unit);
  }

  lemma {:induction false} MinutesGroup(t: TimeText, tail: string)
    requires WellWritten(t)
    requires tail == [] || !IsDigit(tail[0])
    ensures UnitAt(WriteTime(t) + tail, |HoursText(t)|, 'm') == (ReadTime(t).minutes, |HoursText(t) + MinutesText(t)|)
  {
    if t.minutes.Some? {
      MinutesPresent(t, tail);
    } else {
      MinutesAbsent(t, tail);
    }
  }

  lemma {:induction false} MinutesPresent(t: TimeText, tail: string)
    requires WellWritten(t) && t.minutes.Some?
    ensures UnitAt(WriteTime(t) + tail, |HoursText(t)|, 'm') == (ReadTime(t).minutes, |HoursText(t) + MinutesText(t)|)
  {
    var H, S := HoursText(t), SecondsText(t);
    var d := t.minutes.value;
    assert WriteTime(t) + tail == H + d + ['m'] + (S + tail);
    UnitAtPresent(H, d, 'm', S + tail);
  }

  lemma {:induction false} MinutesAbsent(t: TimeText, tail: string)
    requires WellWritten(t) && t.minutes.None?
    requires tail == [] || !IsDigit(tail[0])
    ensures UnitAt(WriteTime(t) + tail, |HoursText(t)|, 'm') == (ReadTime(t).minutes, |HoursText(t) + MinutesText(t)|)
  {
    var H := HoursText(t);
    var later := TimeText(None, None, t.seconds);
    assert WriteTime(t) + tail == H + MinutesText(later) + SecondsText(later) + tail;
    AfterAbsentGroup(H, later, tail, 'm');
  }

  lemma {:induction false} HoursPresent(t: TimeText, tail: string)
    requires WellWritten(t) && t.hours.Some?
    ensures UnitAt(WriteTime(t) + tail, 0, 'h') == (ReadTime(t).hours, |HoursText(t)|)
  {
    var d := t.hours.value;
    var rest := MinutesText(t) + SecondsText(t) + tail;
    assert HoursText(t) == d + ['h'];
    assert WriteTime(t) + tail == (d + ['h']) + rest;
    assert [] + d + ['h'] + rest == (d + ['h']) + rest;
    UnitAtPresent([], d, 'h', rest);
  }

  lemma {:induction false} HoursGroup(t: TimeText, tail: string)
    requires WellWritten(t)
    requires tail == [] || !IsDigit(tail[0])
    ensures UnitAt(WriteTime(t) + tail, 0, 'h') == (ReadTime(t).hours, |HoursText(t)|)
  {
    if t.hours.Some? {
      HoursPresent(t, tail);
    } else {
      HoursAbsent(t, tail);
    }
  }

  lemma {:induction false} HoursAbsent(t: TimeText, tail: string)
    requires WellWritten(t) && t.hours.None?
    requires tail == [] || !IsDigit(tail[0])
    ensures UnitAt(WriteTime(t) + tail, 0, 'h') == (None, 0)
  {
    var later := TimeText(None, t.minutes, t.seconds);
    assert WriteTime(t) + tail == [] + MinutesText(later) + SecondsText(later) + tail;
    AfterAbsentGroup([], later, tail, 'h');
  }

  /**
   * The time pattern reads back every combination of groups, however their
   * numbers are written (`09h`, `05m`, `03.000s`), whatever text without a
   * leading digit follows them: each group is optional and independent of the others.
   */
  lemma {:induction false} WrittenRoundTrip(t: TimeText, tail: string)
    requires WellWritten(t)
    requires tail == [] || !IsDigit(tail[0])
    ensures ParseComponents(WriteTime(t) + tail) == ReadTime(t)
  {
    HoursGroup(t, tail);
    MinutesGroup(t, tail);
    SecondsGroup(t, tail);
  }

  lemma {:induction false} RenderedRoundTrip(t: TimeText)
    requires WellWritten(t)
    ensures ParseComponents(WriteTime(t)) == ReadTime(t)
  {
    assert WriteTime(t) + [] == WriteTime(t);
    WrittenRoundTrip(t, []);
  }

  /** In particular, components written with canonical numerals read back as themselves. */
  lemma {:induction false} ComponentsRoundTrip(c: Components, tail: string)
    requires WellFormed(c)
    requires tail == [] || !IsDigit(tail[0])
    ensures ParseComponents(RenderComponents(c) + tail) == c
  {
    WrittenRoundTrip(Canonical(c), tail);
  }

  predicate IsRenderChar(ch: char) {
    IsDigit(ch) || ch == 'h' || ch == 'm' || ch == 's' || ch == '.'
  }

  predicate RenderChars(s: string) {
    forall k :: 0 <= k < |s| ==> IsRenderChar(s[k])
  }

  lemma RenderCharsConcat(a: string, b: string)
    requires RenderChars(a) && RenderChars(b)
    ensures RenderChars(a + b)
  {
    assert forall k :: |a| <= k < |a + b| ==> (a + b)[k] == b[k - |a|];
  }

  /** A group's text: digits, then one unit character, which the group ends with. */
  predicate GroupShape(g: string, unit: char) {
    |g| >= 2 && RenderChars(g) && IsDigit(g[0]) && g[|g| - 1] == unit
  }

  lemma UnitTextShape(d: string, unit: char)
    requires IsNumeral(d) && IsRenderChar(unit)
    ensures GroupShape(d + [unit], unit)
  {
    RenderCharsConcat(d, [unit]);
  }

  lemma SecondsTextShape(s: SecondsNumeral)
    requires WellWrittenSeconds(s)
    ensures GroupShape(RenderSeconds(s), 's')
  {
    var d := s.whole;
    if s.fraction.Some? {
      var f := s.fraction.value;
      RenderCharsConcat(".", f);
      RenderCharsConcat(d, "." + f);
      RenderCharsConcat(d + "." + f, "s");
      assert RenderSeconds(s) == (d + "." + f) + "s";
    } else {
      RenderCharsConcat(d, "s");
      assert RenderSeconds(s) == d + "s";
    }
  }

  /** A group followed by text in the rendering alphabet keeps its opening digit; text before it keeps its unit last. */
  lemma GroupsShape(a: string, b: string)
    requires RenderChars(a) && RenderChars(b)
    ensures RenderChars(a + b)
    ensures |a| >= 1 ==> (a + b)[0] == a[0]
    ensures |b| >= 1 ==> (a + b)[|a + b| - 1] == b[|b| - 1]
  {
    RenderCharsConcat(a, b);
  }

  lemma {:induction false} RenderedShape(t: TimeText)
    requires WellWritten(t)
    requires t.hours.Some? || t.minutes.Some? || t.seconds.Some?
    ensures var r := WriteTime(t);
            && |r| >= 2 && RenderChars(r) && IsDigit(r[0])
            && (r[|r| - 1] == 'h' || r[|r| - 1] == 'm' || r[|r| - 1] == 's')
  {
    var H, M, S := HoursText(t), MinutesText(t), SecondsText(t);
    if t.hours.Some? {
      UnitTextShape(t.hours.value, 'h');
    }
    if t.minutes.Some? {
      UnitTextShape(t.minutes.value, 'm');
    }
    if t.seconds.Some? {
      SecondsTextShape(t.seconds.value);
    }
    GroupsShape(H, M);
    GroupsShape(H + M, S);
    assert WriteTime(t) == (H + M) + S;
  }

  /** Stripping the value drops the whitespace around a written time. */
  lemma {:induction false} StripRendered(t: TimeText, lead: string, trail: string)
    requires WellWritten(t)
    requires t.hours.Some? || t.minutes.Some? || t.seconds.Some?
    requires AllSpaces(lead) && AllSpaces(trail)
    ensures Strip(lead + WriteTime(t) + trail) == WriteTime(t)
    ensures '"' !in lead + WriteTime(t) + trail
  {
    var r := WriteTime(t);
    RenderedShape(t);
    StripSurrounded(lead, r, trail);
    QuoteFreeAround(lead, r, trail);
  }

  lemma QuoteFreeAround(lead: string, r: string, trail: string)
    requires AllSpaces(lead) && RenderChars(r) && AllSpaces(trail)
    ensures '"' !in lead + r + trail
  {
    var v := lead + r + trail;
    forall k | 0 <= k < |v|
      ensures v[k] != '"'
    {
      if k < |lead| {
        assert v[k] == lead[k];
      } else if k < |lead| + |r| {
        assert v[k] == r[k - |lead|];
      } else {
        assert v[k] == trail[k - |lead| - |r|];
      }
    }
  }

  /** A run of `\s` copied at `i`, followed by a character outside `\s`, is the whole run there. */
  lemma SpacesRunAt(content: string, i: nat, s: string)
    requires AllSpaces(s) && i + |s| < |content| && content[i..i + |s|] == s
    requires !IsSpace(content[i + |s|])
    ensures RunEnd(content, i, IsSpace) == i + |s|
  {
    forall k | i <= k < i + |s|
      ensures IsSpace(content[k])
    {
      assert content[k] == s[k - i];
    }
    RunEndIs(content, i, i + |s|, IsSpace);
  }

  /** A run of `\s` copied at `i` and closed by the character `c` is skipped up to `c`. */
  lemma SeparatorAt(content: string, i: nat, s: string, c: char)
    requires AllSpaces(s) && i + |s| < |content| && content[i..i + |s|] == s
    requires content[i + |s|] == c && !IsSpace(c)
    ensures RunEnd(content, i, IsSpace) == i + |s| && LiteralAt(content, i + |s|, [c])
  {
    SpacesRunAt(content, i, s);
    assert content[i + |s|..i + |s| + 1] == [c];
  }

  /** A quote-free value copied after position `o` and closed by a quote is the whole run of non-quotes. */
  lemma QuotedValueAt(content: string, o: nat, v: string)
    requires '"' !in v && o + 1 + |v| < |content|
    requires content[o + 1..o + 1 + |v|] == v && content[o + 1 + |v|] == '"'
    ensures RunEnd(content, o + 1, NotQuote) == o + 1 + |v|
  {
    forall k | o + 1 <= k < o + 1 + |v|
      ensures NotQuote(content[k])
    {
      assert content[k] == v[k - o - 1];
    }
    RunEndIs(content, o + 1, o + 1 + |v|, NotQuote);
  }

  lemma {:induction false} AssignmentAtFacts(content: string, p: nat, s1: string, s2: string, v: string)
    requires |v| >= 1 && '"' !in v && AllSpaces(s1) && AllSpaces(s2)
    requires LiteralAt(content, p, "START_TIME")
    requires var q := p + 10 + |s1|;
             var o := q + 1 + |s2|;
             && o + 1 + |v| < |content|
             && content[p + 10..q] == s1 && content[q] == '='
             && content[q + 1..o] == s2 && content[o] == '"'
             && content[o + 1..o + 1 + |v|] == v && content[o + 1 + |v|] == '"'
    ensures AssignmentAt(content, p) == Some(v)
  {
    var q := p + 10 + |s1|;
    var o := q + 1 + |s2|;
    SeparatorAt(content, p + 10, s1, '=');
    SeparatorAt(content, q + 1, s2, '"');
    QuotedValueAt(content, o, v);
    AssignmentAtRuns(content, p, q, o, o + 1 + |v|);
  }

  /** The assignment pattern at `p`, stated on where its runs end. */
  lemma AssignmentAtRuns(content: string, p: nat, q: nat, o: nat, e: nat)
    requires LiteralAt(content, p, "START_TIME")
    requires p + 10 <= q && RunEnd(content, p + 10, IsSpace) == q && LiteralAt(content, q, "=")
    requires q + 1 <= o && RunEnd(content, q + 1, IsSpace) == o && LiteralAt(content, o, "\"")
    requires o + 1 < e < |content| && RunEnd(content, o + 1, NotQuote) == e
    ensures AssignmentAt(content, p) == Some(content[o + 1..e])
  {
  }

  /** Where the pieces of `START_TIME<s1>=<s2>"<body>` sit once placed after `prefix`. */
  lemma {:induction false} KeyFacts(prefix: string, s1: string, s2: string, body: string)
    ensures var content := prefix + "START_TIME" + s1 + "=" + s2 + "\"" + body;
            var q := |prefix| + 10 + |s1|;
            var o := q + 1 + |s2|;
            && LiteralAt(content, |prefix|, "START_TIME")
            && o < |content|
            && content[|prefix| + 10..q] == s1 && content[q] == '='
            && content[q + 1..o] == s2 && content[o] == '"'
            && content[o + 1..] == body
  {
    var content := prefix + "START_TIME" + s1 + "=" + s2 + "\"" + body;
    var key := prefix + "START_TIME";
    assert content == key + (s1 + "=" + s2 + "\"" + body);
    LiteralBetween(prefix, "START_TIME", s1 + "=" + s2 + "\"" + body);
    var eq := key + s1;
    assert content == eq + ("=" + s2 + "\"" + body);
    assert content[|key|..|eq|] == s1;
    var sp := eq + "=" + s2;
    assert content == sp + ("\"" + body);
    assert content[|eq| + 1..|sp|] == s2;
  }

  lemma {:induction false} BodyFacts(body: string, v: string, rest: string)
    requires body == v + "\"" + rest
    ensures body[..|v|] == v && body[|v|] == '"'
  {
  }

  /** The assignment `START_TIME<s1>=<s2>"<v>"` placed right after `prefix` is matched there. */
  lemma {:induction false} AssignmentAfter(prefix: string, s1: string, s2: string, v: string, rest: string)
    requires AllSpaces(s1) && AllSpaces(s2)
    requires |v| >= 1 && '"' !in v
    ensures AssignmentAt(prefix + "START_TIME" + s1 + "=" + s2 + "\"" + v + "\"" + rest, |prefix|) == Some(v)
  {
    var body := v + "\"" + rest;
    var content := prefix + "START_TIME" + s1 + "=" + s2 + "\"" + body;
    assert content == prefix + "START_TIME" + s1 + "=" + s2 + "\"" + v + "\"" + rest;
    var o := |prefix| + 11 + |s1| + |s2|;
    KeyFacts(prefix, s1, s2, body);
    BodyFacts(body, v, rest);
    assert content[o + 1..o + 1 + |v|] == body[..|v|];
    assert content[o + 1 + |v|] == body[|v|];
    AssignmentAtFacts(content, |prefix|, s1, s2, v);
  }

  /** The value found is that of the leftmost assignment, stripped. */
  lemma {:induction false} StartTimeValueAt(content: string, p: nat, v: string)
    requires p <= |content|
    requires AssignmentAt(content, p) == Some(v)
    requires forall j :: 0 <= j < p ==> AssignmentAt(content, j).None?
    ensures StartTimeValue(content) == Some(Strip(v))
  {
    var r := StartTimeValue(content);
    assert r.Some?;
    var i :| 0 <= i <= |content| && AssignmentAt(content, i).Some?
             && r.value == Strip(AssignmentAt(content, i).value)
             && forall j :: 0 <= j < i ==> AssignmentAt(content, j).None?;
    assert i == p;
  }

  /** No `START_TIME` begins inside `prefix`, not even one running on into a key placed after it. */
  predicate NoKeyBefore(prefix: string) {
    forall j :: 0 <= j < |prefix| ==> !LiteralAt(prefix + "START_TIME", j, "START_TIME")
  }

  /** Before a key, a prefix holding no key of its own holds no assignment either. */
  lemma {:induction false} NoKeyInPrefix(prefix: string, body: string)
    requires NoKeyBefore(prefix)
    ensures forall j :: 0 <= j < |prefix| ==> AssignmentAt(prefix + "START_TIME" + body, j).None?
  {
    var content := prefix + "START_TIME" + body;
    forall j | 0 <= j < |prefix|
      ensures AssignmentAt(content, j).None?
    {
      var keyed := prefix + "START_TIME";
      assert !LiteralAt(keyed, j, "START_TIME");
      assert j + 10 <= |keyed| && keyed[j..j + 10] != "START_TIME";
      assert content == keyed + body;
      assert content[j..j + 10] == keyed[j..j + 10];
    }
  }

  /**
   * The offset of `START_TIME = "<time>"` is `hours*3600 + minutes*60 + seconds`
   * of the time as written, whatever whitespace surrounds the `=` and the time
   * inside the quotes, and whatever follows, later assignments included: the
   * first one wins.
   */
  lemma {:induction false} StartTimeOffsetOfAssignment(prefix: string, s1: string, s2: string,
                                                       lead: string, t: TimeText, trail: string, rest: string)
    requires NoKeyBefore(prefix)
    requires AllSpaces(s1) && AllSpaces(s2)
    requires WellWritten(t)
    requires t.hours.Some? || t.minutes.Some? || t.seconds.Some?
    requires AllSpaces(lead) && AllSpaces(trail)
    ensures StartTimeOffset(prefix + "START_TIME" + s1 + "=" + s2 + "\"" + (lead + WriteTime(t) + trail) + "\"" + rest)
         == ComponentsSeconds(ReadTime(t))
  {
    var v := lead + WriteTime(t) + trail;
    var content := prefix + "START_TIME" + s1 + "=" + s2 + "\"" + v + "\"" + rest;
    StripRendered(t, lead, trail);
    RenderedShape(t);
    ValueOfAssignment(prefix, s1, s2, v, rest);
    RenderedRoundTrip(t);
    OffsetOfValue(content, WriteTime(t));
  }

  /** The first assignment, after a prefix holding no key, gives its stripped value, whatever follows. */
  lemma {:induction false} ValueOfAssignment(prefix: string, s1: string, s2: string, v: string, rest: string)
    requires NoKeyBefore(prefix)
    requires AllSpaces(s1) && AllSpaces(s2)
    requires |v| >= 1 && '"' !in v
    ensures StartTimeValue(prefix + "START_TIME" + s1 + "=" + s2 + "\"" + v + "\"" + rest) == Some(Strip(v))
  {
    var content := prefix + "START_TIME" + s1 + "=" + s2 + "\"" + v + "\"" + rest;
    AssignmentAfter(prefix, s1, s2, v, rest);
    var body := s1 + "=" + s2 + "\"" + v + "\"" + rest;
    assert content == prefix + "START_TIME" + body;
    NoKeyInPrefix(prefix, body);
    StartTimeValueAt(content, |prefix|, v);
  }

  lemma {:induction false} OffsetOfValue(content: string, v: string)
    requires StartTimeValue(content) == Some(v)
    ensures StartTimeOffset(content) == ComponentsSeconds(ParseComponents(v))
  {
  }

  /** The worked example: `START_TIME="10h36m22.010s"` is 38182.01 seconds. */
  lemma StartTimeExample()
    ensures StartTimeOffset("START_TIME=\"10h36m22.010s\"") == 38182.01
  {
    var t := TimeText(Some("10"), Some("36"), Some(SecondsNumeral("22", Some("010"))));
    ExampleTime(t);
    ExampleContent(WriteTime(t));
    StartTimeOffsetOfAssignment([], [], [], [], t, [], []);
  }

  /**
   * The example sidecar, written in the `prefix + START_TIME s1=s2"lead time trail" + rest`
   * shape `StartTimeOffsetOfAssignment` is stated on, every other piece empty.
   */
  lemma ExampleContent(r: string)
    requires r == "10h36m22.010s"
    ensures "START_TIME=\"10h36m22.010s\"" == [] + "START_TIME" + [] + "=" + [] + "\"" + ([] + r + []) + "\"" + []
  {
    var content := "START_TIME=\"10h36m22.010s\"";
    var whole := [] + "START_TIME" + [] + "=" + [] + "\"" + ([] + r + []) + "\"" + [];
    assert |whole| == |content|;
    assert forall k :: 0 <= k < |content| ==> content[k] == whole[k];
  }

  lemma ExampleTime(t: TimeText)
    requires t == TimeText(Some("10"), Some("36"), Some(SecondsNumeral("22", Some("010"))))
    ensures WellWritten(t) && WriteTime(t) == "10h36m22.010s" && ComponentsSeconds(ReadTime(t)) == 38182.01
  {
    ExampleRead(t);
  }

  lemma ExampleRead(t: TimeText)
    requires t == TimeText(Some("10"), Some("36"), Some(SecondsNumeral("22", Some("010"))))
    ensures WellWritten(t) && ReadTime(t) == Components(Some(10), Some(36), Some(Seconds(22, Some("010"))))
    ensures ComponentsSeconds(ReadTime(t)) == 38182.01
  {
    assert DigitsValue("10") == 10 by { assert "10"[..1] == "1"; }
    assert DigitsValue("36") == 36 by { assert "36"[..1] == "3"; }
    assert DigitsValue("22") == 22 by { assert "22"[..1] == "2"; }
    assert DigitsValue("010") == 10 by { assert "010"[..2] == "01"; assert "01"[..1] == "0"; }
    assert Pow10(3) == 1000;
    assert SecondsValue(Seconds(22, Some("010"))) == 22.01;
  }

  /**
   * Zero-padded numbers and whitespace around `=`: `START_TIME = "09h05m03.000s"`
   * is 9 hours, 5 minutes and 3 seconds, 32703 seconds.
   */
  lemma PaddedExample()
    ensures StartTimeOffset("START_TIME = \"09h05m03.000s\"") == 32703.0
  {
    var t := TimeText(Some("09"), Some("05"), Some(SecondsNumeral("03", Some("000"))));
    PaddedTime(t);
    PaddedContent(WriteTime(t));
    StartTimeOffsetOfAssignment([], " ", " ", [], t, [], []);
  }

  lemma PaddedContent(r: string)
    requires r == "09h05m03.000s"
    ensures "START_TIME = \"09h05m03.000s\"" == [] + "START_TIME" + " " + "=" + " " + "\"" + ([] + r + []) + "\"" + []
  {
    var content := "START_TIME = \"09h05m03.000s\"";
    var whole := [] + "START_TIME" + " " + "=" + " " + "\"" + ([] + r + []) + "\"" + [];
    assert |whole| == |content|;
    assert forall k :: 0 <= k < |content| ==> content[k] == whole[k];
  }

  lemma PaddedTime(t: TimeText)
    requires t == TimeText(Some("09"), Some("05"), Some(SecondsNumeral("03", Some("000"))))
    ensures WellWritten(t) && WriteTime(t) == "09h05m03.000s" && ComponentsSeconds(ReadTime(t)) == 32703.0
  {
    assert DigitsValue("09") == 9 by { assert "09"[..1] == "0"; }
    assert DigitsValue("05") == 5 by { assert "05"[..1] == "0"; }
    assert DigitsValue("03") == 3 by { assert "03"[..1] == "0"; }
    assert DigitsValue("000") == 0 by { assert "000"[..2] == "00"; assert "00"[..1] == "0"; }
    assert SecondsValue(Seconds(3, Some("000"))) == 3.0;
  }

  /** A section header before the key does not hide it: `[Settings]` then `START_TIME="1h"` is one hour. */
  lemma SectionHeaderExample()
    ensures StartTimeOffset("[Settings]\nSTART_TIME=\"1h\"") == 3600.0
  {
    var header := "[Settings]\n";
    var t := TimeText(Some("1"), None, None);
    assert WriteTime(t) == "1h";
    assert DigitsValue("1") == 1;
    assert NoKeyBefore(header) by {
      forall j | 0 <= j < |header|
        ensures !LiteralAt(header + "START_TIME", j, "START_TIME")
      {
        var keyed := header + "START_TIME";
        if j + 10 <= |keyed| {
          assert keyed[j..j + 10][0] == header[j];
          if j == 1 {
            assert keyed[j..j + 10][1] == 'e';
          }
        }
      }
    }
    HeaderContent(WriteTime(t));
    StartTimeOffsetOfAssignment(header, [], [], [], t, [], []);
  }

  lemma HeaderContent(r: string)
    requires r == "1h"
    ensures "[Settings]\nSTART_TIME=\"1h\"" == "[Settings]\n" + "START_TIME" + [] + "=" + [] + "\"" + ([] + r + []) + "\"" + []
  {
    var content := "[Settings]\nSTART_TIME=\"1h\"";
    var whole := "[Settings]\n" + "START_TIME" + [] + "=" + [] + "\"" + ([] + r + []) + "\"" + [];
    assert |whole| == |content|;
    assert forall k :: 0 <= k < |content| ==> content[k] == whole[k];
  }

  /** The clock notation `START_TIME="10:36:22"` is not the `h`/`m`/`s` notation and gives 0.0. */
  lemma ClockNotationExample()
    ensures StartTimeOffset("START_TIME=\"10:36:22\"") == 0.0
  {
    var v := "10:36:22";
    ClockValue(v);
    ClockContent(v);
    UnreadValueGivesZero([], [], [], v, []);
  }

  lemma ClockValue(v: string)
    requires v == "10:36:22"
    ensures |v| >= 1 && '"' !in v
    ensures ParseComponents(Strip(v)) == Components(None, None, None)
  {
    assert v == "10" + ":36:22";
    StripUnchanged(v);
    DigitsThenOther("10", ":36:22");
  }

  lemma ClockContent(v: string)
    requires v == "10:36:22"
    ensures "START_TIME=\"10:36:22\"" == [] + "START_TIME" + [] + "=" + [] + "\"" + v + "\"" + []
  {
    var content := "START_TIME=\"10:36:22\"";
    var whole := [] + "START_TIME" + [] + "=" + [] + "\"" + v + "\"" + [];
    assert |whole| == |content|;
    assert forall k :: 0 <= k < |content| ==> content[k] == whole[k];
  }

  /** A value that does not open with a digit matches only the empty prefix and gives 0.0. */
  lemma NoComponentsGivesZero(t: string)
    requires t == [] || !IsDigit(t[0])
    ensures ParseComponents(t) == Components(None, None, None)
    ensures ComponentsSeconds(ParseComponents(t)) == 0.0
  {
    RunEndIs(t, 0, 0, IsDigit);
  }

  /**
   * Digits followed by nothing or by a character that is neither a digit, a
   * unit nor a point (`12`, `12x`, the clock notation `10:36:22`): no group
   * matches, the pattern matches the empty prefix and the value gives 0.0.
   */
  lemma DigitsThenOther(d: string, tail: string)
    requires AllDigits(d)
    requires tail == [] || (!IsDigit(tail[0]) && tail[0] != 'h' && tail[0] != 'm' && tail[0] != 's' && tail[0] != '.')
    ensures ParseComponents(d + tail) == Components(None, None, None)
    ensures ComponentsSeconds(ParseComponents(d + tail)) == 0.0
  {
    var t := d + tail;
    assert t == [] + d + tail;
    DigitRun([], d, tail);
    assert tail != [] ==> t[|d|] == tail[0];
  }

  /**
   * Digits, a point, then a fraction not closed by `s` (`1.5h`, `22.s`, `3.`):
   * the seconds group needs digits on both sides of the point and an `s`, the
   * unit groups stop at the point, and the value gives 0.0.
   */
  lemma DigitsPointThenOther(d: string, f: string, tail: string)
    requires AllDigits(d) && AllDigits(f)
    requires tail == [] || !IsDigit(tail[0])
    requires f == [] || tail == [] || tail[0] != 's'
    ensures ParseComponents(d + "." + f + tail) == Components(None, None, None)
    ensures ComponentsSeconds(ParseComponents(d + "." + f + tail)) == 0.0
  {
    var t := d + "." + f + tail;
    var k := |d|;
    var e := |d| + 1 + |f|;
    assert t == [] + d + ("." + f + tail);
    DigitRun([], d, "." + f + tail);
    assert t == (d + ".") + f + tail;
    DigitRun(d + ".", f, tail);
    assert t[k] == '.';
    assert tail != [] ==> t[e] == tail[0];
    PointStops(t, k, e);
  }

  /** The digit run from the start stops at a point whose fraction is empty or not closed by `s`. */
  lemma PointStops(t: string, k: nat, e: nat)
    requires k < |t| && RunEnd(t, 0, IsDigit) == k && t[k] == '.'
    requires k + 1 <= e <= |t| && RunEnd(t, k + 1, IsDigit) == e
    requires e == k + 1 || e == |t| || t[e] != 's'
    ensures ParseComponents(t) == Components(None, None, None)
  {
  }

  /** A first assignment whose stripped value matches no group gives an offset of 0.0. */
  lemma UnreadValueGivesZero(prefix: string, s1: string, s2: string, v: string, rest: string)
    requires NoKeyBefore(prefix)
    requires AllSpaces(s1) && AllSpaces(s2)
    requires |v| >= 1 && '"' !in v
    requires ParseComponents(Strip(v)) == Components(None, None, None)
    ensures StartTimeOffset(prefix + "START_TIME" + s1 + "=" + s2 + "\"" + v + "\"" + rest) == 0.0
  {
    ValueOfAssignment(prefix, s1, s2, v, rest);
  }

  /** Without any assignment the search finds nothing and the offset stays 0.0. */
  lemma NoAssignmentGivesZero(content: string)
    requires forall i :: 0 <= i <= |content| ==> AssignmentAt(content, i).None?
    ensures StartTimeOffset(content) == 0.0
  {
  }

  /** In particular, without any `START_TIME` in the text the offset is 0.0. */
  lemma NoKeyGivesZero(content: string)
    requires forall j :: 0 <= j <= |content| ==> !LiteralAt(content, j, "START_TIME")
    ensures StartTimeOffset(content) == 0.0
  {
    NoAssignmentGivesZero(content);
  }
}
