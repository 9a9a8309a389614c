/**
 * The line-scanning loop of `detect_black_frames`: each diagnostic line of
 * the filtering tool is stripped, a `time=` progress token is looked for
 * (the progress is `current / total * 100`), and a
 * `black_start:<n> black_end:<n> black_duration:<n>` token appends one
 * interval. The loop stops at the first exception: `float()` refusing a
 * token, or the progress division by a total duration of 0.0.
 */
module BlackDetect {
  import opened Wrappers
  import opened Text
  import opened Numbers
  import opened TimeCodec

  /** One dark segment, in seconds from the start of the video. */
  datatype Interval = Interval(start: real, end: real, duration: real)

  /** The exceptions that escape the loop. */
  datatype DetectError =
    | MalformedNumber(token: string)  // `float()` refused a `[\d.]+` token (ValueError)
    | ZeroTotalDuration               // the progress divided by a total of 0.0 (ZeroDivisionError)

  /** The three groups of the black-segment pattern, as text. */
  datatype BlackTokens = BlackTokens(start: string, end: string, duration: string)

  /** The group of `time=(\d{2}:\d{2}:\d{2}\.\d+)` matched at position `i`. */
  function TimeTokenAt(line: string, i: nat): (g: Option<string>)
    ensures g.Some? ==> && |g.value| >= 10
                        && AllDigits(g.value[..2]) && g.value[2] == ':'
                        && AllDigits(g.value[3..5]) && g.value[5] == ':'
                        && AllDigits(g.value[6..8]) && g.value[8] == '.'
                        && AllDigits(g.value[9..])
  {
    if !LiteralAt(line, i, "time=") then None
    else
      var p := i + 5;
      if p + 9 <= |line|
         && IsDigit(line[p]) && IsDigit(line[p + 1]) && line[p + 2] == ':'
         && IsDigit(line[p + 3]) && IsDigit(line[p + 4]) && line[p + 5] == ':'
         && IsDigit(line[p + 6]) && IsDigit(line[p + 7]) && line[p + 8] == '.'
      then
        var e := RunEnd(line, p + 9, IsDigit);
        if e > p + 9 then
          var g := line[p..e];
          assert forall k :: 0 <= k < |g| ==> g[k] == line[p + k];
          Some(g)
        else None
      else None
  }

  /** `time_pattern.search(line)` */
  function FindTimeToken(line: string): Option<string>
  {
    match Search(|line|, 0, j => TimeTokenAt(line, j))
    case None => None
    case Some((_, g)) => Some(g)
  }

  /** The progress search finds a token exactly when one starts somewhere in the line. */
  lemma FindTimeTokenLeftmost(line: string)
    ensures var g := FindTimeToken(line);
            && (g.Some? ==> exists i :: 0 <= i <= |line| && TimeTokenAt(line, i) == g
                                        && forall j :: 0 <= j < i ==> TimeTokenAt(line, j).None?)
            && (g.None? ==> forall i :: 0 <= i <= |line| ==> TimeTokenAt(line, i).None?)
  {
    var at := j => TimeTokenAt(line, j);
    assert forall j :: at(j) == TimeTokenAt(line, j);
    var r := Search(|line|, 0, at);
    if r.Some? {
      var i := r.value.0;
      assert TimeTokenAt(line, i) == FindTimeToken(line);
    }
  }

  /** End of the `[\d\.]+` group after the literal `name` at `at`, when both are there. */
  function ValueAfter(line: string, at: nat, name: string): (e: Option<nat>)
    ensures e.Some? ==> at + |name| < e.value <= |line| && NumeralChars(line[at + |name|..e.value])
  {
    if !LiteralAt(line, at, name) then None
    else
      var v := at + |name|;
      var e := RunEnd(line, v, IsNumeralChar);
      if e == v then None
      else
        SliceInClass(line, v, e);
        Some(e)
  }

  /** End of the `\s+` run at `at`, when there is one. */
  function SpacesAfter(line: string, at: nat): (e: Option<nat>)
    requires at <= |line|
    ensures e.Some? ==> at < e.value <= |line|
  {
    var e := RunEnd(line, at, IsSpace);
    if e == at then None else Some(e)
  }

  /**
   * The groups of
   * `black_start:([\d\.]+)\s+black_end:([\d\.]+)\s+black_duration:([\d\.]+)`
   * matched at position `i`. The classes `[\d\.]` and `\s` are disjoint from
   * each other and from the letters that follow them, so each greedy run is
   * the longest one and no backtracking can find another match.
   */
  function BlackMatchAt(line: string, i: nat): (m: Option<BlackTokens>)
    ensures m.Some? ==> && |m.value.start| >= 1 && NumeralChars(m.value.start)
                        && |m.value.end| >= 1 && NumeralChars(m.value.end)
                        && |m.value.duration| >= 1 && NumeralChars(m.value.duration)
  {
    match ValueAfter(line, i, "black_start:")
    case None => None
    case Some(ea) =>
      match SpacesAfter(line, ea)
      case None => None
      case Some(pb) =>
        match ValueAfter(line, pb, "black_end:")
        case None => None
        case Some(eb) =>
          match SpacesAfter(line, eb)
          case None => None
          case Some(pc) =>
            match ValueAfter(line, pc, "black_duration:")
            case None => None
            case Some(ec) => Some(BlackTokens(line[i + 12..ea], line[pb + 10..eb], line[pc + 15..ec]))
  }

  lemma SliceInClass(line: string, i: nat, j: nat)
    requires i <= j <= |line|
    requires forall k :: i <= k < j ==> IsNumeralChar(line[k])
    ensures NumeralChars(line[i..j])
  {
    assert forall k :: 0 <= k < j - i ==> line[i..j][k] == line[i + k];
  }

  /** `black_pattern.search(line)` */
  function FindBlack(line: string): Option<BlackTokens>
  {
    match Search(|line|, 0, j => BlackMatchAt(line, j))
    case None => None
    case Some((_, m)) => Some(m)
  }

  /** The segment search returns the groups of the leftmost match, and nothing when no position matches. */
  lemma FindBlackLeftmost(line: string)
    ensures var m := FindBlack(line);
            && (m.Some? ==> exists i :: 0 <= i <= |line| && BlackMatchAt(line, i) == m
                                        && forall j :: 0 <= j < i ==> BlackMatchAt(line, j).None?)
            && (m.None? ==> forall i :: 0 <= i <= |line| ==> BlackMatchAt(line, i).None?)
  {
    var at := j => BlackMatchAt(line, j);
    assert forall j :: at(j) == BlackMatchAt(line, j);
    var r := Search(|line|, 0, at);
    if r.Some? {
      var i := r.value.0;
      assert BlackMatchAt(line, i) == FindBlack(line);
    }
  }

  /** The three `float()` conversions of the dictionary, in the order Python evaluates them. */
  function ToInterval(t: BlackTokens): (r: Result<Interval, DetectError>)
  {
    Convert(t, PyFloat(t.start), PyFloat(t.end), PyFloat(t.duration))
  }

  function Convert(t: BlackTokens, s: Option<real>, e: Option<real>, d: Option<real>): (r: Result<Interval, DetectError>)
  {
    if s.None? then Err(MalformedNumber(t.start))
    else if e.None? then Err(MalformedNumber(t.end))
    else if d.None? then Err(MalformedNumber(t.duration))
    else Ok(Interval(s.value, e.value, d.value))
  }

  /** A `[\d\.]+` token `float()` accepts: at most one point, and not the point alone. */
  predicate WellFormedNumeral(s: string) {
    Count(s, '.') <= 1 && Count(s, '.') < |s|
  }

  /**
   * The tokens of a matched line become an interval exactly when each holds
   * at most one point and a digit; the three numbers are then non-negative.
   */
  lemma ToIntervalAccepts(t: BlackTokens)
    requires NumeralChars(t.start) && NumeralChars(t.end) && NumeralChars(t.duration)
    ensures ToInterval(t).Ok? <==> WellFormedNumeral(t.start) && WellFormedNumeral(t.end) && WellFormedNumeral(t.duration)
    ensures ToInterval(t).Ok? ==> var iv := ToInterval(t).value;
                                  iv.start >= 0.0 && iv.end >= 0.0 && iv.duration >= 0.0
  {
    PyFloatNumeral(t.start);
    PyFloatNumeral(t.end);
    PyFloatNumeral(t.duration);
    ParseUnsignedAccepts(t.start);
    ParseUnsignedAccepts(t.end);
    ParseUnsignedAccepts(t.duration);
  }

  /** The black-segment tokens of a raw (unstripped) diagnostic line. */
  function TokensOf(rawLine: string): Option<BlackTokens> {
    FindBlack(Strip(rawLine))
  }

  /** One pass of the loop body: nothing, one interval, or the exception it raises. */
  function ScanLine(rawLine: string, totalDuration: real): Result<Option<Interval>, DetectError>
  {
    var line := Strip(rawLine);
    if FindTimeToken(line).Some? && totalDuration == 0.0 then Err(ZeroTotalDuration)
    else
      match FindBlack(line)
      case None => Ok(None)
      case Some(t) =>
        match ToInterval(t)
        case Ok(iv) => Ok(Some(iv))
        case Err(e) => Err(e)
  }

  /** The outcome of the loop body on each line, in order. */
  function Scans(lines: seq<string>, totalDuration: real): (r: seq<Result<Option<Interval>, DetectError>>)
    ensures |r| == |lines|
    ensures forall k :: 0 <= k < |lines| ==> r[k] == ScanLine(lines[k], totalDuration)
  {
    if lines == [] then [] else Scans(lines[..|lines| - 1], totalDuration) + [ScanLine(lines[|lines| - 1], totalDuration)]
  }

  /** The intervals the outcomes append, or the first exception among them. */
  function Accumulate(scans: seq<Result<Option<Interval>, DetectError>>): Result<seq<Interval>, DetectError>
  {
    if scans == [] then Ok([])
    else
      match Accumulate(scans[..|scans| - 1])
      case Err(e) => Err(e)
      case Ok(xs) =>
        match scans[|scans| - 1]
        case Err(e) => Err(e)
        case Ok(None) => Ok(xs)
        case Ok(Some(iv)) => Ok(xs + [iv])
  }

  /** What the loop returns on a whole stream. */
  function Collect(lines: seq<string>, totalDuration: real): Result<seq<Interval>, DetectError>
  {
    Accumulate(Scans(lines, totalDuration))
  }

  /** The lines that carry a black-segment token, in their order. */
  function BlackLines(lines: seq<string>): (bl: seq<string>)
    ensures |bl| <= |lines|
  {
    if lines == [] then []
    else BlackLines(lines[..|lines| - 1]) + (if TokensOf(lines[|lines| - 1]).Some? then [lines[|lines| - 1]] else [])
  }

  /**
   * `detect_black_frames` after the child process is started: the loop over
   * the lines of its diagnostic stream, which is given here as a sequence.
   */
  method DetectBlackFrames(stderrLines: seq<string>, totalDuration: real) returns (r: Result<seq<Interval>, DetectError>)
    ensures r == Collect(stderrLines, totalDuration)
  {
    var blackFrames: seq<Interval> := [];
    ghost var scans := Scans(stderrLines, totalDuration);
    for i := 0 to |stderrLines|
      invariant Accumulate(scans[..i]) == Ok(blackFrames)
    {
      LoopStep(scans, i, blackFrames, stderrLines[i], totalDuration);
      var line := Strip(stderrLines[i]);
      var timeMatch := FindTimeToken(line);
      if timeMatch.Some? && totalDuration == 0.0 {
        return Err(ZeroTotalDuration);
      }
      var blackMatch := FindBlack(line);
      if blackMatch.Some? {
        var interval := ToInterval(blackMatch.value);
        if interval.Err? {
          return Err(interval.error);
        }
        blackFrames := blackFrames + [interval.value];
      }
    }
    assert scans[..|stderrLines|] == scans;
    r := Ok(blackFrames);
  }

  /** What the loop body's outcome on line `i` makes of the result, in the terms the loop body computes. */
  lemma LoopStep(scans: seq<Result<Option<Interval>, DetectError>>, i: nat, xs: seq<Interval>, rawLine: string, totalDuration: real)
    requires i < |scans| && Accumulate(scans[..i]) == Ok(xs)
    requires scans[i] == ScanLine(rawLine, totalDuration)
    ensures var line := Strip(rawLine);
            var raises := FindTimeToken(line).Some? && totalDuration == 0.0;
            && (raises ==> Accumulate(scans) == Err(ZeroTotalDuration))
            && (!raises && FindBlack(line).None? ==> Accumulate(scans[..i + 1]) == Ok(xs))
            && (!raises && FindBlack(line).Some? && ToInterval(FindBlack(line).value).Err? ==>
                  Accumulate(scans) == Err(ToInterval(FindBlack(line).value).error))
            && (!raises && FindBlack(line).Some? && ToInterval(FindBlack(line).value).Ok? ==>
                  Accumulate(scans[..i + 1]) == Ok(xs + [ToInterval(FindBlack(line).value).value]))
  {
    AccumulateStep(scans, i, xs);
    ScanLineCases(rawLine, totalDuration);
    if scans[i].Err? {
      FailureStops(scans, i + 1);
    }
  }

  /** One more outcome after a prefix that raised nothing. */
  lemma AccumulateStep(scans: seq<Result<Option<Interval>, DetectError>>, i: nat, xs: seq<Interval>)
    requires i < |scans| && Accumulate(scans[..i]) == Ok(xs)
    ensures scans[i].Err? ==> Accumulate(scans[..i + 1]) == Err(scans[i].error)
    ensures scans[i] == Ok(None) ==> Accumulate(scans[..i + 1]) == Ok(xs)
    ensures scans[i].Ok? && scans[i].value.Some? ==> Accumulate(scans[..i + 1]) == Ok(xs + [scans[i].value.value])
  {
    assert scans[..i + 1][..i] == scans[..i];
  }

  /** The three ways the loop body ends on one line. */
  lemma ScanLineCases(rawLine: string, totalDuration: real)
    ensures var line := Strip(rawLine);
            var raises := FindTimeToken(line).Some? && totalDuration == 0.0;
            && (raises ==> ScanLine(rawLine, totalDuration) == Err(ZeroTotalDuration))
            && (!raises && FindBlack(line).None? ==> ScanLine(rawLine, totalDuration) == Ok(None))
            && (!raises && FindBlack(line).Some? && ToInterval(FindBlack(line).value).Err? ==>
                  ScanLine(rawLine, totalDuration) == Err(ToInterval(FindBlack(line).value).error))
            && (!raises && FindBlack(line).Some? && ToInterval(FindBlack(line).value).Ok? ==>
                  ScanLine(rawLine, totalDuration) == Ok(Some(ToInterval(FindBlack(line).value).value)))
  {
  }

  /** Once a line raises, the lines after it change nothing: the exception is the outcome. */
  lemma {:induction false} FailureSticks(a: seq<Result<Option<Interval>, DetectError>>, b: seq<Result<Option<Interval>, DetectError>>)
    requires Accumulate(a).Err?
    ensures Accumulate(a + b) == Accumulate(a)
    decreases |b|
  {
    if b == [] {
      assert a + b == a;
    } else {
      var ab := a + b;
      assert ab[..|ab| - 1] == a + b[..|b| - 1];
      FailureSticks(a, b[..|b| - 1]);
    }
  }

  /** An exception on the `n`-th outcome is the result of the whole stream. */
  lemma FailureStops(scans: seq<Result<Option<Interval>, DetectError>>, n: nat)
    requires n <= |scans|
    requires Accumulate(scans[..n]).Err?
    ensures Accumulate(scans) == Accumulate(scans[..n])
  {
    assert scans == scans[..n] + scans[n..];
    FailureSticks(scans[..n], scans[n..]);
  }

  lemma {:induction false} AccumulateOkIff(scans: seq<Result<Option<Interval>, DetectError>>)
    ensures Accumulate(scans).Ok? <==> forall k :: 0 <= k < |scans| ==> scans[k].Ok?
  {
    if scans != [] {
      var front := scans[..|scans| - 1];
      AccumulateOkIff(front);
      assert forall k :: 0 <= k < |front| ==> front[k] == scans[k];
    }
  }

  /** The stream yields intervals exactly when no line raises. */
  lemma CollectOkIff(lines: seq<string>, totalDuration: real)
    ensures Collect(lines, totalDuration).Ok?
        <==> forall k :: 0 <= k < |lines| ==> ScanLine(lines[k], totalDuration).Ok?
  {
    AccumulateOkIff(Scans(lines, totalDuration));
  }

  /** A line whose loop body raises nothing yields an interval exactly when it carries the token. */
  lemma ScanLineTokens(line: string, totalDuration: real)
    requires ScanLine(line, totalDuration).Ok?
    ensures ScanLine(line, totalDuration).value.Some? <==> TokensOf(line).Some?
    ensures TokensOf(line).Some? ==> ToInterval(TokensOf(line).value) == Ok(ScanLine(line, totalDuration).value.value)
  {
    ScanLineCases(line, totalDuration);
  }

  /** The intervals the outcomes append, in order. */
  function Appended(scans: seq<Result<Option<Interval>, DetectError>>): (xs: seq<Interval>)
    ensures |xs| <= |scans|
  {
    if scans == [] then []
    else
      var last := scans[|scans| - 1];
      Appended(scans[..|scans| - 1]) + (if last.Ok? && last.value.Some? then [last.value.value] else [])
  }

  lemma {:induction false} AccumulateAppended(scans: seq<Result<Option<Interval>, DetectError>>)
    requires Accumulate(scans).Ok?
    ensures Accumulate(scans).value == Appended(scans)
  {
    if scans != [] {
      AccumulateAppended(scans[..|scans| - 1]);
    }
  }

  /** One more line adds its interval and itself to the two lists exactly when it carries the token. */
  lemma AppendedLast(lines: seq<string>, totalDuration: real)
    requires lines != [] && ScanLine(lines[|lines| - 1], totalDuration).Ok?
    ensures var front := lines[..|lines| - 1];
            var last := lines[|lines| - 1];
            var xs0 := Appended(Scans(front, totalDuration));
            var bl0 := BlackLines(front);
            if TokensOf(last).Some? then
              && Appended(Scans(lines, totalDuration)) == xs0 + [ScanLine(last, totalDuration).value.value]
              && BlackLines(lines) == bl0 + [last]
            else
              Appended(Scans(lines, totalDuration)) == xs0 && BlackLines(lines) == bl0
  {
    var front := lines[..|lines| - 1];
    var last := lines[|lines| - 1];
    var scans := Scans(lines, totalDuration);
    assert scans[..|scans| - 1] == Scans(front, totalDuration);
    ScanLineTokens(last, totalDuration);
  }

  /** `line` carries the token and its three numbers make the interval `x`. */
  predicate Yields(line: string, x: Interval) {
    TokensOf(line).Some? && ToInterval(TokensOf(line).value) == Ok(x)
  }

  /** The `k`-th interval is made from the `k`-th line, for every `k`. */
  predicate Pairwise(bl: seq<string>, xs: seq<Interval>) {
    |xs| == |bl| && forall k :: 0 <= k < |bl| ==> Yields(bl[k], xs[k])
  }

  lemma PairwiseGrow(bl: seq<string>, xs: seq<Interval>, line: string, x: Interval)
    requires Pairwise(bl, xs) && Yields(line, x)
    ensures Pairwise(bl + [line], xs + [x])
  {
    forall k | 0 <= k < |bl| + 1
      ensures Yields((bl + [line])[k], (xs + [x])[k])
    {
      if k < |bl| {
        assert (bl + [line])[k] == bl[k] && (xs + [x])[k] == xs[k];
      }
    }
  }

  lemma {:induction false} AppendedContents(lines: seq<string>, totalDuration: real)
    requires forall k :: 0 <= k < |lines| ==> ScanLine(lines[k], totalDuration).Ok?
    ensures Pairwise(BlackLines(lines), Appended(Scans(lines, totalDuration)))
  {
    if lines != [] {
      var front := lines[..|lines| - 1];
      var last := lines[|lines| - 1];
      assert forall k :: 0 <= k < |front| ==> front[k] == lines[k];
      AppendedContents(front, totalDuration);
      AppendedLast(lines, totalDuration);
      ScanLineTokens(last, totalDuration);
      if TokensOf(last).Some? {
        PairwiseGrow(BlackLines(front), Appended(Scans(front, totalDuration)), last,
                     ScanLine(last, totalDuration).value.value);
      }
    }
  }

  /**
   * When no line raises, the result holds one interval per line carrying the
   * black-segment token, in line order, each made of that line's three numbers.
   */
  lemma CollectContents(lines: seq<string>, totalDuration: real)
    requires Collect(lines, totalDuration).Ok?
    ensures var xs := Collect(lines, totalDuration).value;
            var bl := BlackLines(lines);
            && |xs| == |bl|
            && forall k :: 0 <= k < |bl| ==> TokensOf(bl[k]).Some? && ToInterval(TokensOf(bl[k]).value) == Ok(xs[k])
  {
    CollectOkIff(lines, totalDuration);
    AccumulateAppended(Scans(lines, totalDuration));
    AppendedContents(lines, totalDuration);
  }

  /** The number of intervals is the number of lines carrying the token. */
  lemma CollectCount(lines: seq<string>, totalDuration: real)
    requires Collect(lines, totalDuration).Ok?
    ensures |Collect(lines, totalDuration).value| == |BlackLines(lines)|
  {
    CollectContents(lines, totalDuration);
  }

  /** The groups the segment search returns are numerals over `[\d.]`. */
  lemma FoundTokensNumeral(line: string)
    requires FindBlack(line).Some?
    ensures var t := FindBlack(line).value;
            NumeralChars(t.start) && NumeralChars(t.end) && NumeralChars(t.duration)
  {
    FindBlackLeftmost(line);
  }

  /** Every interval the loop returns has non-negative start, end and duration. */
  lemma CollectNonNegative(lines: seq<string>, totalDuration: real)
    requires Collect(lines, totalDuration).Ok?
    ensures var xs := Collect(lines, totalDuration).value;
            forall k :: 0 <= k < |xs| ==> xs[k].start >= 0.0 && xs[k].end >= 0.0 && xs[k].duration >= 0.0
  {
    var xs := Collect(lines, totalDuration).value;
    var bl := BlackLines(lines);
    CollectContents(lines, totalDuration);
    forall k | 0 <= k < |xs|
      ensures xs[k].start >= 0.0 && xs[k].end >= 0.0 && xs[k].duration >= 0.0
    {
      FoundTokensNumeral(Strip(bl[k]));
      ToIntervalAccepts(TokensOf(bl[k]).value);
    }
  }

  /** One `name:value` field of a segment report, followed by its separator. */
  function Field(name: string, value: string, sep: string): string {
    name + value + sep
  }

  /** The text the filter writes for one dark segment, without the bracketed prefix. */
  function BlackLine(start: string, sep1: string, end: string, sep2: string, duration: string): string {
    Field("black_start:", start, sep1) + (Field("black_end:", end, sep2) + Field("black_duration:", duration, ""))
  }

  lemma SpaceIsNotNumeral(c: char)
    requires IsSpace(c)
    ensures !IsNumeralChar(c)
  {
  }

  lemma ValueAfterIs(line: string, at: nat, name: string, e: nat)
    requires LiteralAt(line, at, name) && at + |name| < e <= |line|
    requires RunEnd(line, at + |name|, IsNumeralChar) == e
    ensures ValueAfter(line, at, name) == Some(e)
  {
  }

  lemma SpacesAfterIs(line: string, at: nat, e: nat)
    requires at < e <= |line| && RunEnd(line, at, IsSpace) == e
    ensures SpacesAfter(line, at) == Some(e)
  {
  }

  /** A literal written at `p` holds each of its two halves. */
  lemma LiteralSplit(line: string, p: nat, u: string, v: string)
    requires LiteralAt(line, p, u + v)
    ensures LiteralAt(line, p, u) && LiteralAt(line, p + |u|, v)
  {
    var w := line[p..p + |u| + |v|];
    assert w == u + v;
    assert line[p..p + |u|] == w[..|u|];
    assert line[p + |u|..p + |u| + |v|] == w[|u|..];
  }

  /** The run of a class over a piece written at `at`, ended by a character outside the class. */
  lemma RunOverLiteral(line: string, at: nat, piece: string, inClass: char -> bool)
    requires LiteralAt(line, at, piece)
    requires forall k :: 0 <= k < |piece| ==> inClass(piece[k])
    requires at + |piece| == |line| || !inClass(line[at + |piece|])
    ensures RunEnd(line, at, inClass) == at + |piece|
  {
    forall k | at <= k < at + |piece|
      ensures inClass(line[k])
    {
      assert line[k] == line[at..at + |piece|][k - at];
    }
    RunEndIs(line, at, at + |piece|, inClass);
  }

  /** What the matcher reads from one field written at `at`. */
  lemma FieldAt(line: string, at: nat, name: string, value: string, sep: string)
    requires LiteralAt(line, at, Field(name, value, sep))
    requires |value| >= 1 && NumeralChars(value) && AllSpaces(sep)
    requires sep == [] ==> at + |Field(name, value, sep)| == |line| || !IsNumeralChar(line[at + |Field(name, value, sep)|])
    requires sep != [] ==> at + |Field(name, value, sep)| == |line| || !IsSpace(line[at + |Field(name, value, sep)|])
    ensures ValueAfter(line, at, name) == Some(at + |name| + |value|)
    ensures line[at + |name|..at + |name| + |value|] == value
    ensures sep != [] ==> SpacesAfter(line, at + |name| + |value|) == Some(at + |Field(name, value, sep)|)
  {
    var e := at + |name| + |value|;
    LiteralSplit(line, at, name + value, sep);
    LiteralSplit(line, at, name, value);
    if sep != [] {
      assert line[e] == line[e..e + |sep|][0];
      SpaceIsNotNumeral(sep[0]);
      RunOverLiteral(line, e, sep, IsSpace);
      SpacesAfterIs(line, e, e + |sep|);
    }
    RunOverLiteral(line, at + |name|, value, IsNumeralChar);
    ValueAfterIs(line, at, name, e);
  }

  lemma BlackMatchOfRunsRaw(line: string, p: nat, ea: nat, pb: nat, eb: nat, pc: nat, ec: nat)
    requires ValueAfter(line, p, "black_start:") == Some(ea)
    requires SpacesAfter(line, ea) == Some(pb)
    requires ValueAfter(line, pb, "black_end:") == Some(eb)
    requires SpacesAfter(line, eb) == Some(pc)
    requires ValueAfter(line, pc, "black_duration:") == Some(ec)
    ensures BlackMatchAt(line, p) == Some(BlackTokens(line[p + |"black_start:"|..ea], line[pb + |"black_end:"|..eb], line[pc + |"black_duration:"|..ec]))
  {
  }

  lemma BlackMatchOfRuns(line: string, p: nat, pb: nat, pc: nat, a: string, b: string, c: string)
    requires ValueAfter(line, p, "black_start:") == Some(p + |"black_start:"| + |a|)
    requires line[p + |"black_start:"|..p + |"black_start:"| + |a|] == a
    requires SpacesAfter(line, p + |"black_start:"| + |a|) == Some(pb)
    requires ValueAfter(line, pb, "black_end:") == Some(pb + |"black_end:"| + |b|)
    requires line[pb + |"black_end:"|..pb + |"black_end:"| + |b|] == b
    requires SpacesAfter(line, pb + |"black_end:"| + |b|) == Some(pc)
    requires ValueAfter(line, pc, "black_duration:") == Some(pc + |"black_duration:"| + |c|)
    requires line[pc + |"black_duration:"|..pc + |"black_duration:"| + |c|] == c
    ensures BlackMatchAt(line, p) == Some(BlackTokens(a, b, c))
  {
    BlackMatchOfRunsRaw(line, p, p + |"black_start:"| + |a|, pb, pb + |"black_end:"| + |b|, pc, pc + |"black_duration:"| + |c|);
  }


  lemma StartFieldAt(line: string, p: nat, a: string, sp1: string, f2: string)
    requires |a| >= 1 && NumeralChars(a) && |sp1| >= 1 && AllSpaces(sp1)
    requires LiteralAt(line, p, Field("black_start:", a, sp1))
    requires |f2| >= 1 && f2[0] == 'b' && LiteralAt(line, p + |Field("black_start:", a, sp1)|, f2)
    ensures ValueAfter(line, p, "black_start:") == Some(p + |"black_start:"| + |a|)
    ensures line[p + |"black_start:"|..p + |"black_start:"| + |a|] == a
    ensures SpacesAfter(line, p + |"black_start:"| + |a|) == Some(p + |Field("black_start:", a, sp1)|)
  {
    var pb := p + |Field("black_start:", a, sp1)|;
    assert line[pb] == 'b' by { assert line[pb] == line[pb..pb + |f2|][0]; }
    FieldAt(line, p, "black_start:", a, sp1);
  }

  lemma EndFieldAt(line: string, pb: nat, b: string, sp2: string, f3: string)
    requires |b| >= 1 && NumeralChars(b) && |sp2| >= 1 && AllSpaces(sp2)
    requires LiteralAt(line, pb, Field("black_end:", b, sp2))
    requires |f3| >= 1 && f3[0] == 'b' && LiteralAt(line, pb + |Field("black_end:", b, sp2)|, f3)
    ensures ValueAfter(line, pb, "black_end:") == Some(pb + |"black_end:"| + |b|)
    ensures line[pb + |"black_end:"|..pb + |"black_end:"| + |b|] == b
    ensures SpacesAfter(line, pb + |"black_end:"| + |b|) == Some(pb + |Field("black_end:", b, sp2)|)
  {
    var pc := pb + |Field("black_end:", b, sp2)|;
    assert line[pc] == 'b' by { assert line[pc] == line[pc..pc + |f3|][0]; }
    FieldAt(line, pb, "black_end:", b, sp2);
  }

  lemma DurationFieldAt(line: string, pc: nat, c: string)
    requires |c| >= 1 && NumeralChars(c)
    requires LiteralAt(line, pc, Field("black_duration:", c, ""))
    requires var e := pc + |Field("black_duration:", c, "")|; e == |line| || !IsNumeralChar(line[e])
    ensures ValueAfter(line, pc, "black_duration:") == Some(pc + |"black_duration:"| + |c|)
    ensures line[pc + |"black_duration:"|..pc + |"black_duration:"| + |c|] == c
  {
    FieldAt(line, pc, "black_duration:", c, "");
  }

  lemma MatchAfterEnd(line: string, p: nat, pb: nat, pc: nat, a: string, b: string, c: string)
    requires ValueAfter(line, p, "black_start:") == Some(p + |"black_start:"| + |a|)
    requires line[p + |"black_start:"|..p + |"black_start:"| + |a|] == a
    requires SpacesAfter(line, p + |"black_start:"| + |a|) == Some(pb)
    requires ValueAfter(line, pb, "black_end:") == Some(pb + |"black_end:"| + |b|)
    requires line[pb + |"black_end:"|..pb + |"black_end:"| + |b|] == b
    requires SpacesAfter(line, pb + |"black_end:"| + |b|) == Some(pc)
    requires |c| >= 1 && NumeralChars(c)
    requires LiteralAt(line, pc, Field("black_duration:", c, ""))
    requires pc + |Field("black_duration:", c, "")| == |line| || !IsNumeralChar(line[pc + |Field("black_duration:", c, "")|])
    ensures BlackMatchAt(line, p) == Some(BlackTokens(a, b, c))
  {
    DurationFieldAt(line, pc, c);
    BlackMatchOfRuns(line, p, pb, pc, a, b, c);
  }

  lemma MatchAfterStart(line: string, p: nat, pb: nat, pc: nat, a: string, b: string, sp2: string, c: string)
    requires ValueAfter(line, p, "black_start:") == Some(p + |"black_start:"| + |a|)
    requires line[p + |"black_start:"|..p + |"black_start:"| + |a|] == a
    requires SpacesAfter(line, p + |"black_start:"| + |a|) == Some(pb)
    requires |b| >= 1 && NumeralChars(b) && |c| >= 1 && NumeralChars(c) && |sp2| >= 1 && AllSpaces(sp2)
    requires LiteralAt(line, pb, Field("black_end:", b, sp2)) && pc == pb + |Field("black_end:", b, sp2)|
    requires LiteralAt(line, pc, Field("black_duration:", c, ""))
    requires pc + |Field("black_duration:", c, "")| == |line| || !IsNumeralChar(line[pc + |Field("black_duration:", c, "")|])
    ensures BlackMatchAt(line, p) == Some(BlackTokens(a, b, c))
  {
    EndFieldAt(line, pb, b, sp2, Field("black_duration:", c, ""));
    MatchAfterEnd(line, p, pb, pc, a, b, c);
  }

  lemma BlackFieldsMatch(line: string, p: nat, pb: nat, pc: nat, a: string, sp1: string, b: string, sp2: string, c: string)
    requires |a| >= 1 && NumeralChars(a) && |b| >= 1 && NumeralChars(b) && |c| >= 1 && NumeralChars(c)
    requires |sp1| >= 1 && AllSpaces(sp1) && |sp2| >= 1 && AllSpaces(sp2)
    requires LiteralAt(line, p, Field("black_start:", a, sp1)) && pb == p + |Field("black_start:", a, sp1)|
    requires LiteralAt(line, pb, Field("black_end:", b, sp2)) && pc == pb + |Field("black_end:", b, sp2)|
    requires LiteralAt(line, pc, Field("black_duration:", c, ""))
    requires pc + |Field("black_duration:", c, "")| == |line| || !IsNumeralChar(line[pc + |Field("black_duration:", c, "")|])
    ensures BlackMatchAt(line, p) == Some(BlackTokens(a, b, c))
  {
    StartFieldAt(line, p, a, sp1, Field("black_end:", b, sp2));
    MatchAfterStart(line, p, pb, pc, a, b, sp2, c);
  }

  /** The matcher at a position where a segment report is written reads back its three numerals. */
  lemma BlackLineAt(line: string, p: nat, a: string, sp1: string, b: string, sp2: string, c: string)
    requires |a| >= 1 && NumeralChars(a) && |b| >= 1 && NumeralChars(b) && |c| >= 1 && NumeralChars(c)
    requires |sp1| >= 1 && AllSpaces(sp1) && |sp2| >= 1 && AllSpaces(sp2)
    requires LiteralAt(line, p, BlackLine(a, sp1, b, sp2, c))
    requires p + |BlackLine(a, sp1, b, sp2, c)| == |line| || !IsNumeralChar(line[p + |BlackLine(a, sp1, b, sp2, c)|])
    ensures BlackMatchAt(line, p) == Some(BlackTokens(a, b, c))
  {
    var f1 := Field("black_start:", a, sp1);
    var f2 := Field("black_end:", b, sp2);
    var f3 := Field("black_duration:", c, "");
    LiteralSplit(line, p, f1, f2 + f3);
    LiteralSplit(line, p + |f1|, f2, f3);
    BlackFieldsMatch(line, p, p + |f1|, p + |f1| + |f2|, a, sp1, b, sp2, c);
  }

  /** No segment match can start before a `b` that is preceded by no underscore. */
  lemma NoStartBefore(line: string, n: nat)
    requires n < |line| && line[n] == 'b'
    requires forall k :: 0 <= k < n ==> line[k] != '_'
    ensures forall j :: 0 <= j < n ==> BlackMatchAt(line, j).None?
  {
    forall j | 0 <= j < n
      ensures BlackMatchAt(line, j).None?
    {
      if j + 12 <= |line| {
        if j + 5 < n {
          assert line[j..j + 12][5] != "black_start:"[5];
        } else {
          assert line[j..j + 12][n - j] != "black_start:"[n - j];
        }
      }
    }
  }

  /** A match at `p` with none before it is what the segment search returns. */
  lemma FindBlackAt(line: string, p: nat, m: BlackTokens)
    requires p <= |line| && BlackMatchAt(line, p) == Some(m)
    requires forall j :: 0 <= j < p ==> BlackMatchAt(line, j).None?
    ensures FindBlack(line) == Some(m)
  {
    FindBlackLeftmost(line);
    var r := FindBlack(line);
    assert r.Some?;
    var i :| 0 <= i <= |line| && BlackMatchAt(line, i) == r
             && forall j :: 0 <= j < i ==> BlackMatchAt(line, j).None?;
    assert i == p;
  }

  /**
   * The segment search reads back the three numerals of a segment report,
   * whatever prefix without an underscore comes before it (the filter's
   * bracketed `[blackdetect @ 0x...]` tag, say) and whatever follows that
   * does not extend the last numeral.
   */
  lemma BlackLineFound(pre: string, a: string, sp1: string, b: string, sp2: string, c: string, post: string)
    requires |a| >= 1 && NumeralChars(a) && |b| >= 1 && NumeralChars(b) && |c| >= 1 && NumeralChars(c)
    requires |sp1| >= 1 && AllSpaces(sp1) && |sp2| >= 1 && AllSpaces(sp2)
    requires '_' !in pre
    requires post == [] || !IsNumeralChar(post[0])
    ensures FindBlack(pre + BlackLine(a, sp1, b, sp2, c) + post) == Some(BlackTokens(a, b, c))
  {
    var rep := BlackLine(a, sp1, b, sp2, c);
    var line := pre + rep + post;
    ReportOpens(a, sp1, b, sp2, c);
    PlacedReport(pre, rep, post);
    BlackLineAt(line, |pre|, a, sp1, b, sp2, c);
    NoStartBefore(line, |pre|);
    FindBlackAt(line, |pre|, BlackTokens(a, b, c));
  }

  lemma ReportOpens(a: string, sp1: string, b: string, sp2: string, c: string)
    ensures |BlackLine(a, sp1, b, sp2, c)| >= 1 && BlackLine(a, sp1, b, sp2, c)[0] == 'b'
  {
  }

  /** Where a piece of text placed between a prefix and a suffix sits, and what borders it. */
  lemma PlacedReport(pre: string, rep: string, post: string)
    requires |rep| >= 1
    ensures var line := pre + rep + post;
            && LiteralAt(line, |pre|, rep)
            && line[|pre|] == rep[0]
            && (forall k :: 0 <= k < |pre| ==> line[k] == pre[k])
            && (post == [] ==> |pre| + |rep| == |line|)
            && (post != [] ==> line[|pre| + |rep|] == post[0])
  {
    LiteralBetween(pre, rep, post);
  }

  /** The progress token is `hh:mm:ss.f...`; its value is the elapsed time it spells. */
  lemma TimeTokenSeconds(line: string)
    requires FindTimeToken(line).Some?
    ensures var g := FindTimeToken(line).value;
            && |g| >= 10 && g[2] == ':' && g[5] == ':' && g[8] == '.'
            && TimeStrToSeconds(g)
               == DigitsValue(g[..2]) as real * 3600.0 + DigitsValue(g[3..5]) as real * 60.0 + DecimalValue(g[6..8], g[9..])
  {
    FindTimeTokenLeftmost(line);
    var g := FindTimeToken(line).value;
    var i :| 0 <= i <= |line| && TimeTokenAt(line, i) == Some(g);
    ClockTokenValue(g);
  }

  lemma ClockTokenValue(g: string)
    requires |g| >= 10
    requires AllDigits(g[..2]) && g[2] == ':' && AllDigits(g[3..5]) && g[5] == ':'
    requires AllDigits(g[6..8]) && g[8] == '.' && AllDigits(g[9..])
    ensures TimeStrToSeconds(g)
         == DigitsValue(g[..2]) as real * 3600.0 + DigitsValue(g[3..5]) as real * 60.0 + DecimalValue(g[6..8], g[9..])
  {
    assert g == g[..2] + ":" + g[3..5] + ":" + g[6..8] + "." + g[9..];
    TimeStrOfDigits(g[..2], g[3..5], g[6..8], g[9..]);
  }

  /** Where the outcomes raise, the exception is one of theirs. */
  lemma {:induction false} AccumulateErrorSource(scans: seq<Result<Option<Interval>, DetectError>>)
    requires Accumulate(scans).Err?
    ensures exists k :: 0 <= k < |scans| && scans[k] == Err(Accumulate(scans).error)
  {
    var front := scans[..|scans| - 1];
    if Accumulate(front).Err? {
      AccumulateErrorSource(front);
      var k :| 0 <= k < |front| && front[k] == Err(Accumulate(front).error);
      assert scans[k] == front[k];
    } else {
      assert scans[|scans| - 1] == Err(Accumulate(scans).error);
    }
  }

  /** With a known total duration, the only exception is a numeral `float()` refuses, taken from some line. */
  lemma NonZeroTotalErrors(lines: seq<string>, totalDuration: real)
    requires totalDuration != 0.0
    requires Collect(lines, totalDuration).Err?
    ensures Collect(lines, totalDuration).error.MalformedNumber?
    ensures exists k :: 0 <= k < |lines| && TokensOf(lines[k]).Some?
                        && ToInterval(TokensOf(lines[k]).value) == Err(Collect(lines, totalDuration).error)
  {
    var scans := Scans(lines, totalDuration);
    AccumulateErrorSource(scans);
    var k :| 0 <= k < |scans| && scans[k] == Err(Accumulate(scans).error);
    ScanLineCases(lines[k], totalDuration);
    var t := TokensOf(lines[k]).value;
    ConvertErrors(t, PyFloat(t.start), PyFloat(t.end), PyFloat(t.duration));
  }

  lemma ConvertErrors(t: BlackTokens, s: Option<real>, e: Option<real>, d: Option<real>)
    requires Convert(t, s, e, d).Err?
    ensures Convert(t, s, e, d).error.MalformedNumber?
  {
  }

  /**
   * Once the total duration is 0.0, the first progress line raises, unless
   * an earlier line has raised already.
   */
  lemma ZeroTotalRaises(lines: seq<string>, k: nat)
    requires k < |lines| && FindTimeToken(Strip(lines[k])).Some?
    requires forall j :: 0 <= j < k ==> ScanLine(lines[j], 0.0).Ok?
    ensures Collect(lines, 0.0) == Err(ZeroTotalDuration)
  {
    var scans := Scans(lines, 0.0);
    ScanLineCases(lines[k], 0.0);
    RaisesAt(scans, k, ZeroTotalDuration);
  }

  /** The first outcome that raises decides the result. */
  lemma RaisesAt(scans: seq<Result<Option<Interval>, DetectError>>, k: nat, e: DetectError)
    requires k < |scans| && scans[k] == Err(e)
    requires forall j :: 0 <= j < k ==> scans[j].Ok?
    ensures Accumulate(scans) == Err(e)
  {
    assert forall j :: 0 <= j < k ==> scans[..k][j] == scans[j];
    AccumulateOkIff(scans[..k]);
    AccumulateStep(scans, k, Accumulate(scans[..k]).value);
    FailureStops(scans, k + 1);
  }

  /** A line without a progress token does not depend on the total duration. */
  lemma ScanLineWithoutProgress(rawLine: string, total1: real, total2: real)
    requires FindTimeToken(Strip(rawLine)).None?
    ensures ScanLine(rawLine, total1) == ScanLine(rawLine, total2)
  {
    ScanLineCases(rawLine, total1);
    ScanLineCases(rawLine, total2);
  }

  /** A line without `=` holds no progress token. */
  lemma NoTimeTokenWithoutEquals(line: string)
    requires forall k :: 0 <= k < |line| ==> line[k] != '='
    ensures FindTimeToken(line).None?
  {
    forall i | 0 <= i <= |line|
      ensures TimeTokenAt(line, i).None?
    {
      if i + 5 <= |line| {
        assert line[i..i + 5][4] != "time="[4];
      }
    }
    FindTimeTokenLeftmost(line);
  }

  /** A progress token at `p` with none before it is what the progress search returns. */
  lemma FindTimeTokenAt(line: string, p: nat, g: string)
    requires p <= |line| && TimeTokenAt(line, p) == Some(g)
    requires forall j :: 0 <= j < p ==> TimeTokenAt(line, j).None?
    ensures FindTimeToken(line) == Some(g)
  {
    FindTimeTokenLeftmost(line);
    var r := FindTimeToken(line);
    assert r.Some?;
    var i :| 0 <= i <= |line| && TimeTokenAt(line, i) == r
             && forall j :: 0 <= j < i ==> TimeTokenAt(line, j).None?;
    assert i == p;
  }

  /** A stream of one line. */
  lemma CollectOne(line: string, totalDuration: real)
    ensures Collect([line], totalDuration) == Accumulate([ScanLine(line, totalDuration)])
  {
    assert [line][..0] == [];
    assert Scans([line], totalDuration) == [ScanLine(line, totalDuration)];
  }

  lemma AccumulateOne(x: Result<Option<Interval>, DetectError>)
    ensures x.Err? ==> Accumulate([x]) == Err(x.error)
    ensures x.Ok? && x.value.Some? ==> Accumulate([x]) == Ok([x.value.value])
  {
    assert [x][..0] == [];
    if x.Ok? && x.value.Some? {
      assert [] + [x.value.value] == [x.value.value];
    }
  }

  /** The tag the filter writes before its reports. */
  const ExamplePrefix: string := "[blackdetect @ 0x1] "

  /**
   * `[blackdetect @ 0x1] black_start:<a> black_end:2.5 black_duration:2.5`.
   * The trailing `[]` is the empty text after the report, so that the line
   * has the `pre + report + post` shape `BlackLineFound` is stated on.
   */
  function ExampleLine(a: string): string {
    ExamplePrefix + BlackLine(a, " ", "2.5", " ", "2.5") + []
  }

  lemma NoEqualsInReport(a: string)
    requires '=' !in a
    ensures forall k :: 0 <= k < |ExampleLine(a)| ==> ExampleLine(a)[k] != '='
  {
    var line := ExampleLine(a);
    assert '=' !in line;
    assert forall k :: 0 <= k < |line| ==> line[k] in line;
  }

  lemma ExampleLineEnds(a: string)
    ensures |ExampleLine(a)| >= 2 && ExampleLine(a)[0] == '[' && ExampleLine(a)[|ExampleLine(a)| - 1] == '5'
  {
    var tail := Field("black_duration:", "2.5", "");
    assert ExampleLine(a) == (ExamplePrefix + (Field("black_start:", a, " ") + Field("black_end:", "2.5", " "))) + tail;
    assert tail[|tail| - 1] == '5';
  }

  lemma ExamplePieces()
    ensures |"2.5"| >= 1 && NumeralChars("2.5") && |" "| >= 1 && AllSpaces(" ") && '_' !in ExamplePrefix
  {
  }

  /** The example line carries the tokens it was written with and no progress token. */
  lemma ExampleTokens(a: string)
    requires |a| >= 1 && NumeralChars(a) && '=' !in a
    ensures TokensOf(ExampleLine(a)) == Some(BlackTokens(a, "2.5", "2.5"))
    ensures FindTimeToken(Strip(ExampleLine(a))).None?
  {
    ExampleLineEnds(a);
    StripUnchanged(ExampleLine(a));
    ExampleFound(a);
    ExampleNoProgress(a);
  }

  lemma ExampleFound(a: string)
    requires |a| >= 1 && NumeralChars(a)
    ensures FindBlack(ExampleLine(a)) == Some(BlackTokens(a, "2.5", "2.5"))
  {
    ExamplePieces();
    BlackLineFound(ExamplePrefix, a, " ", "2.5", " ", "2.5", []);
  }

  lemma ExampleNoProgress(a: string)
    requires '=' !in a
    ensures FindTimeToken(ExampleLine(a)).None?
  {
    NoEqualsInReport(a);
    NoTimeTokenWithoutEquals(ExampleLine(a));
  }

  lemma ZeroNumeral()
    ensures PyFloat("0") == Some(0.0)
  {
    assert NumeralChars("0");
    PyFloatNumeral("0");
    ParseDigits("0");
  }

  lemma DecimalNumeral(s: string, i: string, f: string)
    requires AllDigits(i) && AllDigits(f) && |i| >= 1
    requires s == i + "." + f
    ensures PyFloat(s) == Some(DecimalValue(i, f))
  {
    assert NumeralChars(s);
    PyFloatNumeral(s);
    ParseDecimalNumeral(i, f);
  }

  lemma TwoAndAHalfValue()
    ensures DecimalValue("2", "5") == 2.5
  {
    assert DigitsValue("2") == 2 && DigitsValue("5") == 5;
    assert Pow10(1) == 10;
  }

  lemma TwoAndAHalfNumeral()
    ensures PyFloat("2.5") == Some(2.5)
  {
    DecimalNumeral("2.5", "2", "5");
    TwoAndAHalfValue();
  }

  lemma TwoPointsCount()
    ensures Count("1.2.3", '.') == 2
  {
    assert "1.2.3"[1..] == ".2.3" && ".2.3"[1..] == "2.3" && "2.3"[1..] == ".3";
    assert ".3"[1..] == "3" && "3"[1..] == [];
  }

  lemma TwoPointsNumeral()
    ensures PyFloat("1.2.3") == None
  {
    assert NumeralChars("1.2.3");
    PyFloatNumeral("1.2.3");
    TwoPointsCount();
    ParseUnsignedAccepts("1.2.3");
  }

  /** A segment report yields its interval, whatever the total duration. */
  lemma SegmentLineExample(totalDuration: real)
    ensures Collect([ExampleLine("0")], totalDuration) == Ok([Interval(0.0, 2.5, 2.5)])
  {
    var line := ExampleLine("0");
    ExampleTokens("0");
    ZeroNumeral();
    TwoAndAHalfNumeral();
    ScanLineCases(line, totalDuration);
    CollectOne(line, totalDuration);
    AccumulateOne(ScanLine(line, totalDuration));
  }

  /** `float("1.2.3")` raises, and the loop with it. */
  lemma MalformedLineExample(totalDuration: real)
    ensures Collect([ExampleLine("1.2.3")], totalDuration) == Err(MalformedNumber("1.2.3"))
  {
    var line := ExampleLine("1.2.3");
    ExampleTokens("1.2.3");
    TwoPointsNumeral();
    ScanLineCases(line, totalDuration);
    CollectOne(line, totalDuration);
    AccumulateOne(ScanLine(line, totalDuration));
  }

  lemma ProgressToken(line: string)
    requires line == "time=00:00:01.50"
    ensures TimeTokenAt(line, 0) == Some("00:00:01.50")
    ensures FindTimeToken(line) == Some("00:00:01.50")
  {
    assert line[..5] == "time=";
    RunEndIs(line, 14, 16, IsDigit);
    assert line[5..16] == "00:00:01.50";
    FindTimeTokenAt(line, 0, "00:00:01.50");
  }

  /** A stream whose one line carries a time token raises on a total of 0.0. */
  lemma SingleProgressLineRaises(line: string)
    requires FindTimeToken(Strip(line)).Some?
    ensures Collect([line], 0.0) == Err(ZeroTotalDuration)
  {
    ZeroTotalRaises([line], 0);
  }

  /** A progress line reads its elapsed time, and divides by a total of 0.0. */
  lemma ProgressLineExample()
    ensures Collect(["time=00:00:01.50"], 0.0) == Err(ZeroTotalDuration)
  {
    var line := "time=00:00:01.50";
    ProgressToken(line);
    StripUnchanged(line);
    SingleProgressLineRaises(line);
  }
}
