/**
 * What `main` prints once the executables are found: the offset read from
 * the `<video>.ini` sidecar, the total duration, then one line per dark
 * segment with its start and end shifted by the offset, and the count.
 * Each printed message is one element of the output; a leading `\n` in a
 * message is kept in its text.
 */
module Report {
  import opened Wrappers
  import opened Text
  import opened Numbers
  import opened TimeCodec
  import opened IniOffset
  import opened BlackDetect

  /** The sidecar as `main` finds it: missing, present but unreadable, or read. */
  datatype Sidecar = Absent | Unreadable | Readable(content: string)

  const NoSidecarMessage: string := "Aucun fichier INI associé trouvé. Aucune correction d'offset ne sera appliquée."
  const FoundBanner: string := "\nSéquences noires détectées :"
  const NoneBanner: string := "\nAucune séquence noire détectée."
  const StartLabel: string := "Début : "
  const EndLabel: string := " Fin : "
  const DurationLabel: string := " Durée : "

  /** The offset `main` applies: 0.0 without a sidecar, else what `parse_ini_offset` returns. */
  function SidecarOffset(sidecar: Sidecar): (offset: real)
    ensures offset >= 0.0
    ensures sidecar.Absent? || sidecar.Unreadable? ==> offset == 0.0
  {
    match sidecar
    case Absent => 0.0
    case Unreadable => ParseIniOffset(None)
    case Readable(content) => ParseIniOffset(Some(content))
  }

  function OffsetMessage(offset: real): string {
    "Offset START_TIME détecté : " + FormatTimeFull(offset)
  }

  function DurationMessage(totalDuration: real): string {
    "Durée totale de la vidéo : " + FormatTimeFull(totalDuration)
  }

  /** `Début : <debut>, Fin : <fin>, Durée : <duree>`, around three rendered times. */
  function EntryLine(debut: string, fin: string, duree: string): string {
    StartLabel + debut + "," + EndLabel + fin + "," + DurationLabel + duree
  }

  /** A segment as `main` prints it: start and end moved by the offset, the duration as detected. */
  function Shifted(segment: Interval, offset: real): Interval {
    Interval(segment.start + offset, segment.end + offset, segment.duration)
  }

  /** The entry printed for a segment already shifted by the offset. */
  function Entry(shown: Interval): string {
    EntryLine(FormatTimeFull(shown.start), FormatTimeFull(shown.end), FormatTimeFull(shown.duration))
  }

  function CountLine(n: nat): string {
    "\nNombres de séquences détectées = " + NatToDigits(n) + " Séquences"
  }

  /** Every segment of `results` as `main` prints it. */
  function ShiftAll(results: seq<Interval>, offset: real): (shown: seq<Interval>)
    ensures |shown| == |results|
    ensures forall k :: 0 <= k < |results| ==> shown[k] == Shifted(results[k], offset)
  {
    seq(|results|, k requires 0 <= k < |results| => Shifted(results[k], offset))
  }

  /** The entries printed for the first `n` shifted segments, in order. */
  function Entries(shown: seq<Interval>, n: nat): (lines: seq<string>)
    requires n <= |shown|
    ensures |lines| == n
  {
    if n == 0 then [] else Entries(shown, n - 1) + [Entry(shown[n - 1])]
  }

  /** Printing the entry of segment `k` after those before it gives the first `k + 1` entries. */
  lemma EntriesGrow(shown: seq<Interval>, k: nat, printed: seq<string>, line: string)
    requires k < |shown|
    requires printed == [FoundBanner] + Entries(shown, k)
    requires line == Entry(shown[k])
    ensures printed + [line] == [FoundBanner] + Entries(shown, k + 1)
  {
    assert Entries(shown, k + 1) == Entries(shown, k) + [line];
  }

  /**
   * The report on `results`: the banner that says whether any segment was
   * found, one entry per segment in order, and the count.
   */
  predicate IsReport(out: seq<string>, results: seq<Interval>, offset: real) {
    out == [if |results| > 0 then FoundBanner else NoneBanner] + Entries(ShiftAll(results, offset), |results|) + [CountLine(|results|)]
  }

  /**
   * A report has two lines more than there are segments: the found banner
   * exactly when some segment was found, and the count last.
   */
  lemma ReportShape(out: seq<string>, results: seq<Interval>, offset: real)
    requires IsReport(out, results, offset)
    ensures |out| == |results| + 2
    ensures out[0] == FoundBanner <==> |results| > 0
    ensures out[|out| - 1] == CountLine(|results|)
  {
    BannersDiffer();
  }

  /** The two banners differ from their second character on. */
  lemma BannersDiffer()
    ensures FoundBanner != NoneBanner
  {
    assert FoundBanner[1] != NoneBanner[1];
  }

  /**
   * The body of the loop in `main`: one segment, shifted by the offset and
   * rendered. When the shifted times are not negative, the line reads back
   * as their whole seconds.
   */
  method PrintEntry(segment: Interval, offset: real) returns (line: string)
    ensures line == Entry(Shifted(segment, offset))
    ensures var shown := Shifted(segment, offset);
            shown.start >= 0.0 && shown.end >= 0.0 && shown.duration >= 0.0 ==>
              ReadEntry(line) == Some((shown.start.Floor as real, shown.end.Floor as real, shown.duration.Floor as real))
  {
    var shown := Shifted(segment, offset);
    var debut := FormatTimeFull(shown.start);
    var fin := FormatTimeFull(shown.end);
    var duree := FormatTimeFull(shown.duration);
    line := EntryLine(debut, fin, duree);
    if shown.start >= 0.0 && shown.end >= 0.0 && shown.duration >= 0.0 {
      EntryReadBack(shown.start, shown.end, shown.duration);
    }
  }

  /** Lines 237-248 of `main`: the banner, the loop over the segments, the count. */
  method PrintReport(results: seq<Interval>, offset: real) returns (out: seq<string>)
    ensures IsReport(out, results, offset)
  {
    if |results| > 0 {
      out := [FoundBanner];
      for k := 0 to |results|
        invariant out == [FoundBanner] + Entries(ShiftAll(results, offset), k)
      {
        var line := PrintEntry(results[k], offset);
        EntriesGrow(ShiftAll(results, offset), k, out, line);
        out := out + [line];
      }
    } else {
      out := [NoneBanner];
    }
    out := out + [CountLine(|results|)];
  }

  /**
   * `main` after the executables are found: the offset message, the total
   * duration, then the report. An exception raised by the detection loop
   * escapes `main` after the first two messages and nothing more is printed.
   */
  method Run(sidecar: Sidecar, totalDuration: real, stderrLines: seq<string>)
    returns (out: seq<string>, failure: Option<DetectError>)
    ensures |out| >= 2
    ensures out[0] == if sidecar.Absent? then NoSidecarMessage else OffsetMessage(SidecarOffset(sidecar))
    ensures out[1] == DurationMessage(totalDuration)
    ensures Collect(stderrLines, totalDuration).Err? ==>
              failure == Some(Collect(stderrLines, totalDuration).error) && |out| == 2
    ensures Collect(stderrLines, totalDuration).Ok? ==>
              failure.None? && IsReport(out[2..], Collect(stderrLines, totalDuration).value, SidecarOffset(sidecar))
  {
    var offset := 0.0;
    var first: string;
    if sidecar.Absent? {
      first := NoSidecarMessage;
    } else {
      offset := ParseIniOffset(if sidecar.Readable? then Some(sidecar.content) else None);
      first := OffsetMessage(offset);
    }
    out := [first, DurationMessage(totalDuration)];
    var results := DetectBlackFrames(stderrLines, totalDuration);
    if results.Err? {
      return out, Some(results.error);
    }
    var report := PrintReport(results.value, offset);
    assert (out + report)[2..] == report;
    out := out + report;
    failure := None;
  }

  /** Reads an entry line back: its three labelled fields, each read as `hh:mm:ss`. */
  function ReadEntry(line: string): Option<(real, real, real)> {
    var parts := Split(line, ',');
    if |parts| == 3 && LiteralAt(parts[0], 0, StartLabel) && LiteralAt(parts[1], 0, EndLabel)
       && LiteralAt(parts[2], 0, DurationLabel)
    then Some((TimeStrToSeconds(parts[0][|StartLabel|..]), TimeStrToSeconds(parts[1][|EndLabel|..]),
               TimeStrToSeconds(parts[2][|DurationLabel|..])))
    else None
  }

  lemma NoCommaInDigits(s: string)
    requires AllDigits(s)
    ensures ',' !in s
  {
    assert forall k :: 0 <= k < |s| ==> s[k] != ',';
  }

  /** A non-negative time renders without a comma. */
  lemma NoCommaInTime(x: real)
    requires x >= 0.0
    ensures ',' !in FormatTimeFull(x)
  {
    var c := ClockOf(x);
    JoinFour(FormatInt(c.hours, 2), FormatInt(c.minutes, 2), FormatInt(c.secs, 2), FormatInt(c.msecs, 3), ':');
    FormatIntDigits(c.hours, 2);
    FormatIntDigits(c.minutes, 2);
    FormatIntDigits(c.secs, 2);
    FormatIntDigits(c.msecs, 3);
    NoCommaInDigits(FormatInt(c.hours, 2));
    NoCommaInDigits(FormatInt(c.minutes, 2));
    NoCommaInDigits(FormatInt(c.secs, 2));
    NoCommaInDigits(FormatInt(c.msecs, 3));
  }

  /** A rendered non-negative time is a field without a comma that reads back as its whole seconds. */
  lemma TimeField(x: real)
    requires x >= 0.0
    ensures ',' !in FormatTimeFull(x) && TimeStrToSeconds(FormatTimeFull(x)) == x.Floor as real
  {
    NoCommaInTime(x);
    FormatThenRead(x);
  }

  /** A labelled field followed by nothing else keeps the rendered time after its label. */
  lemma LabelledField(name: string, time: string)
    ensures LiteralAt(name + time, 0, name) && (name + time)[|name|..] == time
  {
    assert (name + time)[..|name|] == name;
  }

  /** Splitting three comma-free labelled fields joined by commas finds the three fields again. */
  lemma ReadJoined(p0: string, p1: string, p2: string)
    requires ',' !in p0 && ',' !in p1 && ',' !in p2
    requires LiteralAt(p0, 0, StartLabel) && LiteralAt(p1, 0, EndLabel) && LiteralAt(p2, 0, DurationLabel)
    ensures ReadEntry(p0 + [','] + p1 + [','] + p2)
         == Some((TimeStrToSeconds(p0[|StartLabel|..]), TimeStrToSeconds(p1[|EndLabel|..]),
                  TimeStrToSeconds(p2[|DurationLabel|..])))
  {
    JoinThree(p0, p1, p2, ',');
    SplitJoin([p0, p1, p2], ',');
  }

  /** An entry made of three comma-free times reads back as those three times. */
  lemma EntryFieldsRead(a: string, b: string, c: string)
    requires ',' !in a && ',' !in b && ',' !in c
    ensures ReadEntry(EntryLine(a, b, c)) == Some((TimeStrToSeconds(a), TimeStrToSeconds(b), TimeStrToSeconds(c)))
  {
    assert ',' !in StartLabel && ',' !in EndLabel && ',' !in DurationLabel;
    LabelledField(StartLabel, a);
    LabelledField(EndLabel, b);
    LabelledField(DurationLabel, c);
    assert StartLabel + a + "," + EndLabel + b + "," + DurationLabel + c
        == (StartLabel + a) + [','] + (EndLabel + b) + [','] + (DurationLabel + c);
    ReadJoined(StartLabel + a, EndLabel + b, DurationLabel + c);
  }

  /**
   * Reading an entry back gives the whole seconds of the three times it
   * shows; the milliseconds field is not read.
   */
  lemma EntryReadBack(start: real, end: real, duration: real)
    requires start >= 0.0 && end >= 0.0 && duration >= 0.0
    ensures ReadEntry(EntryLine(FormatTimeFull(start), FormatTimeFull(end), FormatTimeFull(duration)))
         == Some((start.Floor as real, end.Floor as real, duration.Floor as real))
  {
    TimeField(start);
    TimeField(end);
    TimeField(duration);
    EntryFieldsRead(FormatTimeFull(start), FormatTimeFull(end), FormatTimeFull(duration));
  }

  /** The `k`-th entry renders the `k`-th shifted segment. */
  lemma {:induction false} EntriesAt(shown: seq<Interval>, n: nat, k: nat)
    requires k < n <= |shown|
    ensures Entries(shown, n)[k] == Entry(shown[k])
  {
    if k < n - 1 {
      EntriesAt(shown, n - 1, k);
    }
  }

  /** Line `k + 1` of a report is the entry of segment `k`, shifted by the offset. */
  lemma ReportEntry(out: seq<string>, results: seq<Interval>, offset: real, k: nat)
    requires IsReport(out, results, offset) && k < |results|
    ensures out[k + 1] == Entry(Shifted(results[k], offset))
  {
    EntriesAt(ShiftAll(results, offset), |results|, k);
  }

  /**
   * Line `k + 1` of a report reads back as segment `k` shifted by the
   * offset, rounded down to the second, when those times are not negative.
   */
  lemma ReportLineReadBack(out: seq<string>, results: seq<Interval>, offset: real, k: nat)
    requires IsReport(out, results, offset) && k < |results|
    requires var shown := Shifted(results[k], offset); shown.start >= 0.0 && shown.end >= 0.0 && shown.duration >= 0.0
    ensures var shown := Shifted(results[k], offset);
            ReadEntry(out[k + 1]) == Some((shown.start.Floor as real, shown.end.Floor as real, shown.duration.Floor as real))
  {
    ReportEntry(out, results, offset, k);
    var shown := Shifted(results[k], offset);
    EntryReadBack(shown.start, shown.end, shown.duration);
  }

  /**
   * Every entry of the report on a stream that raised nothing reads back as
   * its segment shifted by the offset, rounded down to the second.
   */
  lemma RunEntriesReadBack(sidecar: Sidecar, totalDuration: real, stderrLines: seq<string>, report: seq<string>)
    requires Collect(stderrLines, totalDuration).Ok?
    requires IsReport(report, Collect(stderrLines, totalDuration).value, SidecarOffset(sidecar))
    ensures var xs := Collect(stderrLines, totalDuration).value;
            forall k :: 0 <= k < |xs| ==>
              var shown := Shifted(xs[k], SidecarOffset(sidecar));
              ReadEntry(report[k + 1]) == Some((shown.start.Floor as real, shown.end.Floor as real, shown.duration.Floor as real))
  {
    var xs := Collect(stderrLines, totalDuration).value;
    var offset := SidecarOffset(sidecar);
    CollectNonNegative(stderrLines, totalDuration);
    forall k | 0 <= k < |xs|
      ensures var shown := Shifted(xs[k], offset);
              ReadEntry(report[k + 1]) == Some((shown.start.Floor as real, shown.end.Floor as real, shown.duration.Floor as real))
    {
      ReportLineReadBack(report, xs, offset, k);
    }
  }
}
