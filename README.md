# Black-segment detector: a verified model

`detect_black.py` runs a video through the `blackdetect` filter of an
external media tool and reads the tool's diagnostic stream line by line. It
keeps each reported dark segment (`black_start:<s> black_end:<e>
black_duration:<d>`) as an interval of seconds and follows the `time=`
progress tokens. When a `<video>.ini` sidecar holds a
`START_TIME="10h36m22.010s"` assignment, its value shifts every printed start
and end time. The report prints each segment as `hh:mm:ss:mmm` times,
followed by the number of segments.

The model follows the source function by function:

| module | file | models |
|---|---|---|
| `Wrappers` | `wrappers.dfy` | `Option` and `Result` |
| `Text` | `text.dfy` | `str.strip`, `str.split`, `sep.join`, the `\s` class, the leftmost-position scan of `re.search` |
| `Numbers` | `numbers.dfy` | decimal numerals, `float()` on them, `str(n)` and `f"{n:0W}"` |
| `TimeCodec` | `time_codec.dfy` | `time_str_to_seconds` and `format_time_full` |
| `IniOffset` | `ini_offset.dfy` | `parse_ini_offset`: the `START_TIME` search and the `h`/`m`/`s` time pattern |
| `BlackDetect` | `black_detect.dfy` | the line loop of `detect_black_frames`, with its two regular expressions |
| `Report` | `report.dfy` | what `main` prints once the executables are found |

Times are exact reals. A value that Python computes with `float` arithmetic
is computed here without rounding, and the model writes out the
operations Python applies:
- `//` and `%` on floats round towards minus infinity, and the remainder takes the sign of the divisor.
- `int()` truncates towards zero.
- A failed `float()` is an error value.

The regular expressions are matched by hand-written scanners. Each pattern
used is deterministic under greedy matching: every character class is
disjoint from the literal that follows it. So the longest run followed by
the literal is the match Python's backtracking engine finds. `re.search`
tries positions 0, 1, … in turn, which `Text.Search` models.

The loop of `detect_black_frames` is the method `BlackDetect.DetectBlackFrames`.
It is proved against the function `BlackDetect.Collect`, and the properties of
the loop's result are lemmas about `Collect`. The report loop of `main` is
the method `Report.PrintReport`, proved against the predicate
`Report.IsReport`. `Report.Run` chains the offset, the detection and the report.

Two exceptions escape the source's loop, and the model keeps both as
`BlackDetect.DetectError`:
- A `[\d.]+` token such as `1.2.3` that `float()` refuses gives `MalformedNumber`.
- A progress token read while the total duration is `0.0` gives `ZeroTotalDuration`, since Python's float division raises `ZeroDivisionError`.

Neither exception is caught, so `main` stops after its first two messages.
Only an unreadable or malformed sidecar is recovered from
(`detect_black.py`, lines 139-141).

## Model

| member | source | states |
|---|---|---|
| Text.Strip | detect_black.py:176 | `line.strip()` neither starts nor ends with whitespace and is no longer than the line |
| Text.StripSurrounded | detect_black.py:176 | stripping removes exactly the whitespace around a text and keeps the text |
| Text.Split | detect_black.py:93 | `split(':')` yields one more piece than there are separators, and no piece holds the separator |
| Text.SplitJoin | detect_black.py:93 | splitting a join of separator-free pieces gives the pieces back |
| Text.JoinSplit | detect_black.py:93 | joining the pieces of a split gives the string back |
| Text.Search | detect_black.py:177 | `re.search` returns the leftmost position where the pattern matches, and nothing when no position matches |
| Numbers.NatToDigits | detect_black.py:248 | `str(n)` is a digit string without leading zeros whose value is `n` |
| Numbers.PadDigitsValue | detect_black.py:111 | zero padding gives a digit string of at least the width, whose value is `n`; the width is exact when `n < 10^width` |
| Numbers.FormatIntDigits | detect_black.py:111 | `f"{n:02}"` / `f"{n:03}"`: for `n >= 0` an all-digit field of the value and width; for `n < 0` a minus sign before the digits of `-n` |
| Numbers.PyFloat | detect_black.py:94-96 | `float()` on a stripped, optionally signed numeral; on bare numerals it is `ParseUnsigned` (`PyFloatNumeral`) |
| Numbers.ParseUnsigned | detect_black.py:188-190 | `float()` on a `[\d.]` numeral; its results are never negative, and when it succeeds and what it returns are stated by `ParseUnsignedAccepts`, `ParseDecimalNumeral` and `ParseDigits` |
| Numbers.ParseUnsignedAccepts | detect_black.py:188-190 | `float()` accepts a `[\d.]` token exactly when it holds at most one point and at least one digit |
| Numbers.ParseDecimalNumeral | detect_black.py:94-96 | `float("i.f")` is the decimal value of `i.f` |
| Numbers.ParseDigits | detect_black.py:94-96 | `float()` of a plain digit string is its value |
| Numbers.PyFloatNumeral | detect_black.py:94-96 | on a bare numeral `float()` reads the unsigned numeral |
| TimeCodec.TimeStrToSeconds | detect_black.py:88-99 | `time_str_to_seconds`; its value on every input shape is stated by `TimeStrFields`, `TimeStrTooFewFields`, `TimeStrBadField` and `TimeStrOfDigits` |
| TimeCodec.TimeStrFields | detect_black.py:92-97 | three readable colon-free fields, followed by any further fields, read as `h*3600 + m*60 + s`; extra fields are ignored |
| TimeCodec.TimeStrTooFewFields | detect_black.py:93-99 | fewer than three fields (an `IndexError` in the source) read as 0.0 |
| TimeCodec.TimeStrBadField | detect_black.py:94-99 | a field among the first three that `float()` refuses makes the result 0.0 |
| TimeCodec.TimeStrOfDigits | detect_black.py:88-97 | an `HH:MM:SS.f` digit token reads as its exact number of seconds |
| TimeCodec.TimeStrExample | detect_black.py:88-99 | `"00:14:27.799"` reads as 867.799 |
| TimeCodec.Trunc | detect_black.py:107-110 | `int()` on a float is the floor for non-negative values and rounds towards zero for negative ones |
| TimeCodec.FloorMod | detect_black.py:108-109 | float `%` by a positive divisor lies in `[0, divisor)` |
| TimeCodec.ClockOf | detect_black.py:107-110 | for a non-negative time, minutes and seconds are below 60 and milliseconds below 1000, `h*3600 + m*60 + s` is the whole seconds, and the milliseconds are the truncated thousandths of the fraction |
| TimeCodec.FormatTimeFull | detect_black.py:102-111 | `format_time_full`; its fields are stated by `ClockOf` and `FormatTimeFullFields`, and its read-back by `FormatThenRead` |
| TimeCodec.FormatTimeFullFields | detect_black.py:102-111 | a non-negative time renders as four colon-separated digit fields (hours at least two wide, then 2, 2, 3) that spell the clock fields |
| TimeCodec.FormatThenRead | detect_black.py:88-111 | reading a rendered time back with `time_str_to_seconds` gives its whole seconds, because the reader stops at the third field |
| TimeCodec.FormatTimeFullExample | detect_black.py:102-111 | 867.799 renders as `"00:14:27:799"` |
| IniOffset.AssignmentAt | detect_black.py:127 | a match of `START_TIME\s*=\s*"([^"]+)"` captures a non-empty value without quotes |
| IniOffset.StartTimeValue | detect_black.py:127-130 | the value is that of the leftmost assignment, stripped; there is none exactly when no position matches |
| IniOffset.StartTimeValueAt | detect_black.py:127-130 | the assignment at `p`, with none before it, is the one whose stripped value is used |
| IniOffset.ValueOfAssignment | detect_black.py:127-130 | the first `START_TIME = "v"`, with any whitespace around `=`, after text in which no `START_TIME` begins (section headers and other keys allowed), gives the stripped `v`, whatever follows |
| IniOffset.UnitAt | detect_black.py:132-133 | an optional `(\d+)h` / `(\d+)m` group consumes text exactly when it is present |
| IniOffset.SecondsAt | detect_black.py:132-133 | an `(\d+(\.\d+)?)s` group has a non-empty digit fraction when it has one |
| IniOffset.ParseComponents | detect_black.py:132-134 | the anchored time pattern always matches and yields well-formed groups |
| IniOffset.SecondsValue | detect_black.py:137 | `float(group(3))` lies between the whole seconds and the next second |
| IniOffset.ComponentsSeconds | detect_black.py:135-138 | `hours*3600 + minutes*60 + seconds` with missing groups as 0 is never negative |
| IniOffset.StartTimeOffset | detect_black.py:122-138 | the offset read from a sidecar's text is never negative |
| IniOffset.ParseIniOffset | detect_black.py:114-141 | the offset is never negative, and an unreadable file gives 0.0 |
| IniOffset.ReadTime | detect_black.py:132-137 | a written time yields exactly the groups it holds |
| IniOffset.ReadTimeIsFloat | detect_black.py:135-137 | each group's number is `float()` of the group's text, leading zeros included |
| IniOffset.SecondsNumberIsFloat | detect_black.py:137 | `float()` of a seconds group's text, with or without a fraction, is the group's value |
| IniOffset.Canonical | detect_black.py:132-137 | numerals without leading zeros written for components read back as those components |
| IniOffset.WrittenRoundTrip | detect_black.py:132-133 | the time pattern reads back any `h`/`m`/`s` groups written in order, each optional, their numbers zero-padded or not, whatever non-digit text follows |
| IniOffset.ComponentsRoundTrip | detect_black.py:132-133 | in particular, components written with canonical numerals read back as themselves |
| IniOffset.RenderedRoundTrip | detect_black.py:132-133 | reading back a written time alone gives its groups |
| IniOffset.StripRendered | detect_black.py:130 | `strip()` drops the whitespace around a written time inside the quotes |
| IniOffset.StartTimeOffsetOfAssignment | detect_black.py:122-138 | a sidecar whose first `START_TIME` is an assignment holding a time has `hours*3600 + minutes*60 + seconds` of that time as its offset: numbers zero-padded or not, whitespace around `=` and inside the quotes, after any text in which no `START_TIME` begins, followed by anything |
| IniOffset.PaddedExample | detect_black.py:127-138 | `START_TIME = "09h05m03.000s"` gives 32703 seconds |
| IniOffset.SectionHeaderExample | detect_black.py:127-138 | `[Settings]` followed by `START_TIME="1h"` gives 3600 seconds |
| IniOffset.StartTimeExample | detect_black.py:117 | `START_TIME="10h36m22.010s"` gives 38182.01 seconds |
| IniOffset.NoComponentsGivesZero | detect_black.py:133-138 | a value not opening with a digit matches only the empty prefix and gives 0.0 |
| IniOffset.DigitsThenOther | detect_black.py:132-138 | digits followed by nothing or by a character that is not a digit, unit or point (`12`, `12x`, `10:36:22`) match no group and give 0.0 |
| IniOffset.DigitsPointThenOther | detect_black.py:132-138 | digits and a point followed by a fraction not closed by `s` (`1.5h`, `22.s`, `3.`) match no group and give 0.0 |
| IniOffset.UnreadValueGivesZero | detect_black.py:127-138 | a first assignment, with any whitespace around `=`, whose stripped value matches no group gives an offset of 0.0 |
| IniOffset.ClockNotationExample | detect_black.py:127-138 | `START_TIME="10:36:22"` gives 0.0 |
| IniOffset.NoAssignmentGivesZero | detect_black.py:122-129 | when no position matches the assignment pattern (no key, an empty value `START_TIME=""`, an unquoted `START_TIME=5`) the offset stays 0.0 |
| IniOffset.NoKeyGivesZero | detect_black.py:122-129 | without `START_TIME` in the text the offset stays 0.0 |
| BlackDetect.TimeTokenAt | detect_black.py:170 | a `time=` match is `dd:dd:dd.` followed by at least one digit |
| BlackDetect.FindTimeToken | detect_black.py:177 | `time_pattern.search(line)`; leftmost match stated by `FindTimeTokenLeftmost` and `FindTimeTokenAt`, value by `TimeTokenSeconds` |
| BlackDetect.FindTimeTokenLeftmost | detect_black.py:177 | the progress search returns the leftmost token and finds one exactly when one starts somewhere |
| BlackDetect.FindTimeTokenAt | detect_black.py:177 | a progress token at `p` with none before it is what the search returns |
| BlackDetect.NoTimeTokenWithoutEquals | detect_black.py:170 | a line without `=` carries no progress token |
| BlackDetect.TimeTokenSeconds | detect_black.py:177-180 | the progress token is `hh:mm:ss.f` and reads as the elapsed time it spells |
| BlackDetect.BlackMatchAt | detect_black.py:171 | the three groups of a segment match are non-empty `[\d.]` runs |
| BlackDetect.FindBlack | detect_black.py:184 | `black_pattern.search(line)`; leftmost match stated by `FindBlackLeftmost`, its groups on a filter report by `BlackLineFound` |
| BlackDetect.FindBlackLeftmost | detect_black.py:184 | the segment search returns the groups of the leftmost match, and nothing when no position matches |
| BlackDetect.BlackLineFound | detect_black.py:171 | a `black_start:a black_end:b black_duration:c` report after a tag without `_` yields exactly `a`, `b`, `c` |
| BlackDetect.ToInterval | detect_black.py:186-191 | the three `float()` calls building the dictionary, the first refusal raising; stated by `ToIntervalAccepts` and `NonZeroTotalErrors` |
| BlackDetect.ToIntervalAccepts | detect_black.py:186-191 | the three tokens become an interval exactly when `float()` accepts all three, and then the three numbers are non-negative |
| BlackDetect.ScanLine | detect_black.py:176-191 | one pass of the loop body; which lines append is stated by `ScanLineTokens`, which raise by `ZeroTotalRaises` and `NonZeroTotalErrors`, and independence from the total by `ScanLineWithoutProgress` |
| BlackDetect.Collect | detect_black.py:173-197 | the result of the loop as a fold over the lines; `DetectBlackFrames` is proved equal to it, and `CollectOkIff`, `CollectContents`, `CollectNonNegative` and `RaisesAt` state what it is |
| BlackDetect.Scans | detect_black.py:175-191 | the loop body runs on every line, in order |
| BlackDetect.DetectBlackFrames | detect_black.py:170-197 | the loop returns the intervals collected, or the first exception raised |
| BlackDetect.LoopStep | detect_black.py:175-191 | each of the four ways a pass ends extends the collected prefix or fixes the final result |
| BlackDetect.FailureStops | detect_black.py:174-196 | once a line raises, the lines after it change nothing |
| BlackDetect.AccumulateErrorSource | detect_black.py:174-196 | an exception that escapes comes from some line |
| BlackDetect.CollectOkIff | detect_black.py:174-197 | the loop returns intervals exactly when no line raises |
| BlackDetect.ScanLineTokens | detect_black.py:184-191 | a line that raises nothing appends an interval exactly when it carries a segment token, and that interval is made of the token's numbers |
| BlackDetect.AppendedLast | detect_black.py:184-191 | one more line extends the intervals and the segment lines together exactly when it carries a token |
| BlackDetect.PairwiseGrow | detect_black.py:187-191 | appending a line and the interval it yields keeps the two lists in step |
| BlackDetect.CollectContents | detect_black.py:184-191 | the result holds one interval per line carrying a segment token, in line order, each made of that line's three numbers |
| BlackDetect.CollectCount | detect_black.py:184-191 | the number of intervals is the number of segment lines |
| BlackDetect.CollectNonNegative | detect_black.py:171-190 | every returned start, end and duration is non-negative |
| BlackDetect.NonZeroTotalErrors | detect_black.py:181-190 | with a non-zero total the only exception is a numeral `float()` refuses, taken from some segment line |
| BlackDetect.ZeroTotalRaises | detect_black.py:177-181 | with a total of 0.0, the first progress line raises `ZeroDivisionError` unless an earlier line raised |
| BlackDetect.RaisesAt | detect_black.py:174-196 | the first line that raises decides the result |
| BlackDetect.ScanLineWithoutProgress | detect_black.py:177-181 | a line without a progress token does not depend on the total duration |
| BlackDetect.SegmentLineExample | detect_black.py:184-191 | a filter report `black_start:0 black_end:2.5 black_duration:2.5` yields the interval (0, 2.5, 2.5) |
| BlackDetect.MalformedLineExample | detect_black.py:186-190 | a report whose start is `1.2.3` raises on that token |
| BlackDetect.ProgressLineExample | detect_black.py:177-181 | a progress line with a total of 0.0 raises |
| Report.SidecarOffset | detect_black.py:221-225 | the offset is 0.0 without a sidecar or when it cannot be read, and is never negative |
| Report.IsReport | detect_black.py:237-248 | the printed report on a list of segments; its shape is stated by `ReportShape`, its entries by `ReportEntry` and `ReportLineReadBack` |
| Report.EntryLine | detect_black.py:244 | the `Début : …, Fin : …, Durée : …` line; read back by `EntryFieldsRead` |
| Report.Entry | detect_black.py:241-244 | the entry of a segment already shifted by the offset; read back by `EntryReadBack` |
| Report.CountLine | detect_black.py:248 | the count message, the decimal numeral of the number of segments (`NatToDigits`); placed last by `ReportShape` |
| Report.Entries | detect_black.py:239-244 | the loop prints one entry per segment |
| Report.PrintEntry | detect_black.py:240-244 | one loop pass prints the segment with the offset added to start and end but not to duration; when those times are not negative the printed line reads back as their whole seconds |
| Report.PrintReport | detect_black.py:237-248 | the output is the banner, one entry per segment in order, then the count |
| Report.ReportShape | detect_black.py:237-248 | a report has two lines more than there are segments; the "found" banner appears exactly when there are segments, and the count comes last |
| Report.BannersDiffer | detect_black.py:237-246 | the two banners are different texts |
| Report.EntriesAt | detect_black.py:239-244 | the `k`-th entry shows the `k`-th segment |
| Report.ReportEntry | detect_black.py:239-244 | line `k + 1` of the report is segment `k` with the offset added to its start and end and not to its duration |
| Report.NoCommaInTime | detect_black.py:111 | a rendered non-negative time holds no comma, so the entry's commas separate its fields |
| Report.TimeField | detect_black.py:102-111 | a rendered non-negative time holds no comma and reads back as its whole seconds |
| Report.EntryFieldsRead | detect_black.py:244 | an entry made of three comma-free times reads back as those times |
| Report.EntryReadBack | detect_black.py:241-244 | an entry reads back as the whole seconds of its three times |
| Report.ReportLineReadBack | detect_black.py:239-244 | line `k + 1` reads back as segment `k` shifted by the offset, rounded down to the second |
| Report.RunEntriesReadBack | detect_black.py:234-244 | every entry of a report on a stream that raised nothing reads back as its shifted segment, rounded down to the second |
| Report.Run | detect_black.py:221-248 | the offset or no-sidecar message, then the duration message, then either the escaping exception or the full report on the detected segments |

## Left out

- `find_ffmpeg` and `find_ffprobe` (lines 10-59) are not part of this model. They search the file system and the environment, and `main` only uses them to exit when a tool is missing.
- `get_video_duration` (lines 62-85) runs the probing tool. Its result is a parameter of `Report.Run`.
- The child process is left out, and so are its arguments (the duration and luminance thresholds) and its exit code. Its diagnostic stream is a parameter: a sequence of lines.
- `KeyboardInterrupt` and `sys.exit` are left out; they depend on the user and the environment.
- File access is left out. The sidecar is a parameter: absent, present but unreadable, or read.
- Argument parsing (lines 201-209) is left out.
- The progress percentage written to standard output (lines 181-183) is left out; only its division by the total duration is modelled.
- Other console output is modelled only as the list of messages `main` prints.
- IEEE doubles are left out: times are exact reals. Under doubles, `format_time_full(867.799)` computes `(867.799 - 867) * 1000` as 798.99…, so Python prints `00:14:27:798`. The model prints `00:14:27:799`.
- Numbers.PyFloat models `float()` only on ASCII digits and points with an optional sign, after stripping. Exponents, `inf`/`nan`, underscores and non-ASCII digits are refused, though Python accepts them. Of these, only non-ASCII decimal digits can appear in a token the detector's patterns capture, since Python's `\d` on `str` matches them; the model's patterns read ASCII digits only (next lines).
- BlackDetect.TimeTokenAt reads `\d` in `time=(\d{2}:\d{2}:\d{2}\.\d+)` as the ASCII digits only; a progress token spelled with other Unicode decimal digits, which Python matches and `float()` reads, is not found.
- BlackDetect.BlackMatchAt reads `[\d\.]` as ASCII digits and the point only; a report such as `black_start:٣.5`, which Python captures and reads as 3.5, is not matched.
- IniOffset.StartTimeOffset reads `\d` as ASCII digits; Python's `\d` on `str` also matches other Unicode decimal digits.
- Report.ReadEntry is this model's own reader of an entry line, used only to state what an entry shows. The source has no such function.
- Report.Run does not model `sys.exit` text or the exit status on an escaping exception; it returns the exception instead.
