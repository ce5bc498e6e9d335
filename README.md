# JBoss log analyser: a verified model of its parser and anomaly engine

The analyser is a single-page browser application (`app.js`). It reads a JBoss/WildFly
server log and finds anomalies in it. This project models its algorithmic core in Dafny
and proves what that core promises:

- **The parser** (`cleanAnsi`, `parseLogFile`, `normalizeLevel`):
  - it splits the text into physical lines;
  - it removes ANSI colour (SGR) sequences and trims each line;
  - it recognises each header line `HH:mm:ss,SSS LEVEL [source] (thread) message`;
  - it merges continuation lines into the open entry, and turns a plain line
    before the first header into a standalone `OTHER` entry.
- **The anomaly engine** (`detectAnomalies`):
  - it tallies the timestamped entries per hour over the range from the first to
    the last timestamped entry's hour;
  - it runs four detectors: SPIKE (population z-score per level), CONCENTRATION
    (one source holding at least 70 % of an hour's ERROR or WARN entries), BURST
    (a minute with at least five times its neighbours' average) and SILENCE (an
    empty interior hour next to an active one);
  - it sorts the alerts stably, critical first, then by hour.
- **The heatmaps** (`renderAllHeatmaps`, the counting part of `renderHeatmap`):
  - the per-hour counts of one level;
  - `heatLevel`, the intensity 0–4 of a cell;
  - the anomaly-pulse marks.
- **Two display helpers**: `niceStep` and `shortenSource`.
- **The statistics of the JSON export** (`exportHeatmapJSON`): the entries of one level
  and hour, the unique and top sources and threads, the per-minute distribution, the
  per-level counters of the hour, and the alerts of the hour.

Where the source works by changing state step by step, the model is imperative with
the same loops. Examples are the line loop of `parseLogFile`, the detectors' `forEach`
loops, the counting maps, the neighbour window of BURST and the heatmap loops. Each
such method is proved equal to a specification function. The properties are stated
as lemmas about those functions.

The floating-point tests of the source are stated exactly over the integers, for
natural counts:

- SPIKE: `z > k` is `d > 0 ∧ n·d² > k²·q`, where `d = n·count − sum` and `q` is `n²`
  times the sum of squared deviations. `Spike.SpikeTestIsZScore` proves this equals
  the real-valued z-score test. A standard deviation of 0 is a `q` of 0.
- CONCENTRATION: `pct >= 70` is `10·count >= 7·total`, and `pct >= 90` is
  `10·count >= 9·total` (`Concentration.ShareIsPercentage`).
- BURST: the neighbour average is kept as a sum `s` and a number `m` of neighbours.
  `count / avg >= 5` is `count·m >= 5·s` (`Burst.RatioIsAverage`).
- `heatLevel`: `count <= maxCount * 0.25` is `4·count <= maxCount`, and so on
  (`Heatmap.HeatLevelIsFloatTest`).
- `Math.round(x / n)` is `⌊(2x + n) / 2n⌋` (`Exact.Round`).

Hourly ERROR counts `1, 1, 1, 1, 20` are a case at the edge of the SPIKE test. In
exact arithmetic the mean is 4.8, the variance 57.76 and `σ = 7.6`, so the last hour
has `z` exactly 2, which `z > 2` rejects; `Worked.NoSpikeAtTwoDeviations` proves that
no spike fires. In general, four equal hours and one outlier always give `z = 2`. One
more quiet hour gives a warning spike (`Worked.SpikeOfTwenty`). In IEEE doubles the
same counts give a `z` just below 2, so the source fires nothing either.

Modules, one per file: `Text` (`\s` as ECMAScript defines it, trim, split and join),
`StringOrder` (code-unit order and the default sort), `StableSort`, `Ansi`, `Options`
and `Levels` (in `levels.dfy`), `Header` (the header grammar), `Parser`, `ParserFacts`,
`Aggregate`, `Counting`, `Gather`, `Exact`, `Alerts`, `Spike`, `Concentration`, `Burst`,
`Silence`, `Anomalies`, `Heatmap`, `Chart`, `Export` and `Worked`
(worked cases of the detectors on small inputs).

## Model

| member | source | states |
|---|---|---|
| Text.Trim | app.js:73 | `trim()`: the result is a slice of the line with only whitespace removed around it; it is empty exactly when the line is all whitespace, and otherwise starts and ends with a non-space |
| Text.TrimStart | app.js:73 | the leading whitespace is removed: the result is a suffix, what was removed is whitespace, and the result does not start with whitespace |
| Text.TrimEnd | app.js:73 | the trailing whitespace is removed: the result is a prefix, what was removed is whitespace, and the result does not end with whitespace |
| Text.TrimUnique | app.js:73 | trimming `a + m + b`, with `a` and `b` whitespace and `m` neither starting nor ending with whitespace, gives exactly `m` |
| Text.TrimEmpty | app.js:88-89 | a trimmed line is empty exactly when the line is all whitespace, which is when the parser skips it |
| Text.TrimChars | app.js:73 | trimming adds no character |
| Text.LeadingSpaces | app.js:73 | the length of the maximal whitespace prefix |
| Text.TrailingSpaces | app.js:73 | the length of the maximal whitespace suffix |
| Text.LeadingOf | app.js:73 | whitespace followed by a non-space has exactly its own length as leading run |
| Text.TrailingOf | app.js:73 | a non-space followed by whitespace has exactly that whitespace as trailing run |
| Text.Split | app.js:83 | `split(sep)` yields at least one piece and no piece holds the separator |
| Text.JoinSplit | app.js:344-346 | joining the pieces of `split` with the separator gives back the string |
| Text.SplitJoin | app.js:344-346 | splitting a join of separator-free pieces gives back the pieces |
| Text.SplitCount | app.js:344-345 | the number of pieces is the number of separators plus one |
| Text.SplitAtFirst | app.js:344 | splitting `p + sep + rest` with `p` separator-free gives `p` followed by the pieces of `rest` |
| Text.SplitAppend | app.js:344 | splitting `m + sep + c` with `c` separator-free gives the pieces of `m` followed by `c` |
| Text.JoinTail | app.js:346 | the join of the last pieces is a strict suffix of the whole join, preceded by a separator |
| Text.IndexOf | app.js:344 | the position of the first occurrence of a character, or the length when it is absent |
| Text.OccurrencesAppend | app.js:344-345 | occurrences of a character add up over concatenation |
| Text.DigitValue | app.js:24 | helper for reading `\d` digits: a decimal digit's value is below 10 |
| StringOrder.Irreflexive | app.js:913 | code-unit string order: no string is less than itself |
| StringOrder.Transitive | app.js:913 | code-unit string order is transitive |
| StringOrder.Total | app.js:913 | of two different strings one is less than the other |
| StringOrder.Asymmetric | app.js:913 | of two strings at most one is less than the other |
| StringOrder.Sort | app.js:913 | `[...keys].sort()` returns a permutation of its input |
| StringOrder.SortSorted | app.js:913 | sorting distinct strings gives them in strictly increasing order, with the same length and members |
| StringOrder.Insert | app.js:913 | inserting adds exactly one occurrence of the string |
| StringOrder.InsertSorted | app.js:913 | inserting a new string into a strictly sorted list keeps it strictly sorted |
| StableSort.SortOn | app.js:962-965 | `Array.prototype.sort` with a key comparator returns a permutation of its input |
| StableSort.SortOnSorted | app.js:962-965 | the result is ordered by the key |
| StableSort.SortOnStable | app.js:962-965 | the sort is stable: the elements with one key keep their relative order |
| StableSort.InsertOn | app.js:962-965 | inserting adds exactly one occurrence of the element |
| StableSort.InsertOnSorted | app.js:962-965 | inserting into a key-ordered list keeps it ordered |
| StableSort.InsertOnStable | app.js:962-965 | inserting `x` puts it after every element with the same key |
| StableSort.WithRankAppend | app.js:962-965 | the elements with one key, taken from a concatenation, are those of each part in order |
| Ansi.ParamRun | app.js:20 | `[0-9;]*` matches greedily: the longest prefix of parameter characters |
| Ansi.EscapeLength | app.js:20 | the length of the match of `\x1b\[[0-9;]*m` at the start of the text, or 0 when there is none |
| Ansi.StripAnsi | app.js:20-73 | the global `replace(ANSI_REGEX, '')` never lengthens the text and adds no character; what it removes and keeps is stated by the lemmas `StripSgr`, `StripNoMatch`, `EraseLineKept` and `LoneEscapeKept` |
| Ansi.StripNoMatch | app.js:20-73 | text of which no position starts a colour sequence is kept unchanged, whatever follows it |
| Ansi.StripNoSgr | app.js:20-73 | a line in which no position starts a colour sequence comes out unchanged |
| Ansi.EraseLineKept | app.js:20-73 | the non-colour control sequence `ESC [ 2 K` is kept, and the scan goes on after it |
| Ansi.LoneEscapeKept | app.js:20-73 | an escape character not followed by `[` is kept |
| Ansi.CleanAnsi | app.js:72-74 | `cleanAnsi` returns only characters of the line, neither starting nor ending with whitespace; a line where no position starts a colour sequence is only trimmed |
| Ansi.StripPlain | app.js:73 | text without an escape character passes through the stripping unchanged |
| Ansi.StripSgr | app.js:72-74 | a well-formed colour sequence is removed completely |
| Ansi.ParamRunOf | app.js:20 | the parameter run ends exactly where the parameters end |
| Ansi.Coloured | app.js:73 | a text wrapped between two colour sequences comes out as the bare text |
| Ansi.CleanAnsiChars | app.js:72-74 | `cleanAnsi` introduces no character that was not in the line |
| Levels.NormalizeLevel | app.js:132-141 | FATAL becomes ERROR, DEBUG and TRACE become OTHER, INFO, WARN and ERROR stay as they are |
| Levels.HourOf | app.js:739 | `parseInt(ts.substring(0, 2), 10)` of a clock timestamp is its two-digit hour, below 100 |
| Levels.MinuteKey | app.js:909 | `ts.substring(0, 5)` of a clock timestamp is an `HH:mm` key |
| Levels.MinuteHour | app.js:909-925 | the hour of a minute key is the hour of its timestamp |
| Header.SpanSpaces | app.js:24 | `\s+` from a position: the maximal whitespace run and the rest |
| Header.SpanUntil | app.js:24 | `[^\]]+` or `[^)]+`: the maximal run without the closing character |
| Header.LevelPrefix | app.js:24 | the level alternation `INFO\|WARN\|ERROR\|DEBUG\|TRACE\|FATAL`: a match is a prefix of the text |
| Header.MatchTail | app.js:24 | `\s+(.+)$` with backtracking: a match splits the text into non-empty whitespace and a non-empty message without a line terminator |
| Header.ParseHeaderLine | app.js:24 | a match of `LOG_LINE_REGEX` is a well-formed layout whose rendering is exactly the line |
| Header.HeaderRoundTrip | app.js:24 | every well-formed header line whose message starts with a non-space is recognised with exactly its timestamp, level, source, thread and message |
| Header.RecoverLayout | app.js:24 | the recogniser recovers a layout from its rendering when the tail matches as expected |
| Header.HeaderComplete | app.js:24 | every well-formed header line matches, with its timestamp, level, source and thread, and its message a suffix of the written one |
| Header.MatchTailComplete | app.js:24 | a whitespace run followed by a non-empty message always matches `\s+(.+)$`, with a suffix of the message as group |
| Header.MatchTailOf | app.js:24 | whitespace then a message that starts with a non-space matches with exactly those two groups |
| Header.LevelPrefixOf | app.js:24 | a level name followed by anything is recognised as that level |
| Header.SpanSpacesOf | app.js:24 | whitespace followed by a non-space is split there |
| Header.SpanUntilOf | app.js:24 | text free of the closing character, followed by it, is split at it |
| Header.StageTimestamp | app.js:24 | after the timestamp, the rest of a well-formed line is recognised as its layout |
| Header.StageLevel | app.js:24 | after the level, the rest of a well-formed line is recognised as its layout |
| Header.StageOpenBracket | app.js:24 | after `[`, the rest of a well-formed line is recognised as its layout |
| Header.StageSource | app.js:24 | after the source, the rest of a well-formed line is recognised as its layout |
| Header.StageOpenParen | app.js:24 | after `(`, the rest of a well-formed line is recognised as its layout |
| Header.StageThread | app.js:24 | after the thread, the rest of a well-formed line is recognised as its layout |
| Header.AfterTimestamp | app.js:24 | a recognised rest of line, with the timestamp, is a well-formed layout that renders back to it |
| Header.AfterLevel | app.js:24 | the recogniser after the level keeps what it was given and renders back the rest |
| Header.AfterOpenBracket | app.js:24 | the recogniser after `[` keeps what it was given and renders back the rest |
| Header.AfterSource | app.js:24 | the recogniser after the source keeps what it was given and renders back the rest |
| Header.AfterOpenParen | app.js:24 | the recogniser after `(` keeps what it was given and renders back the rest |
| Header.AfterThread | app.js:24 | the recogniser after the thread keeps what it was given and renders back the rest |
| Header.RenderParts | app.js:24 | a rendered line starts with its 12-character timestamp |
| Parser.SplitLines | app.js:83 | `split(/\r?\n/)` yields at least one line |
| Parser.DropCRs | app.js:83 | every piece before a line break loses its trailing `\r` |
| Parser.ParseLogFile | app.js:82-130 | `parseLogFile` returns the entries of the specification function `Parse` |
| Parser.VisitLines | app.js:87-127 | the `forEach` loop followed by the final push of the open entry gives `ParseLines` |
| Parser.VisitAt | app.js:87-124 | one turn of the loop moves the state from the first `index` lines to the first `index + 1` |
| Parser.VisitLine | app.js:87-124 | the callback, which cleans the line, makes the step of its kind |
| Parser.VisitCleaned | app.js:89-123 | a blank line changes nothing; a header pushes the open entry and opens its own; a plain line continues the open entry or becomes a standalone entry |
| Parser.Kinds | app.js:87-91 | one kind per physical line |
| Parser.KindsAt | app.js:88-91 | the kind of line `i` is the classification of its cleaned text |
| Parser.RunNext | app.js:87 | the state after `n + 1` lines is one step from the state after `n` |
| Parser.Step | app.js:88-123 | one line's effect on the state; no contract of its own, the effect on the entries is stated by `ParserFacts.LineEffects` |
| ParserFacts.ParseEntries | app.js:82-130 | the entries are in strictly increasing line order. Each comes from the line of its one-based `lineNumber`, with `raw` that line cleaned. A header gives its clock timestamp, its normalised level, source and thread, and a message that starts with the header's message. A plain line gives an OTHER entry with no timestamp, source or thread whose message is the line. There is one entry per header line plus one per plain line before the first header |
| ParserFacts.LineEffects | app.js:88-123 | a blank line changes nothing, not even the open entry. A header line adds its own entry. A plain line with an entry open only appends `"\n"` and itself to the last entry's message. A plain line with none open adds a standalone OTHER entry |
| ParserFacts.AlwaysGood | app.js:87-127 | the loop invariant holds after every line: origins, order, an open entry exactly after a header, and the count |
| ParserFacts.GoodStep | app.js:87-124 | one more line keeps the loop invariant |
| ParserFacts.HoldsHeader | app.js:93-105 | a header line keeps the invariant: its entry has the largest line number so far |
| ParserFacts.HoldsContinue | app.js:108-110 | a continuation keeps the invariant: the open entry keeps its line, and its message keeps the header's message as prefix |
| ParserFacts.HoldsStandalone | app.js:111-122 | a standalone line keeps the invariant |
| ParserFacts.ContinuedFrom | app.js:110 | `message += '\n' + line` keeps the entry's origin |
| ParserFacts.Extend | app.js:95-113 | an entry from a later line may be pushed after the others without breaking order |
| ParserFacts.ReplaceLast | app.js:110 | the open entry may be replaced by one from the same line |
| ParserFacts.HeaderClock | app.js:24 | a header's timestamp is a clock `HH:mm:ss,SSS` |
| ParserFacts.ClassifyClock | app.js:88-99 | a line classified as a header has a clock timestamp |
| Aggregate.HourlyCounts | app.js:834-842 | the `hourlyCounts` loops give, for each of the `n` hours from `first`, the tally of that hour's entries |
| Aggregate.TallyCountsLevel | app.js:836-842 | the counter of a level in an hour's tally is the number of entries of that level and hour |
| Aggregate.TallyCountsHour | app.js:836-842 | an hour's total is its number of entries |
| Aggregate.Inc | app.js:839 | incrementing a tally raises its level's counter by one and leaves the others |
| Aggregate.RangeTotalCounts | app.js:836-842 | the totals of the hours of the range add up to the number of entries in the range; entries outside it are ignored |
| Aggregate.FilterSplit | app.js:823 | when a predicate is the disjoint union of two others, the counts of a filter add up |
| Aggregate.FilterNone | app.js:823 | a predicate that holds of nothing filters out everything |
| Anomalies.HourRange | app.js:829-830 | the hours loop lists `first, first + 1, …, last`, and nothing when `last < first` |
| Anomalies.Detectors | app.js:845-959 | the detectors' pushes in source order; no contract of its own, `Anomalies.RunDetectors` proves the loops equal to it and the detector lemmas characterise each part |
| Anomalies.Anomalies | app.js:821-967 | the sorted alerts; no contract of its own, stated by `AnomaliesPermutation`, `AnomaliesOrdered` and `AnomaliesStable` |
| Anomalies.DetectAnomalies | app.js:821-968 | `detectAnomalies` returns the specification function `Anomalies` of the entries |
| Anomalies.RunDetectors | app.js:834-959 | after the early exits, the alerts are SPIKE for ERROR, WARN and INFO, then CONCENTRATION, BURST for ERROR and WARN, then SILENCE, in that order |
| Anomalies.Tallies | app.js:834-842 | one tally per hour of the range |
| Anomalies.EarlyExitEmpty | app.js:823-831 | no alert when no entry is timestamped or the range has fewer than 2 hours |
| Anomalies.AnomaliesPermutation | app.js:962-967 | the sorted list holds exactly the detected alerts, each as often as it was detected |
| Anomalies.AnomaliesOrdered | app.js:962-965 | every critical alert precedes every warning, and alerts of one severity come by non-decreasing hour |
| Anomalies.AnomaliesStable | app.js:962-965 | alerts of the same severity and hour keep their detection order |
| Anomalies.AlertRankMeaning | app.js:963-964 | two alerts tie in the comparator exactly when they have the same severity and hour |
| Spike.Values | app.js:846 | `values` is the level's counter of each hour |
| Spike.SpikeAlert | app.js:857-864 | the SPIKE record; no contract of its own, `Spike.SpikeFields` states its level, hour, count and `expected`, and `Spike.SpikeTestIsZScore` that it is critical exactly when `z > 3` |
| Spike.DetectSpikes | app.js:845-870 | the SPIKE loop for one level gives the specification function `Spikes` |
| Spike.VisitHour | app.js:853-869 | the callback for hour `i` pushes the spike of that hour or nothing |
| Spike.SpikesSound | app.js:851-867 | every spike has a non-zero variance, is inside the range and passes `z > 2 ∧ count > 3` at its hour |
| Spike.SpikesComplete | app.js:851-867 | with a non-zero variance, an hour has its spike exactly when it passes the test |
| Spike.SpikeFields | app.js:857-864 | a spike is about its level, its count is the hour's counter and above 3, and `expected` is `Math.round(mean)` |
| Spike.SpikeTestIsZScore | app.js:847-859 | the integer test is the real test `(count − mean) / σ > 2 ∧ count > 3`, and the severity is critical exactly when `z > 3` |
| Spike.ZScoreBridge | app.js:847-855 | `z > k` over the reals is the scaled integer comparison |
| Spike.NoVarianceNoSpike | app.js:848-851 | the variance is 0 exactly when all hours have the same count, and then the level has no spike |
| Spike.SqDevZero | app.js:848 | the sum of squared deviations is never negative, and 0 exactly when every hour is at the mean |
| Spike.SpikesIncreasing | app.js:853-869 | the spikes of one level come in strictly increasing hour order |
| Spike.PerHourSound | app.js:853-869 | every pushed alert is at an hour of the range that passes the test |
| Spike.PerHourComplete | app.js:853-869 | an hour's alert is pushed exactly when the hour passes the test |
| Spike.ScaledSqDev | app.js:847-848 | the integer sum of squares is `n²` times the real sum of squared deviations from the mean |
| Spike.ScaledTest | app.js:855-856 | a real comparison of `z` with `k` is the scaled integer one |
| Concentration.DetectConcentrations | app.js:873-903 | the CONCENTRATION loops give the specification function `Concentrations` |
| Concentration.SourceAlert | app.js:889-899 | the CONCENTRATION record (source, `Math.round(pct)`, count, total, level, hour); no contract of its own, `Concentration.HourConcentrationsSound` proves every alert is this record of a dominant source and `Concentration.ShareIsPercentage` that its critical test is `pct >= 90` |
| Concentration.VisitHour | app.js:874-902 | the callback for one hour pushes the ERROR alerts, then the WARN ones |
| Concentration.VisitHourLevel | app.js:875-901 | one hour and level: fewer than 5 entries give nothing, otherwise the source alerts |
| Concentration.HourConcentrationsSound | app.js:875-899 | an alert needs at least 5 entries of the level in the hour and is about a non-empty source holding at least 70 % of them |
| Concentration.HourConcentrationsComplete | app.js:875-899 | every such source has its alert; sources that name `Object.prototype` properties are not modelled (see Left out) |
| Concentration.HourConcentrationsAtMostOne | app.js:885-901 | at most one source reaches 70 % in an hour and level |
| Concentration.ConcentrationTotal | app.js:896 | `total` is the hour's number of entries of the level, including those without a source |
| Concentration.ShareIsPercentage | app.js:886-890 | the integer tests are `pct >= 70` and `pct >= 90` on the real percentage |
| Concentration.PercentageBounds | app.js:894 | the reported percentage is `Math.round(pct)`, between 70 and 100 |
| Concentration.ConcentrationsMember | app.js:873-874 | an alert is reported exactly when it is an alert of one hour of the range |
| Concentration.SourceAlertsMember | app.js:885-901 | an alert of the source loop is the alert of one of the sources |
| Concentration.SourceAlertShape | app.js:885-899 | an alert of the source loop is about a dominant, non-empty source |
| Concentration.SourceAlertsAtMostOne | app.js:885-901 | over distinct sources at most one alert is pushed |
| Counting.CountBy | app.js:1041-1047 | the counting loop gives a dictionary whose keys are the non-empty keys in first occurrence order, each with its number of occurrences; keys that name `Object.prototype` properties are not modelled (see Left out) |
| Counting.CountOfPositive | app.js:882 | a key counts positively exactly when some element has it |
| Counting.KeysMember | app.js:882 | a key is in the dictionary exactly when it is non-empty and occurs |
| Counting.KeysDistinct | app.js:882 | the dictionary has no key twice |
| Counting.CountsDisjoint | app.js:882 | the counts of two different keys add up to at most the number of elements |
| Burst.DetectBursts | app.js:906-940 | the BURST loops for one level give the specification function `Bursts` |
| Burst.BurstAlert | app.js:926-937 | the BURST record (minute, count, the neighbours' sum and number, level, hour); no contract of its own, `Burst.BurstsSound` proves every burst is this record of a passing minute and `Burst.RatioIsAverage` that its critical test is `count / neighborAvg >= 10` |
| Burst.VisitMinute | app.js:916-939 | the callback for minute `i` pushes that minute's burst or nothing |
| Burst.Neighbours | app.js:918-921 | the index loop collects the counts of the sorted minutes from `max(0, i − 2)` to `min(N − 1, i + 2)` but `i` |
| Burst.WindowSize | app.js:918-921 | with at least 3 minutes a minute has 2 to 4 neighbours |
| Burst.BurstsSound | app.js:914-938 | every burst needs at least 3 minutes and is a minute with `count > 5`, a positive neighbour average and `count / avg >= 5` |
| Burst.BurstsComplete | app.js:914-938 | every minute that passes the test has its burst |
| Burst.FewMinutesNoBurst | app.js:914 | fewer than 3 distinct minutes give no burst |
| Burst.MinutesExactly | app.js:907-913 | the sorted minutes are exactly the minutes of the level's entries, each once, in increasing order |
| Burst.RatioIsAverage | app.js:922-928 | the integer tests are `neighborAvg > 0` and `count / neighborAvg >= k` on the real average |
| Burst.BurstHourOfClock | app.js:925 | the hour of a burst is the hour of its entries' timestamps |
| Burst.PerMinuteSound | app.js:916-939 | every pushed alert is a minute's alert that passes the test, with 2 to 4 neighbours |
| Burst.MinuteCounts | app.js:910-917 | each sorted minute with its number of entries |
| Silence.DetectSilences | app.js:943-959 | the SILENCE loop gives the specification function `Silences` |
| Silence.SilenceAlert | app.js:947-955 | the SILENCE record; no contract of its own, `Silence.SilencesSound` states that it is critical, about all levels, at the silent hour, with the neighbours' totals |
| Silence.VisitHour | app.js:944-958 | the callback for hour `i` pushes that hour's silence or nothing |
| Silence.SilencesSound | app.js:944-957 | every silence is at an interior hour whose total is 0 next to an hour with entries, is critical and about all levels, and carries the neighbours' totals |
| Silence.SilencesComplete | app.js:944-957 | every such hour has its silence |
| Silence.SilencesIncreasing | app.js:943-959 | silences come in strictly increasing hour order, at most one per hour |
| Silence.SilentHourHasNoEntries | app.js:944 | an hour's total is 0 exactly when it has no entry |
| Heatmap.HeatLevel | app.js:763-769 | the intensity is between 0 and 4, and 0 exactly when the count is 0 |
| Heatmap.HeatLevelIsFloatTest | app.js:763-769 | the integer tests are the comparisons with `maxCount * 0.25`, `* 0.50` and `* 0.75` |
| Heatmap.HeatLevelMonotone | app.js:763-769 | a larger count never gets a lighter cell |
| Heatmap.HeatLevelTop | app.js:761-768 | a count at `maxCount` gets intensity 4 |
| Heatmap.MaxCount | app.js:761 | `Math.max(...counts, 1)` is at least 1 and every count, and is 1 or one of the counts |
| Heatmap.LevelCounts | app.js:743-749 | the `counts` map gives each hour its number of entries of the level, and only hours with entries are keys |
| Heatmap.RenderHeatmap | app.js:733-779 | the counting part of `renderHeatmap` gives the specification function `Heat` |
| Heatmap.RenderCells | app.js:761-779 | with the counts, `maxCount` and the cells are those of the range |
| Heatmap.BuildCells | app.js:773-779 | one cell per hour, with its count, intensity and pulse mark |
| Heatmap.HeatShown | app.js:733-759 | the heatmap is hidden exactly when no entry is timestamped or the range is empty, and has one cell per hour otherwise |
| Heatmap.CellFacts | app.js:773-779 | cell `i` is about hour `first + i`, counts that hour's entries of the level, and pulses exactly when its hour is marked |
| Heatmap.CellsOrdered | app.js:761-775 | a cell with a smaller count is never darker, and the largest count gives intensity 4 |
| Heatmap.CellsHaveTop | app.js:761-775 | a heatmap with any entry of the level has a cell of intensity 4 |
| Heatmap.HourCounts | app.js:743-754 | the count of each hour of the range |
| Heatmap.Cells | app.js:771-779 | one cell per hour of the range; what each cell holds is stated by `CellFacts`, `CellsOrdered` and `CellsHaveTop` |
| Heatmap.AnomalyHoursByLevel | app.js:712-718 | the loop gives, for every `level` field that occurs, the set of the alerts' hours |
| Heatmap.HoursByLevelMember | app.js:712-718 | a level field is a key exactly when an alert has it, and an hour is in its set exactly when such an alert falls in it |
| Heatmap.PulseMeaning | app.js:721-723 | an hour pulses exactly when pulses are on for the level and an alert about that level falls in it; silences never pulse |
| Heatmap.RenderAllHeatmaps | app.js:704-726 | one heatmap for each of ERROR, INFO and WARN, each with its marked hours |
| Chart.NiceStep | app.js:692-700 | the step is positive |
| Chart.NiceStepCovers | app.js:692-700 | six steps always reach the largest bar |
| Chart.NiceStepMonotone | app.js:692-700 | a larger bar never gets a smaller step |
| Chart.NiceStepLeast | app.js:699 | above 300 the step is the least multiple of 10 whose six-fold reaches the bar |
| Chart.NiceStepCeil | app.js:699 | above 300 the step is `⌈max / 60⌉ · 10` over the reals |
| Chart.ShortenSource | app.js:342-347 | a source with at most one dot, the empty one too, is shown unchanged; one with two dots or more is shown as `…` and its last two pieces, which `LastTwoSuffix` and `LastTwoPieces` characterise |
| Chart.LastTwoSuffix | app.js:346 | those two pieces are the part of the name after a dot, at its end |
| Chart.LastTwoPieces | app.js:346 | the shortened part splits back into the last two pieces and holds one dot |
| Chart.ShortenIdempotent | app.js:342-347 | shortening a shortened name changes nothing |
| Export.Pad2Digits | app.js:1018 | `String(hour).padStart(2, '0')` of an hour below 100 is its two digits; from 100 on it has three or more characters |
| Export.Decimal | app.js:1018 | `String(n)` is all digits, with at least one, two from 10 on and three from 100 on |
| Export.Pad2 | app.js:1018 | `padStart(2, '0')` gives at least two characters, all digits; their value is stated by `Export.Pad2Digits` |
| Export.DigitChar | app.js:1018 | the character of a digit has that digit's value |
| Export.Prefix | app.js:1024 | `substring(0, k)` is a prefix of at most `k` characters |
| Export.HourStrMatch | app.js:1024-1025 | a clock timestamp starts with the two-digit hour exactly when its hour is that hour |
| Export.ParsedStamps | app.js:82-130 | every parsed timestamp is a clock or empty |
| Export.HourEntriesAreCell | app.js:1022-1026 | for the parser's entries, the exported entries are exactly those the heatmap cell of that hour and level counts |
| Export.AllLevelsInHour | app.js:1062-1068 | the loop gives the per-level counters of the hour's entries |
| Export.LevelsInHourCounts | app.js:1062-1068 | the counter of the exported level is the number of exported entries |
| Export.LevelsInHourIsTally | app.js:1062-1068 | for the parser's entries, the counters are the detectors' tally of that hour |
| Export.Pairs | app.js:1050 | `Object.entries` of the dictionary: each key with its count |
| Export.Top | app.js:1050-1056 | the sorted records cut to ten; no contract of its own, stated by `TopOrdered`, `TopKeepsLargest` and `TopTies` |
| Export.PairsOf | app.js:1050 | one record per key of the dictionary |
| Export.PairsOfMeaning | app.js:1041-1050 | a record's key is non-empty and occurs, with its number of occurrences; every such key has exactly one record; keys that name `Object.prototype` properties are not modelled (see Left out) |
| Export.SortedByCount | app.js:1051 | sorting by `b[1] - a[1]` keeps the length and orders the counts downwards |
| Export.TopOrdered | app.js:1051 | `slice(0, 10)` keeps the ten largest, or all when there are fewer, in non-increasing order |
| Export.TopKeepsLargest | app.js:1050-1051 | every kept record is in the dictionary, and none left out has a larger count than a kept one |
| Export.TopTies | app.js:1051 | records with equal counts keep the dictionary's order |
| Export.KeysBound | app.js:1092-1093 | there are at most as many unique sources or threads as entries |
| Export.MinuteCounts | app.js:1058-1060 | one record per minute, in the given order |
| Export.Distribution | app.js:1044-1060 | the sorted minute records; no contract of its own, stated by `Export.DistributionMeaning` |
| Export.DistributionMeaning | app.js:1044-1060 | the minute distribution lists every minute with an entry once, in strictly increasing order, with its count |
| Export.MinuteCountsMeaning | app.js:1058-1060 | sorted minutes with their counts hold that meaning |
| Export.HourAnomaliesMember | app.js:1071-1073 | an alert is exported exactly when it falls in the hour and is about the level or about all levels |
| Export.TopCounts | app.js:1041-1056 | the number of keys of a dictionary and its top list |
| Export.MinuteDistribution | app.js:1044-1060 | the minute dictionary sorted by minute gives the distribution |
| Export.ExportHour | app.js:1017-1101 | the export's entries, totals, unique counts, top lists, minute distribution, per-level counters and alerts |
| Gather.ConcatMember | app.js:888 | an alert is pushed by a loop exactly when one of its turns pushed it |
| Gather.ConcatIncreasing | app.js:943-959 | turns that push at most one alert each, at their own hour, give strictly increasing hours |
| Gather.ConcatAtMostOne | app.js:885-901 | turns of which at most one pushes, each at most once, push at most one alert |
| Gather.ConcatLength | app.js:857 | the number of pushed alerts is the sum of the pushes of the turns |
| Exact.QuotRem | app.js:894 | the quotient by repeated subtraction is the floor of the division |
| Exact.RoundNearest | app.js:894 | `Math.round(x / n)` is the integer nearest to `x / n`, halves going up |
| Exact.RoundBetween | app.js:894 | rounding keeps a quotient between two integer bounds |
| Worked.QuietEleven | app.js:943-957 | ERROR counts 5, 0, 5 at hours 10, 11, 12 give one critical SILENCE, at 11 |
| Worked.SilenceBetweenActiveHours | app.js:943-957 | three hours with totals `p`, 0, `q`, not both `p` and `q` zero, give exactly one SILENCE, for the middle hour |
| Worked.FiveOfSix | app.js:886-894 | five of six entries from one source: 83 %, a warning and not critical |
| Worked.NoSpikeAtTwoDeviations | app.js:847-856 | counts 1, 1, 1, 1, 20 give `z = 2` exactly for the last hour, which is no spike |
| Worked.SpikeOfTwenty | app.js:847-859 | counts 1, 1, 1, 1, 1, 20 give a warning spike at the last hour and none at a quiet one |
| Worked.NoSpikeAtSeven | app.js:847-856 | counts 4, 4, 4, 4, 7 give `z = 2` exactly for the last hour, which the exact test does not take for a spike |
| Worked.Same | app.js:847-848 | helper for the worked SPIKE cases: `k` hours of `v` entries each |
| Worked.SameSums | app.js:847-848 | arithmetic helper for the worked SPIKE cases: `k` hours of `v` entries have sum `k·v` and `k` times one squared deviation |
| Worked.OutlierSums | app.js:847-848 | arithmetic helper for the worked SPIKE cases: the same sums with one more hour of `x` entries |

## Left out

- Floating point: the source computes means, variances, square roots, shares and ratios
  in IEEE doubles. The model uses the exact rational value of each and compares it
  exactly. Where a double rounds across a threshold, the source may decide differently.
  Hourly ERROR counts `4, 4, 4, 4, 7` are such a case: exactly, the last hour has
  `z = 2` and no spike (`Worked.NoSpikeAtSeven`), while in doubles `z` comes out just
  above 2 and, with the count 7 above 3, the source pushes a warning SPIKE.
- `Math.sqrt` is not computed: `z > k` is decided by comparing squares, which is exact.
- The `message` and `detail` strings of the alerts are not modelled, nor the `toFixed`
  fields `zScore`, `neighborAvg` and `ratio`. A burst keeps the neighbours' sum and
  number instead of their average.
- `Object.entries` order: for a dictionary the model uses first-occurrence order of the
  keys. JavaScript lists integer-like keys first, in increasing order. For
  CONCENTRATION this does not matter, since at most one source can reach 70 %. For the
  export's top lists it matters only among records with equal counts.
- `localeCompare` in the minute distribution is modelled as code-unit order. Minute keys
  are `HH:mm` strings of digits, for which the two agree.
- `parseInt` of a timestamp that is not a clock: the parser's timestamps are always
  clocks or empty (`ParserFacts.ParseEntries`). So the model gives any other timestamp
  hour −1 and does not model `parseInt` on it.
- Export.ExportHour:
  - it keeps the entries whole, where the source projects them onto `line`,
    `timestamp`, `level`, `source`, `thread` and `message`;
  - it counts sources, threads and minutes in three passes where the source uses one
    `forEach`, which gives the same dictionaries;
  - it keeps the alerts whole, where the source projects each onto `type`, `severity`,
    `message` and `detail`, plus `zScore`, `source` and `percentage`, or `minute` and
    `ratio` where the alert has them, so `level`, `hour`, `count`, `expected` and
    `total` are not exported; the choice of alerts is modelled exactly
    (`Export.HourAnomaliesMember`);
  - it takes the hour as a natural number, as the heatmap cells give it;
  - the metadata (`new Date().toISOString()`, the hour label strings), JSON formatting,
    the Blob and the download are not modelled.
- Heatmap.RenderHeatmap, for `renderHeatmap`:
  - DOM, CSS classes, labels, tooltips and event listeners are not modelled;
  - the `!gridEl` exit is not modelled, since the model has no DOM elements;
  - `anomalyPulseEnabled` is a parameter of `Heatmap.RenderAllHeatmaps`.
- Heatmap.AnomalyHoursByLevel: every alert of the model has an hour, so the
  `a.hour !== undefined` test always passes and is not modelled. In the source,
  every alert also has one.
- `(a.hour || 0)` in the sort comparator is the hour itself, since every alert has a
  numeric hour.
- Export.AllLevelsInHour and `Aggregate.HourlyCounts`: every level of the model is
  one of the four counters. So the `OTHER++` fallback for an unknown level never runs
  and is not modelled.
- Counting.CountBy: the source counts into a plain object `{}`, which inherits the
  properties of `Object.prototype`. The model counts every non-empty key alike, so it
  does not capture what happens to a source or thread named after one of them
  (`constructor`, `toString`, `valueOf`, `hasOwnProperty`, `isPrototypeOf`,
  `propertyIsEnumerable`, `toLocaleString`, `__proto__`, …):
  - `(counts[k] || 0) + 1` starts from the inherited function and gives a string, so
    CONCENTRATION computes a NaN share and pushes nothing for that source, and the export
    lists the string as its count;
  - an assignment to `counts['__proto__']` stores no key at all.

  For such names `Concentration.HourConcentrationsComplete`, `Export.PairsOfMeaning`
  and `Export.TopCounts` promise an alert or a record that the source does not give.
  Minute keys are `HH:mm` strings and never such names.
- Everything else in `app.js` is not part of this model:
  - the table, the timeline canvas, the anomaly panel and the filters;
  - file reading, the counters' animation and event wiring.
  These are browser I/O and rendering with no logic of the core.
- Parser.ParseLogFile takes the file's text as a sequence of characters. Reading
  the file is left to the caller.
