# Not Wrapped: a verified model of the listening-history analytics

This project models, in Dafny, the analytics core of a web app that reads a music
streaming-history export and computes a year-in-review ("not wrapped") from it:

- **Normalising the export** (`parseSpotifyStreamingHistory`). Malformed records
  are dropped. Each kept play gets a trimmed artist and track name, the track key
  `artist — track`, and the year, month, hour and UTC date of its end time.
- **The primary report** (`computeNotWrapped`). The model keeps the plays of at
  least `minMs` milliseconds and computes from them:
  - totals and distinct-value counts;
  - the night share;
  - four argmax highlights: peak hour, most diverse day, biggest artist binge
    and longest same-day loop;
  - the micro-skip rate over all plays;
  - the top-10 artists and tracks;
  - the per-year split.
- **The visualisation aggregates** (`computeViz`): a 24-bucket hourly histogram,
  the play time per month in calendar order, the "loop monsters" ranking and the
  total.
- **The then/now comparison** (`mergeRanks` and the expressions around it). Two
  ranked artist lists are merged by name. The window-size slider is clamped. Each
  artist's rank change becomes an arrow.

Modules, one per source unit:

| module | file | models |
|---|---|---|
| `Wrappers` | wrappers.dfy | `Option`, `Min`, `Max` |
| `Sorting` | sorting.dfy | `Array.prototype.sort` with a numeric comparator, as a stable insertion sort by an integer score |
| `Events` | events.dfy | `parseSpotifyStreamingHistory` |
| `Grouping` | grouping.dfy | `sumMs`, the `Map` tallies, `topNBySum`, `topNByCount`, the argmax of a tally |
| `NotWrapped` | not_wrapped.dfy | `computeNotWrapped` |
| `CompositeKeys` | composite_keys.dfy | the `${date}\|\|${x}` string keys and their `split("\|\|")` |
| `Viz` | viz.dfy | `computeViz` |
| `ThenNow` | then_now.dfy | `mergeRanks`, the window clamp, the rank delta and arrow |

Modelling choices:

- **Play time** stays in integer milliseconds. The source's minutes, hours and
  ratios are views of these numbers. A ratio is kept as `Ratio(num, den)`.
- **The date parser** is a parameter, `clock: string -> Option<Stamp>`. It is a
  partial function from the timestamp text to the fields the code reads
  (`getTime`, `getFullYear`, `getMonth`, `getHours`, the UTC ISO date).
  `None` stands for an Invalid Date.
- **Composite map keys** (`${date}||${artist}`, `${date}||${trackKey}`) are pairs.
  `CompositeKeys` models the string form as written and shows where it breaks.
- **Loops.** Loops that fill a `Map` are methods with loop invariants. The hourly
  histogram is a method that updates a 24-slot `array` in place. Each method is
  proved against specification functions (`Total`, `SumWhere`, `Image`,
  `FirstSeen`, `MovementOf`, ...).

## Model

| member | source | states |
|---|---|---|
| Events.Trim | src/lib/wrapped.js:6-7 | `trim()` returns the infix of the input that starts at its first non-whitespace character; only whitespace is cut on either side; the result is empty exactly when the input is all whitespace |
| Events.ReplaceFirst | src/lib/wrapped.js:4 | `replace(" ", "T")` with a string pattern changes only the first space; every other character is kept |
| Events.TimestampText | src/lib/wrapped.js:4 | the parser is handed the end time (or `""` when it is missing) with its first space replaced by `T`, then `:00` appended |
| Events.NameField | src/lib/wrapped.js:6-7 | a missing name becomes `""`; a present name becomes exactly its `Trim`, so the result has no whitespace at either end |
| Events.PlayedMs | src/lib/wrapped.js:5-11 | a finite number is kept; a missing or non-finite `msPlayed` becomes 0 |
| Events.TrackKey | src/lib/wrapped.js:14 | the track key is the artist, then space, EM DASH, space, then the track, each part stated by position, so both names can be read back from it |
| Events.ToEvent | src/lib/wrapped.js:3-19 | a record is dropped exactly when a trimmed name is empty or the time does not parse; a kept play has non-empty trimmed names, the exact track key and the parsed time fields |
| Events.FilterMap | src/lib/wrapped.js:3-21 | `.map(f).filter(Boolean)` never yields more results than elements; `FilterMapAtPresent` pins each result to the element it came from |
| Events.ElementEvent | src/lib/wrapped.js:3-19 | a `null` element yields no play (the corrected behaviour, see Findings); any play yielded is well formed |
| Events.ParseElements | src/lib/wrapped.js:2-21 | the pipeline over the array elements yields at most one play per element, every one well formed |
| Events.ParseHistory | src/lib/wrapped.js:1-22 | a non-array input gives `[]`; the output is never longer than the input; every play in it is well formed |
| Events.ParseShape | src/lib/wrapped.js:2-21 | the output is the order-preserving subsequence of the elements that yield a play: kept indices strictly ascend, are exactly the elements with an event, and the j-th play is the event of the j-th kept element |
| Events.UnparseableTimeDropped | src/lib/wrapped.js:8 | appending a record whose time does not parse leaves the output unchanged, whatever its other fields |
| Events.ParseAsWritten | src/lib/wrapped.js:2-4 | as written, a `null` array element makes the parse throw a TypeError; without one, the result is the normalised list |
| Events.NullElementThrows | src/lib/wrapped.js:4 | `[null]` throws as written, while the intended parse returns `[]` |
| Grouping.AtLeast | src/lib/wrapped.js:55 | the filter callback accepts a play exactly when its `msPlayed` reaches `minMs` |
| Grouping.Where | src/lib/wrapped.js:70 | `rows.filter(keep)` is never longer than `rows`, and its plays are exactly the plays of `rows` that `keep` accepts |
| Grouping.Kept | src/lib/wrapped.js:55 | the kept plays are exactly the plays of at least `minMs` (the same filter is `src/lib/viz.js` line 8), never more than all plays |
| Grouping.Image | src/lib/wrapped.js:66-68 | `new Set(rows.map(key))`: the set of keys some play has (a definition, with no contract of its own; `FirstSeenKeys` ties it to the `Map` order) |
| Grouping.DayArtist | src/lib/wrapped.js:88 | the composite key `${r.date}\|\|${r.artistName}`, kept as the pair (date, artist) (a definition, as a pair; see Findings for what the string form loses) |
| Grouping.DayTrack | src/lib/wrapped.js:100 | the composite key `${r.date}\|\|${r.trackKey}`, built the same way at viz.js:25, kept as the pair (date, track key) (a definition, as a pair; see Findings for what the string form loses) |
| Grouping.Descending | src/lib/wrapped.js:37 | the comparator `(a, b) => b[1] - a[1]` (also at line 49) as a sort score: the larger total sorts first (a definition; `SortedEntries` and `RankDescending` state the order it gives) |
| Grouping.FirstSeen | src/lib/wrapped.js:31-35 | a `Map`'s insertion order has at most one key per play and starts with the first play's key |
| Grouping.Entries | src/lib/wrapped.js:36 | `[...m.entries()]` has one entry per key of the insertion order |
| Grouping.EntriesNames | src/lib/wrapped.js:36 | entry `i` of `[...m.entries()]` is the `i`-th inserted key with its value in the map |
| Grouping.SumMs | src/lib/wrapped.js:24-28 | the accumulator loop returns the total play time of the rows (`src/lib/viz.js` lines 1-5 hold an identical copy, modelled by the same method) |
| Grouping.ShortPlayIgnored | src/lib/wrapped.js:55 | a play below `minMs` (first or last) does not change the kept plays, so it contributes to no output |
| Grouping.WhereTotalMonotone | src/lib/wrapped.js:55 | a stricter filter keeps no more play time, as long as the rows only the looser filter keeps weigh nothing negative |
| Grouping.FirstSeenKeys | src/lib/wrapped.js:31-36 | a `Map`'s insertion order lists every distinct key exactly once |
| Grouping.CountPresent | src/lib/wrapped.js:97-101 | a key that some row has is counted at least once |
| Grouping.Tally | src/lib/wrapped.js:31-35 | the `Map` loop leaves every distinct key, in order of first occurrence, with its summed weight; the tallies add up to the total weight |
| Sorting.SortBy | src/lib/wrapped.js:37 | a sort with a numeric comparator (here `b[1] - a[1]`, by the negated score; every other `.sort` of the core the same way) returns a permutation of its input, ascending by the score |
| Grouping.SortedEntries | src/lib/wrapped.js:36-37 | sorting a tally's entries keeps each key once with its tally and keeps their sum |
| Grouping.RankDescending | src/lib/wrapped.js:36-37 | the sorted entries hold every distinct key once with its tally, non-increasing, summing to the total |
| Grouping.TopSums | src/lib/wrapped.js:36-38 | the first `n` entries of the full ranking carry all the weight when there are at most `n` keys, and no more than all of it when no weight is negative |
| Grouping.TopOfRanking | src/lib/wrapped.js:36-38 | cutting a full descending ranking after `n` entries gives a top-`n` list (`TopHolds`) |
| Grouping.TopNBySum | src/lib/wrapped.js:30-40 | `TopHolds`: `min(n, #keys)` entries with distinct keys, non-increasing by summed play time; each entry holds its key's sum; no key left out has a larger sum than a key kept; the list's play time equals the total when there are at most `n` keys, and is at most the total when no play time is negative |
| Grouping.TopNByCount | src/lib/wrapped.js:42-52 | the same as `TopNBySum`, with play counts in place of play time (so the counts of the list never exceed the number of plays) |
| Grouping.Highest | src/lib/wrapped.js:73-75 | the first entry of the sorted tally is a key of the rows whose tally is at least every key's tally |
| NotWrapped.IsNight | src/lib/wrapped.js:70 | a night play is one whose hour is below 6 (hours 0 to 5) |
| NotWrapped.IsMicroSkip | src/lib/wrapped.js:116 | a micro-skip is exactly a play that a threshold of 10 s would drop |
| NotWrapped.Earliest | src/lib/wrapped.js:61 | `Math.min` over the end times is the end time of some kept play and is at most every one |
| NotWrapped.Latest | src/lib/wrapped.js:62 | `Math.max` over the end times is the end time of some kept play and is at least every one |
| NotWrapped.ComputeTotals | src/lib/wrapped.js:64-71 | total play time; days, artists and tracks equal the numbers of distinct dates, artist names and track keys; the night share with the guarded denominator `max(1, total)` (the corrected `NightShare` of Findings, which differs from line 71 only when the kept total is below 1: 0, or negative under a negative threshold, which App never passes) |
| NotWrapped.NightShareAsWritten | src/lib/wrapped.js:70-71 | as written, the night share is the play time in hours 0 to 5 over the total, with no guard on the denominator |
| NotWrapped.NightShare | src/lib/wrapped.js:70-71 | with the denominator guarded (`max(1, total)`), the share equals the written one whenever the total is positive |
| NotWrapped.NightShareDividesByZero | src/lib/wrapped.js:71 | one kept play of 0 ms at threshold 0 makes the written denominator 0; the guarded share is 0/1 |
| NotWrapped.NightShareInUnitInterval | src/lib/wrapped.js:70-71 | with a non-negative threshold, night play time lies between 0 and the kept total, so the guarded share lies in [0, 1] |
| NotWrapped.NightShareZeroIff | src/lib/wrapped.js:70-71 | with a positive threshold, the night share is 0 exactly when no kept play falls in hours 0 to 5 |
| NotWrapped.DayArtists | src/lib/wrapped.js:77-81 | the loop maps each day, in order of first occurrence, to the set of artists played that day |
| NotWrapped.FirstIsLargest | src/lib/wrapped.js:82-84 | the first entry of a list sorted from the largest value down comes from the list and is at least every entry |
| NotWrapped.MostDiverseDay | src/lib/wrapped.js:77-84 | the most diverse day is a played day whose distinct-artist count is at least every day's count |
| NotWrapped.MicroSkips | src/lib/wrapped.js:116-118 | the rate is the micro-skips (under 10 s) among all plays, over `max(1, #plays)`, and lies in [0, 1]; the most micro-skipped track is null exactly when nothing was micro-skipped, otherwise a most-skipped track with its count |
| NotWrapped.ComputeHighlights | src/lib/wrapped.js:73-118 | peak hour, biggest (day, artist) binge and max (day, track) loop are each maximal over their group; the loop counts at least one play; the most diverse day; the micro-skip facts |
| NotWrapped.StrictlyAscending | src/lib/wrapped.js:112-113 | a list sorted by year with no year twice is strictly ascending |
| NotWrapped.ByName | src/lib/wrapped.js:113 | the comparator `(a, b) => a[0] - b[0]` as a sort score: the earlier year sorts first (a definition; `YearSplit` states the order it gives) |
| NotWrapped.YearSplit | src/lib/wrapped.js:110-114 | one entry per played year, strictly ascending, each with its year's play time, summing to the total |
| NotWrapped.ComputeNotWrapped | src/lib/wrapped.js:54-139 | the fixed error message exactly when no play reaches `minMs`; otherwise the meta, the totals (with the guarded night share, `max(1, total)` as denominator), the highlights and the year split as stated above, and `topArtists` / `topTracks` each a top-10 list (`TopHolds`): at most ten distinct keys, non-increasing, each with its play time, none left out above one kept, summing to the total when there are at most ten keys and never above it when no play time is negative |
| NotWrapped.KeptShrinks | src/lib/wrapped.js:55 | raising the threshold keeps a subset of the plays |
| NotWrapped.ThresholdMonotone | src/lib/wrapped.js:55-68 | raising a non-negative `minMs` never increases the total play time or the numbers of days, artists and tracks |
| CompositeKeys.JoinKey | src/lib/viz.js:25 | the key is the date, `\|\|`, then the second part, each stated by position, so both parts can be read back |
| CompositeKeys.FindSeparator | src/lib/viz.js:30 | the first `\|\|` at or after a position, or the end when there is none |
| CompositeKeys.SecondField | src/lib/viz.js:30 | `split("\|\|")[1]` is undefined exactly when the key holds no separator; otherwise it is the first field of the text after the first separator |
| CompositeKeys.FirstField | src/lib/wrapped.js:93 | `split("\|\|")[0]` is the prefix of the key up to its first separator, or the whole key when it holds none |
| CompositeKeys.FirstFieldRoundTrip | src/lib/wrapped.js:105 | the date comes back from a joined key, since a date holds no `\|` |
| CompositeKeys.SecondFieldRoundTrip | src/lib/viz.js:25-30 | when neither part holds a `\|`, splitting returns the second part as joined |
| CompositeKeys.SplitCutsSecond | src/lib/wrapped.js:93 | when the second part is `x\|\|y`, splitting returns `x` and not the part that was joined |
| CompositeKeys.SplitMisreadsTrackKey | src/lib/viz.js:30 | the track key "AC\|\|DC — Back in Black" comes back from the split as "AC" |
| Viz.HourBuckets | src/lib/viz.js:11-13 | exactly 24 buckets; bucket `h` holds hour `h` |
| Viz.SumByBump | src/lib/viz.js:12 | adding `w` to one bucket adds `w` to the sum of the buckets |
| Viz.HourBucketsTotal | src/lib/viz.js:11-13 | the 24 buckets add up to the total play time of the kept plays |
| Viz.HourlyHistogram | src/lib/viz.js:11-13 | the in-place `byHour[r.hour] += r.msPlayed` loop over a zeroed 24-slot array leaves bucket `h` with the play time of hour `h` |
| Viz.MonthIndex | src/lib/viz.js:19 | the sort key that stands in for `localeCompare` on `"YYYY-MM"`: year and month can be read back from it (`i / 12` and `i % 12 + 1`) |
| Viz.MonthIndexOrder | src/lib/viz.js:18-19 | the month index orders months as calendar order does, and equal indices mean equal months |
| Viz.StrictlyChronological | src/lib/viz.js:18-19 | a list sorted by month index with no month twice is strictly ascending in calendar order |
| Viz.MonthlySeries | src/lib/viz.js:16-20 | one entry per distinct month, strictly ascending in calendar order, each with its month's play time, summing to the total |
| Viz.LoopScoreAtLeastOne | src/lib/viz.js:23-32 | a track's loop score is at least 1 |
| Viz.LoopScoreUnique | src/lib/viz.js:28-32 | a track has only one loop score |
| Wrappers.Max | src/lib/viz.js:31 | `Math.max` of two values is one of them and at least both |
| Viz.ScoresStep | src/lib/viz.js:31 | one `Math.max` update keeps each seen track's score at the largest count read so far, equal to one of them |
| Viz.TrackMaxima | src/lib/viz.js:28-32 | after the loop over the (day, track) counts, each track is listed once with the largest of its counts |
| Viz.ScoresMeaning | src/lib/viz.js:23-32 | a finished `trackLoopScore` has exactly the played tracks as keys, each with the largest number of plays of that track on one day |
| Viz.LoopScores | src/lib/viz.js:23-32 | every played track once, with its loop score: the maximum over days of its same-day play count |
| Viz.ListedEntries | src/lib/viz.js:33 | the entries of `trackLoopScore` list each track once with its score |
| Viz.RankedScores | src/lib/viz.js:33-34 | the scores sorted from the highest down hold every track once, non-increasing |
| Viz.TopTenHold | src/lib/viz.js:33-36 | the first ten of that ranking are the loop monsters |
| Viz.LoopMonsters | src/lib/viz.js:33-36 | at most ten (`min(10, #tracks)`) entries with distinct tracks, non-increasing, each with its loop score; no track left out has a higher score than a track kept |
| Viz.ComputeViz | src/lib/viz.js:7-42 | every output is computed from the plays of at least `minMs` only: the 24 buckets, which sum to the total; the monthly series; the loop monsters; the total |
| ThenNow.LastIndex | src/components/ThenNow.jsx:6-14 | a later `map.set` of the same name wins: the last position of a name, absent exactly when the name is not in the list |
| ThenNow.MovementOf | src/components/ThenNow.jsx:6-14 | the early rank is absent exactly when the name is not in the early list, and then the early value is 0; otherwise rank `k` points at an entry of that name with that value. The same holds for the late list |
| ThenNow.NamesInOrder | src/components/ThenNow.jsx:5-15 | the insertion order of the `Map`: each name when first set (a definition, with no contract of its own; `NamesInOrderKeys` states its meaning) |
| ThenNow.NamesInOrderKeys | src/components/ThenNow.jsx:5-16 | the insertion order lists every name of the lists once |
| ThenNow.Merged | src/components/ThenNow.jsx:16 | `[...map.values()]` before sorting has one movement per name in insertion order |
| ThenNow.MergedCoversOnce | src/components/ThenNow.jsx:5-16 | before truncation, every name of either list appears exactly once and no other name appears |
| Wrappers.Min | src/components/ThenNow.jsx:18-19 | `Math.min` of two values is one of them and at most both |
| ThenNow.Best | src/components/ThenNow.jsx:18-19 | the sort key is the better of the two ranks, or 999 when both are absent, and is no worse than either rank present |
| ThenNow.LastIndexSnoc | src/components/ThenNow.jsx:6-14 | one more entry moves the last position of its own name only |
| ThenNow.MovementLateSnoc | src/components/ThenNow.jsx:10-13 | one more late entry changes only its own name's late rank and value |
| ThenNow.MovementAbsent | src/components/ThenNow.jsx:8 | a name in neither list has neither rank |
| ThenNow.EarlyStep | src/components/ThenNow.jsx:6 | one `map.set` of an early entry keeps the map equal to the movements of what has been read |
| ThenNow.LateStep | src/components/ThenNow.jsx:7-15 | a new late name gets a fresh movement, a known one its late rank and value, and the map stays equal to the movements of what has been read |
| ThenNow.AddEarly | src/components/ThenNow.jsx:6 | after the early loop the map holds each early name's movement, in insertion order |
| ThenNow.AddLate | src/components/ThenNow.jsx:7-15 | after the late loop the map holds each name's movement over both lists |
| ThenNow.ValuesInOrder | src/components/ThenNow.jsx:16 | the map's values, in insertion order, are the merged movements |
| ThenNow.TruncatedSorted | src/components/ThenNow.jsx:17-22 | a prefix of the sorted list is sorted, drawn from the original, and no cut entry has a better key than a kept one |
| ThenNow.MergeRanks | src/components/ThenNow.jsx:4-23 | the result is the first 12 of the stably sorted merge: at most 12 movements, ascending by best rank, each a movement of the merge, and no cut movement ranks better than a kept one |
| ThenNow.WindowPercent | src/components/ThenNow.jsx:29 | the slider value is clamped into [10, 50] and kept when already inside |
| ThenNow.WindowFraction | src/components/ThenNow.jsx:29 | the window fraction lies in [0.1, 0.5] |
| ThenNow.WindowMonotone | src/components/ThenNow.jsx:29 | a larger slider value never gives a smaller window, and clamping twice changes nothing |
| ThenNow.RankDelta | src/components/ThenNow.jsx:87-88 | a delta exists exactly when both ranks do, and it is the early rank minus the late rank |
| ThenNow.TrendOf | src/components/ThenNow.jsx:89-90 | up exactly when both ranks exist and the late rank is better (smaller); down when it is worse; the dot when a rank is missing |
| ThenNow.MergedTrend | src/components/ThenNow.jsx:87-90 | on a merged movement, up exactly when the artist's last place in the late list comes before its last place in the early list |

## Left out

- The platform date parser (`new Date(text)`, `getFullYear`, `getMonth`, `getHours` in local time, `toISOString` in UTC) is the `clock` parameter. The model captures only the keep/drop decision and how the fields are copied, not the calendar arithmetic or the time zone.
- `String(...)` on arbitrary JSON values: `endTime`, `artistName` and `trackName` are modelled as an optional string (`RawRecord`). A field holding a number, a boolean or an object, which `String(...)` turns into text (`42` to `"42"`, `{}` to `"[object Object]"`) and the source then keeps, cannot be expressed; nor can a falsy non-string `endTime` (`0`, `false`), which `r.endTime || ""` turns into `""`.
- `Number(...)` on arbitrary JSON values is reduced to three cases: absent, a finite number, not finite. Fractional milliseconds are not modelled; play time is an integer.
- Floating point: the minutes, hours, night share and micro-skip rate are computed by division in the source. The model keeps integer milliseconds and `Ratio(num, den)`.
- `meta.startISO` / `meta.endISO` are modelled as the epoch milliseconds they are formatted from. `toISOString` is not modelled.
- The `"YYYY-MM"` month key string and its `localeCompare` sort are modelled as `MonthKey(year, month)` in calendar order. The two orders agree for four-digit years, which is what the date parser yields for the export's timestamps.
- Grouping.TopNBySum, Grouping.TopNByCount, Grouping.Highest, NotWrapped.MostDiverseDay, Viz.LoopMonsters: they state that the entries kept are maximal, not which of several tied keys wins. The stable sort is modelled, but its tie order is not stated as a property.
- `Math.min(...)` / `Math.max(...)` over a spread argument throw `RangeError` on very long arrays. This engine limit is not modelled.
- `peakHourEntry?.[0]` and `(peakHourEntry?.[1] || 0)`: these fall-backs cannot be reached, because the highlights are computed only when some play is kept.
- ThenNow.MergeRanks: the source updates the shared record object in place (`v.lateRank = i + 1`). The model replaces the map value, which is the same thing because only the map refers to the record. The entries' `minutes` are floats in the source and integers here.
- `computeThenNow` and `computeMoodMap` are imported by the components, but they are not part of this model: their source is not available.
- The React components, SVG charts, PNG export and the HTTP call to a local language-model server: presentation and I/O, with nothing to verify.

## Findings

| source | as written | input that shows it | evidently intended | confidence | as-written member | corrected member |
|---|---|---|---|---|---|---|
| src/lib/viz.js:30 | the track key is recovered with `k.split("\|\|")[1]` | a play of "AC\|\|DC — Back in Black": the key splits back to "AC" | the loop score of track "AC\|\|DC — Back in Black" | medium, not executed | CompositeKeys.SplitMisreadsTrackKey | Viz.LoopScores |
| src/lib/wrapped.js:105 | `const [date, trackKey] = k.split("\|\|")` (and the artist at line 93) keeps only the text up to the next `\|\|` | the same play: `maxLoop.trackKey` is "AC" | the full track key (or artist name) of the maximal pair | medium, not executed | CompositeKeys.SplitCutsSecond | NotWrapped.ComputeHighlights |
| src/lib/wrapped.js:71 | `nightShare = nightMs / totalMs` with no guard | a threshold of 0 (the slider's minimum) and every kept play lasting 0 ms: 0 / 0 is NaN | a share in [0, 1], guarded as `microSkipRate` is at line 117 | medium, not executed | NotWrapped.NightShareDividesByZero | NotWrapped.NightShare |
| src/lib/wrapped.js:4 | `r.endTime` is read on every array element | an export array holding `null`: a TypeError aborts the whole parse | the element is dropped like any other malformed record | low, not executed | Events.NullElementThrows | Events.ElementEvent |
