/**
 * `computeViz` of `src/lib/viz.js`: over the plays of at least `minMs`
 * milliseconds, the play time per hour of day (24 buckets), the play time per
 * month in calendar order, the "loop monsters" (tracks ranked by the most times
 * they were played on a single day) and the total play time.
 */
module Viz {
  import opened Wrappers
  import opened Sorting
  import opened Events
  import opened Grouping

  /** `{ hourlyMinutes, monthlyMinutes, loopMonsters, totalMinutes }`, in milliseconds. */
  datatype VizReport = VizReport(
    hourly: seq<Ranked<Hour>>,        // { hour, minutes }
    monthly: seq<Ranked<MonthKey>>,   // { month, minutes }
    loopMonsters: seq<Ranked<string>>, // { trackKey, repeats }
    totalMs: int)

  // ---------------------------------------------------------------- the hourly histogram

  /** The 24 buckets: bucket `h` holds hour `h` and the play time of the rows played in it. */
  function HourBuckets(rows: seq<PlayEvent>): (b: seq<Ranked<Hour>>)
    ensures |b| == 24
    ensures forall h :: 0 <= h < 24 ==> b[h].name == h
  {
    seq(24, h requires 0 <= h < 24 => Ranked(h as Hour, SumWhere(rows, HourOf, Ms, h as Hour)))
  }

  /** Adding `w` to entry `k` (if it is one) adds `w` to the sum of the values. */
  lemma {:induction false} SumByBump<K>(s: seq<Ranked<K>>, t: seq<Ranked<K>>, k: int, w: int)
    requires |s| == |t|
    requires forall i :: 0 <= i < |s| ==> t[i].value == s[i].value + (if i == k then w else 0)
    ensures SumBy(t, Value) == SumBy(s, Value) + (if 0 <= k < |s| then w else 0)
  {
    if s != [] {
      SumByBump(s[1..], t[1..], k - 1, w);
    }
  }

  lemma {:induction false} SumByZeros<K>(s: seq<Ranked<K>>)
    requires forall i :: 0 <= i < |s| ==> s[i].value == 0
    ensures SumBy(s, Value) == 0
  {
    if s != [] {
      SumByZeros(s[1..]);
    }
  }

  /** Every play falls in exactly one hour, so the 24 buckets add up to the total play time. */
  lemma {:induction false} HourBucketsTotal(rows: seq<PlayEvent>)
    ensures SumBy(HourBuckets(rows), Value) == Total(rows, Ms)
  {
    if rows == [] {
      SumByZeros(HourBuckets(rows));
    } else {
      var init, last := rows[..|rows| - 1], rows[|rows| - 1];
      HourBucketsTotal(init);
      SumByBump(HourBuckets(init), HourBuckets(rows), last.hour, last.msPlayed);
    }
  }

  /**
   * `byHour[r.hour] += r.msPlayed` over a zeroed 24-slot array, then one
   * `{ hour, ms }` per slot.
   */
  method HourlyHistogram(rows: seq<PlayEvent>) returns (hourly: seq<Ranked<Hour>>)
    ensures hourly == HourBuckets(rows)
  {
    var byHour := new int[24](_ => 0);
    for i := 0 to |rows|
      invariant forall h :: 0 <= h < 24 ==> byHour[h] == SumWhere(rows[..i], HourOf, Ms, h as Hour)
    {
      var r := rows[i];
      assert rows[..i + 1][..i] == rows[..i];
      byHour[r.hour] := byHour[r.hour] + r.msPlayed;
    }
    assert rows[..|rows|] == rows;
    var hist := byHour[..];
    hourly := seq(24, h requires 0 <= h < 24 => Ranked(h as Hour, hist[h]));
  }

  // ---------------------------------------------------------------- the monthly series

  /** The position of a month in the calendar: the order of its `"YYYY-MM"` key. */
  function MonthIndex(e: Ranked<MonthKey>): (i: int)
    ensures i / 12 == e.name.year && i % 12 + 1 == e.name.month
  {
    e.name.year * 12 + e.name.month - 1
  }

  /** `a` is an earlier calendar month than `b`. */
  predicate MonthBefore(a: MonthKey, b: MonthKey)
  {
    a.year < b.year || (a.year == b.year && a.month < b.month)
  }

  /** Calendar order is the order of the month index. */
  lemma MonthIndexOrder(a: Ranked<MonthKey>, b: Ranked<MonthKey>)
    ensures MonthIndex(a) < MonthIndex(b) <==> MonthBefore(a.name, b.name)
    ensures MonthIndex(a) == MonthIndex(b) <==> a.name == b.name
  {
    if a.name.year < b.name.year {
      assert a.name.year * 12 + 12 <= b.name.year * 12;
    } else if b.name.year < a.name.year {
      assert b.name.year * 12 + 12 <= a.name.year * 12;
    }
  }

  /** Sorted by month index with no month twice: strictly ascending in calendar order. */
  lemma StrictlyChronological(s: seq<Ranked<MonthKey>>)
    requires SortedBy(s, MonthIndex) && DistinctBy(s, Name)
    ensures forall i, j :: 0 <= i < j < |s| ==> MonthBefore(s[i].name, s[j].name)
  {
    forall i, j | 0 <= i < j < |s| ensures MonthBefore(s[i].name, s[j].name) {
      assert Name(s[i]) != Name(s[j]);
      MonthIndexOrder(s[i], s[j]);
    }
  }

  /**
   * `monthMap` filled row by row, its entries sorted by month: one entry per
   * distinct month, in calendar order, each with that month's play time.
   */
  method MonthlySeries(rows: seq<PlayEvent>) returns (monthly: seq<Ranked<MonthKey>>)
    ensures forall i, j :: 0 <= i < j < |monthly| ==> MonthBefore(monthly[i].name, monthly[j].name)
    ensures Names(monthly) == Image(rows, MonthOf)
    ensures |monthly| == |Image(rows, MonthOf)|
    ensures TalliesOf(monthly, rows, MonthOf, Ms)
    ensures SumBy(monthly, Value) == Total(rows, Ms)
  {
    var order, m := Tally(rows, MonthOf, Ms);
    var entries := Entries(order, m);
    TallyEntries(rows, MonthOf, Ms, order, m);
    SortedEntries(entries, rows, MonthOf, Ms, MonthIndex);
    monthly := SortBy(entries, MonthIndex);
    StrictlyChronological(monthly);
  }

  // ---------------------------------------------------------------- loop monsters

  /** The number of plays of track `t` on day `d`. */
  function SameDayPlays(rows: seq<PlayEvent>, d: string, t: string): int
  {
    SumWhere(rows, DayTrack, One, (d, t))
  }

  /**
   * `v` is the loop score of track `t`: the largest number of times `t` was
   * played on one day.
   */
  ghost predicate LoopScoreIs(rows: seq<PlayEvent>, t: string, v: int)
  {
    && (exists r :: r in rows && r.trackKey == t && v == SameDayPlays(rows, r.date, t))
    && (forall r :: r in rows && r.trackKey == t ==> SameDayPlays(rows, r.date, t) <= v)
  }

  /** A track's loop score is at least one play. */
  lemma LoopScoreAtLeastOne(rows: seq<PlayEvent>, t: string, v: int)
    requires LoopScoreIs(rows, t, v)
    ensures v >= 1
  {
    var r :| r in rows && r.trackKey == t && v == SameDayPlays(rows, r.date, t);
    assert DayTrack(r) == (r.date, t);
    CountPresent(rows, DayTrack, (r.date, t));
  }

  /** A track has only one loop score. */
  lemma LoopScoreUnique(rows: seq<PlayEvent>, t: string, v: int, w: int)
    requires LoopScoreIs(rows, t, v) && LoopScoreIs(rows, t, w)
    ensures v == w
  {
    var r :| r in rows && r.trackKey == t && v == SameDayPlays(rows, r.date, t);
    var q :| q in rows && q.trackKey == t && w == SameDayPlays(rows, q.date, t);
    assert v <= w && w <= v;
  }

  /** The track keys of the `[date, track]` entries `done`. */
  function TracksOf(done: seq<Ranked<(string, string)>>): set<string>
  {
    set e | e in done :: e.name.1
  }

  /** The state of the `trackLoopScore` loop once the entries `done` have been read. */
  ghost predicate ScoresAfter(done: seq<Ranked<(string, string)>>, tracks: seq<string>, scores: map<string, int>)
  {
    && scores.Keys == TracksOf(done)
    && (forall t :: t in tracks <==> t in scores)
    && (forall i, j :: 0 <= i < j < |tracks| ==> tracks[i] != tracks[j])
    && (forall e :: e in done ==> e.value <= scores[e.name.1])
    && (forall t :: t in scores ==> exists e :: e in done && e.name.1 == t && e.value == scores[t])
  }

  /** One `trackLoopScore.set(t, Math.max(trackLoopScore.get(t) || 0, count))` keeps the loop state. */
  lemma ScoresStep(entries: seq<Ranked<(string, string)>>, i: nat,
                   tracks: seq<string>, scores: map<string, int>,
                   tracks': seq<string>, scores': map<string, int>)
    requires i < |entries|
    requires ScoresAfter(entries[..i], tracks, scores)
    requires entries[i].value >= 1
    requires tracks' == if entries[i].name.1 in scores then tracks else tracks + [entries[i].name.1]
    requires scores' == scores[entries[i].name.1 :=
      Max(if entries[i].name.1 in scores then scores[entries[i].name.1] else 0, entries[i].value)]
    ensures ScoresAfter(entries[..i + 1], tracks', scores')
  {
    assert entries[..i + 1] == entries[..i] + [entries[i]];
    ScoresTracksStep(entries[..i], entries[i], tracks, scores, tracks', scores');
    ScoresValuesStep(entries[..i], entries[i], scores, scores');
  }

  /** The track list and the key set after one more entry. */
  lemma ScoresTracksStep(done: seq<Ranked<(string, string)>>, e: Ranked<(string, string)>,
                         tracks: seq<string>, scores: map<string, int>,
                         tracks': seq<string>, scores': map<string, int>)
    requires scores.Keys == TracksOf(done)
    requires forall t :: t in tracks <==> t in scores
    requires forall i, j :: 0 <= i < j < |tracks| ==> tracks[i] != tracks[j]
    requires tracks' == if e.name.1 in scores then tracks else tracks + [e.name.1]
    requires scores'.Keys == scores.Keys + {e.name.1}
    ensures scores'.Keys == TracksOf(done + [e])
    ensures forall t :: t in tracks' <==> t in scores'
    ensures forall i, j :: 0 <= i < j < |tracks'| ==> tracks'[i] != tracks'[j]
  {
    var done' := done + [e];
    assert forall x :: x in done' <==> x in done || x == e;
    assert TracksOf(done') == TracksOf(done) + {e.name.1};
  }

  /** The scores after one more entry: each still a largest count, and one of them. */
  lemma ScoresValuesStep(done: seq<Ranked<(string, string)>>, e: Ranked<(string, string)>,
                         scores: map<string, int>, scores': map<string, int>)
    requires scores.Keys == TracksOf(done)
    requires forall x :: x in done ==> x.value <= scores[x.name.1]
    requires forall t :: t in scores ==> exists x :: x in done && x.name.1 == t && x.value == scores[t]
    requires e.value >= 1
    requires scores' == scores[e.name.1 := Max(if e.name.1 in scores then scores[e.name.1] else 0, e.value)]
    ensures forall x :: x in done + [e] ==> x.value <= scores'[x.name.1]
    ensures forall t :: t in scores' ==> exists x :: x in done + [e] && x.name.1 == t && x.value == scores'[t]
  {
    var t := e.name.1;
    var done' := done + [e];
    assert forall x :: x in done' <==> x in done || x == e;
    forall u | u in scores' ensures exists x :: x in done' && x.name.1 == u && x.value == scores'[u] {
      if u == t && scores'[u] == e.value {
        assert e in done';
      } else {
        var x :| x in done && x.name.1 == u && x.value == scores[u];
        assert x in done';
      }
    }
  }

  /**
   * `for (const [k, count] of dayTrackCount.entries())`: each track's largest
   * same-day count, the tracks in order of first appearance.
   */
  method TrackMaxima(entries: seq<Ranked<(string, string)>>) returns (tracks: seq<string>, scores: map<string, int>)
    requires forall e :: e in entries ==> e.value >= 1
    ensures ScoresAfter(entries, tracks, scores)
  {
    tracks, scores := [], map[];
    for i := 0 to |entries|
      invariant ScoresAfter(entries[..i], tracks, scores)
    {
      var e := entries[i];
      var t := e.name.1;
      var tracks' := if t in scores then tracks else tracks + [t];
      var scores' := scores[t := Max(if t in scores then scores[t] else 0, e.value)];
      ScoresStep(entries, i, tracks, scores, tracks', scores');
      tracks, scores := tracks', scores';
    }
    assert entries[..|entries|] == entries;
  }

  /**
   * `dayTrackCount` and then `trackLoopScore`: every track once, with its loop
   * score.
   */
  method LoopScores(rows: seq<PlayEvent>) returns (tracks: seq<string>, scores: map<string, int>)
    ensures scores.Keys == Image(rows, Track)
    ensures forall t :: t in scores ==> LoopScoreIs(rows, t, scores[t])
    ensures forall t :: t in tracks <==> t in scores
    ensures forall i, j :: 0 <= i < j < |tracks| ==> tracks[i] != tracks[j]
  {
    var order, m := Tally(rows, DayTrack, One);
    var entries := Entries(order, m);
    TallyEntries(rows, DayTrack, One, order, m);
    forall e | e in entries ensures e.value >= 1 {
      CountPresent(rows, DayTrack, e.name);
    }
    tracks, scores := TrackMaxima(entries);
    ScoresMeaning(rows, entries, tracks, scores);
  }

  /** A finished `trackLoopScore` over the tally of `[date, track]` pairs holds the loop scores. */
  lemma ScoresMeaning(rows: seq<PlayEvent>, entries: seq<Ranked<(string, string)>>,
                      tracks: seq<string>, scores: map<string, int>)
    requires Names(entries) == Image(rows, DayTrack)
    requires TalliesOf(entries, rows, DayTrack, One)
    requires ScoresAfter(entries, tracks, scores)
    ensures scores.Keys == Image(rows, Track)
    ensures forall t :: t in scores ==> LoopScoreIs(rows, t, scores[t])
  {
    forall t | t in Image(rows, Track) ensures t in TracksOf(entries) {
      var r :| r in rows && r.trackKey == t;
      assert DayTrack(r) in Image(rows, DayTrack);
      var e :| e in entries && e.name == DayTrack(r);
    }
    forall t | t in TracksOf(entries) ensures t in Image(rows, Track) {
      var e :| e in entries && e.name.1 == t;
      assert e.name in Image(rows, DayTrack);
      var r :| r in rows && DayTrack(r) == e.name;
    }
    forall t | t in scores ensures LoopScoreIs(rows, t, scores[t]) {
      var e :| e in entries && e.name.1 == t && e.value == scores[t];
      assert e.name in Image(rows, DayTrack);
      var r :| r in rows && DayTrack(r) == e.name;
      assert r.trackKey == t && scores[t] == SameDayPlays(rows, r.date, t);
      forall q | q in rows && q.trackKey == t ensures SameDayPlays(rows, q.date, t) <= scores[t] {
        assert DayTrack(q) in Image(rows, DayTrack);
        RankedHasKey(entries, rows, DayTrack, One, DayTrack(q));
      }
    }
  }

  /** The entries of a map listed by a distinct key order that covers it. */
  lemma ListedEntries(tracks: seq<string>, scores: map<string, int>)
    requires forall t :: t in tracks <==> t in scores
    requires forall i, j :: 0 <= i < j < |tracks| ==> tracks[i] != tracks[j]
    ensures Names(Entries(tracks, scores)) == scores.Keys
    ensures |Entries(tracks, scores)| == |scores.Keys|
    ensures DistinctBy(Entries(tracks, scores), Name)
    ensures forall e :: e in Entries(tracks, scores) ==> e.name in scores && e.value == scores[e.name]
  {
    var entries := Entries(tracks, scores);
    EntriesNames(tracks, scores);
    forall e | e in entries ensures e.name in scores && e.value == scores[e.name] {
      var i :| 0 <= i < |entries| && entries[i] == e;
    }
    forall t | t in scores ensures t in Names(entries) {
      var i :| 0 <= i < |tracks| && tracks[i] == t;
      assert entries[i] in entries;
    }
    DistinctNamesCard(entries);
  }

  /**
   * `loopMonsters`: at most ten tracks, distinct, from the highest loop score
   * down, each with its loop score, and no track left out has a higher score
   * than a track kept.
   */
  ghost predicate LoopMonstersHold(monsters: seq<Ranked<string>>, rows: seq<PlayEvent>)
  {
    && |monsters| == Min(10, |Image(rows, Track)|)
    && DistinctBy(monsters, Name)
    && NonIncreasing(monsters)
    && (forall e :: e in monsters ==> e.name in Image(rows, Track) && LoopScoreIs(rows, e.name, e.value))
    && (forall t, v, j ::
          (t in Image(rows, Track) && t !in Names(monsters) && LoopScoreIs(rows, t, v) && 0 <= j < |monsters|)
          ==> v <= monsters[j].value)
  }

  /** The loop scores sorted from the highest down: every track once, with its score. */
  lemma RankedScores(rows: seq<PlayEvent>, tracks: seq<string>, scores: map<string, int>)
    requires scores.Keys == Image(rows, Track)
    requires forall t :: t in tracks <==> t in scores
    requires forall i, j :: 0 <= i < j < |tracks| ==> tracks[i] != tracks[j]
    ensures var ranked := SortBy(Entries(tracks, scores), Descending);
      && Names(ranked) == Image(rows, Track)
      && |ranked| == |Image(rows, Track)|
      && DistinctBy(ranked, Name)
      && NonIncreasing(ranked)
      && forall e :: e in ranked ==> e.name in scores && e.value == scores[e.name]
  {
    var entries := Entries(tracks, scores);
    ListedEntries(tracks, scores);
    var ranked := SortBy(entries, Descending);
    DistinctBySorted(entries, Descending, Name);
    DescendingIsNonIncreasing(ranked);
    forall e ensures e in ranked <==> e in entries {
      InPermutation(e, ranked, entries);
    }
    assert Names(ranked) == Names(entries);
  }

  /** The first ten of a ranking of the loop scores are the loop monsters. */
  lemma TopTenHold(rows: seq<PlayEvent>, scores: map<string, int>, ranked: seq<Ranked<string>>)
    requires forall t :: t in scores ==> LoopScoreIs(rows, t, scores[t])
    requires Names(ranked) == Image(rows, Track)
    requires |ranked| == |Image(rows, Track)|
    requires DistinctBy(ranked, Name)
    requires NonIncreasing(ranked)
    requires forall e :: e in ranked ==> e.name in scores && e.value == scores[e.name]
    ensures LoopMonstersHold(ranked[..Min(10, |ranked|)], rows)
  {
    var monsters := ranked[..Min(10, |ranked|)];
    forall i, j | 0 <= i < j < |monsters| ensures monsters[i].name != monsters[j].name {
      assert monsters[i] == ranked[i] && monsters[j] == ranked[j];
    }
    forall e | e in monsters ensures e.name in Image(rows, Track) && LoopScoreIs(rows, e.name, e.value) {
      assert e in ranked;
    }
    forall t, v, j | t in Image(rows, Track) && t !in Names(monsters) && LoopScoreIs(rows, t, v)
                     && 0 <= j < |monsters|
      ensures v <= monsters[j].value
    {
      var e :| e in ranked && e.name == t;
      LoopScoreUnique(rows, t, v, e.value);
      TopIsMaximal(ranked, 10, t, v);
    }
  }

  /** `[...trackLoopScore.entries()].sort((a, b) => b[1] - a[1]).slice(0, 10)`. */
  method LoopMonsters(rows: seq<PlayEvent>) returns (monsters: seq<Ranked<string>>)
    ensures LoopMonstersHold(monsters, rows)
  {
    var tracks, scores := LoopScores(rows);
    RankedScores(rows, tracks, scores);
    var ranked := SortBy(Entries(tracks, scores), Descending);
    TopTenHold(rows, scores, ranked);
    monsters := ranked[..Min(10, |ranked|)];
  }

  // ---------------------------------------------------------------- the report

  /** The monthly series: one entry per month played, in calendar order, each with its play time. */
  ghost predicate MonthlyHolds(monthly: seq<Ranked<MonthKey>>, rows: seq<PlayEvent>)
  {
    && (forall i, j :: 0 <= i < j < |monthly| ==> MonthBefore(monthly[i].name, monthly[j].name))
    && Names(monthly) == Image(rows, MonthOf)
    && |monthly| == |Image(rows, MonthOf)|
    && TalliesOf(monthly, rows, MonthOf, Ms)
    && SumBy(monthly, Value) == Total(rows, Ms)
  }

  /**
   * `computeViz`: every part is computed from the plays of at least `minMs`
   * milliseconds only.
   */
  method ComputeViz(allRows: seq<PlayEvent>, minMs: int) returns (v: VizReport)
    ensures var rows := Kept(allRows, minMs);
      && v.hourly == HourBuckets(rows)
      && SumBy(v.hourly, Value) == v.totalMs
      && MonthlyHolds(v.monthly, rows)
      && LoopMonstersHold(v.loopMonsters, rows)
      && v.totalMs == Total(rows, Ms)
  {
    var rows := Kept(allRows, minMs);
    var hourly := HourlyHistogram(rows);
    HourBucketsTotal(rows);
    var monthly := MonthlySeries(rows);
    var monsters := LoopMonsters(rows);
    var totalMs := SumMs(rows);
    v := VizReport(hourly, monthly, monsters, totalMs);
  }
}
