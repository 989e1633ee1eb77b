/**
 * The primary report, `computeNotWrapped` of `src/lib/wrapped.js`: the plays of
 * at least `minMs` milliseconds are summarised into totals, highlights, the
 * top-10 rankings and the per-year split.
 *
 * Play time stays in integer milliseconds; the source's minutes (`ms / 60000`),
 * hours (`ms / 3600000`) and ratios are views of these numbers, and a ratio is
 * kept as its numerator and denominator.
 */
module NotWrapped {
  import opened Wrappers
  import opened Sorting
  import opened Events
  import opened Grouping

  const NoPlaysError: string := "No plays found after filtering. Lower threshold or check file."

  /** A play shorter than ten seconds. */
  const MicroSkipMs: int := 10000

  /** A fraction `num / den`. */
  datatype Ratio = Ratio(num: int, den: int)

  datatype Meta = Meta(startMs: int, endMs: int, minMs: int)

  datatype Totals = Totals(
    totalMs: int,
    daysActive: nat,
    uniqueArtists: nat,
    uniqueTracks: nat,
    nightShare: Ratio)

  datatype Highlights = Highlights(
    peakHour: Ranked<Hour>,                       // { hour, minutes }
    mostDiverseDay: Ranked<string>,               // { date, uniqueArtists }
    biggestArtistBinge: Ranked<(string, string)>, // { date, artist, minutes }
    maxLoop: Ranked<(string, string)>,            // { date, trackKey, plays }
    microSkipRate: Ratio,
    mostMicroSkipped: Option<Ranked<string>>)     // { name, count } or null

  /** `{ ok: false, error }` or `{ ok: true, meta, totals, highlights, yearSplit, topArtists, topTracks }`. */
  datatype Report =
    | Failed(error: string)
    | Ok(meta: Meta, totals: Totals, highlights: Highlights, yearSplit: seq<Ranked<int>>,
         topArtists: seq<Ranked<string>>, topTracks: seq<Ranked<string>>)

  /** Hours 0 to 5. */
  predicate IsNight(r: PlayEvent)
    ensures IsNight(r) <==> r.hour < 6
  {
    0 <= r.hour <= 5
  }

  /** Under ten seconds: exactly the plays a 10 s threshold would drop. */
  predicate IsMicroSkip(r: PlayEvent)
    ensures IsMicroSkip(r) <==> !AtLeast(MicroSkipMs)(r)
  {
    r.msPlayed < MicroSkipMs
  }

  /** The distinct artists played on day `d`. */
  function ArtistsOn(rows: seq<PlayEvent>, d: string): set<string>
  {
    set r | r in rows && r.date == d :: r.artistName
  }

  // ---------------------------------------------------------------- meta

  /** `Math.min(...rows.map((r) => r.endTime.getTime()))`. */
  function Earliest(rows: seq<PlayEvent>): (t: int)
    requires rows != []
    ensures exists r :: r in rows && r.endTime == t
    ensures forall r :: r in rows ==> t <= r.endTime
  {
    if |rows| == 1 then rows[0].endTime
    else
      var rest := Earliest(rows[1..]);
      assert forall r :: r in rows ==> r == rows[0] || r in rows[1..];
      Min(rows[0].endTime, rest)
  }

  /** `Math.max(...rows.map((r) => r.endTime.getTime()))`. */
  function Latest(rows: seq<PlayEvent>): (t: int)
    requires rows != []
    ensures exists r :: r in rows && r.endTime == t
    ensures forall r :: r in rows ==> r.endTime <= t
  {
    if |rows| == 1 then rows[0].endTime
    else
      var rest := Latest(rows[1..]);
      assert forall r :: r in rows ==> r == rows[0] || r in rows[1..];
      Max(rows[0].endTime, rest)
  }

  // ---------------------------------------------------------------- totals

  /**
   * `nightMs / totalMs`, as written: the denominator is zero when every kept
   * play lasted 0 ms, which a threshold of 0 admits.
   */
  function NightShareAsWritten(rows: seq<PlayEvent>): (share: Ratio)
    ensures share.num == Total(Where(rows, IsNight), Ms)
    ensures share.den == Total(rows, Ms)
  {
    Ratio(Total(Where(rows, IsNight), Ms), Total(rows, Ms))
  }

  /** `nightMs / Math.max(1, totalMs)`: the night share with the denominator guarded. */
  function NightShare(rows: seq<PlayEvent>): (share: Ratio)
    ensures share.den >= 1
    ensures share.num == Total(Where(rows, IsNight), Ms)
    ensures Total(rows, Ms) >= 1 ==> share == NightShareAsWritten(rows)
  {
    Ratio(Total(Where(rows, IsNight), Ms), Max(1, Total(rows, Ms)))
  }

  /** One kept play of 0 ms at a threshold of 0: the code divides 0 by 0. */
  lemma NightShareDividesByZero(r: PlayEvent)
    requires r.msPlayed == 0
    ensures Kept([r], 0) == [r]
    ensures NightShareAsWritten([r]).den == 0
    ensures NightShare([r]).den == 1 && NightShare([r]).num == 0
  {
    assert [r][..0] == [];
    assert Kept([r], 0) == [r];
    assert Total([r], Ms) == 0;
    var night := Where([r], IsNight);
    assert night == [] || night == [r];
    assert night[..|night|] == night;
    assert Total(night, Ms) == 0;
  }

  /**
   * With a non-negative threshold every kept play weighs at least nothing, so the
   * night share lies in [0, 1].
   */
  lemma NightShareInUnitInterval(allRows: seq<PlayEvent>, minMs: int)
    requires minMs >= 0
    ensures var share := NightShare(Kept(allRows, minMs));
      0 <= share.num <= share.den
    ensures NightShare(Kept(allRows, minMs)).num <= Total(Kept(allRows, minMs), Ms)
  {
    var rows := Kept(allRows, minMs);
    TotalNonNegative(Where(rows, IsNight), Ms);
    WhereTotalBound(rows, IsNight, Ms);
  }

  /**
   * With a positive threshold every kept play weighs something, so the night
   * share is zero exactly when no kept play falls in hours 0 to 5.
   */
  lemma {:induction false} NightShareZeroIff(allRows: seq<PlayEvent>, minMs: int)
    requires minMs > 0
    ensures NightShare(Kept(allRows, minMs)).num == 0 <==>
      forall r :: r in Kept(allRows, minMs) ==> !IsNight(r)
  {
    var rows := Kept(allRows, minMs);
    WhereEmpty(rows, IsNight);
    PositiveTotal(Where(rows, IsNight));
  }

  /** Rows that all weigh something have a positive total unless there are none. */
  lemma {:induction false} PositiveTotal(rows: seq<PlayEvent>)
    requires forall r :: r in rows ==> r.msPlayed > 0
    ensures Total(rows, Ms) == 0 <==> rows == []
  {
    if rows != [] {
      var init := rows[..|rows| - 1];
      assert forall r :: r in init ==> r in rows;
      TotalNonNegative(init, Ms);
      assert rows[|rows| - 1] in rows;
    }
  }

  /** Steps 1 and 2: the totals of the kept plays. */
  method ComputeTotals(rows: seq<PlayEvent>) returns (t: Totals)
    ensures t.totalMs == Total(rows, Ms)
    ensures t.daysActive == |Image(rows, Date)|
    ensures t.uniqueArtists == |Image(rows, Artist)|
    ensures t.uniqueTracks == |Image(rows, Track)|
    ensures t.nightShare == NightShare(rows)
  {
    var totalMs := SumMs(rows);
    var nightMs := SumMs(Where(rows, IsNight));
    t := Totals(totalMs, |Image(rows, Date)|, |Image(rows, Artist)|, |Image(rows, Track)|,
                Ratio(nightMs, Max(1, totalMs)));
  }

  // ---------------------------------------------------------------- the most diverse day

  /** The state of the `dayArtists` loop once the rows `done` have been added. */
  ghost predicate DayArtistsAfter(done: seq<PlayEvent>, order: seq<string>, m: map<string, set<string>>)
  {
    && order == FirstSeen(done, Date)
    && m.Keys == Image(done, Date)
    && forall d :: d in m ==> m[d] == ArtistsOn(done, d)
  }

  /** One `dayArtists.get(d).add(r.artistName)` keeps the loop state. */
  lemma DayArtistsStep(rows: seq<PlayEvent>, i: nat, order: seq<string>, m: map<string, set<string>>,
                       order': seq<string>, m': map<string, set<string>>)
    requires i < |rows|
    requires DayArtistsAfter(rows[..i], order, m)
    requires order' == if rows[i].date in m then order else order + [rows[i].date]
    requires m' == m[rows[i].date := (if rows[i].date in m then m[rows[i].date] else {}) + {rows[i].artistName}]
    ensures DayArtistsAfter(rows[..i + 1], order', m')
  {
    var done, r := rows[..i], rows[i];
    assert rows[..i + 1] == done + [r];
    TallyOrderStep(done, r, Date, order, m.Keys, order');
    assert m'.Keys == m.Keys + {r.date};
    DayArtistsValuesStep(done, r, m, m');
  }

  /** Each day's artist set after one more row. */
  lemma DayArtistsValuesStep(done: seq<PlayEvent>, r: PlayEvent, m: map<string, set<string>>,
                             m': map<string, set<string>>)
    requires m.Keys == Image(done, Date)
    requires forall d :: d in m ==> m[d] == ArtistsOn(done, d)
    requires m' == m[r.date := (if r.date in m then m[r.date] else {}) + {r.artistName}]
    ensures forall d :: d in m' ==> m'[d] == ArtistsOn(done + [r], d)
  {
    forall d | d in m' ensures m'[d] == ArtistsOn(done + [r], d) {
      ArtistsOnSnoc(done, r, d);
      if d == r.date && d !in m {
        assert ArtistsOn(done, d) == {} by {
          assert forall x :: x in done ==> x.date in Image(done, Date);
        }
      }
    }
  }

  lemma ArtistsOnSnoc(done: seq<PlayEvent>, r: PlayEvent, d: string)
    ensures ArtistsOn(done + [r], d) == ArtistsOn(done, d) + (if r.date == d then {r.artistName} else {})
  {
    assert forall x :: x in done + [r] <==> x in done || x == r;
  }

  /**
   * `dayArtists`: for each day, in order of first occurrence, the set of artists
   * played that day.
   */
  method DayArtists(rows: seq<PlayEvent>) returns (order: seq<string>, m: map<string, set<string>>)
    ensures order == FirstSeen(rows, Date)
    ensures m.Keys == Image(rows, Date)
    ensures forall d :: d in m ==> m[d] == ArtistsOn(rows, d)
  {
    order, m := [], map[];
    for i := 0 to |rows|
      invariant DayArtistsAfter(rows[..i], order, m)
    {
      var r := rows[i];
      var order' := if r.date in m then order else order + [r.date];
      var m' := m[r.date := (if r.date in m then m[r.date] else {}) + {r.artistName}];
      DayArtistsStep(rows, i, order, m, order', m');
      order, m := order', m';
    }
    assert rows[..|rows|] == rows;
  }

  /** The entries of `dayArtists` turned into `{ date, uniqueArtists }`. */
  lemma DiverseEntries(rows: seq<PlayEvent>, order: seq<string>, m: map<string, set<string>>)
    requires DayArtistsAfter(rows, order, m)
    ensures var entries := Entries(order, map d | d in m :: |m[d]|);
      && (forall e :: e in entries ==> e.name in Image(rows, Date) && e.value == |ArtistsOn(rows, e.name)|)
      && (forall r :: r in rows ==> Ranked(r.date, |ArtistsOn(rows, r.date)|) in entries)
  {
    var sizes := map d | d in m :: |m[d]|;
    var entries := Entries(order, sizes);
    EntriesNames(order, sizes);
    FirstSeenKeys(rows, Date);
    forall e | e in entries ensures e.name in Image(rows, Date) && e.value == |ArtistsOn(rows, e.name)| {
      var i :| 0 <= i < |entries| && entries[i] == e;
      assert order[i] in sizes;
    }
    forall r | r in rows ensures Ranked(r.date, |ArtistsOn(rows, r.date)|) in entries {
      assert r.date in Image(rows, Date);
      var j :| 0 <= j < |order| && order[j] == r.date;
      assert entries[j] in entries;
    }
  }

  /** The first entry of a list sorted from the largest value down is in it, and is the largest. */
  lemma FirstIsLargest<K>(entries: seq<Ranked<K>>, e: Ranked<K>)
    requires e in entries
    ensures var ranked := SortBy(entries, Descending);
      ranked != [] && ranked[0] in entries && e.value <= ranked[0].value
  {
    var ranked := SortBy(entries, Descending);
    DescendingIsNonIncreasing(ranked);
    InPermutation(e, ranked, entries);
    InPermutation(ranked[0], ranked, entries);
  }

  /**
   * `mostDiverse`: a day with the most distinct artists of all days.
   */
  method MostDiverseDay(rows: seq<PlayEvent>) returns (best: Ranked<string>)
    requires rows != []
    ensures best.name in Image(rows, Date)
    ensures best.value == |ArtistsOn(rows, best.name)|
    ensures forall r :: r in rows ==> |ArtistsOn(rows, r.date)| <= best.value
  {
    var order, m := DayArtists(rows);
    var entries := Entries(order, map d | d in m :: |m[d]|);
    DiverseEntries(rows, order, m);
    FirstIsLargest(entries, Ranked(rows[0].date, |ArtistsOn(rows, rows[0].date)|));
    best := SortBy(entries, Descending)[0];
    forall r | r in rows ensures |ArtistsOn(rows, r.date)| <= best.value {
      FirstIsLargest(entries, Ranked(r.date, |ArtistsOn(rows, r.date)|));
    }
  }

  // ---------------------------------------------------------------- highlights

  /** Step 3: the highlights of the kept plays, and the micro-skips of all plays. */
  method ComputeHighlights(allRows: seq<PlayEvent>, rows: seq<PlayEvent>) returns (h: Highlights)
    requires rows != []
    ensures HighlightsHold(h, allRows, rows)
  {
    var peak := Highest(rows, HourOf, Ms);
    var diverse := MostDiverseDay(rows);
    var binge := Highest(rows, DayArtist, Ms);
    var loop := Highest(rows, DayTrack, One);
    CountPresent(rows, DayTrack, loop.name);
    var rate, most := MicroSkips(allRows);
    h := Highlights(peak, diverse, binge, loop, rate, most);
  }

  /** The most diverse day: a day with the most distinct artists. */
  ghost predicate IsMostDiverse(best: Ranked<string>, rows: seq<PlayEvent>)
  {
    && best.name in Image(rows, Date)
    && best.value == |ArtistsOn(rows, best.name)|
    && forall r :: r in rows ==> |ArtistsOn(rows, r.date)| <= best.value
  }

  /**
   * The micro-skip rate counts the micro-skips among all plays, not only the
   * kept ones; the most micro-skipped track is null exactly when nothing was
   * micro-skipped, and otherwise a track micro-skipped most often.
   */
  ghost predicate MicroSkipsHold(rate: Ratio, most: Option<Ranked<string>>, allRows: seq<PlayEvent>)
  {
    var skips := Where(allRows, IsMicroSkip);
    && rate == Ratio(|skips|, Max(1, |allRows|))
    && 0 <= rate.num <= rate.den
    && (most.None? <==> forall r :: r in allRows ==> !IsMicroSkip(r))
    && (most.Some? ==> IsHighest(most.value, skips, Track, One))
  }

  /** What each highlight means. */
  ghost predicate HighlightsHold(h: Highlights, allRows: seq<PlayEvent>, rows: seq<PlayEvent>)
  {
    && IsHighest(h.peakHour, rows, HourOf, Ms)
    && IsMostDiverse(h.mostDiverseDay, rows)
    && IsHighest(h.biggestArtistBinge, rows, DayArtist, Ms)
    && IsHighest(h.maxLoop, rows, DayTrack, One)
    && h.maxLoop.value >= 1
    && MicroSkipsHold(h.microSkipRate, h.mostMicroSkipped, allRows)
  }

  /** `microSkips`, `microSkipRate` and `mostMicroSkipped`. */
  method MicroSkips(allRows: seq<PlayEvent>) returns (rate: Ratio, most: Option<Ranked<string>>)
    ensures MicroSkipsHold(rate, most, allRows)
  {
    var skips := Where(allRows, IsMicroSkip);
    WhereEmpty(allRows, IsMicroSkip);
    var top := TopNByCount(skips, Track, 1);
    rate := Ratio(|skips|, Max(1, |allRows|));
    if top == [] {
      most := None;
      ImageEmpty(skips, Track);
    } else {
      most := Some(top[0]);
      assert top[0] in top;
      assert skips != [];
      forall r | r in skips ensures SumWhere(skips, Track, One, Track(r)) <= top[0].value {
        if Track(r) !in Names(top) {
        } else {
          var e :| e in top && e.name == Track(r);
          assert e == top[0];
        }
      }
    }
  }

  // ---------------------------------------------------------------- the yearly split

  function ByName(e: Ranked<int>): int { e.name }

  /** `[...byYear.entries()].sort((a, b) => a[0] - b[0])`: one entry per year, ascending. */
  method YearSplit(rows: seq<PlayEvent>) returns (split: seq<Ranked<int>>)
    ensures forall i, j :: 0 <= i < j < |split| ==> split[i].name < split[j].name
    ensures Names(split) == Image(rows, YearOf)
    ensures TalliesOf(split, rows, YearOf, Ms)
    ensures SumBy(split, Value) == Total(rows, Ms)
  {
    var order, m := Tally(rows, YearOf, Ms);
    var entries := Entries(order, m);
    TallyEntries(rows, YearOf, Ms, order, m);
    SortedEntries(entries, rows, YearOf, Ms, ByName);
    split := SortBy(entries, ByName);
    StrictlyAscending(split);
  }

  /** Sorted by year with no year twice: strictly ascending. */
  lemma StrictlyAscending(s: seq<Ranked<int>>)
    requires SortedBy(s, ByName) && DistinctBy(s, Name)
    ensures forall i, j :: 0 <= i < j < |s| ==> s[i].name < s[j].name
  {
    forall i, j | 0 <= i < j < |s| ensures s[i].name < s[j].name {
      assert ByName(s[i]) <= ByName(s[j]);
      assert Name(s[i]) != Name(s[j]);
    }
  }

  // ---------------------------------------------------------------- the report

  /**
   * `computeNotWrapped`: the fixed error exactly when no play reaches the
   * threshold; otherwise the totals, highlights, year split and top-10 rankings
   * of the kept plays.
   */
  method ComputeNotWrapped(allRows: seq<PlayEvent>, minMs: int) returns (report: Report)
    ensures report.Failed? <==> Kept(allRows, minMs) == []
    ensures report.Failed? ==> report.error == NoPlaysError
    ensures report.Ok? ==> var rows := Kept(allRows, minMs);
      && report.meta == Meta(Earliest(rows), Latest(rows), minMs)
      && report.totals.totalMs == Total(rows, Ms)
      && report.totals.daysActive == |Image(rows, Date)|
      && report.totals.uniqueArtists == |Image(rows, Artist)|
      && report.totals.uniqueTracks == |Image(rows, Track)|
      && report.totals.nightShare == NightShare(rows)
      && HighlightsHold(report.highlights, allRows, rows)
      && (forall i, j :: 0 <= i < j < |report.yearSplit| ==> report.yearSplit[i].name < report.yearSplit[j].name)
      && Names(report.yearSplit) == Image(rows, YearOf)
      && TalliesOf(report.yearSplit, rows, YearOf, Ms)
      && SumBy(report.yearSplit, Value) == Total(rows, Ms)
      && TopHolds(report.topArtists, rows, Artist, Ms, 10)
      && TopHolds(report.topTracks, rows, Track, Ms, 10)
  {
    var rows := Kept(allRows, minMs);
    if |rows| == 0 {
      return Failed(NoPlaysError);
    }
    var meta := Meta(Earliest(rows), Latest(rows), minMs);
    var totals := ComputeTotals(rows);
    var highlights := ComputeHighlights(allRows, rows);
    var yearSplit := YearSplit(rows);
    var topArtists := TopNBySum(rows, Artist, 10);
    var topTracks := TopNBySum(rows, Track, 10);
    report := Ok(meta, totals, highlights, yearSplit, topArtists, topTracks);
  }

  // ---------------------------------------------------------------- properties across calls

  lemma {:induction false} SubsetCard<T>(a: set<T>, b: set<T>)
    requires a <= b
    ensures |a| <= |b|
    decreases a
  {
    if a != {} {
      var x :| x in a;
      SubsetCard(a - {x}, b - {x});
    }
  }

  /** Raising the threshold keeps a subset of the plays. */
  lemma KeptShrinks(allRows: seq<PlayEvent>, lo: int, hi: int)
    requires lo <= hi
    ensures forall r :: r in Kept(allRows, hi) ==> r in Kept(allRows, lo)
  {
  }

  /**
   * Threshold monotonicity: raising a non-negative `minMs` never increases the
   * total play time, the active days, the distinct artists or the distinct tracks.
   */
  lemma ThresholdMonotone(allRows: seq<PlayEvent>, lo: int, hi: int)
    requires 0 <= lo <= hi
    ensures Total(Kept(allRows, hi), Ms) <= Total(Kept(allRows, lo), Ms)
    ensures |Image(Kept(allRows, hi), Date)| <= |Image(Kept(allRows, lo), Date)|
    ensures |Image(Kept(allRows, hi), Artist)| <= |Image(Kept(allRows, lo), Artist)|
    ensures |Image(Kept(allRows, hi), Track)| <= |Image(Kept(allRows, lo), Track)|
  {
    KeptShrinks(allRows, lo, hi);
    WhereTotalMonotone(allRows, AtLeast(hi), AtLeast(lo), Ms);
    SubsetCard(Image(Kept(allRows, hi), Date), Image(Kept(allRows, lo), Date));
    SubsetCard(Image(Kept(allRows, hi), Artist), Image(Kept(allRows, lo), Artist));
    SubsetCard(Image(Kept(allRows, hi), Track), Image(Kept(allRows, lo), Track));
  }
}
