/**
 * The grouping and ranking primitives of `src/lib/wrapped.js` (and the copy of
 * `sumMs` in `src/lib/viz.js`): summing play time, tallying a weight per key in
 * a `Map`, and ranking the tallied keys.
 */
module Grouping {
  import opened Wrappers
  import opened Sorting
  import opened Events

  /** A `[key, value]` entry of a tally, as the source's `{ name, minutes }` / `{ name, count }`. */
  datatype Ranked<K> = Ranked(name: K, value: int)

  /** The weight of a row when summing play time. */
  function Ms(r: PlayEvent): int { r.msPlayed }

  /** The weight of a row when counting plays. */
  function One(r: PlayEvent): int { 1 }

  function Value<K>(e: Ranked<K>): int { e.value }

  function Name<K>(e: Ranked<K>): K { e.name }

  /** The sort score of `(a, b) => b[1] - a[1]`: larger values first. */
  function Descending<K>(e: Ranked<K>): int { -e.value }

  // ---------------------------------------------------------------- the key functions the source passes

  function Date(r: PlayEvent): string { r.date }
  function Artist(r: PlayEvent): string { r.artistName }
  function Track(r: PlayEvent): string { r.trackKey }
  function HourOf(r: PlayEvent): Hour { r.hour }
  function YearOf(r: PlayEvent): int { r.year }
  function MonthOf(r: PlayEvent): MonthKey { r.month }
  /** The composite key `${r.date}||${r.artistName}`, as a pair. */
  function DayArtist(r: PlayEvent): (string, string) { (r.date, r.artistName) }
  /** The composite key `${r.date}||${r.trackKey}`, as a pair. */
  function DayTrack(r: PlayEvent): (string, string) { (r.date, r.trackKey) }

  /** The filter `r.msPlayed >= minMs`. */
  function AtLeast(minMs: int): (keep: PlayEvent -> bool)
    ensures forall r :: keep(r) <==> r.msPlayed >= minMs
  {
    (r: PlayEvent) => r.msPlayed >= minMs
  }

  /** `rows.filter((r) => r.msPlayed >= minMs)`. */
  function Kept(rows: seq<PlayEvent>, minMs: int): (kept: seq<PlayEvent>)
    ensures |kept| <= |rows|
    ensures forall r :: r in kept <==> r in rows && r.msPlayed >= minMs
  {
    Where(rows, AtLeast(minMs))
  }

  /** The sum of `weight` over `rows`. */
  function Total(rows: seq<PlayEvent>, weight: PlayEvent -> int): int
  {
    if rows == [] then 0 else Total(rows[..|rows| - 1], weight) + weight(rows[|rows| - 1])
  }

  /** The sum of `weight` over the rows whose key is `k`. */
  function SumWhere<K(==)>(rows: seq<PlayEvent>, key: PlayEvent -> K, weight: PlayEvent -> int, k: K): int
  {
    if rows == [] then 0
    else
      var last := rows[|rows| - 1];
      SumWhere(rows[..|rows| - 1], key, weight, k) + (if key(last) == k then weight(last) else 0)
  }

  /** `new Set(rows.map(key))`: the distinct keys of the rows. */
  function Image<K>(rows: seq<PlayEvent>, key: PlayEvent -> K): (keys: set<K>)
  {
    set r | r in rows :: key(r)
  }

  /** `rows.filter(keep)`. */
  function Where(rows: seq<PlayEvent>, keep: PlayEvent -> bool): (kept: seq<PlayEvent>)
    ensures |kept| <= |rows|
    ensures forall r :: r in kept <==> r in rows && keep(r)
  {
    if rows == [] then []
    else
      var last := rows[|rows| - 1];
      assert rows == rows[..|rows| - 1] + [last];
      Where(rows[..|rows| - 1], keep) + (if keep(last) then [last] else [])
  }

  /** The keys of the rows in order of first occurrence: the insertion order of a `Map`. */
  function FirstSeen<K(==)>(rows: seq<PlayEvent>, key: PlayEvent -> K): (order: seq<K>)
    ensures |order| <= |rows|
    ensures rows != [] ==> order != [] && order[0] == key(rows[0])
  {
    if rows == [] then []
    else
      var seen := FirstSeen(rows[..|rows| - 1], key);
      var k := key(rows[|rows| - 1]);
      if k in seen then seen else seen + [k]
  }

  /** `[...m.entries()]` for a `Map` whose insertion order is `order`. */
  function Entries<K(==)>(order: seq<K>, m: map<K, int>): (entries: seq<Ranked<K>>)
    ensures |entries| == |order|
  {
    if order == [] then []
    else
      var k := order[|order| - 1];
      Entries(order[..|order| - 1], m) + [Ranked(k, if k in m then m[k] else 0)]
  }

  /** The names of a list of entries. */
  function Names<K>(s: seq<Ranked<K>>): set<K>
  {
    set e | e in s :: e.name
  }

  ghost predicate NonIncreasing<K>(s: seq<Ranked<K>>)
  {
    forall i, j :: 0 <= i < j < |s| ==> s[i].value >= s[j].value
  }

  /** Every entry holds its key's tally over `rows`. */
  ghost predicate TalliesOf<K>(s: seq<Ranked<K>>, rows: seq<PlayEvent>, key: PlayEvent -> K, weight: PlayEvent -> int)
  {
    forall e :: e in s ==> e.name in Image(rows, key) && e.value == SumWhere(rows, key, weight, e.name)
  }

  // ---------------------------------------------------------------- sums

  /** `sumMs`: the accumulator loop. */
  method SumMs(rows: seq<PlayEvent>) returns (s: int)
    ensures s == Total(rows, Ms)
  {
    s := 0;
    for i := 0 to |rows|
      invariant s == Total(rows[..i], Ms)
    {
      assert rows[..i + 1][..i] == rows[..i];
      s := s + rows[i].msPlayed;
    }
    assert rows[..|rows|] == rows;
  }

  lemma {:induction false} TotalAppend(a: seq<PlayEvent>, b: seq<PlayEvent>, weight: PlayEvent -> int)
    ensures Total(a + b, weight) == Total(a, weight) + Total(b, weight)
  {
    if b != [] {
      TotalAppend(a, b[..|b| - 1], weight);
      assert (a + b)[..|a + b| - 1] == a + b[..|b| - 1];
      assert (a + b)[|a + b| - 1] == b[|b| - 1];
    } else {
      assert a + b == a;
    }
  }

  /** A total of non-negative weights is non-negative. */
  lemma {:induction false} TotalNonNegative(rows: seq<PlayEvent>, weight: PlayEvent -> int)
    requires forall r :: r in rows ==> weight(r) >= 0
    ensures Total(rows, weight) >= 0
  {
    if rows != [] {
      TotalNonNegative(rows[..|rows| - 1], weight);
    }
  }

  // ---------------------------------------------------------------- filters

  /** A play below the threshold changes nothing that is computed from the kept plays. */
  lemma ShortPlayIgnored(rows: seq<PlayEvent>, r: PlayEvent, minMs: int)
    requires r.msPlayed < minMs
    ensures Kept(rows + [r], minMs) == Kept(rows, minMs)
    ensures Kept([r] + rows, minMs) == Kept(rows, minMs)
  {
    assert (rows + [r])[..|rows|] == rows;
    KeptCons(r, rows, minMs);
  }

  /** Filtering a list with one more play in front. */
  lemma {:induction false} KeptCons(r: PlayEvent, rows: seq<PlayEvent>, minMs: int)
    ensures Kept([r] + rows, minMs) == (if r.msPlayed >= minMs then [r] else []) + Kept(rows, minMs)
  {
    if rows == [] {
      assert [r] + rows == [r] && [r][..0] == [];
    } else {
      var init, last := rows[..|rows| - 1], rows[|rows| - 1];
      KeptCons(r, init, minMs);
      assert ([r] + rows)[..|rows|] == [r] + init;
      assert ([r] + rows)[|rows|] == last;
    }
  }

  /** Only the empty list has no keys. */
  lemma ImageEmpty<K>(rows: seq<PlayEvent>, key: PlayEvent -> K)
    ensures Image(rows, key) == {} <==> rows == []
  {
    if rows != [] {
      assert key(rows[0]) in Image(rows, key);
    }
  }

  /** A filter keeps nothing exactly when no row passes it. */
  lemma WhereEmpty(rows: seq<PlayEvent>, keep: PlayEvent -> bool)
    ensures Where(rows, keep) == [] <==> forall r :: r in rows ==> !keep(r)
  {
    if Where(rows, keep) != [] {
      assert Where(rows, keep)[0] in Where(rows, keep);
    }
  }

  /**
   * A stricter filter keeps no more: when every row passing `strict` passes
   * `loose`, and the rows only `loose` passes weigh nothing negative, the
   * stricter total is at most the looser one.
   */
  lemma {:induction false} WhereTotalMonotone(rows: seq<PlayEvent>, strict: PlayEvent -> bool,
                                              loose: PlayEvent -> bool, weight: PlayEvent -> int)
    requires forall r :: r in rows && strict(r) ==> loose(r)
    requires forall r :: r in rows && loose(r) && !strict(r) ==> weight(r) >= 0
    ensures Total(Where(rows, strict), weight) <= Total(Where(rows, loose), weight)
  {
    if rows != [] {
      var init, last := rows[..|rows| - 1], rows[|rows| - 1];
      WhereTotalMonotone(init, strict, loose, weight);
      TotalAppend(Where(init, strict), if strict(last) then [last] else [], weight);
      TotalAppend(Where(init, loose), if loose(last) then [last] else [], weight);
      assert Total([last], weight) == Total([], weight) + weight(last);
    }
  }

  /** The rows a filter keeps weigh at most all rows, when the dropped ones weigh nothing negative. */
  lemma {:induction false} WhereTotalBound(rows: seq<PlayEvent>, keep: PlayEvent -> bool, weight: PlayEvent -> int)
    requires forall r :: r in rows && !keep(r) ==> weight(r) >= 0
    ensures Total(Where(rows, keep), weight) <= Total(rows, weight)
  {
    if rows != [] {
      var init, last := rows[..|rows| - 1], rows[|rows| - 1];
      WhereTotalBound(init, keep, weight);
      TotalAppend(Where(init, keep), if keep(last) then [last] else [], weight);
      assert Total([last], weight) == Total([], weight) + weight(last);
    }
  }

  // ---------------------------------------------------------------- keyed sums

  /** One more row adds its weight to the total. */
  lemma TotalSnoc(rows: seq<PlayEvent>, r: PlayEvent, weight: PlayEvent -> int)
    ensures Total(rows + [r], weight) == Total(rows, weight) + weight(r)
  {
    assert (rows + [r])[..|rows|] == rows;
  }

  /** One more row adds its weight to the sum of its own key only. */
  lemma SumWhereSnoc<K>(rows: seq<PlayEvent>, r: PlayEvent, key: PlayEvent -> K, weight: PlayEvent -> int, k: K)
    ensures SumWhere(rows + [r], key, weight, k) == SumWhere(rows, key, weight, k) + (if key(r) == k then weight(r) else 0)
  {
    assert (rows + [r])[..|rows|] == rows;
  }

  /** One more row appends its key to the first-occurrence order unless it is already there. */
  lemma FirstSeenSnoc<K>(rows: seq<PlayEvent>, r: PlayEvent, key: PlayEvent -> K)
    ensures FirstSeen(rows + [r], key) ==
            if key(r) in FirstSeen(rows, key) then FirstSeen(rows, key) else FirstSeen(rows, key) + [key(r)]
  {
    assert (rows + [r])[..|rows|] == rows;
  }

  lemma {:induction false} ImageSnoc<K>(rows: seq<PlayEvent>, r: PlayEvent, key: PlayEvent -> K)
    ensures Image(rows + [r], key) == Image(rows, key) + {key(r)}
  {
    assert forall x :: x in rows + [r] <==> x in rows || x == r;
  }

  /** A key no row has tallies to zero. */
  lemma {:induction false} SumWhereAbsent<K>(rows: seq<PlayEvent>, key: PlayEvent -> K, weight: PlayEvent -> int, k: K)
    requires k !in Image(rows, key)
    ensures SumWhere(rows, key, weight, k) == 0
  {
    if rows != [] {
      var init := rows[..|rows| - 1];
      ImageSnoc(init, rows[|rows| - 1], key);
      assert rows == init + [rows[|rows| - 1]];
      SumWhereAbsent(init, key, weight, k);
    }
  }

  /** A key some row has counts at least one play. */
  lemma {:induction false} CountPresent<K>(rows: seq<PlayEvent>, key: PlayEvent -> K, k: K)
    requires k in Image(rows, key)
    ensures SumWhere(rows, key, One, k) >= 1
  {
    var init, last := rows[..|rows| - 1], rows[|rows| - 1];
    assert rows == init + [last];
    ImageSnoc(init, last, key);
    CountNonNegative(init, key, k);
    if key(last) != k {
      CountPresent(init, key, k);
    }
  }

  lemma {:induction false} CountNonNegative<K>(rows: seq<PlayEvent>, key: PlayEvent -> K, k: K)
    ensures SumWhere(rows, key, One, k) >= 0
  {
    if rows != [] {
      CountNonNegative(rows[..|rows| - 1], key, k);
    }
  }

  /** The keyed sums of rows with non-negative weights are non-negative. */
  lemma {:induction false} SumWhereNonNegative<K>(rows: seq<PlayEvent>, key: PlayEvent -> K, weight: PlayEvent -> int, k: K)
    requires forall r :: r in rows ==> weight(r) >= 0
    ensures SumWhere(rows, key, weight, k) >= 0
  {
    if rows != [] {
      SumWhereNonNegative(rows[..|rows| - 1], key, weight, k);
    }
  }

  /** The first-occurrence order lists each distinct key exactly once. */
  lemma {:induction false} FirstSeenKeys<K>(rows: seq<PlayEvent>, key: PlayEvent -> K)
    ensures forall k :: k in FirstSeen(rows, key) <==> k in Image(rows, key)
    ensures forall i, j :: 0 <= i < j < |FirstSeen(rows, key)| ==> FirstSeen(rows, key)[i] != FirstSeen(rows, key)[j]
  {
    if rows != [] {
      var init := rows[..|rows| - 1];
      FirstSeenKeys(init, key);
      ImageSnoc(init, rows[|rows| - 1], key);
      assert rows == init + [rows[|rows| - 1]];
    }
  }

  /** `[...m.entries()]` lists each key of the order with its value in the map. */
  lemma {:induction false} EntriesNames<K>(order: seq<K>, m: map<K, int>)
    ensures forall i :: 0 <= i < |order| ==> Entries(order, m)[i].name == order[i]
    ensures forall i :: 0 <= i < |order| && order[i] in m ==> Entries(order, m)[i].value == m[order[i]]
  {
    if order != [] {
      EntriesNames(order[..|order| - 1], m);
    }
  }

  /** Entries of keys other than `k` do not see an update of `k`. */
  lemma {:induction false} EntriesUpdateOther<K>(order: seq<K>, m: map<K, int>, k: K, v: int)
    requires k !in order
    ensures Entries(order, m[k := v]) == Entries(order, m)
  {
    if order != [] {
      EntriesUpdateOther(order[..|order| - 1], m, k, v);
    }
  }

  /** Adding `w` to the tally of a listed key adds `w` to the sum of the entries. */
  lemma {:induction false} EntriesUpdateListed<K>(order: seq<K>, m: map<K, int>, k: K, w: int)
    requires k in order && k in m
    requires forall i, j :: 0 <= i < j < |order| ==> order[i] != order[j]
    ensures SumBy(Entries(order, m[k := m[k] + w]), Value) == SumBy(Entries(order, m), Value) + w
  {
    var init, last := order[..|order| - 1], order[|order| - 1];
    if last == k {
      forall i | 0 <= i < |init| ensures init[i] != k {
        assert order[i] == init[i];
      }
      EntriesUpdateOther(init, m, k, m[k] + w);
      SumByAppend(Entries(init, m), [Ranked(k, m[k])]);
      SumByAppend(Entries(init, m), [Ranked(k, m[k] + w)]);
    } else {
      assert k in init;
      EntriesUpdateListed(init, m, k, w);
      var v := if last in m then m[last] else 0;
      SumByAppend(Entries(init, m[k := m[k] + w]), [Ranked(last, v)]);
      SumByAppend(Entries(init, m), [Ranked(last, v)]);
    }
  }

  lemma {:induction false} SumByAppend<K>(a: seq<Ranked<K>>, b: seq<Ranked<K>>)
    ensures SumBy(a + b, Value) == SumBy(a, Value) + SumBy(b, Value)
  {
    if a == [] {
      assert a + b == b;
    } else {
      SumByAppend(a[1..], b);
      assert (a + b)[1..] == a[1..] + b;
    }
  }

  // ---------------------------------------------------------------- tallies

  /** The state of the tally loop once the rows `done` have been added. */
  ghost predicate TallyAfter<K>(done: seq<PlayEvent>, key: PlayEvent -> K, weight: PlayEvent -> int,
                                    order: seq<K>, m: map<K, int>)
  {
    && order == FirstSeen(done, key)
    && m.Keys == Image(done, key)
    && (forall k :: k in m ==> m[k] == SumWhere(done, key, weight, k))
    && SumBy(Entries(order, m), Value) == Total(done, weight)
  }

  /** One `m.set(k, (m.get(k) || 0) + w)` on row `i` keeps the loop state. */
  lemma TallyStep<K>(rows: seq<PlayEvent>, i: nat, key: PlayEvent -> K, weight: PlayEvent -> int,
                     order: seq<K>, m: map<K, int>, order': seq<K>, m': map<K, int>)
    requires i < |rows|
    requires TallyAfter(rows[..i], key, weight, order, m)
    requires order' == if key(rows[i]) in m then order else order + [key(rows[i])]
    requires m' == m[key(rows[i]) := (if key(rows[i]) in m then m[key(rows[i])] else 0) + weight(rows[i])]
    ensures TallyAfter(rows[..i + 1], key, weight, order', m')
  {
    assert rows[..i + 1] == rows[..i] + [rows[i]];
    TallySnoc(rows[..i], rows[i], key, weight, order, m, order', m');
  }

  lemma TallySnoc<K>(done: seq<PlayEvent>, r: PlayEvent, key: PlayEvent -> K, weight: PlayEvent -> int,
                     order: seq<K>, m: map<K, int>, order': seq<K>, m': map<K, int>)
    requires TallyAfter(done, key, weight, order, m)
    requires order' == if key(r) in m then order else order + [key(r)]
    requires m' == m[key(r) := (if key(r) in m then m[key(r)] else 0) + weight(r)]
    ensures TallyAfter(done + [r], key, weight, order', m')
  {
    TallyOrderStep(done, r, key, order, m.Keys, order');
    assert m'.Keys == m.Keys + {key(r)};
    TallyValuesStep(done, r, key, weight, m, m');
    FirstSeenKeys(done, key);
    TallySumStep(done, r, key, weight, order, m, order', m');
    assert order' == FirstSeen(done + [r], key);
    assert m'.Keys == Image(done + [r], key);
    assert forall x :: x in m' ==> m'[x] == SumWhere(done + [r], key, weight, x);
    assert SumBy(Entries(order', m'), Value) == Total(done + [r], weight);
  }

  lemma TallyOrderStep<K>(done: seq<PlayEvent>, r: PlayEvent, key: PlayEvent -> K,
                          order: seq<K>, keys: set<K>, order': seq<K>)
    requires order == FirstSeen(done, key) && keys == Image(done, key)
    requires order' == if key(r) in keys then order else order + [key(r)]
    ensures order' == FirstSeen(done + [r], key)
    ensures keys + {key(r)} == Image(done + [r], key)
  {
    FirstSeenKeys(done, key);
    FirstSeenSnoc(done, r, key);
    ImageSnoc(done, r, key);
  }

  lemma TallyValuesStep<K>(done: seq<PlayEvent>, r: PlayEvent, key: PlayEvent -> K, weight: PlayEvent -> int,
                           m: map<K, int>, m': map<K, int>)
    requires m.Keys == Image(done, key)
    requires forall x :: x in m ==> m[x] == SumWhere(done, key, weight, x)
    requires m' == m[key(r) := (if key(r) in m then m[key(r)] else 0) + weight(r)]
    ensures forall x :: x in m' ==> m'[x] == SumWhere(done + [r], key, weight, x)
  {
    forall x | x in m' ensures m'[x] == SumWhere(done + [r], key, weight, x) {
      SumWhereSnoc(done, r, key, weight, x);
      if x == key(r) && x !in m {
        SumWhereAbsent(done, key, weight, x);
      }
    }
  }

  lemma TallySumStep<K>(done: seq<PlayEvent>, r: PlayEvent, key: PlayEvent -> K, weight: PlayEvent -> int,
                        order: seq<K>, m: map<K, int>, order': seq<K>, m': map<K, int>)
    requires forall k :: k in order <==> k in m
    requires forall i, j :: 0 <= i < j < |order| ==> order[i] != order[j]
    requires SumBy(Entries(order, m), Value) == Total(done, weight)
    requires order' == if key(r) in m then order else order + [key(r)]
    requires m' == m[key(r) := (if key(r) in m then m[key(r)] else 0) + weight(r)]
    ensures SumBy(Entries(order', m'), Value) == Total(done + [r], weight)
  {
    TotalSnoc(done, r, weight);
    if key(r) !in m {
      TallyStepNew(order, m, key(r), weight(r));
    } else {
      EntriesUpdateListed(order, m, key(r), weight(r));
    }
  }

  /** A new key's entry is appended after the others. */
  lemma TallyStepNew<K>(order: seq<K>, m: map<K, int>, k: K, w: int)
    requires k !in order
    ensures SumBy(Entries(order + [k], m[k := w]), Value) == SumBy(Entries(order, m), Value) + w
  {
    EntriesUpdateOther(order, m, k, w);
    assert (order + [k])[..|order|] == order;
    SumByAppend(Entries(order, m), [Ranked(k, w)]);
  }

  /**
   * `for (const r of rows) m.set(k, (m.get(k) || 0) + weight(r))`: the map holds
   * each distinct key's tally, its insertion order is the order of first
   * occurrence, and the tallies add up to the total weight.
   */
  method Tally<K(==)>(rows: seq<PlayEvent>, key: PlayEvent -> K, weight: PlayEvent -> int)
    returns (order: seq<K>, m: map<K, int>)
    ensures order == FirstSeen(rows, key)
    ensures m.Keys == Image(rows, key)
    ensures forall k :: k in m ==> m[k] == SumWhere(rows, key, weight, k)
    ensures SumBy(Entries(order, m), Value) == Total(rows, weight)
  {
    order, m := [], map[];
    for i := 0 to |rows|
      invariant TallyAfter(rows[..i], key, weight, order, m)
    {
      var k := key(rows[i]);
      var order' := if k in m then order else order + [k];
      var m' := m[k := (if k in m then m[k] else 0) + weight(rows[i])];
      TallyStep(rows, i, key, weight, order, m, order', m');
      order, m := order', m';
    }
    assert rows[..|rows|] == rows;
  }

  /** The entries of a finished tally: each distinct key once, with its tally. */
  lemma TallyEntries<K>(rows: seq<PlayEvent>, key: PlayEvent -> K, weight: PlayEvent -> int,
                            order: seq<K>, m: map<K, int>)
    requires TallyAfter(rows, key, weight, order, m)
    ensures Names(Entries(order, m)) == Image(rows, key)
    ensures DistinctBy(Entries(order, m), Name)
    ensures TalliesOf(Entries(order, m), rows, key, weight)
  {
    var entries := Entries(order, m);
    EntriesNames(order, m);
    FirstSeenKeys(rows, key);
    forall e | e in entries
      ensures e.name in Image(rows, key) && e.value == SumWhere(rows, key, weight, e.name)
    {
      var i :| 0 <= i < |entries| && entries[i] == e;
      assert order[i] in m;
    }
    forall k | k in Image(rows, key) ensures k in Names(entries) {
      var i :| 0 <= i < |order| && order[i] == k;
      assert entries[i] in entries;
    }
  }

  /** Sorting a tally's entries keeps every fact about them but their order. */
  lemma SortedEntries<K>(entries: seq<Ranked<K>>, rows: seq<PlayEvent>, key: PlayEvent -> K,
                         weight: PlayEvent -> int, score: Ranked<K> -> int)
    requires Names(entries) == Image(rows, key)
    requires DistinctBy(entries, Name)
    requires TalliesOf(entries, rows, key, weight)
    ensures var ranked := SortBy(entries, score);
      && Names(ranked) == Image(rows, key)
      && |ranked| == |Image(rows, key)|
      && DistinctBy(ranked, Name)
      && TalliesOf(ranked, rows, key, weight)
      && SumBy(ranked, Value) == SumBy(entries, Value)
  {
    var ranked := SortBy(entries, score);
    DistinctBySorted(entries, score, Name);
    SumBySorted(entries, score, Value);
    forall e ensures e in ranked <==> e in entries {
      InPermutation(e, ranked, entries);
    }
    assert Names(ranked) == Names(entries);
    DistinctNamesCard(ranked);
  }

  /**
   * `[...m.entries()].sort((a, b) => b[1] - a[1])`: every distinct key once,
   * with its tally, ordered from the largest tally down.
   */
  method RankDescending<K(==)>(rows: seq<PlayEvent>, key: PlayEvent -> K, weight: PlayEvent -> int)
    returns (ranked: seq<Ranked<K>>)
    ensures Names(ranked) == Image(rows, key)
    ensures |ranked| == |Image(rows, key)|
    ensures DistinctBy(ranked, Name)
    ensures TalliesOf(ranked, rows, key, weight)
    ensures NonIncreasing(ranked)
    ensures SumBy(ranked, Value) == Total(rows, weight)
  {
    var order, m := Tally(rows, key, weight);
    TallyEntries(rows, key, weight, order, m);
    SortedEntries(Entries(order, m), rows, key, weight, Descending);
    ranked := SortBy(Entries(order, m), Descending);
    DescendingIsNonIncreasing(ranked);
  }

  lemma DescendingIsNonIncreasing<K>(s: seq<Ranked<K>>)
    requires SortedBy(s, Descending)
    ensures NonIncreasing(s)
  {
    forall i, j | 0 <= i < j < |s| ensures s[i].value >= s[j].value {
      assert Descending(s[i]) <= Descending(s[j]);
    }
  }

  /** Distinct names: as many entries as names. */
  lemma {:induction false} DistinctNamesCard<K>(s: seq<Ranked<K>>)
    requires DistinctBy(s, Name)
    ensures |Names(s)| == |s|
  {
    if s != [] {
      var t := s[1..];
      assert DistinctBy(t, Name) by {
        forall i, j | 0 <= i < j < |t| ensures t[i].name != t[j].name {
          assert t[i] == s[i + 1] && t[j] == s[j + 1];
        }
      }
      DistinctNamesCard(t);
      forall e | e in t ensures e.name != s[0].name {
        var j :| 0 <= j < |t| && t[j] == e;
        assert s[j + 1] == e;
      }
      assert Names(s) == Names(t) + {s[0].name} by {
        assert forall e :: e in s <==> e == s[0] || e in t;
      }
    }
  }

  /**
   * The first `n` entries of a ranking: nothing left out outranks what was kept.
   */
  lemma TopIsMaximal<K>(ranked: seq<Ranked<K>>, n: nat, k: K, v: int)
    requires NonIncreasing(ranked)
    requires Ranked(k, v) in ranked
    requires k !in Names(ranked[..Min(n, |ranked|)])
    ensures forall j :: 0 <= j < Min(n, |ranked|) ==> v <= ranked[j].value
  {
    var top := ranked[..Min(n, |ranked|)];
    forall t | 0 <= t < |top| ensures ranked[t].name != k {
      assert top[t] in top;
    }
    var i :| 0 <= i < |ranked| && ranked[i] == Ranked(k, v);
  }

  /** The tally of a present key appears in a ranking of all keys. */
  lemma RankedHasKey<K>(ranked: seq<Ranked<K>>, rows: seq<PlayEvent>, key: PlayEvent -> K,
                        weight: PlayEvent -> int, k: K)
    requires Names(ranked) == Image(rows, key)
    requires TalliesOf(ranked, rows, key, weight)
    requires k in Image(rows, key)
    ensures Ranked(k, SumWhere(rows, key, weight, k)) in ranked
  {
    var e :| e in ranked && e.name == k;
  }

  /**
   * `top` is a top-`n` list of the keys of `rows` by summed `weight`: `min(n,
   * #keys)` distinct keys from the largest tally down, each with its tally, no
   * key left out above a key kept; the list takes all the weight when no key
   * was cut, and never more than all of it when no weight is negative.
   */
  ghost predicate TopHolds<K>(top: seq<Ranked<K>>, rows: seq<PlayEvent>, key: PlayEvent -> K,
                              weight: PlayEvent -> int, n: nat)
  {
    && |top| == Min(n, |Image(rows, key)|)
    && DistinctBy(top, Name)
    && NonIncreasing(top)
    && TalliesOf(top, rows, key, weight)
    && (forall r, j :: r in rows && key(r) !in Names(top) && 0 <= j < |top| ==>
          SumWhere(rows, key, weight, key(r)) <= top[j].value)
    && (|Image(rows, key)| <= n ==> SumBy(top, Value) == Total(rows, weight))
    && ((forall r :: r in rows ==> weight(r) >= 0) ==> SumBy(top, Value) <= Total(rows, weight))
  }

  /** Entries that all weigh something non-negative have a non-negative sum. */
  lemma {:induction false} SumByNonNegative<K>(s: seq<Ranked<K>>)
    requires forall e :: e in s ==> e.value >= 0
    ensures SumBy(s, Value) >= 0
  {
    if s != [] {
      assert forall e :: e in s[1..] ==> e in s;
      SumByNonNegative(s[1..]);
    }
  }

  /** The first `n` entries of a full descending ranking are a top-`n` list. */
  lemma TopOfRanking<K>(ranked: seq<Ranked<K>>, rows: seq<PlayEvent>, key: PlayEvent -> K,
                        weight: PlayEvent -> int, n: nat)
    requires Names(ranked) == Image(rows, key)
    requires |ranked| == |Image(rows, key)|
    requires DistinctBy(ranked, Name)
    requires TalliesOf(ranked, rows, key, weight)
    requires NonIncreasing(ranked)
    requires SumBy(ranked, Value) == Total(rows, weight)
    ensures TopHolds(ranked[..Min(n, |ranked|)], rows, key, weight, n)
  {
    TopKeepsRanking(ranked, rows, key, weight, n);
    TopSums(ranked, rows, key, weight, n);
  }

  lemma TopKeepsRanking<K>(ranked: seq<Ranked<K>>, rows: seq<PlayEvent>, key: PlayEvent -> K,
                           weight: PlayEvent -> int, n: nat)
    requires Names(ranked) == Image(rows, key)
    requires DistinctBy(ranked, Name)
    requires TalliesOf(ranked, rows, key, weight)
    requires NonIncreasing(ranked)
    ensures var top := ranked[..Min(n, |ranked|)];
      && DistinctBy(top, Name)
      && NonIncreasing(top)
      && TalliesOf(top, rows, key, weight)
      && (forall r, j :: r in rows && key(r) !in Names(top) && 0 <= j < |top| ==>
            SumWhere(rows, key, weight, key(r)) <= top[j].value)
  {
    var top := ranked[..Min(n, |ranked|)];
    assert forall i :: 0 <= i < |top| ==> top[i] == ranked[i];
    assert forall e :: e in top ==> e in ranked;
    forall r, j | r in rows && key(r) !in Names(top) && 0 <= j < |top|
      ensures SumWhere(rows, key, weight, key(r)) <= top[j].value
    {
      RankedHasKey(ranked, rows, key, weight, key(r));
      TopIsMaximal(ranked, n, key(r), SumWhere(rows, key, weight, key(r)));
    }
  }

  lemma TopSums<K>(ranked: seq<Ranked<K>>, rows: seq<PlayEvent>, key: PlayEvent -> K,
                   weight: PlayEvent -> int, n: nat)
    requires TalliesOf(ranked, rows, key, weight)
    requires |ranked| == |Image(rows, key)|
    requires SumBy(ranked, Value) == Total(rows, weight)
    ensures |Image(rows, key)| <= n ==> SumBy(ranked[..Min(n, |ranked|)], Value) == Total(rows, weight)
    ensures (forall r :: r in rows ==> weight(r) >= 0) ==>
      SumBy(ranked[..Min(n, |ranked|)], Value) <= Total(rows, weight)
  {
    var top := ranked[..Min(n, |ranked|)];
    var rest := ranked[|top|..];
    assert ranked == top + rest;
    SumByAppend(top, rest);
    if forall r :: r in rows ==> weight(r) >= 0 {
      forall e | e in rest ensures e.value >= 0 {
        assert e in ranked;
        SumWhereNonNegative(rows, key, weight, e.name);
      }
      SumByNonNegative(rest);
    }
  }

  /** `topNBySum`: the top `n` keys by summed play time. */
  method TopNBySum<K(==)>(rows: seq<PlayEvent>, key: PlayEvent -> K, n: nat) returns (top: seq<Ranked<K>>)
    ensures TopHolds(top, rows, key, Ms, n)
  {
    var ranked := RankDescending(rows, key, Ms);
    TopOfRanking(ranked, rows, key, Ms, n);
    top := ranked[..Min(n, |ranked|)];
  }

  /** `topNByCount`: the top `n` keys by number of plays. */
  method TopNByCount<K(==)>(rows: seq<PlayEvent>, key: PlayEvent -> K, n: nat) returns (top: seq<Ranked<K>>)
    ensures TopHolds(top, rows, key, One, n)
  {
    var ranked := RankDescending(rows, key, One);
    TopOfRanking(ranked, rows, key, One, n);
    top := ranked[..Min(n, |ranked|)];
  }

  /** `best` is a key of the rows whose tally is at least every key's tally. */
  ghost predicate IsHighest<K>(best: Ranked<K>, rows: seq<PlayEvent>, key: PlayEvent -> K, weight: PlayEvent -> int)
  {
    && best.name in Image(rows, key)
    && best.value == SumWhere(rows, key, weight, best.name)
    && forall r :: r in rows ==> SumWhere(rows, key, weight, key(r)) <= best.value
  }

  /**
   * `[...m.entries()].sort((a, b) => b[1] - a[1])[0]`: a key whose tally is the
   * largest of all keys' tallies.
   */
  method Highest<K(==)>(rows: seq<PlayEvent>, key: PlayEvent -> K, weight: PlayEvent -> int)
    returns (best: Ranked<K>)
    requires rows != []
    ensures IsHighest(best, rows, key, weight)
  {
    var ranked := RankDescending(rows, key, weight);
    assert key(rows[0]) in Image(rows, key);
    best := ranked[0];
    forall r | r in rows ensures SumWhere(rows, key, weight, key(r)) <= best.value {
      RankedHasKey(ranked, rows, key, weight, key(r));
    }
  }
}
