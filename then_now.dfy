/**
 * The computations of `src/components/ThenNow.jsx`: `mergeRanks`, which lines
 * up an early and a late top-artist list by name, the clamp of the window-size
 * slider, and the rank change shown as an arrow next to each artist.
 */
module ThenNow {
  import opened Wrappers
  import opened Sorting
  import opened Grouping

  /** A 1-based rank in a list. */
  type Position = n: int | 1 <= n witness 1

  /** `{ name, earlyRank, earlyMin, lateRank, lateMin }`; an absent rank is `null`. */
  datatype Movement = Movement(name: string, earlyRank: Option<Position>, earlyMin: int,
                               lateRank: Option<Position>, lateMin: int)

  /** The rank that stands in for an absent one when sorting. */
  const AbsentRank: int := 999

  /** At most this many movements are shown. */
  const MaxMovements: nat := 12

  // ---------------------------------------------------------------- what a movement means

  /** The last position of `name` in `s`: a later `map.set` of the same name wins. */
  function LastIndex(s: seq<Ranked<string>>, name: string): (r: Option<nat>)
    ensures r.None? <==> name !in Names(s)
    ensures r.Some? ==> r.value < |s| && s[r.value].name == name
    ensures r.Some? ==> forall j :: r.value < j < |s| ==> s[j].name != name
  {
    if s == [] then None
    else if s[|s| - 1].name == name then Some(|s| - 1)
    else
      var r := LastIndex(s[..|s| - 1], name);
      assert forall e :: e in s ==> e in s[..|s| - 1] || e == s[|s| - 1];
      assert forall e :: e in s[..|s| - 1] ==> e in s;
      r
  }

  /**
   * The movement of `name`: its 1-based rank and value in each list, or `null`
   * and 0 in a list it is not in.
   */
  function MovementOf(early: seq<Ranked<string>>, late: seq<Ranked<string>>, name: string): (m: Movement)
    ensures m.name == name
    ensures m.earlyRank.None? <==> name !in Names(early)
    ensures m.earlyRank.None? ==> m.earlyMin == 0
    ensures m.earlyRank.Some? ==>
              m.earlyRank.value <= |early| && early[m.earlyRank.value - 1] == Ranked(name, m.earlyMin)
    ensures m.lateRank.None? <==> name !in Names(late)
    ensures m.lateRank.None? ==> m.lateMin == 0
    ensures m.lateRank.Some? ==>
              m.lateRank.value <= |late| && late[m.lateRank.value - 1] == Ranked(name, m.lateMin)
  {
    var e, l := LastIndex(early, name), LastIndex(late, name);
    Movement(name,
             if e.Some? then Some(e.value + 1) else None, if e.Some? then early[e.value].value else 0,
             if l.Some? then Some(l.value + 1) else None, if l.Some? then late[l.value].value else 0)
  }

  /** The names of `s` in order of first occurrence: the insertion order of the `Map`. */
  function NamesInOrder(s: seq<Ranked<string>>): seq<string>
  {
    if s == [] then []
    else
      var seen := NamesInOrder(s[..|s| - 1]);
      if s[|s| - 1].name in seen then seen else seen + [s[|s| - 1].name]
  }

  lemma {:induction false} NamesInOrderKeys(s: seq<Ranked<string>>)
    ensures forall n :: n in NamesInOrder(s) <==> n in Names(s)
    ensures forall i, j :: 0 <= i < j < |NamesInOrder(s)| ==> NamesInOrder(s)[i] != NamesInOrder(s)[j]
  {
    if s != [] {
      var init := s[..|s| - 1];
      NamesInOrderKeys(init);
      assert forall e :: e in s <==> e in init || e == s[|s| - 1];
    }
  }

  /** Every name of either list once, each with its movement, before sorting. */
  function Merged(early: seq<Ranked<string>>, late: seq<Ranked<string>>): (r: seq<Movement>)
    ensures |r| == |NamesInOrder(early + late)|
    ensures forall i :: 0 <= i < |r| ==> r[i] == MovementOf(early, late, NamesInOrder(early + late)[i])
  {
    var order := NamesInOrder(early + late);
    seq(|order|, i requires 0 <= i < |order| => MovementOf(early, late, order[i]))
  }

  /** The names of both lists are exactly the names of the merge, each once. */
  lemma MergedCoversOnce(early: seq<Ranked<string>>, late: seq<Ranked<string>>)
    ensures forall n ::
              (exists i :: 0 <= i < |Merged(early, late)| && Merged(early, late)[i].name == n) <==>
              (n in Names(early) || n in Names(late))
    ensures forall i, j :: 0 <= i < j < |Merged(early, late)| ==> Merged(early, late)[i].name != Merged(early, late)[j].name
  {
    var order, merged := NamesInOrder(early + late), Merged(early, late);
    NamesInOrderKeys(early + late);
    assert Names(early + late) == Names(early) + Names(late) by {
      assert forall e :: e in early + late <==> e in early || e in late;
    }
    forall n | n in Names(early) || n in Names(late)
      ensures exists i :: 0 <= i < |merged| && merged[i].name == n
    {
      assert n in Names(early + late);
      assert n in order;
      var i :| 0 <= i < |order| && order[i] == n;
      assert merged[i].name == n;
    }
    forall n, i | 0 <= i < |merged| && merged[i].name == n
      ensures n in Names(early) || n in Names(late)
    {
      assert merged[i].name == order[i];
      assert order[i] in order;
    }
    forall i, j | 0 <= i < j < |merged| ensures merged[i].name != merged[j].name {
      assert merged[i].name == order[i] && merged[j].name == order[j];
    }
  }

  /** `Math.min(a.earlyRank ?? 999, a.lateRank ?? 999)`: the better of the two ranks. */
  function Best(m: Movement): (b: int)
    ensures m.earlyRank.None? && m.lateRank.None? ==> b == AbsentRank
    ensures m.earlyRank.Some? ==> b <= m.earlyRank.value
    ensures m.lateRank.Some? ==> b <= m.lateRank.value
    ensures b == AbsentRank || (m.earlyRank.Some? && b == m.earlyRank.value) || (m.lateRank.Some? && b == m.lateRank.value)
  {
    Min(if m.earlyRank.Some? then m.earlyRank.value else AbsentRank,
        if m.lateRank.Some? then m.lateRank.value else AbsentRank)
  }

  // ---------------------------------------------------------------- mergeRanks

  /** The state of `mergeRanks` once all of `early` and the entries `lateDone` of `late` are in the map. */
  ghost predicate MergeAfter(early: seq<Ranked<string>>, lateDone: seq<Ranked<string>>,
                             order: seq<string>, m: map<string, Movement>)
  {
    && order == NamesInOrder(early + lateDone)
    && (forall n :: n in m <==> n in order)
    && (forall n :: n in m ==> m[n] == MovementOf(early, lateDone, n))
  }

  /** Appending `x` moves the last position of `x.name` to the end and no other. */
  lemma LastIndexSnoc(s: seq<Ranked<string>>, x: Ranked<string>, n: string)
    ensures LastIndex(s + [x], n) == if x.name == n then Some(|s|) else LastIndex(s, n)
  {
    assert (s + [x])[..|s|] == s;
  }

  /** Appending `x` to `s` appends its name to the insertion order unless it is already there. */
  lemma NamesInOrderSnoc(s: seq<Ranked<string>>, x: Ranked<string>)
    ensures NamesInOrder(s + [x]) == if x.name in NamesInOrder(s) then NamesInOrder(s) else NamesInOrder(s) + [x.name]
  {
    assert (s + [x])[..|s|] == s;
  }

  /** `early.forEach((x, i) => map.set(x.name, { ..., earlyRank: i + 1, ... }))` keeps the state. */
  lemma EarlyStep(done: seq<Ranked<string>>, x: Ranked<string>, order: seq<string>, m: map<string, Movement>)
    requires MergeAfter(done, [], order, m)
    ensures MergeAfter(done + [x], [],
                       if x.name in m then order else order + [x.name],
                       m[x.name := Movement(x.name, Some(|done| + 1), x.value, None, 0)])
  {
    assert done + [] == done && done + [x] + [] == done + [x];
    NamesInOrderSnoc(done, x);
    forall n ensures MovementOf(done + [x], [], n) ==
                     if n == x.name then Movement(x.name, Some(|done| + 1), x.value, None, 0) else MovementOf(done, [], n)
    {
      LastIndexSnoc(done, x, n);
    }
  }

  /** Appending `x` to the late list changes the movement of `x.name` only: its late rank and value. */
  lemma MovementLateSnoc(early: seq<Ranked<string>>, done: seq<Ranked<string>>, x: Ranked<string>, n: string)
    ensures MovementOf(early, done + [x], n) ==
            if n == x.name then MovementOf(early, done, n).(lateRank := Some(|done| + 1), lateMin := x.value)
            else MovementOf(early, done, n)
  {
    LastIndexSnoc(done, x, n);
  }

  /** A name in neither list has neither rank. */
  lemma MovementAbsent(early: seq<Ranked<string>>, done: seq<Ranked<string>>, n: string)
    requires n !in NamesInOrder(early + done)
    ensures MovementOf(early, done, n) == Movement(n, None, 0, None, 0)
  {
    NamesInOrderKeys(early + done);
    assert forall e :: e in early ==> e in early + done;
    assert forall e :: e in done ==> e in early + done;
  }

  /** `late.forEach(...)`: a new name gets a fresh movement, a known one its late rank and value. */
  lemma LateStep(early: seq<Ranked<string>>, done: seq<Ranked<string>>, x: Ranked<string>,
                 order: seq<string>, m: map<string, Movement>)
    requires MergeAfter(early, done, order, m)
    ensures MergeAfter(early, done + [x],
                       if x.name in m then order else order + [x.name],
                       if x.name in m then m[x.name := m[x.name].(lateRank := Some(|done| + 1), lateMin := x.value)]
                       else m[x.name := Movement(x.name, None, 0, Some(|done| + 1), x.value)])
  {
    assert early + (done + [x]) == (early + done) + [x];
    NamesInOrderSnoc(early + done, x);
    var m' := if x.name in m then m[x.name := m[x.name].(lateRank := Some(|done| + 1), lateMin := x.value)]
              else m[x.name := Movement(x.name, None, 0, Some(|done| + 1), x.value)];
    if x.name !in m {
      MovementAbsent(early, done, x.name);
    }
    forall n | n in m' ensures m'[n] == MovementOf(early, done + [x], n) {
      MovementLateSnoc(early, done, x, n);
    }
  }

  /** `early.forEach(...)`: every early name with its early rank and value. */
  method AddEarly(early: seq<Ranked<string>>) returns (order: seq<string>, m: map<string, Movement>)
    ensures MergeAfter(early, [], order, m)
  {
    order, m := [], map[];
    assert early[..0] + [] == [];
    for i := 0 to |early|
      invariant MergeAfter(early[..i], [], order, m)
    {
      var x := early[i];
      EarlyStep(early[..i], x, order, m);
      assert early[..i + 1] == early[..i] + [x];
      if x.name !in m {
        order := order + [x.name];
      }
      m := m[x.name := Movement(x.name, Some(i + 1), x.value, None, 0)];
    }
    assert early[..|early|] == early;
  }

  /** `late.forEach(...)`: every late name added, or its late rank and value set in place. */
  method AddLate(early: seq<Ranked<string>>, late: seq<Ranked<string>>, order0: seq<string>, m0: map<string, Movement>)
    returns (order: seq<string>, m: map<string, Movement>)
    requires MergeAfter(early, [], order0, m0)
    ensures MergeAfter(early, late, order, m)
  {
    order, m := order0, m0;
    assert late[..0] == [];
    for i := 0 to |late|
      invariant MergeAfter(early, late[..i], order, m)
    {
      var x := late[i];
      LateStep(early, late[..i], x, order, m);
      assert late[..i + 1] == late[..i] + [x];
      if x.name !in m {
        order := order + [x.name];
        m := m[x.name := Movement(x.name, None, 0, Some(i + 1), x.value)];
      } else {
        var v := m[x.name];
        v := v.(lateRank := Some(i + 1), lateMin := x.value);
        m := m[x.name := v];
      }
    }
    assert late[..|late|] == late;
  }

  /** `[...map.values()]` lists the movements in insertion order. */
  lemma ValuesInOrder(early: seq<Ranked<string>>, late: seq<Ranked<string>>, order: seq<string>, m: map<string, Movement>)
    requires MergeAfter(early, late, order, m)
    ensures |order| == |Merged(early, late)|
    ensures forall i :: 0 <= i < |order| ==> order[i] in m && m[order[i]] == Merged(early, late)[i]
  {
  }

  /**
   * `mergeRanks(early, late)`: the merge of both lists, stably sorted by the
   * better rank, cut to its first 12 entries; nothing cut has a better rank
   * than what was kept.
   */
  method MergeRanks(early: seq<Ranked<string>>, late: seq<Ranked<string>>) returns (r: seq<Movement>)
    ensures r == SortBy(Merged(early, late), Best)[..Min(MaxMovements, |Merged(early, late)|)]
    ensures |r| <= MaxMovements
    ensures SortedBy(r, Best)
    ensures forall x :: x in r ==> x in Merged(early, late)
    ensures forall x, k :: x in Merged(early, late) && x !in r && 0 <= k < |r| ==> Best(r[k]) <= Best(x)
  {
    var order, m := AddEarly(early);
    order, m := AddLate(early, late, order, m);
    ValuesInOrder(early, late, order, m);
    var arr := seq(|order|, i requires 0 <= i < |order| => m[order[i]]);
    assert arr == Merged(early, late);
    var sorted := SortBy(arr, Best);
    r := sorted[..Min(MaxMovements, |sorted|)];
    TruncatedSorted(arr, sorted, MaxMovements);
  }

  /** A prefix of a sorted permutation: sorted, drawn from the original, and no better than what it cuts. */
  lemma TruncatedSorted(arr: seq<Movement>, sorted: seq<Movement>, n: nat)
    requires sorted == SortBy(arr, Best)
    ensures var r := sorted[..Min(n, |sorted|)];
      && SortedBy(r, Best)
      && (forall x :: x in r ==> x in arr)
      && (forall x, k :: x in arr && x !in r && 0 <= k < |r| ==> Best(r[k]) <= Best(x))
  {
    var r := sorted[..Min(n, |sorted|)];
    forall x | x in r ensures x in arr {
      InPermutation(x, sorted, arr);
    }
    forall x, k | x in arr && x !in r && 0 <= k < |r| ensures Best(r[k]) <= Best(x) {
      InPermutation(x, sorted, arr);
      var i :| 0 <= i < |sorted| && sorted[i] == x;
      assert r[k] == sorted[k];
      assert i >= |r| by {
        assert forall j :: 0 <= j < |r| ==> r[j] == sorted[j];
      }
    }
  }

  // ---------------------------------------------------------------- window size and arrows

  /** `Math.max(10, Math.min(50, pct))`: the window size in percent. */
  function WindowPercent(pct: int): (p: int)
    ensures 10 <= p <= 50
    ensures 10 <= pct <= 50 ==> p == pct
    ensures pct < 10 ==> p == 10
    ensures pct > 50 ==> p == 50
  {
    Max(10, Min(50, pct))
  }

  /** `/ 100`: the window as a fraction of the year, between 0.1 and 0.5. */
  function WindowFraction(pct: int): (f: real)
    ensures 0.1 <= f <= 0.5
  {
    WindowPercent(pct) as real / 100.0
  }

  /** A larger slider value never gives a smaller window, and clamping twice changes nothing. */
  lemma WindowMonotone(a: int, b: int)
    requires a <= b
    ensures WindowFraction(a) <= WindowFraction(b)
    ensures WindowPercent(WindowPercent(a)) == WindowPercent(a)
  {
  }

  /** `x.earlyRank && x.lateRank ? x.earlyRank - x.lateRank : null`. */
  function RankDelta(m: Movement): (d: Option<int>)
    ensures d.Some? <==> m.earlyRank.Some? && m.lateRank.Some?
    ensures d.Some? ==> d.value + m.lateRank.value == m.earlyRank.value
  {
    if m.earlyRank.Some? && m.lateRank.Some? then Some(m.earlyRank.value - m.lateRank.value) else None
  }

  /** The arrow: "•" without a delta, then up, down or level. */
  datatype Trend = Unranked | Up | Down | Level

  /**
   * The up arrow means improved: the artist is in both lists and ranks better
   * (a smaller rank) late than early; the down arrow means the opposite; the
   * dot means a rank is missing.
   */
  function TrendOf(m: Movement): (t: Trend)
    ensures t == Up <==> m.earlyRank.Some? && m.lateRank.Some? && m.lateRank.value < m.earlyRank.value
    ensures t == Down <==> m.earlyRank.Some? && m.lateRank.Some? && m.lateRank.value > m.earlyRank.value
    ensures t == Unranked <==> m.earlyRank.None? || m.lateRank.None?
  {
    match RankDelta(m)
    case None => Unranked
    case Some(d) => if d > 0 then Up else if d < 0 then Down else Level
  }

  /**
   * On a merged movement: up exactly when the artist's last place in the late
   * list comes before its last place in the early list.
   */
  lemma MergedTrend(early: seq<Ranked<string>>, late: seq<Ranked<string>>, name: string)
    ensures var m := MovementOf(early, late, name);
      TrendOf(m) == Up <==>
        name in Names(early) && name in Names(late) && LastIndex(late, name).value < LastIndex(early, name).value
  {
  }
}
