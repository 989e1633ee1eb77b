/**
 * `Array.prototype.sort` with a numeric comparator `(a, b) => score(a) - score(b)`:
 * a stable sort, ascending by an integer score.  A descending sort is an
 * ascending sort by the negated score.
 */
module Sorting {

  /** `s` is ascending by `score`. */
  ghost predicate SortedBy<T>(s: seq<T>, score: T -> int)
  {
    forall i, j :: 0 <= i < j < |s| ==> score(s[i]) <= score(s[j])
  }

  /** No two elements of `s` share a name. */
  ghost predicate DistinctBy<T, K>(s: seq<T>, name: T -> K)
  {
    forall i, j :: 0 <= i < j < |s| ==> name(s[i]) != name(s[j])
  }

  /** The sum of `w` over the elements of `s`. */
  function SumBy<T>(s: seq<T>, w: T -> int): int
  {
    if s == [] then 0 else w(s[0]) + SumBy(s[1..], w)
  }

  /** Inserts `x` before the first element whose score is not below its own. */
  function Insert<T>(x: T, s: seq<T>, score: T -> int): (r: seq<T>)
    requires SortedBy(s, score)
    ensures SortedBy(r, score)
    ensures multiset(r) == multiset(s) + multiset{x}
    ensures |r| == |s| + 1
  {
    if s == [] || score(x) <= score(s[0]) then
      ConsSorted(x, s, score);
      [x] + s
    else
      var rest := Insert(x, s[1..], score);
      assert s == [s[0]] + s[1..];
      assert forall i :: 0 <= i < |rest| ==> score(s[0]) <= score(rest[i]) by {
        forall i | 0 <= i < |rest| ensures score(s[0]) <= score(rest[i]) {
          assert rest[i] in multiset(rest);
          if rest[i] != x {
            assert rest[i] in multiset(s[1..]);
            var j :| 0 <= j < |s[1..]| && s[1..][j] == rest[i];
            assert s[j + 1] == rest[i];
          }
        }
      }
      ConsSorted(s[0], rest, score);
      [s[0]] + rest
  }

  /** A sorted sequence stays sorted behind an element no larger than any of it. */
  lemma ConsSorted<T>(a: T, s: seq<T>, score: T -> int)
    requires SortedBy(s, score)
    requires forall i :: 0 <= i < |s| ==> score(a) <= score(s[i])
    ensures SortedBy([a] + s, score)
  {
    var r := [a] + s;
    forall i, j | 0 <= i < j < |r| ensures score(r[i]) <= score(r[j]) {
      assert r[j] == s[j - 1];
      if i > 0 { assert r[i] == s[i - 1]; }
    }
  }

  /** Insertion sort: stable, ascending by `score`. */
  function SortBy<T>(s: seq<T>, score: T -> int): (r: seq<T>)
    ensures SortedBy(r, score)
    ensures multiset(r) == multiset(s)
    ensures |r| == |s|
  {
    if s == [] then []
    else
      assert s == [s[0]] + s[1..];
      Insert(s[0], SortBy(s[1..], score), score)
  }

  /** An element of a permutation is an element of the original. */
  lemma InPermutation<T>(x: T, r: seq<T>, s: seq<T>)
    requires multiset(r) == multiset(s)
    ensures x in r <==> x in s
  {
    assert x in r <==> x in multiset(r);
    assert x in s <==> x in multiset(s);
  }

  lemma {:induction false} SumByInsert<T>(x: T, s: seq<T>, score: T -> int, w: T -> int)
    requires SortedBy(s, score)
    ensures SumBy(Insert(x, s, score), w) == w(x) + SumBy(s, w)
  {
    if s == [] || score(x) <= score(s[0]) {
      assert ([x] + s)[1..] == s;
    } else {
      SumByInsert(x, s[1..], score, w);
      assert ([s[0]] + Insert(x, s[1..], score))[1..] == Insert(x, s[1..], score);
    }
  }

  /** Sorting keeps the total of any weight. */
  lemma {:induction false} SumBySorted<T>(s: seq<T>, score: T -> int, w: T -> int)
    ensures SumBy(SortBy(s, score), w) == SumBy(s, w)
  {
    if s != [] {
      SumBySorted(s[1..], score, w);
      SumByInsert(s[0], SortBy(s[1..], score), score, w);
    }
  }

  lemma {:induction false} DistinctByInsert<T, K>(x: T, s: seq<T>, score: T -> int, name: T -> K)
    requires SortedBy(s, score) && DistinctBy(s, name)
    requires forall y :: y in s ==> name(y) != name(x)
    ensures DistinctBy(Insert(x, s, score), name)
  {
    if s == [] || score(x) <= score(s[0]) {
      var r := [x] + s;
      forall i, j | 0 <= i < j < |r| ensures name(r[i]) != name(r[j]) {
        if i == 0 { assert r[j] == s[j - 1]; }
        else { assert r[i] == s[i - 1] && r[j] == s[j - 1]; }
      }
    } else {
      var rest := Insert(x, s[1..], score);
      forall y | y in s[1..] ensures name(y) != name(x) { assert y in s; }
      DistinctByInsert(x, s[1..], score, name);
      var r := [s[0]] + rest;
      forall i, j | 0 <= i < j < |r| ensures name(r[i]) != name(r[j]) {
        if i == 0 {
          assert r[j] in multiset(rest);
          assert r[j] == x || r[j] in multiset(s[1..]);
          if r[j] != x {
            var k :| 0 <= k < |s[1..]| && s[1..][k] == r[j];
            assert s[k + 1] == r[j];
          }
        } else {
          assert r[i] == rest[i - 1] && r[j] == rest[j - 1];
        }
      }
    }
  }

  /** Sorting keeps names distinct. */
  lemma {:induction false} DistinctBySorted<T, K>(s: seq<T>, score: T -> int, name: T -> K)
    requires DistinctBy(s, name)
    ensures DistinctBy(SortBy(s, score), name)
  {
    if s != [] {
      var tail := s[1..];
      assert DistinctBy(tail, name) by {
        forall i, j | 0 <= i < j < |tail| ensures name(tail[i]) != name(tail[j]) {
          assert tail[i] == s[i + 1] && tail[j] == s[j + 1];
        }
      }
      DistinctBySorted(tail, score, name);
      forall y | y in SortBy(tail, score) ensures name(y) != name(s[0]) {
        InPermutation(y, SortBy(tail, score), tail);
        var k :| 0 <= k < |tail| && tail[k] == y;
        assert s[k + 1] == y;
      }
      DistinctByInsert(s[0], SortBy(tail, score), score, name);
    }
  }
}
