/**
 * The string keys `${date}||${x}` that `src/lib/wrapped.js` and `src/lib/viz.js`
 * build for a `Map` and later take apart with `k.split("||")`.
 *
 * The rest of the model keys those maps by the pair `(date, x)` instead; this
 * module models the string round trip as written and shows where it loses the
 * second component: a name that itself contains `||`.
 */
module CompositeKeys {
  import opened Wrappers

  const Separator: string := "||"

  /** `${a}||${b}`. */
  function JoinKey(a: string, b: string): (k: string)
    ensures |k| == |a| + 2 + |b|
    ensures k[..|a|] == a && k[|a| + 2..] == b
    ensures k[|a|..|a| + 2] == Separator
  {
    a + Separator + b
  }

  /** A separator starts at position `i` of `s`. */
  predicate SeparatorAt(s: string, i: int)
  {
    0 <= i && i + 1 < |s| && s[i] == '|' && s[i + 1] == '|'
  }

  /** The first position at or after `from` where a separator starts, or `|s|` if none does. */
  function FindSeparator(s: string, from: nat): (i: nat)
    requires from <= |s|
    ensures from <= i <= |s|
    ensures i < |s| ==> SeparatorAt(s, i)
    ensures forall j :: from <= j < i ==> !SeparatorAt(s, j)
    decreases |s| - from
  {
    if from + 1 >= |s| then |s|
    else if SeparatorAt(s, from) then from
    else FindSeparator(s, from + 1)
  }

  /**
   * `k.split("||")[1]`: the text between the first separator and the next one
   * (or the end), and `undefined` when `k` holds no separator.
   */
  function SecondField(k: string): (r: Option<string>)
    ensures r.None? <==> forall j :: 0 <= j < |k| ==> !SeparatorAt(k, j)
    ensures r.Some? ==> SeparatorAt(k, |FirstField(k)|) && r.value == FirstField(k[|FirstField(k)| + 2..])
  {
    var i := FindSeparator(k, 0);
    if i == |k| then None
    else
      var j := FindSeparator(k, i + 2);
      SeparatorShift(k, i + 2, 0);
      Some(k[i + 2..j])
  }

  /** `k.split("||")[0]`: the text before the first separator. */
  function FirstField(k: string): (r: string)
    ensures |r| <= |k| && r == k[..|r|]
    ensures forall j :: 0 <= j < |r| ==> !SeparatorAt(k, j)
    ensures |r| == |k| || SeparatorAt(k, |r|)
  {
    k[..FindSeparator(k, 0)]
  }

  /** No `|` anywhere in `s`. */
  predicate NoBar(s: string)
  {
    forall i :: 0 <= i < |s| ==> s[i] != '|'
  }

  /** When `a` holds no `|`, the first separator of `a ++ "||" ++ rest` follows `a`. */
  lemma {:induction false} SeparatorAfter(a: string, rest: string, from: nat)
    requires NoBar(a) && from <= |a|
    ensures FindSeparator(a + Separator + rest, from) == |a|
    decreases |a| - from
  {
    var s := a + Separator + rest;
    assert SeparatorAt(s, |a|);
    if from < |a| {
      assert s[from] == a[from];
      SeparatorAfter(a, rest, from + 1);
    }
  }

  /** A text without `|` holds no separator. */
  lemma {:induction false} NoSeparatorFound(t: string, from: nat)
    requires NoBar(t) && from <= |t|
    ensures FindSeparator(t, from) == |t|
    decreases |t| - from
  {
    if from + 1 < |t| {
      assert t[from] != '|';
      NoSeparatorFound(t, from + 1);
    }
  }

  /** Splitting finds the first field again whenever it holds no `|`. */
  lemma FirstFieldRoundTrip(a: string, b: string)
    requires NoBar(a)
    ensures FirstField(JoinKey(a, b)) == a
  {
    SeparatorAfter(a, b, 0);
  }

  /** When neither component holds a `|`, splitting returns both as joined. */
  lemma SecondFieldRoundTrip(d: string, t: string)
    requires NoBar(d) && NoBar(t)
    ensures SecondField(JoinKey(d, t)) == Some(t)
  {
    var k := JoinKey(d, t);
    assert k == d + Separator + t;
    SeparatorAfter(d, t, 0);
    SeparatorShift(k, |d| + 2, 0);
    assert k[|d| + 2..] == t;
    NoSeparatorFound(t, 0);
    assert FindSeparator(k, |d| + 2) == |k|;
    assert k[|d| + 2..|k|] == t;
  }

  /**
   * With a second component `x ++ "||" ++ y` whose `x` holds no `|`, the split
   * returns `x`, not the component that was joined.
   */
  lemma SplitCutsSecond(d: string, x: string, y: string)
    requires NoBar(d) && NoBar(x)
    ensures SecondField(JoinKey(d, x + Separator + y)) == Some(x)
  {
    var k := JoinKey(d, x + Separator + y);
    assert k == d + Separator + (x + Separator + y);
    SeparatorAfter(d, x + Separator + y, 0);
    var tail := k[|d| + 2..];
    assert tail == x + Separator + y;
    SeparatorAfter(x, y, 0);
    SeparatorShift(k, |d| + 2, 0);
    assert FindSeparator(k, 0) == |d| < |k|;
    assert FindSeparator(k, |d| + 2) == |d| + 2 + |x|;
    assert k[|d| + 2..|d| + 2 + |x|] == tail[..|x|] == x;
  }

  /** Searching a suffix finds the same separator, shifted. */
  lemma {:induction false} SeparatorShift(k: string, offset: nat, from: nat)
    requires offset + from <= |k|
    ensures FindSeparator(k, offset + from) == offset + FindSeparator(k[offset..], from)
    decreases |k| - offset - from
  {
    var s := k[offset..];
    if from + 1 < |s| && !SeparatorAt(s, from) {
      assert !SeparatorAt(k, offset + from) by {
        assert s[from] == k[offset + from] && s[from + 1] == k[offset + from + 1];
      }
      SeparatorShift(k, offset, from + 1);
    } else if from + 1 < |s| {
      assert s[from] == k[offset + from] && s[from + 1] == k[offset + from + 1];
    }
  }

  /**
   * The artist "AC||DC": its track key "AC||DC — Back in Black", joined to a
   * date and split again, comes back as "AC".
   */
  lemma SplitMisreadsTrackKey()
    ensures SecondField(JoinKey("2024-03-01", "AC||DC \U{2014} Back in Black")) == Some("AC")
  {
    assert "AC||DC \U{2014} Back in Black" == "AC" + Separator + "DC \U{2014} Back in Black";
    SplitCutsSecond("2024-03-01", "AC", "DC \U{2014} Back in Black");
  }
}
