/**
 * The event normaliser: `parseSpotifyStreamingHistory` turns the untyped records
 * of a streaming-history export into play events, dropping malformed records.
 *
 * The platform's date parser (`new Date(text)` with its local-time getters and the
 * UTC `toISOString`) is not modelled: it is the `clock` parameter, a partial
 * function from the timestamp text to the fields the normaliser reads off it.
 */
module Events {
  import opened Wrappers

  /** `getHours()` of a valid date. */
  type Hour = h: int | 0 <= h < 24

  /** `getMonth() + 1` of a valid date. */
  type MonthNumber = m: int | 1 <= m <= 12 witness 1

  /** What the date parser yields for a timestamp text that denotes a valid instant. */
  datatype Stamp = Stamp(
    epochMs: int,      // getTime()
    year: int,         // getFullYear(), local time
    month: MonthNumber, // getMonth() + 1, local time
    hour: Hour,        // getHours(), local time
    isoDate: string)   // toISOString().slice(0, 10), UTC

  /** `None` is an Invalid Date, whose `getTime()` is NaN. */
  type Clock = string -> Option<Stamp>

  /** The "YYYY-MM" month key, kept as its two numbers. */
  datatype MonthKey = MonthKey(year: int, month: MonthNumber)

  /** A normalised play. */
  datatype PlayEvent = PlayEvent(
    endTime: int,
    msPlayed: int,
    artistName: string,
    trackName: string,
    trackKey: string,
    year: int,
    month: MonthKey,
    hour: Hour,
    date: string)

  /** `Number(r.msPlayed ?? 0)`: the field is missing, a finite number, or NaN / an infinity. */
  datatype RawMs = MsAbsent | MsNumber(n: int) | MsNotFinite

  /** The fields of one element of the export; `None` is a missing field. */
  datatype RawRecord = RawRecord(
    endTime: Option<string>,
    msPlayed: RawMs,
    artistName: Option<string>,
    trackName: Option<string>)

  /** An array element: an object, or JSON `null`. */
  datatype RawElement = Record(fields: RawRecord) | Null

  /** The parsed JSON document: an array, or anything else. */
  datatype RawInput = JsonArray(elements: seq<RawElement>) | NotAnArray

  /** The outcome of a JavaScript call that may throw. */
  datatype Thrown<T> = Returned(value: T) | ThrowsTypeError

  /** Separator of the track key: space, EM DASH, space. */
  const KeySeparator: string := " \U{2014} "

  /** The characters `String.prototype.trim` removes: WhiteSpace and LineTerminator. */
  predicate IsJsSpace(c: char)
  {
    c == '\t' || c == '\n' || c == '\U{000B}' || c == '\U{000C}' || c == '\r' || c == ' ' ||
    c == '\U{00A0}' || c == '\U{1680}' || ('\U{2000}' <= c <= '\U{200A}') ||
    c == '\U{2028}' || c == '\U{2029}' || c == '\U{202F}' || c == '\U{205F}' ||
    c == '\U{3000}' || c == '\U{FEFF}'
  }

  /** Neither end of `s` is whitespace. */
  predicate Trimmed(s: string)
  {
    s == [] || (!IsJsSpace(s[0]) && !IsJsSpace(s[|s| - 1]))
  }

  function LeadingSpaces(s: string): (n: nat)
    ensures n <= |s|
    ensures forall k :: 0 <= k < n ==> IsJsSpace(s[k])
    ensures n < |s| ==> !IsJsSpace(s[n])
  {
    if s == [] || !IsJsSpace(s[0]) then 0 else 1 + LeadingSpaces(s[1..])
  }

  function TrailingSpaces(s: string): (n: nat)
    ensures n <= |s|
    ensures forall k :: |s| - n <= k < |s| ==> IsJsSpace(s[k])
    ensures n < |s| ==> !IsJsSpace(s[|s| - 1 - n])
  {
    if s == [] || !IsJsSpace(s[|s| - 1]) then 0 else 1 + TrailingSpaces(s[..|s| - 1])
  }

  /**
   * `String.prototype.trim`: the infix of `s` that starts at its first
   * non-whitespace character, with only whitespace cut off on either side.
   */
  function Trim(s: string): (r: string)
    ensures Trimmed(r)
    ensures var i := LeadingSpaces(s);
      && i + |r| <= |s| && r == s[i..i + |r|]
      && (forall k :: 0 <= k < i ==> IsJsSpace(s[k]))
      && (forall k :: i + |r| <= k < |s| ==> IsJsSpace(s[k]))
    ensures r == [] <==> forall k :: 0 <= k < |s| ==> IsJsSpace(s[k])
  {
    var i := LeadingSpaces(s);
    var n := TrailingSpaces(s[i..]);
    TrimCut(s, i, n);
    s[i..|s| - n]
  }

  /** What cutting `i` leading and then `n` trailing whitespace characters leaves. */
  lemma TrimCut(s: string, i: nat, n: nat)
    requires i == LeadingSpaces(s) && n == TrailingSpaces(s[i..])
    ensures i <= |s| - n
    ensures Trimmed(s[i..|s| - n])
    ensures forall k :: |s| - n <= k < |s| ==> IsJsSpace(s[k])
    ensures s[i..|s| - n] == [] <==> forall k :: 0 <= k < |s| ==> IsJsSpace(s[k])
  {
    TrimTail(s, i, n);
    TrimEnds(s, i, n);
  }

  lemma TrimTail(s: string, i: nat, n: nat)
    requires i <= |s| && n == TrailingSpaces(s[i..])
    ensures i <= |s| - n
    ensures forall k :: |s| - n <= k < |s| ==> IsJsSpace(s[k])
  {
    var t := s[i..];
    forall k | |s| - n <= k < |s| ensures IsJsSpace(s[k]) {
      assert s[k] == t[k - i];
    }
  }

  lemma TrimEnds(s: string, i: nat, n: nat)
    requires i <= |s| && n == TrailingSpaces(s[i..])
    requires i < |s| ==> !IsJsSpace(s[i])
    ensures i <= |s| - n
    ensures Trimmed(s[i..|s| - n])
    ensures i < |s| - n <==> i < |s|
  {
    var t := s[i..];
    if i < |s| {
      assert t[0] == s[i];
      assert n < |t|;
      assert s[|s| - 1 - n] == t[|t| - 1 - n];
    }
  }

  /** `s.replace(from, to)` with a one-character pattern: only the first occurrence is replaced. */
  function ReplaceFirst(s: string, from: char, to: char): (r: string)
    ensures |r| == |s|
    ensures forall k :: 0 <= k < |s| ==>
      r[k] == (if s[k] == from && from !in s[..k] then to else s[k])
  {
    if s == [] then []
    else if s[0] == from then [to] + s[1..]
    else
      var rest := ReplaceFirst(s[1..], from, to);
      assert forall k :: 1 <= k < |s| ==> s[1..][..k - 1] + [] == s[1..k] && (from in s[..k] <==> from in s[1..k]);
      [s[0]] + rest
  }

  /** `String(r.endTime || "").replace(" ", "T") + ":00"`: the text handed to the date parser. */
  function TimestampText(endTime: Option<string>): (t: string)
    ensures |t| == (if endTime.Some? then |endTime.value| else 0) + 3
    ensures t[..|t| - 3] == ReplaceFirst(if endTime.Some? then endTime.value else "", ' ', 'T')
    ensures t[|t| - 3..] == ":00"
  {
    var raw := if endTime.Some? then endTime.value else "";
    ReplaceFirst(raw, ' ', 'T') + ":00"
  }

  /** `String(x ?? "").trim()`. */
  function NameField(x: Option<string>): (r: string)
    ensures Trimmed(r)
    ensures x.None? ==> r == []
    ensures x.Some? ==> r == Trim(x.value)
  {
    Trim(if x.Some? then x.value else "")
  }

  /** `Number(r.msPlayed ?? 0)`, then `Number.isFinite(ms) ? ms : 0`. */
  function PlayedMs(m: RawMs): (ms: int)
    ensures m.MsNumber? ==> ms == m.n
    ensures !m.MsNumber? ==> ms == 0
  {
    match m
    case MsAbsent => 0
    case MsNumber(n) => n
    case MsNotFinite => 0
  }

  /** `${artistName} — ${trackName}`. */
  function TrackKey(artist: string, track: string): (k: string)
    ensures |k| == |artist| + |KeySeparator| + |track|
    ensures k[..|artist|] == artist && k[|k| - |track|..] == track
    ensures k[|artist|..|artist| + |KeySeparator|] == KeySeparator
  {
    artist + KeySeparator + track
  }

  /** What every normalised play satisfies. */
  ghost predicate WellFormed(e: PlayEvent)
  {
    && e.artistName != [] && Trimmed(e.artistName)
    && e.trackName != [] && Trimmed(e.trackName)
    && e.trackKey == e.artistName + KeySeparator + e.trackName
    && e.month.year == e.year
  }

  /** The `.map` callback: a play event, or `null` for a record to drop. */
  function ToEvent(rec: RawRecord, clock: Clock): (r: Option<PlayEvent>)
    ensures r.None? <==>
      NameField(rec.artistName) == [] || NameField(rec.trackName) == [] ||
      clock(TimestampText(rec.endTime)).None?
    ensures r.Some? ==>
      && WellFormed(r.value)
      && r.value.artistName == NameField(rec.artistName)
      && r.value.trackName == NameField(rec.trackName)
      && r.value.msPlayed == PlayedMs(rec.msPlayed)
      && var st := clock(TimestampText(rec.endTime)).value;
         r.value.endTime == st.epochMs && r.value.year == st.year && r.value.hour == st.hour &&
         r.value.month == MonthKey(st.year, st.month) && r.value.date == st.isoDate
  {
    var artist := NameField(rec.artistName);
    var track := NameField(rec.trackName);
    var when := clock(TimestampText(rec.endTime));
    if artist == [] || track == [] || when.None? then None
    else
      var st := when.value;
      Some(PlayEvent(
        st.epochMs, PlayedMs(rec.msPlayed), artist, track, TrackKey(artist, track),
        st.year, MonthKey(st.year, st.month), st.hour, st.isoDate))
  }

  /** `xs.map(f).filter(Boolean)`: the present results of `f`, in order. */
  function FilterMap<A, B>(xs: seq<A>, f: A -> Option<B>): (ys: seq<B>)
    ensures |ys| <= |xs|
  {
    if xs == [] then []
    else
      var last := f(xs[|xs| - 1]);
      FilterMap(xs[..|xs| - 1], f) + (if last.Some? then [last.value] else [])
  }

  /** The indices of `xs` at which `f` yields a value, ascending. */
  function PresentIndices<A, B>(xs: seq<A>, f: A -> Option<B>): seq<nat>
  {
    if xs == [] then []
    else PresentIndices(xs[..|xs| - 1], f) + (if f(xs[|xs| - 1]).Some? then [|xs| - 1] else [])
  }

  /** `idx` is strictly ascending and indexes a sequence of length `n`. */
  ghost predicate AscendingBelow(idx: seq<nat>, n: nat)
  {
    (forall j, k :: 0 <= j < k < |idx| ==> idx[j] < idx[k]) &&
    (forall j :: 0 <= j < |idx| ==> idx[j] < n)
  }

  lemma {:induction false} PresentIndicesAscending<A, B>(xs: seq<A>, f: A -> Option<B>)
    ensures AscendingBelow(PresentIndices(xs, f), |xs|)
  {
    if xs != [] {
      PresentIndicesAscending(xs[..|xs| - 1], f);
    }
  }

  /** The present indices are exactly those at which `f` yields a value. */
  lemma {:induction false} PresentIndicesSelect<A, B>(xs: seq<A>, f: A -> Option<B>)
    ensures forall i :: 0 <= i < |xs| ==> (i in PresentIndices(xs, f) <==> f(xs[i]).Some?)
  {
    if xs != [] {
      var n := |xs| - 1;
      var init := xs[..n];
      var prev := PresentIndices(init, f);
      PresentIndicesSelect(init, f);
      PresentIndicesAscending(init, f);
      var tail: seq<nat> := if f(xs[n]).Some? then [n] else [];
      assert PresentIndices(xs, f) == prev + tail;
      forall i | 0 <= i < |xs| ensures i in PresentIndices(xs, f) <==> f(xs[i]).Some? {
        assert i in prev + tail <==> i in prev || i in tail;
        if i < n {
          assert xs[i] == init[i];
          assert i !in tail;
        } else {
          assert n !in prev;
        }
      }
    }
  }

  /** The j-th result is the value of `f` at the j-th present index. */
  lemma {:induction false} FilterMapAtPresent<A, B>(xs: seq<A>, f: A -> Option<B>)
    ensures |FilterMap(xs, f)| == |PresentIndices(xs, f)| <= |xs|
    ensures forall j :: 0 <= j < |PresentIndices(xs, f)| ==>
      PresentIndices(xs, f)[j] < |xs| && f(xs[PresentIndices(xs, f)[j]]) == Some(FilterMap(xs, f)[j])
  {
    if xs != [] {
      var init := xs[..|xs| - 1];
      FilterMapAtPresent(init, f);
      assert forall i :: 0 <= i < |init| ==> xs[i] == init[i];
    }
  }

  /** The event of one array element; a `null` element is dropped like a malformed record. */
  function ElementEvent(e: RawElement, clock: Clock): (r: Option<PlayEvent>)
    ensures e.Null? ==> r.None?
    ensures r.Some? ==> WellFormed(r.value)
  {
    match e
    case Null => None
    case Record(rec) => ToEvent(rec, clock)
  }

  /** The `.map(...).filter(Boolean)` pipeline over the array elements. */
  function ParseElements(es: seq<RawElement>, clock: Clock): (events: seq<PlayEvent>)
    ensures |events| <= |es|
    ensures forall e :: e in events ==> WellFormed(e)
  {
    FilterMapAtPresent(es, e => ElementEvent(e, clock));
    FilterMap(es, e => ElementEvent(e, clock))
  }

  /**
   * `parseSpotifyStreamingHistory`, with `null` elements dropped rather than
   * dereferenced (see `ParseAsWritten`).
   */
  function ParseHistory(raw: RawInput, clock: Clock): (events: seq<PlayEvent>)
    ensures raw.NotAnArray? ==> events == []
    ensures raw.JsonArray? ==> |events| <= |raw.elements|
    ensures forall e :: e in events ==> WellFormed(e)
  {
    match raw
    case NotAnArray => []
    case JsonArray(es) =>
      ParseShape(es, clock);
      ParseElements(es, clock)
  }

  /**
   * The output is the subsequence of the elements that yield an event: the
   * kept indices are strictly ascending, they are exactly the elements whose
   * event exists, and the j-th play is the event of the j-th kept element.
   */
  lemma ParseShape(es: seq<RawElement>, clock: Clock)
    ensures var f := e => ElementEvent(e, clock);
      var out, idx := ParseElements(es, clock), PresentIndices(es, f);
      && |out| == |idx| <= |es|
      && AscendingBelow(idx, |es|)
      && (forall i :: 0 <= i < |es| ==> (i in idx <==> ElementEvent(es[i], clock).Some?))
      && (forall j :: 0 <= j < |idx| ==> ElementEvent(es[idx[j]], clock) == Some(out[j]))
      && (forall e :: e in out ==> WellFormed(e))
  {
    var f := e => ElementEvent(e, clock);
    PresentIndicesAscending(es, f);
    PresentIndicesSelect(es, f);
    FilterMapAtPresent(es, f);
    var out, idx := ParseElements(es, clock), PresentIndices(es, f);
    forall e | e in out ensures WellFormed(e) {
      var j :| 0 <= j < |out| && out[j] == e;
      assert ElementEvent(es[idx[j]], clock) == Some(e);
    }
  }

  /**
   * `parseSpotifyStreamingHistory` as written: reading `r.endTime` of a `null`
   * element throws a TypeError, so one such element aborts the whole parse.
   */
  function ParseAsWritten(raw: RawInput, clock: Clock): (r: Thrown<seq<PlayEvent>>)
    ensures raw.JsonArray? && Null in raw.elements ==> r.ThrowsTypeError?
    ensures !(raw.JsonArray? && Null in raw.elements) ==> r == Returned(ParseHistory(raw, clock))
  {
    match raw
    case NotAnArray => Returned([])
    case JsonArray(es) => if Null in es then ThrowsTypeError else Returned(ParseElements(es, clock))
  }

  /** One `null` element in an otherwise empty array: the code throws; the intent is an empty result. */
  lemma NullElementThrows(clock: Clock)
    ensures ParseAsWritten(JsonArray([Null]), clock) == ThrowsTypeError
    ensures ParseHistory(JsonArray([Null]), clock) == []
  {
    assert ParseElements([Null], clock) == FilterMap([], e => ElementEvent(e, clock)) + [];
  }

  /** A record with an unparseable time is dropped, whatever its other fields. */
  lemma {:induction false} UnparseableTimeDropped(rec: RawRecord, clock: Clock, es: seq<RawElement>)
    requires clock(TimestampText(rec.endTime)).None?
    ensures ParseElements(es + [Record(rec)], clock) == ParseElements(es, clock)
  {
    assert (es + [Record(rec)])[..|es|] == es;
    assert ElementEvent(Record(rec), clock).None?;
  }
}
