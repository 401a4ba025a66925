/** Accumulated live time: ACTIVE intervals clipped to [publication, evaluation], summed in whole seconds. */
module LiveClock {
  import opened Options
  import Sorting

  /** A datetime in microseconds. `aware` is false for one without a UTC offset. */
  datatype Stamp = Stamp(aware: bool, micros: int)

  datatype Status = Active | Inactive | Unknown

  datatype Interval = Interval(status: Status, start: Stamp, end: Stamp)

  datatype Range = Range(start: int, end: int)

  const MICROS := 1_000_000
  const DAY := 86_400

  datatype Outcome = Invalid | Overlap | Periods(count: int)

  // ------------------------------------------------------------ what the clock should say

  predicate IsInvalid(i: Interval) {
    !i.start.aware || !i.end.aware || i.end.micros < i.start.micros || i.status == Unknown
  }

  function Max(a: int, b: int): int { if a < b then b else a }

  function Min(a: int, b: int): int { if b < a then b else a }

  function Clip(i: Interval, published: int, evaluated: int): Range {
    Range(Max(i.start.micros, published), Min(i.end.micros, evaluated))
  }

  predicate Counts(i: Interval, published: int, evaluated: int) {
    i.status == Active && Clip(i, published, evaluated).end > Clip(i, published, evaluated).start
  }

  function Ranges(intervals: seq<Interval>, published: int, evaluated: int): (ranges: seq<Range>)
    ensures forall r :: r in ranges ==> published <= r.start < r.end <= evaluated
  {
    if intervals == [] then []
    else
      (if Counts(intervals[0], published, evaluated) then [Clip(intervals[0], published, evaluated)] else [])
      + Ranges(intervals[1..], published, evaluated)
  }

  /** Two ranges share positive time. */
  predicate Share(a: Range, b: Range) { Max(a.start, b.start) < Min(a.end, b.end) }

  ghost predicate Overlapping(ranges: seq<Range>) {
    exists i, j :: 0 <= i < j < |ranges| && Share(ranges[i], ranges[j])
  }

  /** Whole seconds of one range: `days * 86400 + seconds` of its timedelta. */
  function Seconds(r: Range): int { (r.end - r.start) / MICROS }

  function TotalSeconds(ranges: seq<Range>): int {
    if ranges == [] then 0 else Seconds(ranges[0]) + TotalSeconds(ranges[1..])
  }

  ghost function Live(published: int, intervals: seq<Interval>, evaluated: int): Outcome {
    if exists i :: 0 <= i < |intervals| && IsInvalid(intervals[i]) then Invalid
    else
      var ranges := Ranges(intervals, published, evaluated);
      if Overlapping(ranges) then Overlap else Periods(TotalSeconds(ranges) / DAY)
  }

  // ------------------------------------------------------------ the code

  predicate NoLater(a: Range, b: Range) { a.start <= b.start }

  /** `ranges.sort(key=start)`. */
  function SortByStart(s: seq<Range>): seq<Range> { Sorting.Sort(s, NoLater) }

  predicate Rising(s: seq<Range>) { forall i, j :: 0 <= i < j < |s| ==> s[i].start <= s[j].start }

  ghost predicate Proper(s: seq<Range>) { forall i :: 0 <= i < |s| ==> s[i].start < s[i].end }

  /** Each range starts no earlier than the one before it ends. */
  ghost predicate Apart(s: seq<Range>) { forall i, j :: 0 <= i < j < |s| && j == i + 1 ==> s[i].end <= s[j].start }

  method ClipAll(published: int, intervals: seq<Interval>, evaluated: int) returns (ranges: Option<seq<Range>>)
    ensures ranges.None? <==> exists i :: 0 <= i < |intervals| && IsInvalid(intervals[i])
    ensures ranges.Some? ==> ranges.value == Ranges(intervals, published, evaluated)
  {
    var out: seq<Range> := [];
    for k := 0 to |intervals|
      invariant forall i :: 0 <= i < k ==> !IsInvalid(intervals[i])
      invariant out + Ranges(intervals[k..], published, evaluated) == Ranges(intervals, published, evaluated)
    {
      var interval := intervals[k];
      assert intervals[k..][1..] == intervals[k + 1..];
      if !interval.start.aware || !interval.end.aware || interval.end.micros < interval.start.micros { return None; }
      if interval.status == Inactive { continue; }
      if interval.status != Active { return None; }
      var clipped := Range(Max(interval.start.micros, published), Min(interval.end.micros, evaluated));
      if clipped.end > clipped.start { out := out + [clipped]; }
    }
    return Some(out);
  }

  method AccumulatedLivePeriods(published: int, intervals: seq<Interval>, evaluated: int) returns (r: Outcome)
    ensures r == Live(published, intervals, evaluated)
  {
    var ranges := ClipAll(published, intervals, evaluated);
    if ranges.None? { return Invalid; }
    var sorted := SortByStart(ranges.value);
    SortIs(ranges.value);
    SameOverlap(ranges.value, sorted);
    SameTotal(ranges.value, sorted);
    ProperPerm(ranges.value, sorted);
    ApartMeansDisjoint(sorted);
    var total := SumApart(sorted);
    if total.None? { return Overlap; }
    return Periods(total.value / DAY);
  }

  /** The accumulating loop: `None` at the first range that starts before the last one ends. */
  method SumApart(sorted: seq<Range>) returns (sum: Option<int>)
    ensures sum.Some? <==> Apart(sorted)
    ensures sum.Some? ==> sum.value == TotalSeconds(sorted)
  {
    var total, previousEnd := 0, None;
    for i := 0 to |sorted|
      invariant total == TotalSeconds(sorted[..i])
      invariant if i == 0 then previousEnd == None else previousEnd == Some(sorted[i - 1].end)
      invariant forall k, j :: 0 <= k < j < i && j == k + 1 ==> sorted[k].end <= sorted[j].start
    {
      if previousEnd.Some? && sorted[i].start < previousEnd.value { return None; }
      TotalSnoc(sorted, i);
      total := total + Seconds(sorted[i]);
      previousEnd := Some(sorted[i].end);
    }
    assert sorted[..|sorted|] == sorted;
    return Some(total);
  }

  // ------------------------------------------------------------ sorting changes nothing that matters

  lemma SortIs(s: seq<Range>)
    ensures Rising(SortByStart(s)) && multiset(SortByStart(s)) == multiset(s)
  {
    Sorting.SortIs(s, NoLater);
    assert Sorting.Ordered(SortByStart(s), NoLater);
  }

  lemma TotalSnoc(s: seq<Range>, i: nat)
    requires i < |s|
    ensures TotalSeconds(s[..i + 1]) == TotalSeconds(s[..i]) + Seconds(s[i])
  {
    assert s[..i + 1] == s[..i] + [s[i]];
    TotalAppend(s[..i], [s[i]]);
  }

  lemma {:induction false} TotalAppend(a: seq<Range>, b: seq<Range>)
    ensures TotalSeconds(a + b) == TotalSeconds(a) + TotalSeconds(b)
    decreases |a|
  {
    if a == [] {
      assert a + b == b;
    } else {
      TotalAppend(a[1..], b);
      assert (a + b)[1..] == a[1..] + b;
    }
  }

  lemma {:induction false} SameTotal(a: seq<Range>, b: seq<Range>)
    requires multiset(a) == multiset(b)
    ensures TotalSeconds(a) == TotalSeconds(b)
    decreases |a|
  {
    if a == [] {
      assert |multiset(b)| == 0;
      assert b == [];
    } else {
      var k := Sorting.PullOut(a, b);
      SameTotal(a[1..], b[..k] + b[k + 1..]);
      TotalAppend(b[..k], b[k + 1..]);
      TotalAppend(b[..k], [b[k]] + b[k + 1..]);
      assert b == b[..k] + ([b[k]] + b[k + 1..]);
    }
  }

  lemma ProperPerm(a: seq<Range>, b: seq<Range>)
    requires multiset(a) == multiset(b) && Proper(a)
    ensures Proper(b)
  {
    forall i | 0 <= i < |b| ensures b[i].start < b[i].end {
      assert b[i] in multiset(a);
    }
  }

  lemma {:induction false} OverlapMoves(a: seq<Range>, b: seq<Range>)
    requires multiset(a) == multiset(b) && Overlapping(a)
    ensures Overlapping(b)
    decreases |a|
  {
    var i, j :| 0 <= i < j < |a| && Share(a[i], a[j]);
    var k := Sorting.PullOut(a, b);
    var rest := b[..k] + b[k + 1..];
    if i == 0 {
      assert a[j] == a[1..][j - 1];
      assert a[j] in multiset(rest);
      var m :| 0 <= m < |rest| && rest[m] == a[j];
      if m < k { assert b[m] == a[j]; } else { assert b[m + 1] == a[j]; }
    } else {
      assert a[1..][i - 1] == a[i] && a[1..][j - 1] == a[j];
      OverlapMoves(a[1..], rest);
      var p, q :| 0 <= p < q < |rest| && Share(rest[p], rest[q]);
      var p', q' := if p < k then p else p + 1, if q < k then q else q + 1;
      assert b[p'] == rest[p] && b[q'] == rest[q];
    }
  }

  lemma SameOverlap(a: seq<Range>, b: seq<Range>)
    requires multiset(a) == multiset(b)
    ensures Overlapping(a) <==> Overlapping(b)
  {
    if Overlapping(a) { OverlapMoves(a, b); }
    if Overlapping(b) { OverlapMoves(b, a); }
  }

  lemma {:induction false} ApartChains(s: seq<Range>, i: nat, j: nat)
    requires Proper(s) && Apart(s) && i < j < |s|
    ensures s[i].end <= s[j].start
    decreases j
  {
    if i < j - 1 {
      ApartChains(s, i, j - 1);
      assert s[j - 1].end <= s[j].start;
    }
  }

  /** Checking neighbours of the sorted ranges is enough. */
  lemma ApartMeansDisjoint(s: seq<Range>)
    requires Rising(s) && Proper(s)
    ensures Apart(s) <==> !Overlapping(s)
  {
    if Apart(s) {
      forall i, j | 0 <= i < j < |s| ensures !Share(s[i], s[j]) { ApartChains(s, i, j); }
    } else {
      var i, j :| 0 <= i < j < |s| && j == i + 1 && s[j].start < s[i].end;
      assert Share(s[i], s[j]);
    }
  }

  // ------------------------------------------------------------ laws

  lemma {:induction false} RangesOf(intervals: seq<Interval>, published: int, evaluated: int, r: Range)
    ensures multiset(Ranges(intervals, published, evaluated))[r] == CountOf(intervals, published, evaluated, r)
    decreases |intervals|
  {
    if intervals != [] {
      RangesOf(intervals[1..], published, evaluated, r);
    }
  }

  function CountOf(intervals: seq<Interval>, published: int, evaluated: int, r: Range): nat {
    if intervals == [] then 0
    else
      (if Counts(intervals[0], published, evaluated) && Clip(intervals[0], published, evaluated) == r then 1 else 0)
      + CountOf(intervals[1..], published, evaluated, r)
  }

  lemma {:induction false} CountAppend(a: seq<Interval>, b: seq<Interval>, published: int, evaluated: int, r: Range)
    ensures CountOf(a + b, published, evaluated, r) == CountOf(a, published, evaluated, r) + CountOf(b, published, evaluated, r)
    decreases |a|
  {
    if a == [] {
      assert a + b == b;
    } else {
      CountAppend(a[1..], b, published, evaluated, r);
      assert (a + b)[1..] == a[1..] + b;
    }
  }

  lemma {:induction false} CountMoves(a: seq<Interval>, b: seq<Interval>, published: int, evaluated: int, r: Range)
    requires multiset(a) == multiset(b)
    ensures CountOf(a, published, evaluated, r) == CountOf(b, published, evaluated, r)
    decreases |a|
  {
    if a == [] {
      assert |multiset(b)| == 0;
      assert b == [];
    } else {
      var k := Sorting.PullOut(a, b);
      assert b == b[..k] + ([b[k]] + b[k + 1..]);
      CountMoves(a[1..], b[..k] + b[k + 1..], published, evaluated, r);
      CountAppend(b[..k], b[k + 1..], published, evaluated, r);
      CountAppend(b[..k], [b[k]] + b[k + 1..], published, evaluated, r);
    }
  }

  /** The clock does not depend on the order of the intervals. */
  lemma ClockIgnoresOrder(a: seq<Interval>, b: seq<Interval>, published: int, evaluated: int)
    requires multiset(a) == multiset(b)
    ensures Live(published, a, evaluated) == Live(published, b, evaluated)
  {
    var ra, rb := Ranges(a, published, evaluated), Ranges(b, published, evaluated);
    forall r ensures multiset(ra)[r] == multiset(rb)[r] {
      RangesOf(a, published, evaluated, r);
      RangesOf(b, published, evaluated, r);
      CountMoves(a, b, published, evaluated, r);
    }
    assert multiset(ra) == multiset(rb);
    SameOverlap(ra, rb);
    SameTotal(ra, rb);
    InvalidMoves(a, b);
    InvalidMoves(b, a);
  }

  lemma InvalidMoves(a: seq<Interval>, b: seq<Interval>)
    requires multiset(a) == multiset(b)
    ensures (exists i :: 0 <= i < |a| && IsInvalid(a[i])) ==> exists j :: 0 <= j < |b| && IsInvalid(b[j])
  {
    if i :| 0 <= i < |a| && IsInvalid(a[i]) {
      assert a[i] in multiset(b);
      var j :| 0 <= j < |b| && b[j] == a[i];
      assert IsInvalid(b[j]);
    }
  }

  /** The true active time, to the microsecond. */
  function TotalMicros(ranges: seq<Range>): int {
    if ranges == [] then 0 else ranges[0].end - ranges[0].start + TotalMicros(ranges[1..])
  }

  predicate WholeSeconds(ranges: seq<Range>) {
    forall i :: 0 <= i < |ranges| ==> ranges[i].start % MICROS == 0 && ranges[i].end % MICROS == 0
  }

  /** The seconds counted never exceed the true time, fall short by less than a second per range, and are exact on whole seconds. */
  lemma {:induction false} SecondsAreTight(ranges: seq<Range>)
    requires Proper(ranges)
    ensures TotalSeconds(ranges) * MICROS <= TotalMicros(ranges)
    ensures ranges != [] ==> TotalMicros(ranges) < (TotalSeconds(ranges) + |ranges|) * MICROS
    ensures WholeSeconds(ranges) ==> TotalSeconds(ranges) * MICROS == TotalMicros(ranges)
    decreases |ranges|
  {
    if ranges != [] {
      SecondsAreTight(ranges[1..]);
      var d := ranges[0].end - ranges[0].start;
      assert d == d / MICROS * MICROS + d % MICROS;
      if WholeSeconds(ranges) { assert d % MICROS == 0; }
    }
  }

  lemma {:induction false} MicrosSpan(s: seq<Range>)
    requires s != [] && Proper(s) && Apart(s)
    ensures TotalMicros(s) <= s[|s| - 1].end - s[0].start
    decreases |s|
  {
    if |s| > 1 {
      assert s[0].end <= s[1].start;
      MicrosSpan(s[1..]);
    }
  }

  /** Ranges that do not overlap take no more time than the span they lie in. */
  lemma SpanBound(s: seq<Range>, published: int, evaluated: int)
    requires Proper(s) && Apart(s) && forall r :: r in s ==> published <= r.start && r.end <= evaluated
    ensures TotalMicros(s) <= Max(0, evaluated - published)
  {
    if s != [] {
      MicrosSpan(s);
      assert s[0] in s && s[|s| - 1] in s;
    }
  }

  /** What the loop sees of ranges that do not overlap. */
  lemma SortedApart(ranges: seq<Range>)
    requires Proper(ranges) && !Overlapping(ranges)
    ensures var sorted := SortByStart(ranges);
            && Proper(sorted) && Apart(sorted) && TotalSeconds(sorted) == TotalSeconds(ranges)
            && forall r :: r in sorted <==> r in ranges
  {
    var sorted := SortByStart(ranges);
    SortIs(ranges);
    SameOverlap(ranges, sorted);
    SameTotal(ranges, sorted);
    ProperPerm(ranges, sorted);
    ApartMeansDisjoint(sorted);
    assert forall r :: r in sorted <==> r in multiset(sorted);
  }

  /** Complete live periods never exceed the days since publication. */
  lemma PeriodsBounded(published: int, intervals: seq<Interval>, evaluated: int)
    requires Live(published, intervals, evaluated).Periods?
    ensures var n := Live(published, intervals, evaluated).count;
            0 <= n && n * DAY * MICROS <= Max(0, evaluated - published)
  {
    var ranges := Ranges(intervals, published, evaluated);
    var sorted := SortByStart(ranges);
    SortedApart(ranges);
    SecondsAreTight(sorted);
    NonNegative(sorted);
    SpanBound(sorted, published, evaluated);
    var total := TotalSeconds(ranges);
    assert total == total / DAY * DAY + total % DAY;
  }

  lemma {:induction false} NonNegative(s: seq<Range>)
    requires Proper(s)
    ensures TotalSeconds(s) >= 0
    decreases |s|
  {
    if s != [] { NonNegative(s[1..]); }
  }
}
