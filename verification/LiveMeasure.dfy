/** The live clock measured against time itself: the microseconds at which the listing was ACTIVE. */
module LiveMeasure {
  import opened Options
  import opened LiveClock

  // ------------------------------------------------------------ what is measured

  /** The interval says ACTIVE at microsecond `t`, between publication and evaluation. */
  predicate ActiveAt(i: Interval, published: int, evaluated: int, t: int) {
    i.status == Active && i.start.micros <= t < i.end.micros && published <= t < evaluated
  }

  /** How many intervals do. */
  function HeldBy(intervals: seq<Interval>, published: int, evaluated: int, t: int): nat {
    if intervals == [] then 0
    else (if ActiveAt(intervals[0], published, evaluated, t) then 1 else 0) + HeldBy(intervals[1..], published, evaluated, t)
  }

  /** The microseconds among the first `n` from `from` at which some interval does. */
  function LiveMicros(intervals: seq<Interval>, published: int, evaluated: int, from: int, n: nat): nat {
    if n == 0 then 0
    else LiveMicros(intervals, published, evaluated, from, n - 1)
         + if HeldBy(intervals, published, evaluated, from + n - 1) > 0 then 1 else 0
  }

  /** All of them. */
  function LiveTime(intervals: seq<Interval>, published: int, evaluated: int): nat {
    LiveMicros(intervals, published, evaluated, published, if published < evaluated then evaluated - published else 0)
  }

  /** A naive or reversed interval, or one whose status is neither ACTIVE nor INACTIVE. */
  predicate Refused(i: Interval) {
    !i.start.aware || !i.end.aware || i.end.micros < i.start.micros || (i.status != Active && i.status != Inactive)
  }

  predicate OnSeconds(intervals: seq<Interval>, published: int, evaluated: int) {
    && published % 1000000 == 0 && evaluated % 1000000 == 0
    && forall k :: 0 <= k < |intervals| ==>
         intervals[k].start.micros % 1000000 == 0 && intervals[k].end.micros % 1000000 == 0
  }

  // ------------------------------------------------------------ ranges and moments

  function Hits(ranges: seq<Range>, t: int): nat {
    if ranges == [] then 0 else (if ranges[0].start <= t < ranges[0].end then 1 else 0) + Hits(ranges[1..], t)
  }

  lemma {:induction false} HitsAre(intervals: seq<Interval>, published: int, evaluated: int, t: int)
    ensures Hits(Ranges(intervals, published, evaluated), t) == HeldBy(intervals, published, evaluated, t)
    decreases |intervals|
  {
    if intervals != [] {
      HitsAre(intervals[1..], published, evaluated, t);
      var rest, clip := Ranges(intervals[1..], published, evaluated), Clip(intervals[0], published, evaluated);
      if Counts(intervals[0], published, evaluated) {
        assert ([clip] + rest)[1..] == rest;
      } else {
        assert [] + rest == rest;
      }
    }
  }

  lemma {:induction false} HitsMeans(ranges: seq<Range>, t: int)
    ensures Hits(ranges, t) > 0 <==> exists i :: 0 <= i < |ranges| && Inside(ranges[i], t)
    decreases |ranges|
  {
    if ranges != [] {
      HitsMeans(ranges[1..], t);
      if Hits(ranges[1..], t) > 0 {
        var i :| 0 <= i < |ranges[1..]| && Inside(ranges[1..][i], t);
        assert Inside(ranges[i + 1], t);
      } else if exists i :: 0 <= i < |ranges| && Inside(ranges[i], t) {
        var i :| 0 <= i < |ranges| && Inside(ranges[i], t);
        if i > 0 { assert Inside(ranges[1..][i - 1], t); }
      }
    }
  }

  predicate Inside(r: Range, t: int) { r.start <= t < r.end }

  lemma {:induction false} HitsTwice(ranges: seq<Range>, t: int)
    ensures Hits(ranges, t) >= 2 <==> exists i, j :: 0 <= i < j < |ranges| && Inside(ranges[i], t) && Inside(ranges[j], t)
    decreases |ranges|
  {
    if ranges != [] {
      var rest := ranges[1..];
      HitsTwice(rest, t);
      HitsMeans(rest, t);
      if Hits(ranges, t) >= 2 {
        if Hits(rest, t) >= 2 {
          var i, j :| 0 <= i < j < |rest| && Inside(rest[i], t) && Inside(rest[j], t);
          assert Inside(ranges[i + 1], t) && Inside(ranges[j + 1], t);
        } else {
          var j :| 0 <= j < |rest| && Inside(rest[j], t);
          assert Inside(ranges[0], t) && Inside(ranges[j + 1], t);
        }
      } else {
        forall i, j | 0 <= i < j < |ranges| ensures !(Inside(ranges[i], t) && Inside(ranges[j], t)) {
          assert ranges[j] == rest[j - 1];
          if i > 0 { assert ranges[i] == rest[i - 1]; }
        }
      }
    }
  }

  /** Two ranges share positive time exactly when some moment is in both. */
  lemma OverlapMeans(ranges: seq<Range>)
    ensures Overlapping(ranges) <==> exists t :: Hits(ranges, t) >= 2
  {
    if Overlapping(ranges) {
      var i, j :| 0 <= i < j < |ranges| && Share(ranges[i], ranges[j]);
      var t := Max(ranges[i].start, ranges[j].start);
      assert Inside(ranges[i], t) && Inside(ranges[j], t);
      HitsTwice(ranges, t);
    }
    if exists t :: Hits(ranges, t) >= 2 {
      var t :| Hits(ranges, t) >= 2;
      HitsTwice(ranges, t);
      var i, j :| 0 <= i < j < |ranges| && Inside(ranges[i], t) && Inside(ranges[j], t);
      assert Share(ranges[i], ranges[j]);
    }
  }

  // ------------------------------------------------------------ counting moments and adding lengths

  function SumHits(ranges: seq<Range>, from: int, n: nat): nat {
    if n == 0 then 0 else SumHits(ranges, from, n - 1) + Hits(ranges, from + n - 1)
  }

  /** Moments of one range among the first `n` from `from`. */
  function Reach(r: Range, from: int, n: nat): nat {
    if n == 0 then 0 else Reach(r, from, n - 1) + if r.start <= from + n - 1 < r.end then 1 else 0
  }

  lemma {:induction false} ReachIs(r: Range, from: int, n: nat)
    requires from <= r.start <= r.end
    ensures Reach(r, from, n) == if from + n <= r.start then 0 else if from + n <= r.end then from + n - r.start else r.end - r.start
    decreases n
  {
    if n > 0 { ReachIs(r, from, n - 1); }
  }

  lemma {:induction false} SumHitsCons(r: Range, rest: seq<Range>, from: int, n: nat)
    ensures SumHits([r] + rest, from, n) == Reach(r, from, n) + SumHits(rest, from, n)
    decreases n
  {
    if n > 0 {
      SumHitsCons(r, rest, from, n - 1);
      assert ([r] + rest)[1..] == rest;
    }
  }

  lemma {:induction false} SumHitsNone(from: int, n: nat)
    ensures SumHits([], from, n) == 0
    decreases n
  {
    if n > 0 { SumHitsNone(from, n - 1); }
  }

  /** Adding up lengths is counting moments, each as often as it is covered. */
  lemma {:induction false} LengthsAreMoments(ranges: seq<Range>, from: int, n: nat)
    requires forall r :: r in ranges ==> from <= r.start < r.end <= from + n
    ensures SumHits(ranges, from, n) == TotalMicros(ranges)
    decreases |ranges|
  {
    if ranges == [] {
      SumHitsNone(from, n);
    } else {
      LengthsAreMoments(ranges[1..], from, n);
      assert ranges == [ranges[0]] + ranges[1..];
      assert ranges[0] in ranges;
      SumHitsCons(ranges[0], ranges[1..], from, n);
      ReachIs(ranges[0], from, n);
    }
  }

  lemma {:induction false} EachOnce(intervals: seq<Interval>, published: int, evaluated: int, from: int, n: nat)
    requires forall t :: HeldBy(intervals, published, evaluated, t) <= 1
    ensures SumHits(Ranges(intervals, published, evaluated), from, n) == LiveMicros(intervals, published, evaluated, from, n)
    decreases n
  {
    if n > 0 {
      EachOnce(intervals, published, evaluated, from, n - 1);
      HitsAre(intervals, published, evaluated, from + n - 1);
      assert HeldBy(intervals, published, evaluated, from + n - 1) <= 1;
    }
  }

  /** Without overlap, the clipped lengths add up to the live time. */
  lemma LengthsAreLiveTime(intervals: seq<Interval>, published: int, evaluated: int)
    requires forall t :: HeldBy(intervals, published, evaluated, t) <= 1
    ensures TotalMicros(Ranges(intervals, published, evaluated)) == LiveTime(intervals, published, evaluated)
  {
    var ranges := Ranges(intervals, published, evaluated);
    var n := if published < evaluated then evaluated - published else 0;
    if ranges != [] { assert ranges[0] in ranges; }
    LengthsAreMoments(ranges, published, n);
    EachOnce(intervals, published, evaluated, published, n);
  }

  lemma {:induction false} RangesFewer(intervals: seq<Interval>, published: int, evaluated: int)
    ensures |Ranges(intervals, published, evaluated)| <= |intervals|
    decreases |intervals|
  {
    if intervals != [] { RangesFewer(intervals[1..], published, evaluated); }
  }

  lemma {:induction false} RangesOnSeconds(intervals: seq<Interval>, published: int, evaluated: int)
    requires OnSeconds(intervals, published, evaluated)
    ensures WholeSeconds(Ranges(intervals, published, evaluated))
    decreases |intervals|
  {
    if intervals != [] {
      RangesOnSeconds(intervals[1..], published, evaluated);
      var rest, clip := Ranges(intervals[1..], published, evaluated), Clip(intervals[0], published, evaluated);
      assert clip.start % 1000000 == 0 && clip.end % 1000000 == 0;
    }
  }

  lemma PeriodsOf(total: int, live: int, n: int, k: nat)
    requires total >= 0 && n == total / 86400 && total * 1000000 <= live && (k > 0 ==> live < (total + k) * 1000000) && (k == 0 ==> live == 0)
    ensures n * 86400 * 1000000 <= live < (n + 1) * 86400 * 1000000 + k * 1000000
    ensures total * 1000000 == live ==> n == live / (86400 * 1000000)
  {
    var rest := total % 86400;
    assert total == n * 86400 + rest;
    if total * 1000000 == live {
      assert live == n * 86400000000 + rest * 1000000 && 0 <= rest * 1000000 < 86400000000;
    }
  }

  /**
   The clock against time: refused for a bad interval; refused for overlap exactly when some moment is ACTIVE
   twice; otherwise the whole days of live time, short of it by less than a day and a second per interval, and
   exact when everything falls on seconds.
   */
  lemma ClockMeasuresTime(intervals: seq<Interval>, published: int, evaluated: int)
    ensures var r, live := Live(published, intervals, evaluated), LiveTime(intervals, published, evaluated);
            && (r.Invalid? <==> exists i :: 0 <= i < |intervals| && Refused(intervals[i]))
            && (r.Overlap? <==> !r.Invalid? && exists t :: HeldBy(intervals, published, evaluated, t) >= 2)
            && (r.Periods? ==> r.count * 86400 * 1000000 <= live < (r.count + 1) * 86400 * 1000000 + |intervals| * 1000000)
            && (r.Periods? && OnSeconds(intervals, published, evaluated) ==> r.count == live / (86400 * 1000000))
  {
    var ranges := Ranges(intervals, published, evaluated);
    TwiceMeans(intervals, published, evaluated);
    var r := Live(published, intervals, evaluated);
    InvalidMeans(intervals);
    if r.Periods? {
      assert !Overlapping(ranges);
      assert forall t :: HeldBy(intervals, published, evaluated, t) <= 1;
      PeriodsMeasure(intervals, published, evaluated);
    }
  }

  lemma InvalidMeans(intervals: seq<Interval>)
    ensures (exists i :: 0 <= i < |intervals| && IsInvalid(intervals[i]))
            <==> exists i :: 0 <= i < |intervals| && Refused(intervals[i])
  {
    assert forall i :: 0 <= i < |intervals| ==> (IsInvalid(intervals[i]) <==> Refused(intervals[i]));
  }

  lemma TwiceMeans(intervals: seq<Interval>, published: int, evaluated: int)
    ensures Overlapping(Ranges(intervals, published, evaluated))
            <==> exists t :: HeldBy(intervals, published, evaluated, t) >= 2
  {
    var ranges := Ranges(intervals, published, evaluated);
    OverlapMeans(ranges);
    if Overlapping(ranges) {
      var t :| Hits(ranges, t) >= 2;
      HitsAre(intervals, published, evaluated, t);
      assert HeldBy(intervals, published, evaluated, t) >= 2;
    }
    if exists t :: HeldBy(intervals, published, evaluated, t) >= 2 {
      var t :| HeldBy(intervals, published, evaluated, t) >= 2;
      HitsAre(intervals, published, evaluated, t);
      assert Hits(ranges, t) >= 2;
    }
  }

  lemma PeriodsMeasure(intervals: seq<Interval>, published: int, evaluated: int)
    requires Live(published, intervals, evaluated).Periods?
    requires forall t :: HeldBy(intervals, published, evaluated, t) <= 1
    ensures var n, live := Live(published, intervals, evaluated).count, LiveTime(intervals, published, evaluated);
            && n * 86400 * 1000000 <= live < (n + 1) * 86400 * 1000000 + |intervals| * 1000000
            && (OnSeconds(intervals, published, evaluated) ==> n == live / (86400 * 1000000))
  {
    var ranges := Ranges(intervals, published, evaluated);
    LengthsAreLiveTime(intervals, published, evaluated);
    assert Proper(ranges) by { assert forall i :: 0 <= i < |ranges| ==> ranges[i] in ranges; }
    SecondsAreTight(ranges);
    NonNegative(ranges);
    RangesFewer(intervals, published, evaluated);
    PeriodsOf(TotalSeconds(ranges), TotalMicros(ranges), TotalSeconds(ranges) / 86400, |ranges|);
    if OnSeconds(intervals, published, evaluated) { RangesOnSeconds(intervals, published, evaluated); }
  }
}
