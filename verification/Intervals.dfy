/** Union of service intervals by a sorted sweep (backend/app/core/advancement.py:318-340). */
module Intervals {
  import opened Records
  import opened Sizes

  datatype Interval = Interval(start: int, end: int)

  /** Some interval is in force on day `d`; the end day itself is not served. */
  ghost predicate InForce(ivs: seq<Interval>, d: int) {
    exists iv :: iv in ivs && iv.start <= d < iv.end
  }

  /** The days of [cutoff, today) on which at least one interval is in force. */
  ghost function CoveredDays(ivs: seq<Interval>, cutoff: int, today: int): set<int> {
    set d: int | cutoff <= d < today && InForce(ivs, d)
  }

  function Max(a: int, b: int): int { if a < b then b else a }

  function Min(a: int, b: int): int { if a < b then a else b }

  /** The intervals cut down to [cutoff, today], without those that fall outside it. */
  function Clip(ivs: seq<Interval>, cutoff: int, today: int): (clipped: seq<Interval>)
    ensures forall iv :: iv in clipped ==> cutoff <= iv.start <= iv.end <= today
    ensures forall d: int :: InForce(clipped, d) <==> cutoff <= d < today && InForce(ivs, d)
  {
    if ivs == [] then []
    else
      var iv, rest := ivs[0], Clip(ivs[1..], cutoff, today);
      var start, end := Max(iv.start, cutoff), Min(iv.end, today);
      var r := if start <= end then [Interval(start, end)] + rest else rest;
      assert forall d: int :: InForce(ivs, d) <==> iv.start <= d < iv.end || InForce(ivs[1..], d) by {
        assert ivs == [iv] + ivs[1..];
      }
      assert forall d: int :: InForce(r, d) <==> (start <= d < end) || InForce(rest, d) by {
        if start <= end {
          assert r[0] == Interval(start, end);
          assert Interval(start, end) in r;
          assert forall x :: x in r <==> x == Interval(start, end) || x in rest;
        }
      }
      r
  }

  predicate Precedes(a: Interval, b: Interval) {
    a.start < b.start || (a.start == b.start && a.end <= b.end)
  }

  ghost predicate Sorted(ivs: seq<Interval>) {
    forall i, j :: 0 <= i < j < |ivs| ==> Precedes(ivs[i], ivs[j])
  }

  function Insert(iv: Interval, ivs: seq<Interval>): (r: seq<Interval>)
    requires Sorted(ivs)
    ensures Sorted(r)
    ensures forall x :: x in r <==> x == iv || x in ivs
  {
    if ivs == [] then [iv]
    else
      var last := |ivs| - 1;
      assert ivs == ivs[..last] + [ivs[last]];
      if Precedes(ivs[last], iv) then ivs + [iv]
      else
        var init := Insert(iv, ivs[..last]);
        assert forall x :: x in init ==> Precedes(x, ivs[last]);
        assert forall i :: 0 <= i < |init| ==> init[i] in init;
        init + [ivs[last]]
  }

  /** The library sort on (start, end) pairs. */
  function Sort(ivs: seq<Interval>): (r: seq<Interval>)
    ensures Sorted(r)
    ensures forall x :: x in r <==> x in ivs
  {
    if ivs == [] then []
    else
      assert ivs == [ivs[0]] + ivs[1..];
      Insert(ivs[0], Sort(ivs[1..]))
  }

  function ClipAndSort(ivs: seq<Interval>, cutoff: int, today: int): seq<Interval> {
    Sort(Clip(ivs, cutoff, today))
  }

  // ---- the sweep ----

  /** Closed days so far and the open run, after sweeping the intervals in the order given. */
  datatype SweepState = SweepState(total: int, open: Option<Interval>)

  function Sweep(ivs: seq<Interval>): SweepState {
    if ivs == [] then SweepState(0, None)
    else
      var s, iv := Sweep(ivs[..|ivs| - 1]), ivs[|ivs| - 1];
      if s.open.None? then SweepState(s.total, Some(iv))
      else if iv.start > s.open.value.end then SweepState(s.total + (s.open.value.end - s.open.value.start), Some(iv))
      else SweepState(s.total, Some(Interval(s.open.value.start, Max(s.open.value.end, iv.end))))
  }

  /** The loop over the sorted, clipped intervals. */
  method SweepDays(clipped: seq<Interval>) returns (totalDays: int)
    ensures totalDays == SweepTotal(Sweep(clipped))
  {
    totalDays := 0;
    var currentStart: Option<int> := None;
    var currentEnd: Option<int> := None;
    for i := 0 to |clipped|
      invariant currentStart.Some? == currentEnd.Some?
      invariant Sweep(clipped[..i]) ==
                SweepState(totalDays,
                    if currentStart.Some? then Some(Interval(currentStart.value, currentEnd.value)) else None)
    {
      assert clipped[..i + 1][..i] == clipped[..i];
      var start, end := clipped[i].start, clipped[i].end;
      if currentEnd.None? || start > currentEnd.value {
        if currentStart.Some? && currentEnd.Some? {
          totalDays := totalDays + (currentEnd.value - currentStart.value);
        }
        currentStart, currentEnd := Some(start), Some(end);
      } else if end > currentEnd.value {
        currentEnd := Some(end);
      }
    }
    assert clipped[..|clipped|] == clipped;
    if currentStart.Some? && currentEnd.Some? {
      totalDays := totalDays + (currentEnd.value - currentStart.value);
    }
  }

  /** The sweep counts every covered day once, whatever the order and overlap of the intervals. */
  method MergedIntervalDays(ivs: seq<Interval>, cutoff: int, today: int) returns (totalDays: int)
    ensures totalDays == |CoveredDays(ivs, cutoff, today)|
  {
    totalDays := SweepDays(ClipAndSort(ivs, cutoff, today));
    SweepIsCoverage(ivs, cutoff, today);
  }

  lemma InForceAppend(ivs: seq<Interval>, iv: Interval)
    ensures forall d: int :: InForce(ivs + [iv], d) <==> InForce(ivs, d) || iv.start <= d < iv.end
  {
    assert (ivs + [iv])[|ivs|] == iv;
    assert forall x :: x in ivs + [iv] <==> x in ivs || x == iv;
  }

  /** The days of the intervals swept so far: the closed ones, all earlier, and the open run [start, end). */
  ghost predicate Swept(done: seq<Interval>, closed: set<int>, start: int, end: int) {
    && start <= end
    && (forall d :: d in closed ==> d < start)
    && forall d: int :: InForce(done, d) <==> d in closed || start <= d < end
  }

  lemma SweepStarts(iv: Interval)
    requires iv.start <= iv.end
    ensures Swept([iv], {}, iv.start, iv.end)
  {
    InForceAppend([], iv);
    assert [] + [iv] == [iv];
  }

  lemma SweepJoins(done: seq<Interval>, closed: set<int>, start: int, end: int, iv: Interval)
    requires Swept(done, closed, start, end) && start <= iv.start <= iv.end && iv.start <= end
    ensures Swept(done + [iv], closed, start, Max(end, iv.end))
  {
    InForceAppend(done, iv);
  }

  lemma SweepOpens(done: seq<Interval>, closed: set<int>, start: int, end: int, iv: Interval)
    requires Swept(done, closed, start, end) && end < iv.start <= iv.end
    ensures |closed + Span(start, end)| == |closed| + (end - start)
    ensures Swept(done + [iv], closed + Span(start, end), iv.start, iv.end)
  {
    InForceAppend(done, iv);
    SpanSize(start, end);
  }

  lemma {:induction false} SweepCounts(ivs: seq<Interval>) returns (closed: set<int>)
    requires Sorted(ivs) && forall i :: 0 <= i < |ivs| ==> ivs[i].start <= ivs[i].end
    ensures ivs == [] <==> Sweep(ivs).open.None?
    ensures Sweep(ivs).total == |closed| && (ivs == [] ==> closed == {})
    ensures ivs != [] ==> Sweep(ivs).open.value.start <= ivs[|ivs| - 1].start
    ensures ivs != [] ==> Swept(ivs, closed, Sweep(ivs).open.value.start, Sweep(ivs).open.value.end)
  {
    if ivs == [] {
      closed := {};
    } else {
      var init, iv := ivs[..|ivs| - 1], ivs[|ivs| - 1];
      closed := SweepCounts(init);
      assert ivs == init + [iv];
      if init == [] {
        SweepStarts(iv);
        assert ivs == [iv];
      } else {
        assert Precedes(init[|init| - 1], iv);
        var run := Sweep(init).open.value;
        if iv.start > run.end {
          SweepOpens(init, closed, run.start, run.end, iv);
          closed := closed + Span(run.start, run.end);
        } else {
          SweepJoins(init, closed, run.start, run.end, iv);
        }
      }
    }
  }

  function SweepTotal(s: SweepState): int {
    s.total + (if s.open.Some? then s.open.value.end - s.open.value.start else 0)
  }

  /** The swept total is the size of the set of days on which one of the intervals is in force. */
  lemma SweepMeasures(ivs: seq<Interval>) returns (days: set<int>)
    requires Sorted(ivs) && forall i :: 0 <= i < |ivs| ==> ivs[i].start <= ivs[i].end
    ensures |days| == SweepTotal(Sweep(ivs))
    ensures forall d: int :: d in days <==> InForce(ivs, d)
  {
    days := SweepCounts(ivs);
    if ivs != [] {
      var run := Sweep(ivs).open.value;
      SpanSize(run.start, run.end);
      days := days + Span(run.start, run.end);
    }
  }

  lemma ClippedInForce(ivs: seq<Interval>, cutoff: int, today: int)
    ensures var clipped := ClipAndSort(ivs, cutoff, today);
            && Sorted(clipped) && (forall i :: 0 <= i < |clipped| ==> clipped[i].start <= clipped[i].end)
            && forall d: int :: InForce(clipped, d) <==> d in CoveredDays(ivs, cutoff, today)
  {
    var clipped := ClipAndSort(ivs, cutoff, today);
    assert forall i :: 0 <= i < |clipped| ==> clipped[i] in clipped;
    assert forall d: int :: InForce(clipped, d) <==> InForce(Clip(ivs, cutoff, today), d);
  }

  lemma SweepIsCoverage(ivs: seq<Interval>, cutoff: int, today: int)
    ensures |CoveredDays(ivs, cutoff, today)| == SweepTotal(Sweep(ClipAndSort(ivs, cutoff, today)))
  {
    ClippedInForce(ivs, cutoff, today);
    var days := SweepMeasures(ClipAndSort(ivs, cutoff, today));
    assert days == CoveredDays(ivs, cutoff, today);
  }

  // ---- months ----

  /** Calendar-average month: 30.4375 days. */
  const DAYS_PER_MONTH: real := 487.0 / 16.0

  ghost function MonthsCovered(ivs: seq<Interval>, cutoff: int, today: int): real {
    |CoveredDays(ivs, cutoff, today)| as real / DAYS_PER_MONTH
  }

  method MergedIntervalMonths(ivs: seq<Interval>, cutoff: int, today: int) returns (months: real)
    ensures months == MonthsCovered(ivs, cutoff, today)
  {
    var days := MergedIntervalDays(ivs, cutoff, today);
    months := days as real / DAYS_PER_MONTH;
  }

  // ---- laws of the total ----

  /** Every day served in `a` before `today` is also served in `b`. */
  ghost predicate ServedWithin(a: seq<Interval>, b: seq<Interval>, today: int) {
    forall d: int :: d < today && InForce(a, d) ==> InForce(b, d)
  }

  /** More intervals, an earlier cutoff and a later day never lower the total. */
  lemma CoverageMonotone(a: seq<Interval>, b: seq<Interval>, cutoffA: int, cutoffB: int, todayA: int, todayB: int)
    requires ServedWithin(a, b, todayA) && cutoffB <= cutoffA && todayA <= todayB
    ensures |CoveredDays(a, cutoffA, todayA)| <= |CoveredDays(b, cutoffB, todayB)|
  {
    SubsetSize(CoveredDays(a, cutoffA, todayA), CoveredDays(b, cutoffB, todayB));
  }

  /** Lists with the same intervals, in any order and multiplicity, have the same total. */
  lemma CoverageIgnoresOrderAndDuplicates(a: seq<Interval>, b: seq<Interval>, cutoff: int, today: int)
    requires Elements(a) == Elements(b)
    ensures |CoveredDays(a, cutoff, today)| == |CoveredDays(b, cutoff, today)|
  {
    assert forall iv :: iv in a <==> iv in Elements(a);
    assert forall iv :: iv in b <==> iv in Elements(b);
    CoverageMonotone(a, b, cutoff, cutoff, today, today);
    CoverageMonotone(b, a, cutoff, cutoff, today, today);
  }

  /** What adding up the clipped terms one by one would give. */
  function SumOfTerms(ivs: seq<Interval>, cutoff: int, today: int): nat {
    if ivs == [] then 0
    else Max(0, Min(ivs[0].end, today) - Max(ivs[0].start, cutoff)) + SumOfTerms(ivs[1..], cutoff, today)
  }

  lemma {:induction false} CoverageBounded(ivs: seq<Interval>, cutoff: int, today: int)
    ensures |CoveredDays(ivs, cutoff, today)| <= SumOfTerms(ivs, cutoff, today)
    ensures |CoveredDays(ivs, cutoff, today)| <= Max(0, today - cutoff)
  {
    SpanSize(cutoff, Max(cutoff, today));
    SubsetSize(CoveredDays(ivs, cutoff, today), Span(cutoff, Max(cutoff, today)));
    if ivs != [] {
      var rest := ivs[1..];
      var lo, hi := Max(ivs[0].start, cutoff), Min(ivs[0].end, today);
      CoverageBounded(rest, cutoff, today);
      SpanSize(lo, Max(lo, hi));
      assert ivs == [ivs[0]] + rest;
      var both := CoveredDays(rest, cutoff, today) + Span(lo, Max(lo, hi));
      SubsetSize(CoveredDays(ivs, cutoff, today), both);
    }
  }
}
