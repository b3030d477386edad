/** Windowed metric values and condition evaluation (backend/app/core/advancement.py:300-530). */
module Metrics {
  import opened Records
  import opened Intervals

  /** One attended participation: its day and the effective per-kind values. */
  datatype Attended = Attended(day: Date, values: map<MetricKind, real>)

  /** A term in a position that counts; an open term has no end. */
  datatype Term = Term(start: Option<Date>, end: Option<Date>)

  /** What is stored about a member and does not depend on the day of the run. */
  datatype History = History(
    attended: seq<Attended>,
    badges: nat,
    eagleBadges: nat,
    terms: seq<Term>,
    joined: Option<Date>)

  datatype MemberMetrics = MemberMetrics(
    today: Date,
    events: seq<Attended>,
    badgeCount: nat,
    badgeCountEagleRequired: nat,
    porIntervals: seq<Interval>)

  ghost function PorIntervals(terms: seq<Term>, today: Date): seq<Interval> {
    if terms == [] then []
    else
      var init, t := terms[..|terms| - 1], terms[|terms| - 1];
      PorIntervals(init, today) +
      (if t.start.None? then [] else [Interval(t.start.value, if t.end.Some? then t.end.value else today)])
  }

  ghost function MetricsOn(h: History, today: Date): MemberMetrics {
    MemberMetrics(today, h.attended, h.badges, h.eagleBadges, PorIntervals(h.terms, today))
  }

  method ComputeMemberMetrics(h: History, today: Date) returns (m: MemberMetrics)
    ensures m == MetricsOn(h, today)
  {
    var porIntervals := [];
    for i := 0 to |h.terms|
      invariant porIntervals == PorIntervals(h.terms[..i], today)
    {
      assert h.terms[..i + 1][..i] == h.terms[..i];
      var term := h.terms[i];
      if term.start.None? {
        continue;
      }
      var end := if term.end.Some? then term.end.value else today;
      porIntervals := porIntervals + [Interval(term.start.value, end)];
    }
    assert h.terms[..|h.terms|] == h.terms;
    m := MemberMetrics(today, h.attended, h.badges, h.eagleBadges, porIntervals);
  }

  function SumSince(events: seq<Attended>, kind: MetricKind, cutoff: Date): real {
    if events == [] then 0.0
    else
      (if events[0].day >= cutoff && kind in events[0].values then events[0].values[kind] else 0.0)
      + SumSince(events[1..], kind, cutoff)
  }

  predicate EventKind(kind: MetricKind) {
    kind in {CampingNights, ServiceHours, ConservationHours, HikingMiles, ActivityCount}
  }

  function MonthsBetween(start: Date, end: Date): (months: real)
    ensures months >= 0.0
  {
    var months := (end - start) as real / DAYS_PER_MONTH;
    if months < 0.0 then 0.0 else months
  }

  ghost function Value(m: MemberMetrics, kind: MetricKind, anchor: Option<Date>): real {
    var cutoff := if anchor.Some? then anchor.value else FIRST_DATE;
    if EventKind(kind) then SumSince(m.events, kind, cutoff)
    else if kind == MeritBadgeCount then m.badgeCount as real
    else if kind == MeritBadgeCountEagleRequired then m.badgeCountEagleRequired as real
    else if kind == TenureMonths then (if anchor.Some? then MonthsBetween(anchor.value, m.today) else 0.0)
    else MonthsCovered(m.porIntervals, cutoff, m.today)
  }

  method ComputeValue(m: MemberMetrics, kind: MetricKind, anchor: Option<Date>) returns (value: real)
    ensures value == Value(m, kind, anchor)
  {
    var cutoff := if anchor.Some? then anchor.value else FIRST_DATE;
    if EventKind(kind) { return SumSince(m.events, kind, cutoff); }
    if kind == MeritBadgeCount { return m.badgeCount as real; }
    if kind == MeritBadgeCountEagleRequired { return m.badgeCountEagleRequired as real; }
    if kind == TenureMonths {
      return if anchor.Some? then MonthsBetween(anchor.value, m.today) else 0.0;
    }
    value := MergedIntervalMonths(m.porIntervals, cutoff, m.today);
  }

  // ---- anchors ----

  function EarliestDay(events: seq<Attended>): (day: Date)
    requires events != []
    ensures exists e :: e in events && e.day == day
    ensures forall e :: e in events ==> day <= e.day
  {
    assert events == [events[0]] + events[1..];
    if |events| == 1 then events[0].day
    else
      var rest := EarliestDay(events[1..]);
      if events[0].day < rest then events[0].day else rest
  }

  function JoiningAnchor(h: History): Option<Date> {
    if h.joined.Some? then h.joined
    else if h.attended != [] then Some(EarliestDay(h.attended))
    else None
  }

  /** The rank just below `bound` in sort order; the first one in the list when several tie. */
  function RankBelow(ranks: seq<Rank>, bound: int): (below: Option<Rank>)
    ensures below.None? <==> forall r :: r in ranks ==> r.sortOrder >= bound
    ensures below.Some? ==> below.value in ranks && below.value.sortOrder < bound
    ensures below.Some? ==> forall r :: r in ranks && r.sortOrder < bound ==> r.sortOrder <= below.value.sortOrder
  {
    if ranks == [] then None
    else
      var init, c := ranks[..|ranks| - 1], ranks[|ranks| - 1];
      assert ranks == init + [c];
      var best := RankBelow(init, bound);
      if c.sortOrder < bound && (best.None? || c.sortOrder > best.value.sortOrder) then Some(c) else best
  }

  /** (anchor, available): the board-of-review date of the previous rank. */
  function PreviousRankAnchor(ranks: seq<Rank>, progress: map<(Id, Id), Progress>, member: Id, rank: Rank)
    : (Option<Date>, bool)
  {
    var previous := RankBelow(ranks, rank.sortOrder);
    if previous.None? then (None, true)
    else
      var key := (member, previous.value.id);
      if key !in progress || progress[key].earned.None? then (None, false) else (progress[key].earned, true)
  }

  method FindPreviousRankAnchor(ranks: seq<Rank>, progress: map<(Id, Id), Progress>, member: Id, rank: Rank)
    returns (anchor: Option<Date>, available: bool)
    ensures (anchor, available) == PreviousRankAnchor(ranks, progress, member, rank)
  {
    var previous: Option<Rank> := None;
    for i := 0 to |ranks|
      invariant previous == RankBelow(ranks[..i], rank.sortOrder)
    {
      assert ranks[..i + 1][..i] == ranks[..i];
      var candidate := ranks[i];
      if candidate.sortOrder < rank.sortOrder && (previous.None? || candidate.sortOrder > previous.value.sortOrder) {
        previous := Some(candidate);
      }
    }
    assert ranks[..|ranks|] == ranks;
    if previous.None? { return None, true; }
    if (member, previous.value.id) !in progress || progress[(member, previous.value.id)].earned.None? {
      return None, false;
    }
    return progress[(member, previous.value.id)].earned, true;
  }

  // ---- conditions ----

  /** `value` is None when the window has no anchor, and then the condition is not met. */
  datatype ConditionProgress = ConditionProgress(kind: MetricKind, window: MetricWindow, threshold: real,
                                                 value: Option<real>, met: bool)

  /** Everything an evaluation reads besides the condition itself. */
  datatype Context = Context(ranks: seq<Rank>, progress: map<(Id, Id), Progress>, member: Id, rank: Rank,
                             history: History)

  ghost function Anchor(x: Context, window: MetricWindow): (Option<Date>, bool) {
    match window
    case AllHistory => (None, true)
    case SinceJoining => (JoiningAnchor(x.history), true)
    case SinceRank => PreviousRankAnchor(x.ranks, x.progress, x.member, x.rank)
  }

  ghost predicate Met(x: Context, c: Condition, today: Date) {
    var (anchor, available) := Anchor(x, c.window);
    available && Value(MetricsOn(x.history, today), c.kind, anchor) >= c.threshold
  }

  ghost predicate Evaluates(x: Context, c: Condition, today: Date, p: ConditionProgress) {
    && (p.kind, p.window, p.threshold) == (c.kind, c.window, c.threshold)
    && p.met == Met(x, c, today)
    && (p.value.None? <==> !Anchor(x, c.window).1)
    && (p.value.Some? ==> p.value.value == Value(MetricsOn(x.history, today), c.kind, Anchor(x, c.window).0))
  }

  method EvaluateRequirementMetrics(x: Context, conditions: seq<Condition>, metrics: MemberMetrics)
    returns (results: seq<ConditionProgress>)
    requires metrics == MetricsOn(x.history, metrics.today)
    ensures |results| == |conditions|
    ensures forall i :: 0 <= i < |conditions| ==> Evaluates(x, conditions[i], metrics.today, results[i])
  {
    results := [];
    for i := 0 to |conditions|
      invariant |results| == i
      invariant forall j :: 0 <= j < i ==> Evaluates(x, conditions[j], metrics.today, results[j])
    {
      var c := conditions[i];
      var anchor: Option<Date>, available := None, true;
      if c.window == SinceJoining {
        anchor := JoiningAnchor(x.history);
      } else if c.window == SinceRank {
        anchor, available := FindPreviousRankAnchor(x.ranks, x.progress, x.member, x.rank);
      }
      if !available {
        results := results + [ConditionProgress(c.kind, c.window, c.threshold, None, false)];
      } else {
        var value := ComputeValue(metrics, c.kind, anchor);
        results := results + [ConditionProgress(c.kind, c.window, c.threshold, Some(value), value >= c.threshold)];
      }
    }
  }

  // ---- the passage of time ----

  lemma {:induction false} OpenTermsGrow(terms: seq<Term>, d1: Date, d2: Date)
    requires d1 <= d2
    ensures ServedWithin(PorIntervals(terms, d1), PorIntervals(terms, d2), d1)
  {
    if terms != [] {
      var init, t := terms[..|terms| - 1], terms[|terms| - 1];
      OpenTermsGrow(init, d1, d2);
      if t.start.Some? {
        InForceAppend(PorIntervals(init, d1), Interval(t.start.value, if t.end.Some? then t.end.value else d1));
        InForceAppend(PorIntervals(init, d2), Interval(t.start.value, if t.end.Some? then t.end.value else d2));
      } else {
        assert PorIntervals(init, d1) + [] == PorIntervals(init, d1);
        assert PorIntervals(init, d2) + [] == PorIntervals(init, d2);
      }
    }
  }

  /** With the stored history fixed, no metric falls as days pass, open position terms included. */
  lemma ValueMonotone(h: History, kind: MetricKind, anchor: Option<Date>, d1: Date, d2: Date)
    requires d1 <= d2
    ensures Value(MetricsOn(h, d1), kind, anchor) <= Value(MetricsOn(h, d2), kind, anchor)
  {
    if kind == PorMonths {
      var cutoff := if anchor.Some? then anchor.value else FIRST_DATE;
      OpenTermsGrow(h.terms, d1, d2);
      CoverageMonotone(PorIntervals(h.terms, d1), PorIntervals(h.terms, d2), cutoff, cutoff, d1, d2);
    }
  }

  lemma MetStaysMet(x: Context, c: Condition, d1: Date, d2: Date)
    requires d1 <= d2 && Met(x, c, d1)
    ensures Met(x, c, d2)
  {
    ValueMonotone(x.history, c.kind, Anchor(x, c.window).0, d1, d2);
  }

  // ---- what the values count ----

  lemma {:induction false} SumOfInserted(before: seq<Attended>, e: Attended, later: seq<Attended>, kind: MetricKind,
                                         cutoff: Date)
    ensures SumSince(before + [e] + later, kind, cutoff) ==
            SumSince(before + later, kind, cutoff)
            + (if cutoff <= e.day && kind in e.values then e.values[kind] else 0.0)
  {
    if before == [] {
      assert before + [e] + later == [e] + later && before + later == later;
    } else {
      SumOfInserted(before[1..], e, later, kind, cutoff);
      assert (before + [e] + later)[1..] == before[1..] + [e] + later;
      assert (before + later)[1..] == before[1..] + later;
    }
  }

  /**
   * One more outing, wherever it stands in the list, adds exactly its value for the kind when its day is
   * on or after the anchor or there is no anchor, and nothing otherwise; no outing, no value.
   */
  lemma OutingsCountFromTheAnchor(h: History, today: Date, i: nat, e: Attended, kind: MetricKind, anchor: Option<Date>)
    requires i <= |h.attended|
    requires kind in {CampingNights, ServiceHours, ConservationHours, HikingMiles, ActivityCount}
    ensures Value(MetricsOn(h.(attended := []), today), kind, anchor) == 0.0
    ensures var more := h.(attended := h.attended[..i] + [e] + h.attended[i..]);
            Value(MetricsOn(more, today), kind, anchor) ==
            Value(MetricsOn(h, today), kind, anchor)
            + (if (anchor.None? || anchor.value <= e.day) && kind in e.values then e.values[kind] else 0.0)
  {
    SumOfInserted(h.attended[..i], e, h.attended[i..], kind, if anchor.Some? then anchor.value else FIRST_DATE);
    assert h.attended[..i] + h.attended[i..] == h.attended;
  }

  lemma {:induction false} NothingBefore(events: seq<Attended>, kind: MetricKind, a: Date, b: Date)
    requires forall e :: e in events ==> a <= e.day && b <= e.day
    ensures SumSince(events, kind, a) == SumSince(events, kind, b)
  {
    if events != [] {
      assert forall e :: e in events[1..] ==> e in events;
      NothingBefore(events[1..], kind, a, b);
    }
  }

  /** Without a stored joining date every outing counts since joining, the first one included. */
  lemma UnknownJoiningDateCountsAll(x: Context, kind: MetricKind, threshold: real, today: Date)
    requires x.history.joined.None?
    requires kind in {CampingNights, ServiceHours, ConservationHours, HikingMiles, ActivityCount}
    ensures Value(MetricsOn(x.history, today), kind, Anchor(x, SinceJoining).0) ==
            Value(MetricsOn(x.history, today), kind, None)
    ensures Met(x, Condition(kind, threshold, SinceJoining), today) <==>
            Met(x, Condition(kind, threshold, AllHistory), today)
  {
    var h := x.history;
    if h.attended != [] {
      NothingBefore(h.attended, kind, EarliestDay(h.attended), FIRST_DATE);
    }
  }

  /** Some term that has a start is in force on day `d`; the day a term ends is not served. */
  ghost predicate Serving(terms: seq<Term>, d: int) {
    exists t :: t in terms && t.start.Some? && t.start.value <= d && (t.end.Some? ==> d < t.end.value)
  }

  ghost function ServedDays(terms: seq<Term>, since: Date, today: Date): set<int> {
    set d: int | since <= d < today && Serving(terms, d)
  }

  lemma {:induction false} InForceIsServing(terms: seq<Term>, today: Date, d: int)
    requires d < today
    ensures InForce(PorIntervals(terms, today), d) <==> Serving(terms, d)
  {
    if terms != [] {
      var init, t := terms[..|terms| - 1], terms[|terms| - 1];
      assert terms == init + [t];
      InForceIsServing(init, today, d);
      assert Serving(terms, d) <==>
          Serving(init, d) || (t.start.Some? && t.start.value <= d && (t.end.Some? ==> d < t.end.value));
      if t.start.Some? {
        InForceAppend(PorIntervals(init, today), Interval(t.start.value, if t.end.Some? then t.end.value else today));
      } else {
        assert PorIntervals(init, today) + [] == PorIntervals(init, today);
      }
    }
  }

  lemma CoveredIsServed(terms: seq<Term>, since: Date, today: Date)
    ensures CoveredDays(PorIntervals(terms, today), since, today) == ServedDays(terms, since, today)
  {
    forall d: int | since <= d < today
      ensures InForce(PorIntervals(terms, today), d) <==> Serving(terms, d)
    {
      InForceIsServing(terms, today, d);
    }
  }

  /**
   * When a condition on badges, tenure or service is met, in whole numbers: badges against their own
   * count, tenure against the days since the anchor, service against the days on which some term was in
   * force, a month being 487/16 days; and never when the window has no anchor to offer.
   */
  lemma MetIff(x: Context, c: Condition, today: Date, anchor: Option<Date>)
    requires Anchor(x, c.window) == (anchor, true)
    ensures Met(x, c, today) <==> Value(MetricsOn(x.history, today), c.kind, anchor) >= c.threshold
    ensures c.kind == MeritBadgeCount ==> (Met(x, c, today) <==> x.history.badges as real >= c.threshold)
    ensures c.kind == MeritBadgeCountEagleRequired ==>
              (Met(x, c, today) <==> x.history.eagleBadges as real >= c.threshold)
    ensures c.kind == TenureMonths ==>
              (Met(x, c, today) <==>
               c.threshold <= 0.0
               || (anchor.Some? && 16.0 * (today - anchor.value) as real >= 487.0 * c.threshold))
    ensures c.kind == PorMonths ==>
              var since := if anchor.Some? then anchor.value else FIRST_DATE;
              (Met(x, c, today) <==>
               16.0 * |ServedDays(x.history.terms, since, today)| as real >= 487.0 * c.threshold)
  {
    CoveredIsServed(x.history.terms, if anchor.Some? then anchor.value else FIRST_DATE, today);
  }

  /** The first-listed of the nearest lower ranks. */
  ghost predicate NearestBelow(ranks: seq<Rank>, bound: int, k: nat) {
    && k < |ranks| && ranks[k].sortOrder < bound
    && forall j :: 0 <= j < |ranks| && ranks[j].sortOrder < bound ==>
         ranks[j].sortOrder < ranks[k].sortOrder || (ranks[j].sortOrder == ranks[k].sortOrder && k <= j)
  }

  lemma {:induction false} RankBelowIsNearest(ranks: seq<Rank>, bound: int, k: nat)
    requires NearestBelow(ranks, bound, k)
    ensures RankBelow(ranks, bound) == Some(ranks[k])
  {
    var init, c := ranks[..|ranks| - 1], ranks[|ranks| - 1];
    if k < |init| {
      RankBelowIsNearest(init, bound, k);
    } else {
      var best := RankBelow(init, bound);
      if best.Some? {
        var j :| 0 <= j < |init| && init[j] == best.value;
        assert ranks[j] == best.value;
      }
    }
  }

  /** Where each window starts, and that only the previous rank's missing date leaves a window without value. */
  lemma WindowStarts(x: Context, k: nat)
    ensures Anchor(x, AllHistory) == (None, true)
    ensures Anchor(x, SinceJoining).1
    ensures x.history.joined.Some? ==> Anchor(x, SinceJoining).0 == x.history.joined
    ensures x.history.joined.None? && x.history.attended == [] ==> Anchor(x, SinceJoining).0 == None
    ensures x.history.joined.None? && x.history.attended != [] ==>
              && Anchor(x, SinceJoining).0.Some?
              && (exists e :: e in x.history.attended && Anchor(x, SinceJoining).0.value == e.day)
              && forall e :: e in x.history.attended ==> Anchor(x, SinceJoining).0.value <= e.day
    ensures (forall r :: r in x.ranks ==> x.rank.sortOrder <= r.sortOrder) ==> Anchor(x, SinceRank) == (None, true)
    ensures NearestBelow(x.ranks, x.rank.sortOrder, k) ==>
              var key := (x.member, x.ranks[k].id);
              if key in x.progress && x.progress[key].earned.Some?
              then Anchor(x, SinceRank) == (x.progress[key].earned, true)
              else
                && !Anchor(x, SinceRank).1
                && forall c: Condition, today: Date :: c.window == SinceRank ==> !Met(x, c, today)
  {
    if NearestBelow(x.ranks, x.rank.sortOrder, k) {
      RankBelowIsNearest(x.ranks, x.rank.sortOrder, k);
    }
  }
}
