/** Validation of metric conditions in a catalog file (backend/app/core/advancement_catalog.py:67-85). */
module MetricConditions {
  import opened Records

  datatype Json =
    | JNull
    | JBool(b: bool)
    | JNumber(n: real)
    | JString(s: string)
    | JArray(items: seq<Json>)
    | JObject(fields: map<string, Json>)

  function KindName(k: MetricKind): string {
    match k
    case CampingNights => "camping_nights"
    case ServiceHours => "service_hours"
    case ConservationHours => "conservation_hours"
    case HikingMiles => "hiking_miles"
    case ActivityCount => "activity_count"
    case TenureMonths => "tenure_months"
    case PorMonths => "por_months"
    case MeritBadgeCount => "merit_badge_count"
    case MeritBadgeCountEagleRequired => "merit_badge_count_eagle_required"
  }

  function WindowName(w: MetricWindow): string {
    match w
    case AllHistory => "any"
    case SinceJoining => "since_joining"
    case SinceRank => "since_rank"
  }

  const KINDS: seq<MetricKind> :=
    [CampingNights, ServiceHours, ConservationHours, HikingMiles, ActivityCount,
     TenureMonths, PorMonths, MeritBadgeCount, MeritBadgeCountEagleRequired]

  const WINDOWS: seq<MetricWindow> := [AllHistory, SinceJoining, SinceRank]

  function FindKind(kinds: seq<MetricKind>, name: string): (k: Option<MetricKind>)
    ensures k.Some? ==> k.value in kinds && KindName(k.value) == name
    ensures k.None? ==> forall x :: x in kinds ==> KindName(x) != name
  {
    if kinds == [] then None
    else if KindName(kinds[0]) == name then Some(kinds[0])
    else FindKind(kinds[1..], name)
  }

  function FindWindow(windows: seq<MetricWindow>, name: string): (w: Option<MetricWindow>)
    ensures w.Some? ==> w.value in windows && WindowName(w.value) == name
    ensures w.None? ==> forall x :: x in windows ==> WindowName(x) != name
  {
    if windows == [] then None
    else if WindowName(windows[0]) == name then Some(windows[0])
    else FindWindow(windows[1..], name)
  }

  /** A number, with true standing for one and false for zero. */
  function AsNumber(j: Json): Option<real> {
    match j
    case JNumber(n) => Some(n)
    case JBool(b) => Some(if b then 1.0 else 0.0)
    case _ => None
  }

  /** The stored form of one condition, or None when the loader rejects it. */
  function ParseCondition(j: Json): Option<Condition> {
    if !j.JObject? || "kind" !in j.fields || "threshold" !in j.fields then None
    else
      var kind := if j.fields["kind"].JString? then FindKind(KINDS, j.fields["kind"].s) else None;
      var windowField := if "window" in j.fields then j.fields["window"] else JString("any");
      var window := if windowField.JString? then FindWindow(WINDOWS, windowField.s) else None;
      var threshold := AsNumber(j.fields["threshold"]);
      if kind.None? || window.None? || threshold.None? || threshold.value <= 0.0 then None
      else Some(Condition(kind.value, threshold.value, window.value))
  }

  /** Null is allowed and means no metrics; otherwise a non-empty list of valid conditions. */
  predicate AcceptedMetrics(j: Json) {
    j.JNull? || (j.JArray? && j.items != [] && forall c :: c in j.items ==> ParseCondition(c).Some?)
  }

  function ParsedMetrics(j: Json): Option<seq<Condition>>
    requires AcceptedMetrics(j)
  {
    if j.JNull? then None
    else Some(seq(|j.items|, i requires 0 <= i < |j.items| => ParseCondition(j.items[i]).value))
  }

  method ValidateMetrics(metrics: Json) returns (accepted: bool, validated: Option<seq<Condition>>)
    ensures accepted <==> AcceptedMetrics(metrics)
    ensures accepted ==> validated == ParsedMetrics(metrics)
  {
    if metrics.JNull? {
      return true, None;
    }
    if !metrics.JArray? || metrics.items == [] {
      return false, None;
    }
    var conditions: seq<Condition> := [];
    for i := 0 to |metrics.items|
      invariant |conditions| == i
      invariant forall j :: 0 <= j < i ==> ParseCondition(metrics.items[j]) == Some(conditions[j])
    {
      var c := ParseCondition(metrics.items[i]);
      if c.None? {
        assert metrics.items[i] in metrics.items;
        return false, None;
      }
      conditions := conditions + [c.value];
    }
    AllParsed(metrics, conditions);
    return true, Some(conditions);
  }

  lemma AllParsed(metrics: Json, conditions: seq<Condition>)
    requires metrics.JArray? && metrics.items != [] && |conditions| == |metrics.items|
    requires forall j :: 0 <= j < |conditions| ==> ParseCondition(metrics.items[j]) == Some(conditions[j])
    ensures AcceptedMetrics(metrics) && ParsedMetrics(metrics) == Some(conditions)
  {
    assert ParsedMetrics(metrics).value == conditions;
  }

  // ---- stored conditions are a normal form ----

  function RenderCondition(c: Condition): Json {
    JObject(map["kind" := JString(KindName(c.kind)), "threshold" := JNumber(c.threshold),
        "window" := JString(WindowName(c.window))])
  }

  function RenderMetrics(m: Option<seq<Condition>>): Json {
    if m.None? then JNull else JArray(seq(|m.value|, i requires 0 <= i < |m.value| => RenderCondition(m.value[i])))
  }

  lemma NamesIdentify(k1: MetricKind, k2: MetricKind, w1: MetricWindow, w2: MetricWindow)
    ensures KindName(k1) == KindName(k2) ==> k1 == k2
    ensures WindowName(w1) == WindowName(w2) ==> w1 == w2
    ensures k1 in KINDS && w1 in WINDOWS
  {
    KindIndex(k1);
    KindIndex(k2);
    assert w1 == WINDOWS[0] || w1 == WINDOWS[1] || w1 == WINDOWS[2];
    assert |WindowName(AllHistory)| == 3 && |WindowName(SinceJoining)| == 13 && |WindowName(SinceRank)| == 10;
  }

  /** Length and last letter tell the kind names apart. */
  lemma KindIndex(k: MetricKind)
    ensures k in KINDS
    ensures k == CampingNights <==> |KindName(k)| == 14 && KindName(k)[0] == 'c'
    ensures k == ActivityCount <==> |KindName(k)| == 14 && KindName(k)[0] == 'a'
    ensures k == ServiceHours <==> |KindName(k)| == 13 && KindName(k)[0] == 's'
    ensures k == TenureMonths <==> |KindName(k)| == 13 && KindName(k)[0] == 't'
    ensures k == ConservationHours <==> |KindName(k)| == 18
    ensures k == HikingMiles <==> |KindName(k)| == 12
    ensures k == PorMonths <==> |KindName(k)| == 10
    ensures k == MeritBadgeCount <==> |KindName(k)| == 17
    ensures k == MeritBadgeCountEagleRequired <==> |KindName(k)| == 32
  {
    assert KINDS[0] == CampingNights && KINDS[1] == ServiceHours && KINDS[2] == ConservationHours
        && KINDS[3] == HikingMiles
      && KINDS[4] == ActivityCount && KINDS[5] == TenureMonths && KINDS[6] == PorMonths && KINDS[7] == MeritBadgeCount
      && KINDS[8] == MeritBadgeCountEagleRequired;
  }

  /** Every condition with a positive threshold reads back as itself, and nothing else is ever stored. */
  lemma ConditionRoundTrip(c: Condition)
    ensures ParseCondition(RenderCondition(c)) == if c.threshold > 0.0 then Some(c) else None
  {
    var k := FindKind(KINDS, KindName(c.kind));
    var w := FindWindow(WINDOWS, WindowName(c.window));
    NamesIdentify(c.kind, if k.Some? then k.value else c.kind, c.window, if w.Some? then w.value else c.window);
  }

  /** What the loader stores, it accepts again unchanged, whatever spelling the file used. */
  lemma StoredMetricsReload(j: Json)
    requires AcceptedMetrics(j)
    ensures AcceptedMetrics(RenderMetrics(ParsedMetrics(j)))
    ensures ParsedMetrics(RenderMetrics(ParsedMetrics(j))) == ParsedMetrics(j)
  {
    if j.JArray? {
      var stored := ParsedMetrics(j).value;
      var again := RenderMetrics(Some(stored));
      forall i | 0 <= i < |stored|
        ensures ParseCondition(again.items[i]) == Some(stored[i])
      {
        assert j.items[i] in j.items;
        ConditionRoundTrip(stored[i]);
      }
      assert forall x :: x in again.items ==> ParseCondition(x).Some?;
      assert ParsedMetrics(again).value == stored;
    }
  }

  // ---- what a file has to say for a condition to be stored ----

  /** The words a file may use for the kind of a condition. */
  const KIND_WORDS: map<string, MetricKind> := map[
    "camping_nights" := CampingNights,
    "service_hours" := ServiceHours,
    "conservation_hours" := ConservationHours,
    "hiking_miles" := HikingMiles,
    "activity_count" := ActivityCount,
    "tenure_months" := TenureMonths,
    "por_months" := PorMonths,
    "merit_badge_count" := MeritBadgeCount,
    "merit_badge_count_eagle_required" := MeritBadgeCountEagleRequired]

  const WINDOW_WORDS: map<string, MetricWindow> := map[
    "any" := AllHistory, "since_joining" := SinceJoining, "since_rank" := SinceRank]

  /** The object spells out the condition; without a window it counts all history, and true stands for one. */
  predicate Spells(j: Json, c: Condition) {
    && j.JObject? && "kind" in j.fields && "threshold" in j.fields && c.threshold > 0.0
    && j.fields["kind"].JString? && j.fields["kind"].s in KIND_WORDS && KIND_WORDS[j.fields["kind"].s] == c.kind
    && (j.fields["threshold"] == JNumber(c.threshold) || (j.fields["threshold"] == JBool(true) && c.threshold == 1.0))
    && if "window" !in j.fields then c.window == AllHistory
       else && j.fields["window"].JString? && j.fields["window"].s in WINDOW_WORDS
            && WINDOW_WORDS[j.fields["window"].s] == c.window
  }

  lemma KindWord(name: string, k: MetricKind)
    ensures name in KIND_WORDS && KIND_WORDS[name] == k <==> name == KindName(k)
  {
  }

  lemma WindowWord(name: string, w: MetricWindow)
    ensures name in WINDOW_WORDS && WINDOW_WORDS[name] == w <==> name == WindowName(w)
  {
  }

  lemma FoundKind(name: string, k: MetricKind)
    ensures FindKind(KINDS, name) == Some(k) <==> name in KIND_WORDS && KIND_WORDS[name] == k
  {
    var found := FindKind(KINDS, name);
    NamesIdentify(k, if found.Some? then found.value else k, AllHistory, AllHistory);
    KindWord(name, k);
  }

  lemma FoundWindow(name: string, w: MetricWindow)
    ensures FindWindow(WINDOWS, name) == Some(w) <==> name in WINDOW_WORDS && WINDOW_WORDS[name] == w
  {
    var found := FindWindow(WINDOWS, name);
    NamesIdentify(CampingNights, CampingNights, w, if found.Some? then found.value else w);
    WindowWord(name, w);
  }

  /** A condition is stored for an object exactly when the object spells it out. */
  lemma StoredIffSpelled(j: Json, c: Condition)
    ensures ParseCondition(j) == Some(c) <==> Spells(j, c)
  {
    if j.JObject? && "kind" in j.fields && "threshold" in j.fields {
      if j.fields["kind"].JString? {
        FoundKind(j.fields["kind"].s, c.kind);
      }
      var windowField := if "window" in j.fields then j.fields["window"] else JString("any");
      if windowField.JString? {
        FoundWindow(windowField.s, c.window);
      }
      DefaultWindow(c.window);
      PartsParsed(j, windowField, c);
    }
  }

  lemma DefaultWindow(w: MetricWindow)
    ensures "any" in WINDOW_WORDS && (WINDOW_WORDS["any"] == w <==> w == AllHistory)
  {
  }

  lemma PartsParsed(j: Json, windowField: Json, c: Condition)
    requires j.JObject? && "kind" in j.fields && "threshold" in j.fields
    requires windowField == if "window" in j.fields then j.fields["window"] else JString("any")
    ensures ParseCondition(j) == Some(c) <==>
            && j.fields["kind"].JString? && FindKind(KINDS, j.fields["kind"].s) == Some(c.kind)
            && windowField.JString? && FindWindow(WINDOWS, windowField.s) == Some(c.window)
            && AsNumber(j.fields["threshold"]) == Some(c.threshold) && c.threshold > 0.0
  {
  }

  /** Null for no metrics, or a non-empty list that spells out the conditions one by one. */
  predicate MetricsSpelled(j: Json, m: Option<seq<Condition>>) {
    if m.None? then j.JNull?
    else j.JArray? && |j.items| == |m.value| > 0 && forall i :: 0 <= i < |m.value| ==> Spells(j.items[i], m.value[i])
  }

  /** A file's metrics are accepted and stored as `m` exactly when they spell out `m`. */
  lemma StoredMetricsIffSpelled(j: Json, m: Option<seq<Condition>>)
    ensures AcceptedMetrics(j) && ParsedMetrics(j) == m <==> MetricsSpelled(j, m)
  {
    if AcceptedMetrics(j) && ParsedMetrics(j) == m && j.JArray? {
      forall i | 0 <= i < |j.items|
        ensures Spells(j.items[i], m.value[i])
      {
        StoredIffSpelled(j.items[i], m.value[i]);
        assert j.items[i] in j.items;
      }
    }
    if MetricsSpelled(j, m) && m.Some? {
      forall i | 0 <= i < |m.value|
        ensures ParseCondition(j.items[i]) == Some(m.value[i])
      {
        StoredIffSpelled(j.items[i], m.value[i]);
      }
      AllParsed(j, m.value);
    }
  }
}
