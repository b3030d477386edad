/**
 * Whole runs over the completion table: engine runs, election switches and earned-date derivations
 * interleaved with the chair's own writes (backend/app/core/advancement.py and
 * backend/app/routers/advancement.py).
 */
module Runs {
  import opened Records
  import opened Metrics
  import opened Completeness
  import opened Election
  import opened AutoCredit
  import opened Convergence

  datatype Step =
    | Credit(cat: Catalog, h: History, member: Id, today: Date, created: seq<Completion>)
    | Elect(cat: Catalog, member: Id, rank: Id, newSet: Id, result: RemapResult)
    | Derive(cat: Catalog, member: Id, rank: Id, changed: bool)
    | Revoke(position: nat)
    | Report(row: Completion)
    | Edit(position: nat, edited: Completion)

  predicate SamePair(a: Completion, b: Completion) {
    a.member == b.member && a.requirement == b.requirement
  }

  ghost predicate Takes(before: Ledger, step: Step, after: Ledger) {
    match step
    case Credit(cat, h, member, today, created) => CreditStep(cat, h, member, today, before, after, created)
    case Elect(cat, member, rank, newSet, result) => SwitchStep(cat, before, member, rank, newSet, after, result)
    case Derive(cat, member, rank, changed) => (member, rank) in before.progress
        && DeriveStep(cat, before, member, rank, after, changed)
    case Revoke(i) =>
      && i < |before.completions| && !before.completions[i].isDeleted
      && after.completions == before.completions[i := before.completions[i].(isDeleted := true)]
    case Report(row) =>
      && !row.isDeleted
      && (forall c :: c in before.completions && SamePair(c, row) ==> c.isDeleted)
      && after.completions == before.completions + [row]
    case Edit(i, edited) =>
      && i < |before.completions| && !before.completions[i].isDeleted
      && SamePair(edited, before.completions[i]) && !edited.isDeleted
      && after.completions == before.completions[i := edited]
  }

  predicate Automatic(step: Step) { step.Credit? || step.Elect? || step.Derive? }

  /** At most one row per (member, requirement) is active. */
  ghost predicate UniqueActive(rows: seq<Completion>) {
    forall i, j :: 0 <= i < j < |rows| && SamePair(rows[i], rows[j]) ==> rows[i].isDeleted || rows[j].isDeleted
  }

  ghost predicate HasRow(rows: seq<Completion>, member: Id, requirement: Id) {
    exists c :: c in rows && c.member == member && c.requirement == requirement
  }

  /** Rows are only appended, each for a pair that had none. */
  ghost predicate OnlyAppends(before: seq<Completion>, after: seq<Completion>) {
    && before <= after
    && (forall i :: |before| <= i < |after| ==> !HasRow(before, after[i].member, after[i].requirement))
    && forall i, j :: |before| <= i < j < |after| ==> !SamePair(after[i], after[j])
  }

  lemma FreshRows(rows: seq<Completion>, member: Id, added: seq<Completion>, after: seq<Completion>)
    requires after == rows + added && DistinctTargets(added)
    requires forall c :: c in added ==> c.member == member && c.requirement !in RowIds(rows, member)
    ensures OnlyAppends(rows, after)
  {
    forall i | |rows| <= i < |after|
      ensures after[i] == added[i - |rows|] && !HasRow(rows, after[i].member, after[i].requirement)
    {
      assert added[i - |rows|] in added;
    }
  }

  /** No automatic step alters a row or adds one for a pair that has any, tombstones included. */
  lemma AutomaticOnlyAppends(before: Ledger, step: Step, after: Ledger)
    requires Takes(before, step, after) && Automatic(step)
    ensures OnlyAppends(before.completions, after.completions)
  {
    match step
    case Credit(cat, h, member, today, created) =>
      FreshRows(before.completions, member, created, after.completions);
    case Elect(cat, member, rank, newSet, result) =>
      CopiesLandOnFreeKeyedRequirements(cat, before, member, rank, newSet, after, result);
      FreshRows(before.completions, member, Added(before, after), after.completions);
    case Derive(cat, member, rank, changed) =>
  }

  /** Rows are never removed or moved to another pair, and a tombstone stays exactly as it is. */
  ghost predicate KeepsHistory(before: seq<Completion>, after: seq<Completion>) {
    && |before| <= |after|
    && forall i :: 0 <= i < |before| ==>
        SamePair(before[i], after[i]) && (before[i].isDeleted ==> after[i] == before[i])
  }

  lemma StepKeepsHistory(before: Ledger, step: Step, after: Ledger)
    requires Takes(before, step, after)
    ensures KeepsHistory(before.completions, after.completions)
  {
    if Automatic(step) {
      AutomaticOnlyAppends(before, step, after);
    }
  }

  lemma AppendKeepsUniqueActive(rows: seq<Completion>, after: seq<Completion>)
    requires UniqueActive(rows) && OnlyAppends(rows, after)
    ensures UniqueActive(after)
  {
    forall i, j | 0 <= i < j < |after| && SamePair(after[i], after[j])
      ensures after[i].isDeleted || after[j].isDeleted
    {
      if i < |rows| {
        assert rows[i] in rows && after[i] == rows[i];
      }
    }
  }

  lemma StepKeepsUniqueActive(before: Ledger, step: Step, after: Ledger)
    requires Takes(before, step, after) && UniqueActive(before.completions)
    ensures UniqueActive(after.completions)
  {
    if Automatic(step) {
      AutomaticOnlyAppends(before, step, after);
      AppendKeepsUniqueActive(before.completions, after.completions);
    }
  }

  // ---- whole runs ----

  ghost predicate Run(states: seq<Ledger>, steps: seq<Step>) {
    && |states| == |steps| + 1
    && forall i :: 0 <= i < |steps| ==> Takes(states[i], steps[i], states[i + 1])
  }

  /** Any interleaving keeps at most one active row per pair, and rewrites no tombstone. */
  lemma {:induction false} RunsKeepHistory(states: seq<Ledger>, steps: seq<Step>)
    requires Run(states, steps)
    ensures KeepsHistory(states[0].completions, states[|steps|].completions)
    ensures UniqueActive(states[0].completions) ==> UniqueActive(states[|steps|].completions)
  {
    if steps != [] {
      StepKeepsHistory(states[0], steps[0], states[1]);
      if UniqueActive(states[0].completions) {
        StepKeepsUniqueActive(states[0], steps[0], states[1]);
      }
      RunsKeepHistory(states[1..], steps[1..]);
    }
  }

  predicate ReportsPair(step: Step, member: Id, requirement: Id) {
    step.Report? && step.row.member == member && step.row.requirement == requirement
  }

  /** Positions of the rows of one pair. */
  ghost function Rows(rows: seq<Completion>, member: Id, requirement: Id): set<int> {
    set i | 0 <= i < |rows| && rows[i].member == member && rows[i].requirement == requirement
  }

  lemma StepNeverRecreates(before: Ledger, step: Step, after: Ledger, member: Id, requirement: Id)
    requires Takes(before, step, after) && !ReportsPair(step, member, requirement)
    requires HasRow(before.completions, member, requirement)
    ensures Rows(after.completions, member, requirement) == Rows(before.completions, member, requirement)
    ensures HasRow(after.completions, member, requirement)
  {
    StepKeepsHistory(before, step, after);
    if Automatic(step) {
      AutomaticOnlyAppends(before, step, after);
    }
    var c :| c in before.completions && c.member == member && c.requirement == requirement;
    var i :| 0 <= i < |before.completions| && before.completions[i] == c;
    assert after.completions[i] in after.completions;
  }

  ghost predicate AllRevoked(completions: seq<Completion>, member: Id, requirement: Id) {
    forall c :: c in completions && c.member == member && c.requirement == requirement ==> c.isDeleted
  }

  lemma AllRevokedStays(before: seq<Completion>, after: seq<Completion>, member: Id, requirement: Id)
    requires KeepsHistory(before, after) && Rows(after, member, requirement) == Rows(before, member, requirement)
    requires AllRevoked(before, member, requirement)
    ensures AllRevoked(after, member, requirement)
  {
    forall c | c in after && c.member == member && c.requirement == requirement
      ensures c.isDeleted
    {
      var i :| 0 <= i < |after| && after[i] == c;
      assert i in Rows(after, member, requirement);
      assert i in Rows(before, member, requirement);
      assert before[i] in before;
    }
  }

  /**
   * Never re-create: once a pair has a row, a tombstone included, no run adds another one for it
   * except by an explicit report; and a pair whose rows are all revoked stays revoked.
   */
  lemma {:induction false} NeverRecreated(states: seq<Ledger>, steps: seq<Step>, member: Id, requirement: Id)
    requires Run(states, steps)
    requires HasRow(states[0].completions, member, requirement)
    requires forall i :: 0 <= i < |steps| ==> !ReportsPair(steps[i], member, requirement)
    ensures Rows(states[|steps|].completions, member, requirement) == Rows(states[0].completions, member, requirement)
    ensures AllRevoked(states[0].completions, member, requirement) ==>
              AllRevoked(states[|steps|].completions, member, requirement)
  {
    if steps != [] {
      var l0, l1 := states[0], states[1];
      StepNeverRecreates(l0, steps[0], l1, member, requirement);
      StepKeepsHistory(l0, steps[0], l1);
      NeverRecreated(states[1..], steps[1..], member, requirement);
      if AllRevoked(l0.completions, member, requirement) {
        AllRevokedStays(l0.completions, l1.completions, member, requirement);
      }
    }
  }

  // ---- a third switch that copies, from nothing ----

  /** No requirement of `other` carries a key of `reqs`. */
  ghost predicate NoSharedKey(reqs: seq<Requirement>, other: seq<Requirement>) {
    forall r, q :: r in reqs && q in other && r.Keyed() && q.Keyed() ==> r.stableKey != q.stableKey
  }

  lemma NoCounterpart(reqs: seq<Requirement>, other: seq<Requirement>, c: Completion)
    requires NoSharedKey(reqs, other) && c.requirement in Ids(reqs)
    ensures TargetOf(reqs, other, c).None?
  {
  }

  function Switched(cat: Catalog, member: Id, rank: Id, newSet: Id, result: RemapResult): Step {
    Elect(cat, member, rank, newSet, result)
  }

  /** A report and switches to the sets `to`, one after the other. */
  predicate ReportsThenSwitches(steps: seq<Step>, row: Completion, cat: Catalog, member: Id, rank: Id, to: seq<Id>,
                                results: seq<RemapResult>)
  {
    && |steps| == |to| + 1 && |results| == |to| && steps[0] == Report(row)
    && forall i :: 0 <= i < |to| ==> steps[i + 1] == Switched(cat, member, rank, to[i], results[i])
  }

  /** A run of that kind, and where it ends. */
  ghost predicate PathTo(states: seq<Ledger>, steps: seq<Step>, row: Completion, cat: Catalog, member: Id, rank: Id,
                         to: seq<Id>, results: seq<RemapResult>, end: Ledger)
  {
    && Run(states, steps) && ReportsThenSwitches(steps, row, cat, member, rank, to, results)
    && |steps| > 0 && states[0] == Ledger([], map[]) && states[|steps|] == end
  }

  /** One more switch. */
  lemma SwitchOnce(states: seq<Ledger>, steps: seq<Step>, row: Completion, cat: Catalog, member: Id, rank: Id,
                   to: seq<Id>, results: seq<RemapResult>, last: Ledger, next: Id, result: RemapResult, end: Ledger)
    returns (longer: seq<Ledger>, more: seq<Step>)
    requires PathTo(states, steps, row, cat, member, rank, to, results, last)
    requires SwitchStep(cat, last, member, rank, next, end, result)
    ensures PathTo(longer, more, row, cat, member, rank, to + [next], results + [result], end)
    ensures longer[1] == states[1]
  {
    longer, more := states + [end], steps + [Switched(cat, member, rank, next, result)];
    assert Takes(last, Switched(cat, member, rank, next, result), end);
  }

  lemma FirstReport(cat: Catalog, member: Id, rank: Id, b: Id, c: Completion)
    returns (states: seq<Ledger>, steps: seq<Step>)
    requires !c.isDeleted
    ensures PathTo(states, steps, c, cat, member, rank, [], [], OneRow(c, member, rank, b))
    ensures states[1] == OneRow(c, member, rank, b)
  {
    states, steps := [Ledger([], map[]), OneRow(c, member, rank, b)], [Report(c)];
    assert Takes(states[0], Report(c), states[1]);
  }

  /** A member whose first report is on B goes through a version that shares no key with B to A. */
  lemma FromBToA(cat: Catalog, member: Id, rank: Id, a: Id, b: Id, between: Id, c: Completion)
    returns (states: seq<Ledger>, steps: seq<Step>, results: seq<RemapResult>)
    requires c.member == member && !c.isDeleted && c.requirement in Ids(cat.Live(b))
    requires between != a && between != b && Ids(cat.Live(between)) !! Ids(cat.Live(b))
    requires NoSharedKey(cat.Live(b), cat.Live(between))
    ensures PathTo(states, steps, c, cat, member, rank, [between, a], results, OneRow(c, member, rank, a))
    ensures |results| == 2
    ensures states[1] == OneRow(c, member, rank, b)
  {
    ThroughBetween(cat, member, rank, a, b, between, c);
    var unmatched := RemapResult(0, 0, [ById(cat.Live(b), c.requirement).Label()]);
    states, steps := FirstReport(cat, member, rank, b, c);
    states, steps := SwitchOnce(states, steps, c, cat, member, rank, [], [], OneRow(c, member, rank, b),
        between, unmatched, OneRow(c, member, rank, between));
    states, steps := SwitchOnce(states, steps, c, cat, member, rank, [] + [between], [] + [unmatched],
        OneRow(c, member, rank, between), a, RemapResult(0, 0, []), OneRow(c, member, rank, a));
    results := [] + [unmatched] + [RemapResult(0, 0, [])];
    assert [] + [between] + [a] == [between, a];
  }

  lemma ThroughBetween(cat: Catalog, member: Id, rank: Id, a: Id, b: Id, between: Id, c: Completion)
    requires c.member == member && !c.isDeleted && c.requirement in Ids(cat.Live(b))
    requires between != a && between != b && Ids(cat.Live(between)) !! Ids(cat.Live(b))
    requires NoSharedKey(cat.Live(b), cat.Live(between))
    ensures SwitchStep(cat, OneRow(c, member, rank, b), member, rank, between, OneRow(c, member, rank, between),
                       RemapResult(0, 0, [ById(cat.Live(b), c.requirement).Label()]))
    ensures SwitchStep(cat, OneRow(c, member, rank, between), member, rank, a, OneRow(c, member, rank, a),
                       RemapResult(0, 0, []))
  {
    ActiveOnOne(c, member, Ids(cat.Live(b)));
    ActiveOnOne(c, member, Ids(cat.Live(between)));
    NoCounterpart(cat.Live(b), cat.Live(between), c);
    OnlyUnmatched(cat, member, rank, b, between, c);
    NothingActive(cat, member, rank, between, a, c);
  }

  lemma ThreeMore(states: seq<Ledger>, steps: seq<Step>, row: Completion, cat: Catalog, member: Id, rank: Id,
                  to: seq<Id>, results: seq<RemapResult>, a: Id, b: Id, ls: seq<Ledger>, rs: seq<RemapResult>)
    returns (longer: seq<Ledger>, more: seq<Step>)
    requires ThreeSwitches(cat, member, rank, a, b, ls, rs)
    requires PathTo(states, steps, row, cat, member, rank, to, results, ls[0])
    ensures PathTo(longer, more, row, cat, member, rank, to + [b] + [a] + [b], results + [rs[0]] + [rs[1]] + [rs[2]],
                   ls[3])
    ensures longer[1] == states[1]
  {
    longer, more := SwitchOnce(states, steps, row, cat, member, rank, to, results, ls[0], b, rs[0], ls[1]);
    longer, more := SwitchOnce(longer, more, row, cat, member, rank, to + [b], results + [rs[0]], ls[1], a, rs[1],
        ls[2]);
    longer, more := SwitchOnce(longer, more, row, cat, member, rank, to + [b] + [a], results + [rs[0]] + [rs[1]],
        ls[2], b, rs[2], ls[3]);
  }

  lemma FiveSwitches(between: Id, a: Id, b: Id, first: seq<RemapResult>, rs: seq<RemapResult>)
    requires |first| == 2 && |rs| == 3
    ensures [between, a] + [b] + [a] + [b] == [between, a, b, a, b]
    ensures var all := first + [rs[0]] + [rs[1]] + [rs[2]]; |all| == 5 && all[4] == rs[2]
  {
  }

  /**
   * A run from nothing in which the third switch copies, whenever a key of A is repeated in B: a first
   * report on B, switches through a version that shares no key with B to A, then to B, A and B.
   */
  lemma RepeatedKeyRun(cat: Catalog, member: Id, rank: Id, a: Id, b: Id, between: Id)
    returns (states: seq<Ledger>, steps: seq<Step>, results: seq<RemapResult>, row: Completion, end: Ledger)
    requires SeparateSets(cat, a, b) && !SharedKeysUnique(cat.Live(a), cat.Live(b))
    requires between != a && between != b && Ids(cat.Live(between)) !! Ids(cat.Live(b))
    requires NoSharedKey(cat.Live(b), cat.Live(between))
    ensures PathTo(states, steps, row, cat, member, rank, [between, a, b, a, b], results, end)
    ensures row.requirement in Ids(cat.Live(b)) && states[1] == OneRow(row, member, rank, b)
    ensures |results| == 5 && results[4].remapped == 1
  {
    var ls, rs, c := RepeatedKeyCopiesAgain(cat, member, rank, a, b);
    row, end := c, ls[3];
    states, steps, results := FromBToA(cat, member, rank, a, b, between, c);
    FiveSwitches(between, a, b, results, rs);
    states, steps := ThreeMore(states, steps, c, cat, member, rank, [between, a], results, a, b, ls, rs);
    results := results + [rs[0]] + [rs[1]] + [rs[2]];
  }
}
