/** The operations that write a member's advancement rows (backend/app/core/advancement.py). */
module Advancement {
  import opened Records
  import opened Metrics
  import opened Completeness
  import opened Election
  import opened Remapping
  import opened AutoCredit

  class AdvancementSession {
    const cat: Catalog
    var completions: seq<Completion>
    var progress: map<(Id, Id), Progress>

    ghost function State(): Ledger
      reads this
    {
      Ledger(completions, progress)
    }

    constructor (cat: Catalog, completions: seq<Completion>, progress: map<(Id, Id), Progress>)
      ensures this.cat == cat && State() == Ledger(completions, progress)
    {
      this.cat := cat;
      this.completions := completions;
      this.progress := progress;
    }

    /** Moves the election and copies what has a counterpart; see SwitchStep for the whole effect. */
    method SwitchElection(member: Id, rank: Id, newSet: Id) returns (result: RemapResult)
      requires (member, rank) in progress
      modifies this
      ensures SwitchStep(cat, old(State()), member, rank, newSet, State(), result)
    {
      var p := progress[(member, rank)];
      if newSet == p.electedSet {
        return RemapResult(0, 0, []);
      }
      var was, next := cat.Live(p.electedSet), cat.Live(newSet);
      var rows := completions;
      var sources := ActiveOn(rows, member, Ids(was));
      var existingNew := set c | c in rows && c.member == member && c.requirement in Ids(next) :: c.requirement;
      assert AllOn(sources, was) by {
        assert forall i :: 0 <= i < |sources| ==> sources[i] in sources;
      }
      result := CopyMatching(sources, was, next, existingNew);
      progress := progress[(member, rank) := p.(electedSet := newSet)];
      SwitchFinished(cat, old(State()), member, rank, newSet, State(), existingNew);
    }

    /** The copying loop of a switch; `existing` holds the targets that already have a row. */
    method CopyMatching(sources: seq<Completion>, was: seq<Requirement>, next: seq<Requirement>, existing: set<Id>)
      returns (result: RemapResult)
      requires AllOn(sources, was)
      modifies this`completions
      ensures completions == old(completions) + RemapAll(sources, was, next, existing).0
      ensures result == RemapAll(sources, was, next, existing).1
    {
      var newByKey := IndexByKey(next);
      var existingNew := existing;
      result := RemapResult(0, 0, []);
      ghost var copies: seq<Completion> := [];
      for i := 0 to |sources|
        invariant completions == old(completions) + copies
        invariant (copies, result, existingNew) == RemapAll(sources[..i], was, next, existing)
      {
        var c := sources[i];
        assert sources[..i + 1][..i] == sources[..i];
        var r := ById(was, c.requirement);
        var target := if r.Keyed() && r.stableKey.value in newByKey then Some(newByKey[r.stableKey.value]) else None;
        if target.None? {
          result := result.(unmatched := result.unmatched + [r.Label()]);
        } else if target.value.id in existingNew {
          result := result.(skippedExisting := result.skippedExisting + 1);
        } else {
          var copy := Completion(c.member, target.value.id, c.date, c.status, c.reportedBy, c.approvedBy,
              c.approvedAt, Remap, c.note, false);
          completions := completions + [copy];
          copies := copies + [copy];
          existingNew := existingNew + {target.value.id};
          result := result.(remapped := result.remapped + 1);
        }
      }
      assert sources[..|sources|] == sources;
    }

    /** Records a completion for every earned requirement without a row; see CreditStep. */
    method ApplyAutoCredits(member: Id, h: History, today: Date) returns (created: seq<Completion>)
      modifies this
      ensures CreditStep(cat, h, member, today, old(State()), State(), created)
    {
      var metrics := ComputeMemberMetrics(h, today);
      ghost var before := State();
      var blocked := RowIds(completions, member);
      created := [];
      for i := 0 to |cat.ranks|
        invariant CreditedSoFar(cat, h, member, today, before, State(), created)
        invariant blocked == RowIds(before.completions, member) + RowIds(created, member)
        invariant forall k :: 0 <= k < i ==> RankDone(cat, before, member, h, cat.ranks[k], blocked, today)
      {
        var rank := cat.ranks[i];
        var elected := ElectedSet(cat, progress, member, rank.id);
        if Earned(progress, member, rank.id) || elected.None? {
          RankHasNothing(cat, before, State(), created, member, h, rank, blocked, today);
          continue;
        }
        created, blocked := CreditRank(member, h, metrics, rank, elected.value, created, blocked, before);
      }
      CreditFinished(cat, h, member, today, before, State(), created, blocked);
    }

    /** The inner loop of a run: the requirements of one unearned rank's set. */
    method CreditRank(member: Id, h: History, metrics: MemberMetrics, rank: Rank, elected: Id,
                      created0: seq<Completion>, blocked0: set<Id>, ghost before: Ledger)
      returns (created: seq<Completion>, blocked: set<Id>)
      requires metrics == MetricsOn(h, metrics.today) && rank in cat.ranks
      requires !Earned(progress, member, rank.id) && ElectedSet(cat, progress, member, rank.id) == Some(elected)
      requires CreditedSoFar(cat, h, member, metrics.today, before, State(), created0)
      requires blocked0 == RowIds(before.completions, member) + RowIds(created0, member)
      modifies this
      ensures CreditedSoFar(cat, h, member, metrics.today, before, State(), created)
      ensures blocked == RowIds(before.completions, member) + RowIds(created, member) && blocked0 <= blocked
      ensures RankDone(cat, before, member, h, rank, blocked, metrics.today)
    {
      created, blocked := created0, blocked0;
      var reqs := cat.Live(elected);
      var leaves := LeafIds(reqs);
      for j := 0 to |reqs|
        invariant CreditedSoFar(cat, h, member, metrics.today, before, State(), created)
        invariant blocked == RowIds(before.completions, member) + RowIds(created, member) && blocked0 <= blocked
        invariant !Earned(progress, member, rank.id) && ElectedSet(cat, progress, member, rank.id) == Some(elected)
        invariant forall k :: 0 <= k < j ==>
            RequirementDone(cat, before, member, h, rank, reqs[k], blocked, metrics.today)
      {
        created, blocked := CreditRequirement(member, h, metrics, rank, elected, leaves, reqs[j], created, blocked,
            before);
      }
      RankFinished(cat, before, State(), created, member, h, rank, reqs, blocked, metrics.today);
    }

    /** The body of the inner loop: one requirement is skipped or credited. */
    method CreditRequirement(member: Id, h: History, metrics: MemberMetrics, rank: Rank, elected: Id,
                             leaves: set<Id>, req: Requirement,
                             created0: seq<Completion>, blocked0: set<Id>, ghost before: Ledger)
      returns (created: seq<Completion>, blocked: set<Id>)
      requires metrics == MetricsOn(h, metrics.today) && rank in cat.ranks
      requires leaves == LeafIds(cat.Live(elected)) && req in cat.Live(elected)
      requires !Earned(progress, member, rank.id) && ElectedSet(cat, progress, member, rank.id) == Some(elected)
      requires CreditedSoFar(cat, h, member, metrics.today, before, State(), created0)
      requires blocked0 == RowIds(before.completions, member) + RowIds(created0, member)
      modifies this
      ensures CreditedSoFar(cat, h, member, metrics.today, before, State(), created)
      ensures blocked == RowIds(before.completions, member) + RowIds(created, member) && blocked0 <= blocked
      ensures !Earned(progress, member, rank.id) && ElectedSet(cat, progress, member, rank.id) == Some(elected)
      ensures RequirementDone(cat, before, member, h, rank, req, blocked, metrics.today)
    {
      created, blocked := created0, blocked0;
      if !req.autoCredit || req.metrics.None? || req.metrics.value == [] || req.id !in leaves || req.id in blocked {
        RequirementSkipped(cat, before, State(), created, member, h, rank, req, blocked, metrics.today);
        return;
      }
      var x := ContextOf(cat, progress, member, rank, h);
      var conditions := EvaluateRequirementMetrics(x, req.metrics.value, metrics);
      var met := forall k :: 0 <= k < |conditions| ==> conditions[k].met;
      AllMetIffEach(x, req.metrics.value, metrics.today, conditions);
      if !met {
        RequirementSkipped(cat, before, State(), created, member, h, rank, req, blocked, metrics.today);
        return;
      }
      created, blocked := RecordCredit(member, h, metrics.today, rank, elected, req, created, blocked, before);
    }

    /** A first credit creates the rank's progress row; every credit is an approved row dated today. */
    method RecordCredit(member: Id, ghost h: History, today: Date, rank: Rank, elected: Id, req: Requirement,
                        created0: seq<Completion>, blocked0: set<Id>, ghost before: Ledger)
      returns (created: seq<Completion>, blocked: set<Id>)
      requires rank in cat.ranks && Qualifies(cat, progress, member, h, rank, req, today) && req.id !in blocked0
      requires !Earned(progress, member, rank.id) && ElectedSet(cat, progress, member, rank.id) == Some(elected)
      requires CreditedSoFar(cat, h, member, today, before, State(), created0)
      requires blocked0 == RowIds(before.completions, member) + RowIds(created0, member)
      modifies this
      ensures CreditedSoFar(cat, h, member, today, before, State(), created)
      ensures blocked == RowIds(before.completions, member) + RowIds(created, member) && blocked == blocked0 + {req.id}
      ensures !Earned(progress, member, rank.id) && ElectedSet(cat, progress, member, rank.id) == Some(elected)
    {
      CreditRecorded(cat, h, member, today, before, State(), created0, rank, req, elected, blocked0);
      var completion := WriteCredit(member, today, rank.id, elected, req.id);
      blocked := blocked0 + {req.id};
      created := created0 + [completion];
    }

    method WriteCredit(member: Id, today: Date, rank: Id, elected: Id, requirement: Id) returns (completion: Completion)
      modifies this
      ensures completion == AutoRow(member, requirement, today)
      ensures State() == WithCredit(old(State()), member, today, rank, elected, requirement)
    {
      if (member, rank) !in progress {
        progress := progress[(member, rank) := Progress(elected, None)];
      }
      completion := Completion(member, requirement, today, Approved, None, None, None, Auto, None, false);
      completions := completions + [completion];
    }

    /** Sets the board-of-review date of a complete rank; see DeriveStep. */
    method DeriveEarnedDate(member: Id, rank: Id) returns (changed: bool)
      requires (member, rank) in progress
      modifies this
      ensures DeriveStep(cat, old(State()), member, rank, State(), changed)
    {
      var p := progress[(member, rank)];
      var reqs := cat.Live(p.electedSet);
      var rows := ActiveOn(completions, member, LeafIds(reqs));
      var complete := DeriveCompletionMap(reqs, rows);
      MapDecidesRank(reqs, ApprovedIds(rows), complete);
      if !RankIsComplete(reqs, complete) {
        return false;
      }
      CompleteRankHasApproval(reqs, rows);
      var earned := LatestApprovedDate(rows);
      if p.earned == Some(earned) {
        assert progress == progress[(member, rank) := p.(earned := Some(earned))];
        return false;
      }
      progress := progress[(member, rank) := p.(earned := Some(earned))];
      return true;
    }
  }

  // ---- switching ----

  /** The requirements of a set by stable key; a repeated key keeps the last. */
  method IndexByKey(reqs: seq<Requirement>) returns (byKey: map<string, Requirement>)
    ensures forall k :: k in byKey <==> Counterpart(reqs, k).Some?
    ensures forall k :: k in byKey ==> byKey[k] == Counterpart(reqs, k).value
  {
    byKey := map[];
    for i := 0 to |reqs|
      invariant forall k :: k in byKey <==> Counterpart(reqs[..i], k).Some?
      invariant forall k :: k in byKey ==> byKey[k] == Counterpart(reqs[..i], k).value
    {
      assert reqs[..i + 1][..i] == reqs[..i];
      if reqs[i].Keyed() {
        byKey := byKey[reqs[i].stableKey.value := reqs[i]];
      }
    }
    assert reqs[..|reqs|] == reqs;
  }

  /** The folded copies, result and blocked set meet the declared effect of a switch. */
  lemma SwitchFinished(cat: Catalog, before: Ledger, member: Id, rank: Id, newSet: Id, after: Ledger, blocked: set<Id>)
    requires (member, rank) in before.progress && newSet != before.progress[(member, rank)].electedSet
    requires blocked == set c | c in before.completions && c.member == member &&
                                c.requirement in Ids(cat.Live(newSet)) :: c.requirement
    requires var p := before.progress[(member, rank)];
             var was := cat.Live(p.electedSet);
             var sources := ActiveOn(before.completions, member, Ids(was));
             && AllOn(sources, was)
             && after.completions == before.completions + RemapAll(sources, was, cat.Live(newSet), blocked).0
             && after.progress == before.progress[(member, rank) := p.(electedSet := newSet)]
    ensures var was := cat.Live(before.progress[(member, rank)].electedSet);
            SwitchStep(cat, before, member, rank, newSet, after,
                       RemapAll(ActiveOn(before.completions, member, Ids(was)), was, cat.Live(newSet), blocked).1)
  {
    var was, next := cat.Live(before.progress[(member, rank)].electedSet), cat.Live(newSet);
    var sources := ActiveOn(before.completions, member, Ids(was));
    RemapAllRemaps(sources, was, next, RowIds(before.completions, member), blocked);
    assert after.completions[|before.completions|..] == RemapAll(sources, was, next, blocked).0;
  }

  // ---- the auto-credit loop ----

  ghost predicate RequirementDone(cat: Catalog, before: Ledger, member: Id, h: History, rank: Rank, req: Requirement,
                                  blocked: set<Id>, today: Date)
  {
    Qualifies(cat, before.progress, member, h, rank, req, today) ==> req.id in blocked
  }

  ghost predicate RankDone(cat: Catalog, before: Ledger, member: Id, h: History, rank: Rank, blocked: set<Id>,
                           today: Date)
  {
    forall req :: Qualifies(cat, before.progress, member, h, rank, req, today) ==> req.id in blocked
  }

  lemma AllMetIffEach(x: Context, conditions: seq<Condition>, today: Date, results: seq<ConditionProgress>)
    requires |results| == |conditions|
    requires forall i :: 0 <= i < |conditions| ==> Evaluates(x, conditions[i], today, results[i])
    ensures AllMet(x, conditions, today) <==> forall i :: 0 <= i < |results| ==> results[i].met
  {
    assert forall i :: 0 <= i < |conditions| ==>
        conditions[i] in conditions && Evaluates(x, conditions[i], today, results[i]);
  }

  lemma RankHasNothing(cat: Catalog, before: Ledger, now: Ledger, created: seq<Completion>, member: Id, h: History,
                       rank: Rank, blocked: set<Id>, today: Date)
    requires CreditedSoFar(cat, h, member, today, before, now, created)
    requires Earned(now.progress, member, rank.id) || ElectedSet(cat, now.progress, member, rank.id).None?
    ensures RankDone(cat, before, member, h, rank, blocked, today)
  {
    forall req
      ensures !Qualifies(cat, before.progress, member, h, rank, req, today)
    {
      KeptSameQualifies(cat, member, before.progress, now.progress, h, rank, req, today);
    }
  }

  lemma RequirementSkipped(cat: Catalog, before: Ledger, now: Ledger, created: seq<Completion>, member: Id,
                           h: History, rank: Rank, req: Requirement, blocked: set<Id>, today: Date)
    requires CreditedSoFar(cat, h, member, today, before, now, created)
    requires !Qualifies(cat, now.progress, member, h, rank, req, today) || req.id in blocked
    ensures RequirementDone(cat, before, member, h, rank, req, blocked, today)
  {
    KeptSameQualifies(cat, member, before.progress, now.progress, h, rank, req, today);
  }

  lemma RankFinished(cat: Catalog, before: Ledger, now: Ledger, created: seq<Completion>, member: Id, h: History,
                     rank: Rank, reqs: seq<Requirement>, blocked: set<Id>, today: Date)
    requires CreditedSoFar(cat, h, member, today, before, now, created)
    requires ElectedSet(cat, now.progress, member, rank.id).Some?
    requires reqs == cat.Live(ElectedSet(cat, now.progress, member, rank.id).value)
    requires forall k :: 0 <= k < |reqs| ==> RequirementDone(cat, before, member, h, rank, reqs[k], blocked, today)
    ensures RankDone(cat, before, member, h, rank, blocked, today)
  {
    forall req | Qualifies(cat, before.progress, member, h, rank, req, today)
      ensures req.id in blocked
    {
      KeptSameQualifies(cat, member, before.progress, now.progress, h, rank, req, today);
      var k :| 0 <= k < |reqs| && reqs[k] == req;
      assert RequirementDone(cat, before, member, h, rank, reqs[k], blocked, today);
    }
  }

  /** What crediting a requirement under `rank` does to the progress rows. */
  ghost predicate AddsProgress(cat: Catalog, member: Id, rank: Id, p0: map<(Id, Id), Progress>,
                               p1: map<(Id, Id), Progress>)
  {
    && ElectedSet(cat, p0, member, rank).Some?
    && p1 == if (member, rank) in p0 then p0
             else p0[(member, rank) := Progress(ElectedSet(cat, p0, member, rank).value, None)]
  }

  lemma AddedProgressKeeps(cat: Catalog, member: Id, rank: Id, p0: map<(Id, Id), Progress>, p1: map<(Id, Id), Progress>)
    requires AddsProgress(cat, member, rank, p0, p1)
    ensures ElectionsKept(cat, member, p0, p1) && (member, rank) in p1
    ensures forall k :: k in p1 && k !in p0 ==> k == (member, rank)
    ensures forall r :: Earned(p1, member, r) == Earned(p0, member, r)
    ensures forall r :: ElectedSet(cat, p1, member, r) == ElectedSet(cat, p0, member, r)
  {
  }

  lemma NewRow(rows: seq<Completion>, member: Id, today: Date, created: seq<Completion>, id: Id)
    requires NewAutoRows(rows, member, today, created)
    requires id !in RowIds(created, member) && id !in RowIds(rows, member)
    ensures NewAutoRows(rows, member, today, created + [AutoRow(member, id, today)])
    ensures RowIds(created + [AutoRow(member, id, today)], member) == RowIds(created, member) + {id}
  {
    var row := AutoRow(member, id, today);
    AppendedRows(created, [row], member);
    assert row in [row];
    assert forall i :: 0 <= i < |created| ==> created[i] in created;
  }

  lemma CreditedUnderKept(cat: Catalog, before: Ledger, mid: Ledger, now: Ledger, member: Id, h: History, id: Id,
                          today: Date)
    requires CreditedUnder(cat, before, mid, member, h, id, today)
    requires forall k :: k in mid.progress ==> k in now.progress
    ensures CreditedUnder(cat, before, now, member, h, id, today)
  {
    var rk, rq :| rk in cat.ranks && Qualifies(cat, before.progress, member, h, rk, rq, today) && rq.id == id
        && (member, rk.id) in mid.progress;
  }

  lemma CreditsRankKept(cat: Catalog, before: Ledger, created: seq<Completion>, more: seq<Completion>, member: Id,
                        h: History, rankId: Id, today: Date)
    requires CreditsRank(cat, before, created, member, h, rankId, today)
    requires forall c :: c in created ==> c in more
    ensures CreditsRank(cat, before, more, member, h, rankId, today)
  {
    var c, rk, rq :| c in created && rk in cat.ranks && rk.id == rankId
      && Qualifies(cat, before.progress, member, h, rk, rq, today) && rq.id == c.requirement;
    assert c in more;
  }

  lemma EachCreditedUnder(cat: Catalog, h: History, member: Id, today: Date, before: Ledger, mid: Ledger, now: Ledger,
                          created: seq<Completion>, rank: Rank, req: Requirement)
    requires ElectionsKept(cat, member, before.progress, mid.progress)
    requires RowsEarned(cat, h, member, today, before, mid, created)
    requires rank in cat.ranks && Qualifies(cat, mid.progress, member, h, rank, req, today)
    requires (member, rank.id) in now.progress && forall k :: k in mid.progress ==> k in now.progress
    ensures RowsEarned(cat, h, member, today, before, now, created + [AutoRow(member, req.id, today)])
  {
    KeptSameQualifies(cat, member, before.progress, mid.progress, h, rank, req, today);
    assert CreditedUnder(cat, before, now, member, h, req.id, today);
    forall c | c in created
      ensures CreditedUnder(cat, before, now, member, h, c.requirement, today)
    {
      CreditedUnderKept(cat, before, mid, now, member, h, c.requirement, today);
    }
  }

  lemma EachRankCredited(cat: Catalog, h: History, member: Id, today: Date, before: Ledger, mid: Ledger, now: Ledger,
                         created: seq<Completion>, rank: Rank, req: Requirement)
    requires ElectionsKept(cat, member, before.progress, mid.progress)
    requires RanksCredited(cat, h, member, today, before, mid, created)
    requires rank in cat.ranks && Qualifies(cat, mid.progress, member, h, rank, req, today)
    requires forall k :: k in now.progress && k !in mid.progress ==> k == (member, rank.id)
    ensures RanksCredited(cat, h, member, today, before, now, created + [AutoRow(member, req.id, today)])
  {
    var after := created + [AutoRow(member, req.id, today)];
    KeptSameQualifies(cat, member, before.progress, mid.progress, h, rank, req, today);
    assert AutoRow(member, req.id, today) in after;
    assert CreditsRank(cat, before, after, member, h, rank.id, today);
    forall k | k in now.progress && k !in before.progress && k in mid.progress
      ensures CreditsRank(cat, before, after, member, h, k.1, today)
    {
      CreditsRankKept(cat, before, created, after, member, h, k.1, today);
    }
  }

  lemma AppendCredit(before: seq<Completion>, created: seq<Completion>, row: Completion)
    ensures before + created + [row] == before + (created + [row])
  {
  }

  /** Crediting one qualifying requirement that has no row yet. */
  lemma CreditOne(cat: Catalog, h: History, member: Id, today: Date, before: Ledger, mid: Ledger, now: Ledger,
                  created: seq<Completion>, rank: Rank, req: Requirement)
    requires CreditedSoFar(cat, h, member, today, before, mid, created)
    requires rank in cat.ranks && Qualifies(cat, mid.progress, member, h, rank, req, today)
    requires req.id !in RowIds(before.completions, member) && req.id !in RowIds(created, member)
    requires now.completions == mid.completions + [AutoRow(member, req.id, today)]
    requires AddsProgress(cat, member, rank.id, mid.progress, now.progress)
    ensures CreditedSoFar(cat, h, member, today, before, now, created + [AutoRow(member, req.id, today)])
  {
    AppendCredit(before.completions, created, AutoRow(member, req.id, today));
    AddedProgressKeeps(cat, member, rank.id, mid.progress, now.progress);
    KeptTrans(cat, member, before.progress, mid.progress, now.progress);
    NewRow(before.completions, member, today, created, req.id);
    EachCreditedUnder(cat, h, member, today, before, mid, now, created, rank, req);
    EachRankCredited(cat, h, member, today, before, mid, now, created, rank, req);
  }

  ghost function WithCredit(l: Ledger, member: Id, today: Date, rank: Id, elected: Id, requirement: Id): Ledger {
    Ledger(l.completions + [AutoRow(member, requirement, today)],
           if (member, rank) in l.progress then l.progress else l.progress[(member, rank) := Progress(elected, None)])
  }

  lemma CreditElects(cat: Catalog, member: Id, rank: Id, elected: Id, l: Ledger, today: Date, requirement: Id)
    requires !Earned(l.progress, member, rank) && ElectedSet(cat, l.progress, member, rank) == Some(elected)
    ensures var after := WithCredit(l, member, today, rank, elected, requirement);
            && AddsProgress(cat, member, rank, l.progress, after.progress)
            && !Earned(after.progress, member, rank) && ElectedSet(cat, after.progress, member, rank) == Some(elected)
  {
  }

  lemma CreditRecorded(cat: Catalog, h: History, member: Id, today: Date, before: Ledger, mid: Ledger,
                       created: seq<Completion>, rank: Rank, req: Requirement, elected: Id, blocked: set<Id>)
    requires CreditedSoFar(cat, h, member, today, before, mid, created)
    requires rank in cat.ranks && Qualifies(cat, mid.progress, member, h, rank, req, today) && req.id !in blocked
    requires !Earned(mid.progress, member, rank.id) && ElectedSet(cat, mid.progress, member, rank.id) == Some(elected)
    requires blocked == RowIds(before.completions, member) + RowIds(created, member)
    ensures var now := WithCredit(mid, member, today, rank.id, elected, req.id);
            var more := created + [AutoRow(member, req.id, today)];
            && CreditedSoFar(cat, h, member, today, before, now, more)
            && blocked + {req.id} == RowIds(before.completions, member) + RowIds(more, member)
            && !Earned(now.progress, member, rank.id) && ElectedSet(cat, now.progress, member, rank.id) == Some(elected)
  {
    CreditElects(cat, member, rank.id, elected, mid, today, req.id);
    NewRow(before.completions, member, today, created, req.id);
    CreditOne(cat, h, member, today, before, mid, WithCredit(mid, member, today, rank.id, elected, req.id), created,
        rank, req);
  }

  lemma CreditFinished(cat: Catalog, h: History, member: Id, today: Date, before: Ledger, now: Ledger,
                       created: seq<Completion>, blocked: set<Id>)
    requires CreditedSoFar(cat, h, member, today, before, now, created)
    requires blocked == RowIds(before.completions, member) + RowIds(created, member)
    requires forall k :: 0 <= k < |cat.ranks| ==> RankDone(cat, before, member, h, cat.ranks[k], blocked, today)
    ensures CreditStep(cat, h, member, today, before, now, created)
  {
    AppendedRows(before.completions, created, member);
    forall id | Earns(cat, before.progress, member, h, id, today)
      ensures id in RowIds(now.completions, member)
    {
      var rank, req :| rank in cat.ranks && Qualifies(cat, before.progress, member, h, rank, req, today)
          && req.id == id;
      var k :| 0 <= k < |cat.ranks| && cat.ranks[k] == rank;
      assert RankDone(cat, before, member, h, cat.ranks[k], blocked, today);
    }
  }
}
