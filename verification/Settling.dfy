/**
 * Deriving a rank's earned date and then re-running the credits, as every completion write does
 * (backend/app/routers/advancement.py:112-136): when nothing is left to derive or to credit.
 */
module Settling {
  import opened Records
  import opened Metrics
  import opened Completeness
  import opened AutoCredit

  function ApprovedOn(cat: Catalog, l: Ledger, member: Id, setId: Id): seq<Completion> {
    ActiveOn(l.completions, member, LeafIds(cat.Live(setId)))
  }

  ghost predicate IsComplete(cat: Catalog, l: Ledger, member: Id, setId: Id) {
    RankComplete(cat.Live(setId), ApprovedIds(ApprovedOn(cat, l, member, setId)))
  }

  ghost predicate IsLatest(rows: seq<Completion>, earned: Option<Date>) {
    earned.Some? && LatestApproved(rows, earned.value)
  }

  /** A complete rank has the date of its latest approved row. */
  ghost predicate DateSettled(cat: Catalog, l: Ledger, member: Id, rank: Id)
    requires (member, rank) in l.progress
  {
    var p := l.progress[(member, rank)];
    IsComplete(cat, l, member, p.electedSet) ==> IsLatest(ApprovedOn(cat, l, member, p.electedSet), p.earned)
  }

  /** Then, and only then, deriving it again reports no change. */
  lemma SettledIffNoChange(cat: Catalog, l: Ledger, member: Id, rank: Id)
    requires (member, rank) in l.progress
    ensures DateSettled(cat, l, member, rank) <==> DeriveStep(cat, l, member, rank, l, false)
  {
    var p := l.progress[(member, rank)];
    if p.earned.Some? {
      assert l.progress == l.progress[(member, rank) := p.(earned := Some(p.earned.value))];
    }
  }

  ghost predicate DatesSettled(cat: Catalog, l: Ledger, member: Id) {
    forall r :: (member, r) in l.progress ==> DateSettled(cat, l, member, r)
  }

  ghost predicate NothingToCredit(cat: Catalog, h: History, l: Ledger, member: Id, today: Date) {
    forall id :: Earns(cat, l.progress, member, h, id, today) ==> id in RowIds(l.completions, member)
  }

  /** The versions a member has elected share no requirement. */
  ghost predicate SeparateElections(cat: Catalog, progress: map<(Id, Id), Progress>, member: Id) {
    forall r, s :: (member, r) in progress && (member, s) in progress && r != s ==>
      Ids(cat.Live(progress[(member, r)].electedSet)) !! Ids(cat.Live(progress[(member, s)].electedSet))
  }

  /** One pass: a rank's date changes, and the credits are re-run. */
  ghost predicate Pass(cat: Catalog, h: History, member: Id, today: Date, rank: Id,
                       before: Ledger, derived: Ledger, after: Ledger, created: seq<Completion>)
  {
    && (member, rank) in before.progress && DeriveStep(cat, before, member, rank, derived, true)
    && CreditStep(cat, h, member, today, derived, after, created)
  }

  /** The rank got a row in this pass. */
  ghost predicate Credited(cat: Catalog, after: Ledger, member: Id, rank: Id, created: seq<Completion>)
    requires (member, rank) in after.progress
  {
    exists c :: c in created && c.requirement in Ids(cat.Live(after.progress[(member, rank)].electedSet))
  }

  /** The rank got a row in this pass, and is complete with it. */
  ghost predicate CreditedComplete(cat: Catalog, after: Ledger, member: Id, rank: Id, created: seq<Completion>)
    requires (member, rank) in after.progress
  {
    && Credited(cat, after, member, rank, created)
    && IsComplete(cat, after, member, after.progress[(member, rank)].electedSet)
  }

  // ---- rows of a rank that was not credited ----

  lemma {:induction false} ActiveOnAppend(a: seq<Completion>, b: seq<Completion>, member: Id, ids: set<Id>)
    requires forall c :: c in b ==> c.requirement !in ids
    ensures ActiveOn(a + b, member, ids) == ActiveOn(a, member, ids)
  {
    if b == [] {
      assert a + b == a;
    } else {
      var init, last := b[..|b| - 1], b[|b| - 1];
      ActiveOnAppend(a, init, member, ids);
      assert (a + b)[..|a + b| - 1] == a + init && (a + b)[|a + b| - 1] == last;
    }
  }

  lemma LeavesAreIds(reqs: seq<Requirement>)
    ensures LeafIds(reqs) <= Ids(reqs)
  {
  }

  lemma SameRows(cat: Catalog, derived: Ledger, after: Ledger, member: Id, setId: Id, created: seq<Completion>)
    requires after.completions == derived.completions + created
    requires forall c :: c in created ==> c.requirement !in Ids(cat.Live(setId))
    ensures ApprovedOn(cat, after, member, setId) == ApprovedOn(cat, derived, member, setId)
  {
    LeavesAreIds(cat.Live(setId));
    ActiveOnAppend(derived.completions, created, member, LeafIds(cat.Live(setId)));
  }

  lemma QualifyingIsListed(cat: Catalog, h: History, member: Id, today: Date, p0: map<(Id, Id), Progress>,
                           p1: map<(Id, Id), Progress>, rank: Rank, req: Requirement)
    requires ElectionsKept(cat, member, p0, p1) && (member, rank.id) in p1
    requires Qualifies(cat, p0, member, h, rank, req, today)
    ensures !Earned(p0, member, rank.id) && req.id in Ids(cat.Live(p1[(member, rank.id)].electedSet))
  {
    assert ElectedSet(cat, p0, member, rank.id) == Some(p1[(member, rank.id)].electedSet);
  }

  /** Every created row lands on a rank that was not earned. */
  lemma CreditedRank(cat: Catalog, h: History, member: Id, today: Date, derived: Ledger, after: Ledger, id: Id)
    returns (rank: Id)
    requires ElectionsKept(cat, member, derived.progress, after.progress)
    requires CreditedUnder(cat, derived, after, member, h, id, today)
    ensures (member, rank) in after.progress && !Earned(derived.progress, member, rank)
    ensures id in Ids(cat.Live(after.progress[(member, rank)].electedSet))
  {
    var rk, rq :| rk in cat.ranks && Qualifies(cat, derived.progress, member, h, rk, rq, today) &&
                  rq.id == id && (member, rk.id) in after.progress;
    QualifyingIsListed(cat, h, member, today, derived.progress, after.progress, rk, rq);
    rank := rk.id;
  }

  lemma EarnedIsNotCredited(cat: Catalog, h: History, member: Id, today: Date, derived: Ledger, after: Ledger,
                            created: seq<Completion>, rank: Id)
    requires CreditStep(cat, h, member, today, derived, after, created)
    requires SeparateElections(cat, after.progress, member)
    requires (member, rank) in after.progress && Earned(derived.progress, member, rank)
    ensures !Credited(cat, after, member, rank, created)
  {
    if c :| c in created && c.requirement in Ids(cat.Live(after.progress[(member, rank)].electedSet)) {
      var other := CreditedRank(cat, h, member, today, derived, after, c.requirement);
    }
  }

  /** A progress row that a run creates is for a rank it credits. */
  lemma NewRankIsCredited(cat: Catalog, h: History, member: Id, today: Date, derived: Ledger, after: Ledger,
                          created: seq<Completion>, rank: Id)
    requires ElectionsKept(cat, member, derived.progress, after.progress)
    requires CreditsRank(cat, derived, created, member, h, rank, today) && (member, rank) in after.progress
    ensures Credited(cat, after, member, rank, created)
  {
    var c, rk, rq :| c in created && rk in cat.ranks && rk.id == rank &&
                     Qualifies(cat, derived.progress, member, h, rk, rq, today) && rq.id == c.requirement;
    QualifyingIsListed(cat, h, member, today, derived.progress, after.progress, rk, rq);
  }

  // ---- dates that stay settled ----

  lemma DerivedIsSettled(cat: Catalog, before: Ledger, derived: Ledger, member: Id, rank: Id)
    requires (member, rank) in before.progress && DeriveStep(cat, before, member, rank, derived, true)
    ensures (member, rank) in derived.progress && Earned(derived.progress, member, rank)
    ensures DateSettled(cat, derived, member, rank)
  {
    var p := before.progress[(member, rank)];
    var d: Date :| LatestApproved(ApprovedOn(cat, before, member, p.electedSet), d) &&
                   derived.progress == before.progress[(member, rank) := p.(earned := Some(d))];
  }

  lemma OthersStaySettled(cat: Catalog, before: Ledger, derived: Ledger, member: Id, rank: Id, other: Id)
    requires (member, rank) in before.progress && DeriveStep(cat, before, member, rank, derived, true)
    requires other != rank && (member, other) in derived.progress
    requires (member, other) in before.progress ==> DateSettled(cat, before, member, other)
    ensures DateSettled(cat, derived, member, other)
  {
    var p := before.progress[(member, rank)];
    var d: Date :| derived.progress == before.progress[(member, rank) := p.(earned := Some(d))];
  }

  lemma SettledAfterDerive(cat: Catalog, before: Ledger, derived: Ledger, member: Id, rank: Id, r: Id)
    requires (member, rank) in before.progress && DeriveStep(cat, before, member, rank, derived, true)
    requires (member, r) in derived.progress
    requires (member, r) in before.progress && r != rank ==> DateSettled(cat, before, member, r)
    ensures DateSettled(cat, derived, member, r)
  {
    if r == rank {
      DerivedIsSettled(cat, before, derived, member, rank);
    } else {
      OthersStaySettled(cat, before, derived, member, rank, r);
    }
  }

  lemma CreditStepParts(cat: Catalog, h: History, member: Id, today: Date, derived: Ledger, after: Ledger,
                        created: seq<Completion>, rank: Id)
    requires CreditStep(cat, h, member, today, derived, after, created)
    requires SeparateElections(cat, after.progress, member) && (member, rank) in after.progress
    ensures after.completions == derived.completions + created
    ensures (member, rank) in derived.progress ==>
              after.progress[(member, rank)] == derived.progress[(member, rank)]
    ensures (member, rank) !in derived.progress ==>
              Credited(cat, after, member, rank, created) && after.progress[(member, rank)].earned == None
    ensures Earned(derived.progress, member, rank) ==> !Credited(cat, after, member, rank, created)
  {
    if (member, rank) !in derived.progress {
      NewRankIsCredited(cat, h, member, today, derived, after, created, rank);
    } else if Earned(derived.progress, member, rank) {
      EarnedIsNotCredited(cat, h, member, today, derived, after, created, rank);
    }
  }

  /**
   * A credited rank has no date yet, so its date is settled just when the rank is not complete; any other
   * rank keeps its rows and its date.
   */
  lemma RankSettledIff(cat: Catalog, member: Id, derived: Ledger, after: Ledger, created: seq<Completion>, rank: Id)
    requires (member, rank) in after.progress && after.completions == derived.completions + created
    requires (member, rank) in derived.progress ==>
               && after.progress[(member, rank)] == derived.progress[(member, rank)]
               && DateSettled(cat, derived, member, rank)
               && (Earned(derived.progress, member, rank) ==> !Credited(cat, after, member, rank, created))
    requires (member, rank) !in derived.progress ==>
               Credited(cat, after, member, rank, created) && after.progress[(member, rank)].earned == None
    ensures DateSettled(cat, after, member, rank) <==> !CreditedComplete(cat, after, member, rank, created)
  {
    if !Credited(cat, after, member, rank, created) {
      SameRows(cat, derived, after, member, after.progress[(member, rank)].electedSet, created);
    }
  }

  /**
   * With every other rank's date settled before, one pass leaves nothing to derive and nothing to credit
   * exactly when none of the ranks it credited is complete now.
   */
  lemma PassSettlesIff(cat: Catalog, h: History, member: Id, today: Date, rank: Id, before: Ledger, derived: Ledger,
                       after: Ledger, created: seq<Completion>)
    requires Pass(cat, h, member, today, rank, before, derived, after, created)
    requires SeparateElections(cat, after.progress, member)
    requires forall r :: (member, r) in before.progress && r != rank ==> DateSettled(cat, before, member, r)
    ensures NothingToCredit(cat, h, after, member, today)
    ensures DatesSettled(cat, after, member) <==>
            forall r :: (member, r) in after.progress ==> !CreditedComplete(cat, after, member, r, created)
  {
    NothingLeftToCredit(cat, h, member, today, derived, after, created);
    AllSettledAfterDerive(cat, before, derived, member, rank);
    forall r | (member, r) in after.progress
      ensures DateSettled(cat, after, member, r) <==> !CreditedComplete(cat, after, member, r, created)
    {
      CreditStepParts(cat, h, member, today, derived, after, created, r);
      RankSettledIff(cat, member, derived, after, created, r);
    }
  }

  lemma AllSettledAfterDerive(cat: Catalog, before: Ledger, derived: Ledger, member: Id, rank: Id)
    requires (member, rank) in before.progress && DeriveStep(cat, before, member, rank, derived, true)
    requires forall r :: (member, r) in before.progress && r != rank ==> DateSettled(cat, before, member, r)
    ensures DatesSettled(cat, derived, member)
  {
    forall r | (member, r) in derived.progress
      ensures DateSettled(cat, derived, member, r)
    {
      SettledAfterDerive(cat, before, derived, member, rank, r);
    }
  }

  lemma NothingLeftToCredit(cat: Catalog, h: History, member: Id, today: Date, derived: Ledger, after: Ledger,
                            created: seq<Completion>)
    requires CreditStep(cat, h, member, today, derived, after, created)
    ensures NothingToCredit(cat, h, after, member, today)
  {
    forall id | Earns(cat, after.progress, member, h, id, today)
      ensures id in RowIds(after.completions, member)
    {
      EarnedHasRow(cat, h, member, today, derived, after, created, id);
    }
  }

  // ---- repeated passes ----

  function Unearned(ranks: set<Id>, progress: map<(Id, Id), Progress>, member: Id): set<Id> {
    set r | r in ranks && !Earned(progress, member, r)
  }

  /** A pass for a rank without a date; `ledgers` are the states between passes. */
  ghost predicate FirstDates(cat: Catalog, h: History, member: Id, today: Date, ledgers: seq<Ledger>, ranks: seq<Id>) {
    && |ledgers| == |ranks| + 1
    && forall i :: 0 <= i < |ranks| ==>
         && !Earned(ledgers[i].progress, member, ranks[i])
         && Passes(cat, h, member, today, ranks[i], ledgers[i], ledgers[i + 1])
  }

  ghost predicate Passes(cat: Catalog, h: History, member: Id, today: Date, rank: Id, before: Ledger, after: Ledger) {
    exists derived, created :: Pass(cat, h, member, today, rank, before, derived, after, created)
  }

  lemma DeriveEarns(cat: Catalog, before: Ledger, derived: Ledger, member: Id, rank: Id, r: Id)
    requires (member, rank) in before.progress && DeriveStep(cat, before, member, rank, derived, true)
    ensures Earned(derived.progress, member, r) <==> Earned(before.progress, member, r) || r == rank
  {
    DerivedIsSettled(cat, before, derived, member, rank);
    var p := before.progress[(member, rank)];
    var d: Date :| derived.progress == before.progress[(member, rank) := p.(earned := Some(d))];
  }

  lemma CreditEarnsNothing(cat: Catalog, member: Id, p0: map<(Id, Id), Progress>, p1: map<(Id, Id), Progress>, r: Id)
    requires ElectionsKept(cat, member, p0, p1)
    ensures Earned(p1, member, r) <==> Earned(p0, member, r)
  {
  }

  lemma PassEarns(cat: Catalog, h: History, member: Id, today: Date, rank: Id, before: Ledger, after: Ledger, r: Id)
    requires Passes(cat, h, member, today, rank, before, after)
    ensures Earned(after.progress, member, r) <==> Earned(before.progress, member, r) || r == rank
  {
    var derived, created :| Pass(cat, h, member, today, rank, before, derived, after, created);
    DeriveEarns(cat, before, derived, member, rank, r);
    CreditEarnsNothing(cat, member, derived.progress, after.progress, r);
  }

  lemma OneFewer(cat: Catalog, h: History, member: Id, today: Date, rank: Id, before: Ledger, after: Ledger,
                 all: set<Id>)
    requires Passes(cat, h, member, today, rank, before, after)
    requires !Earned(before.progress, member, rank) && rank in all
    ensures |Unearned(all, after.progress, member)| == |Unearned(all, before.progress, member)| - 1
  {
    var was, now := Unearned(all, before.progress, member), Unearned(all, after.progress, member);
    forall r
      ensures r in now <==> r in was && r != rank
    {
      PassEarns(cat, h, member, today, rank, before, after, r);
    }
    assert now == was - {rank};
  }

  /** However the credits cascade, at most as many passes as there are ranks without a date. */
  lemma {:induction false} CascadeIsBounded(cat: Catalog, h: History, member: Id, today: Date,
                                            ledgers: seq<Ledger>, ranks: seq<Id>, all: set<Id>)
    requires FirstDates(cat, h, member, today, ledgers, ranks) && forall r :: r in ranks ==> r in all
    ensures |ranks| <= |Unearned(all, ledgers[0].progress, member)|
  {
    if ranks != [] {
      OneFewer(cat, h, member, today, ranks[0], ledgers[0], ledgers[1], all);
      CascadeIsBounded(cat, h, member, today, ledgers[1..], ranks[1..], all);
    }
  }
}
