/** What an auto-credit run does to a member's rows (backend/app/core/advancement.py:451-622). */
module AutoCredit {
  import opened Records
  import opened Metrics
  import opened Completeness

  /** The set a rank accrues under: the elected one, or the default when nothing is elected yet. */
  function ElectedSet(cat: Catalog, progress: map<(Id, Id), Progress>, member: Id, rank: Id): Option<Id> {
    if (member, rank) in progress then Some(progress[(member, rank)].electedSet)
    else if rank in cat.latest then Some(cat.latest[rank])
    else None
  }

  predicate Earned(progress: map<(Id, Id), Progress>, member: Id, rank: Id) {
    (member, rank) in progress && progress[(member, rank)].earned.Some?
  }

  function ContextOf(cat: Catalog, progress: map<(Id, Id), Progress>, member: Id, rank: Rank, h: History): Context {
    Context(cat.ranks, progress, member, rank, h)
  }

  /** The requirement is an auto-credit leaf of the set, before looking at thresholds. */
  predicate Creditable(reqs: seq<Requirement>, req: Requirement) {
    req in reqs && req.autoCredit && req.metrics.Some? && req.metrics.value != [] && req.id in LeafIds(reqs)
  }

  ghost predicate AllMet(x: Context, conditions: seq<Condition>, today: Date) {
    forall c :: c in conditions ==> Met(x, c, today)
  }

  /** `req` counts towards an unearned rank's set, and all its conditions are met. */
  ghost predicate Qualifies(cat: Catalog, progress: map<(Id, Id), Progress>, member: Id, h: History, rank: Rank,
                            req: Requirement, today: Date)
  {
    && !Earned(progress, member, rank.id)
    && ElectedSet(cat, progress, member, rank.id).Some?
    && Creditable(cat.Live(ElectedSet(cat, progress, member, rank.id).value), req)
    && AllMet(ContextOf(cat, progress, member, rank, h), req.metrics.value, today)
  }

  /** Some rank credits requirement `id` on this day. */
  ghost predicate Earns(cat: Catalog, progress: map<(Id, Id), Progress>, member: Id, h: History, id: Id, today: Date) {
    exists rank, req :: rank in cat.ranks && Qualifies(cat, progress, member, h, rank, req, today) && req.id == id
  }

  function AutoRow(member: Id, requirement: Id, today: Date): Completion {
    Completion(member, requirement, today, Approved, None, None, None, Auto, None, false)
  }

  /** Existing progress rows stay as they are; new ones elect the default set and earn nothing. */
  ghost predicate ElectionsKept(cat: Catalog, member: Id, p0: map<(Id, Id), Progress>, p1: map<(Id, Id), Progress>) {
    && (forall k :: k in p0 ==> k in p1 && p1[k] == p0[k])
    && forall k :: k in p1 && k !in p0 ==>
        k.0 == member && k.1 in cat.latest && p1[k] == Progress(cat.latest[k.1], None)
  }

  /** A rank qualified `id`, and now has a progress row. */
  ghost predicate CreditedUnder(cat: Catalog, before: Ledger, after: Ledger, member: Id, h: History, id: Id,
                                today: Date)
  {
    exists rank, req ::
      && rank in cat.ranks && Qualifies(cat, before.progress, member, h, rank, req, today)
      && req.id == id && (member, rank.id) in after.progress
  }

  /** Some created row was credited under this rank. */
  ghost predicate CreditsRank(cat: Catalog, before: Ledger, created: seq<Completion>, member: Id, h: History,
                              rankId: Id, today: Date)
  {
    exists c, rank, req :: c in created && rank in cat.ranks && rank.id == rankId
      && Qualifies(cat, before.progress, member, h, rank, req, today) && req.id == c.requirement
  }

  /** Approved rows dated today, one for each of some requirements that had no row. */
  ghost predicate NewAutoRows(rows: seq<Completion>, member: Id, today: Date, created: seq<Completion>) {
    && DistinctTargets(created)
    && (forall c :: c in created ==> c == AutoRow(member, c.requirement, today))
    && forall c :: c in created ==> c.requirement !in RowIds(rows, member)
  }

  ghost predicate RowsEarned(cat: Catalog, h: History, member: Id, today: Date,
                             before: Ledger, now: Ledger, created: seq<Completion>)
  {
    forall c :: c in created ==> CreditedUnder(cat, before, now, member, h, c.requirement, today)
  }

  /** Every new progress row comes from a created row. */
  ghost predicate RanksCredited(cat: Catalog, h: History, member: Id, today: Date,
                                before: Ledger, now: Ledger, created: seq<Completion>)
  {
    forall k {:trigger CreditsRank(cat, before, created, member, h, k.1, today)} ::
      k in now.progress && k !in before.progress ==> CreditsRank(cat, before, created, member, h, k.1, today)
  }

  /** What a run has done so far: nothing that it should not, though something earned may be left. */
  ghost predicate CreditedSoFar(cat: Catalog, h: History, member: Id, today: Date,
                                before: Ledger, now: Ledger, created: seq<Completion>)
  {
    && now.completions == before.completions + created
    && ElectionsKept(cat, member, before.progress, now.progress)
    && NewAutoRows(before.completions, member, today, created)
    && RowsEarned(cat, h, member, today, before, now, created)
    && RanksCredited(cat, h, member, today, before, now, created)
  }

  /**
   * One run: a single approved row dated today for every requirement that is earned and has no row,
   * tombstones included, and for nothing else; and a progress row for each rank that was credited.
   */
  ghost predicate CreditStep(cat: Catalog, h: History, member: Id, today: Date,
                             before: Ledger, after: Ledger, created: seq<Completion>)
  {
    && CreditedSoFar(cat, h, member, today, before, after, created)
    && forall id :: Earns(cat, before.progress, member, h, id, today) ==> id in RowIds(after.completions, member)
  }

  // ---- evaluation does not see what the run itself creates ----

  lemma KeptSameContext(cat: Catalog, member: Id, p0: map<(Id, Id), Progress>, p1: map<(Id, Id), Progress>,
                        rank: Rank, h: History, c: Condition, today: Date)
    requires ElectionsKept(cat, member, p0, p1)
    ensures Met(ContextOf(cat, p0, member, rank, h), c, today) == Met(ContextOf(cat, p1, member, rank, h), c, today)
  {
    assert PreviousRankAnchor(cat.ranks, p0, member, rank) == PreviousRankAnchor(cat.ranks, p1, member, rank);
  }

  /** Progress rows created by a run change neither what qualifies nor under which set. */
  lemma KeptSameQualifies(cat: Catalog, member: Id, p0: map<(Id, Id), Progress>, p1: map<(Id, Id), Progress>,
                          h: History, rank: Rank, req: Requirement, today: Date)
    requires ElectionsKept(cat, member, p0, p1)
    ensures Qualifies(cat, p0, member, h, rank, req, today) == Qualifies(cat, p1, member, h, rank, req, today)
  {
    if req.metrics.Some? {
      forall c | c in req.metrics.value
        ensures Met(ContextOf(cat, p0, member, rank, h), c, today) == Met(ContextOf(cat, p1, member, rank, h), c, today)
      {
        KeptSameContext(cat, member, p0, p1, rank, h, c, today);
      }
    }
    assert ElectedSet(cat, p0, member, rank.id) == ElectedSet(cat, p1, member, rank.id);
    assert Earned(p0, member, rank.id) == Earned(p1, member, rank.id);
  }

  lemma KeptSameEarns(cat: Catalog, member: Id, p0: map<(Id, Id), Progress>, p1: map<(Id, Id), Progress>, h: History,
                      id: Id, today: Date)
    requires ElectionsKept(cat, member, p0, p1)
    ensures Earns(cat, p0, member, h, id, today) == Earns(cat, p1, member, h, id, today)
  {
    if rank, req :| rank in cat.ranks && Qualifies(cat, p0, member, h, rank, req, today) && req.id == id {
      KeptSameQualifies(cat, member, p0, p1, h, rank, req, today);
    }
    if rank, req :| rank in cat.ranks && Qualifies(cat, p1, member, h, rank, req, today) && req.id == id {
      KeptSameQualifies(cat, member, p0, p1, h, rank, req, today);
    }
  }

  lemma KeptTrans(cat: Catalog, member: Id, p0: map<(Id, Id), Progress>, p1: map<(Id, Id), Progress>,
                  p2: map<(Id, Id), Progress>)
    requires ElectionsKept(cat, member, p0, p1) && ElectionsKept(cat, member, p1, p2)
    ensures ElectionsKept(cat, member, p0, p2)
  {
  }

  // ---- consequences of one run ----

  lemma CreatedIsEarned(cat: Catalog, h: History, member: Id, today: Date, before: Ledger, after: Ledger,
                        created: seq<Completion>, c: Completion)
    requires CreditStep(cat, h, member, today, before, after, created) && c in created
    ensures Earns(cat, before.progress, member, h, c.requirement, today)
    ensures c.requirement !in RowIds(before.completions, member)
  {
    assert CreditedUnder(cat, before, after, member, h, c.requirement, today);
  }

  lemma RowsFollow(rows: seq<Completion>, created: seq<Completion>, member: Id, id: Id, earned: bool)
    requires forall c :: c in created && c.requirement == id ==> earned
    requires earned ==> id in RowIds(rows + created, member)
    ensures id in RowIds(rows + created, member) <==> id in RowIds(rows, member) || earned
  {
    AppendedRows(rows, created, member);
  }

  /** After a run the member has rows on exactly the requirements that had one or are earned. */
  lemma RowsAfterRun(cat: Catalog, h: History, member: Id, today: Date, before: Ledger, after: Ledger,
                     created: seq<Completion>, id: Id)
    requires CreditStep(cat, h, member, today, before, after, created)
    ensures id in RowIds(after.completions, member) <==>
            id in RowIds(before.completions, member) || Earns(cat, before.progress, member, h, id, today)
  {
    forall c | c in created
      ensures Earns(cat, before.progress, member, h, c.requirement, today)
    {
      CreatedIsEarned(cat, h, member, today, before, after, created, c);
    }
    RowsFollow(before.completions, created, member, id, Earns(cat, before.progress, member, h, id, today));
  }

  /** After a run, whatever is earned that day has a row; so a further run has nothing to create. */
  lemma EarnedHasRow(cat: Catalog, h: History, member: Id, today: Date, before: Ledger, after: Ledger,
                     created: seq<Completion>, id: Id)
    requires CreditStep(cat, h, member, today, before, after, created)
    requires Earns(cat, after.progress, member, h, id, today)
    ensures id in RowIds(after.completions, member)
  {
    KeptSameEarns(cat, member, before.progress, after.progress, h, id, today);
  }

  lemma NoCreditNoProgress(cat: Catalog, h: History, member: Id, today: Date, before: Ledger, after: Ledger)
    requires CreditStep(cat, h, member, today, before, after, [])
    ensures after == before
  {
    forall k | k in after.progress
      ensures k in before.progress
    {
      assert !CreditsRank(cat, before, [], member, h, k.1, today);
    }
    assert after.completions == before.completions;
  }

  /** A second run on the same day creates nothing and changes nothing. */
  lemma SecondRunIsIdle(cat: Catalog, h: History, member: Id, today: Date, l0: Ledger, l1: Ledger, l2: Ledger,
                        created1: seq<Completion>, created2: seq<Completion>)
    requires CreditStep(cat, h, member, today, l0, l1, created1)
    requires CreditStep(cat, h, member, today, l1, l2, created2)
    ensures created2 == [] && l2 == l1
  {
    if created2 == [] {
      NoCreditNoProgress(cat, h, member, today, l1, l2);
    } else {
      CreatedIsEarned(cat, h, member, today, l1, l2, created2, created2[0]);
      EarnedHasRow(cat, h, member, today, l0, l1, created1, created2[0].requirement);
      assert false;
    }
  }

  // ---- a credit in terms of the rows, the catalog and the progress alone ----

  /** The rank has no date yet and accrues under `setId`: the one elected, or the default without a progress row. */
  ghost predicate AccruesUnder(cat: Catalog, progress: map<(Id, Id), Progress>, member: Id, rank: Id, setId: Id) {
    if (member, rank) in progress then progress[(member, rank)] == Progress(setId, None)
    else rank in cat.latest && cat.latest[rank] == setId
  }

  /** The requirement of `reqs` is flagged, has conditions and no live child, and all its conditions are met. */
  ghost predicate DueIn(reqs: seq<Requirement>, x: Context, req: Requirement, today: Date) {
    && req in reqs && req.autoCredit
    && req.metrics.Some? && |req.metrics.value| > 0
    && (forall k :: k in reqs ==> k.parent != Some(req.id))
    && forall i :: 0 <= i < |req.metrics.value| ==> Met(x, req.metrics.value[i], today)
  }

  lemma QualifiesIff(cat: Catalog, progress: map<(Id, Id), Progress>, member: Id, h: History, rank: Rank,
                     req: Requirement, today: Date)
    ensures Qualifies(cat, progress, member, h, rank, req, today) <==>
            exists setId: Id :: AccruesUnder(cat, progress, member, rank.id, setId)
                            && DueIn(cat.Live(setId), Context(cat.ranks, progress, member, rank, h), req, today)
  {
    var elected := ElectedSet(cat, progress, member, rank.id);
    assert forall setId: Id ::
        AccruesUnder(cat, progress, member, rank.id, setId) <==>
        !Earned(progress, member, rank.id) && elected == Some(setId);
    if elected.Some? {
      var reqs := cat.Live(elected.value);
      assert Creditable(reqs, req) && AllMet(ContextOf(cat, progress, member, rank, h), req.metrics.value, today) <==>
          DueIn(reqs, Context(cat.ranks, progress, member, rank, h), req, today);
    }
  }

  /**
   * Every created row is an active approved row of the member, dated today and recorded as automatic, on
   * a due requirement of the set some undated rank accrues under, where the member had no row at all, not
   * even a tombstone; and that rank has a progress row afterwards, with that set elected and no date.
   */
  lemma EachCreditIsDue(cat: Catalog, h: History, member: Id, today: Date, before: Ledger, after: Ledger,
                        created: seq<Completion>, c: Completion) returns (rank: Rank, setId: Id, req: Requirement)
    requires CreditStep(cat, h, member, today, before, after, created) && c in created
    ensures c.member == member && c.requirement == req.id && c.date == today
    ensures c.status == Approved && c.via == Auto && !c.isDeleted
    ensures c.reportedBy == None && c.approvedBy == None && c.approvedAt == None && c.note == None
    ensures forall r :: r in before.completions && r.member == member ==> r.requirement != c.requirement
    ensures rank in cat.ranks && AccruesUnder(cat, before.progress, member, rank.id, setId)
    ensures DueIn(cat.Live(setId), Context(cat.ranks, before.progress, member, rank, h), req, today)
    ensures (member, rank.id) in after.progress && after.progress[(member, rank.id)] == Progress(setId, None)
  {
    rank, req := UnderWhichRank(cat, before, after, member, h, c.requirement, today);
    QualifiesIff(cat, before.progress, member, h, rank, req, today);
    setId :| AccruesUnder(cat, before.progress, member, rank.id, setId)
        && DueIn(cat.Live(setId), Context(cat.ranks, before.progress, member, rank, h), req, today);
    assert ElectionsKept(cat, member, before.progress, after.progress);
    assert NewAutoRows(before.completions, member, today, created);
  }

  lemma UnderWhichRank(cat: Catalog, before: Ledger, after: Ledger, member: Id, h: History, id: Id, today: Date)
    returns (rank: Rank, req: Requirement)
    requires CreditedUnder(cat, before, after, member, h, id, today)
    ensures rank in cat.ranks && Qualifies(cat, before.progress, member, h, rank, req, today)
    ensures req.id == id && (member, rank.id) in after.progress
  {
    rank, req :| rank in cat.ranks && Qualifies(cat, before.progress, member, h, rank, req, today)
      && req.id == id && (member, rank.id) in after.progress;
  }

  /** A due requirement on which the member had no row ends with a new approved row dated today. */
  lemma DueIsApproved(cat: Catalog, h: History, member: Id, today: Date, before: Ledger, after: Ledger,
                      created: seq<Completion>, rank: Rank, setId: Id, req: Requirement)
    requires CreditStep(cat, h, member, today, before, after, created)
    requires rank in cat.ranks && AccruesUnder(cat, before.progress, member, rank.id, setId)
    requires DueIn(cat.Live(setId), Context(cat.ranks, before.progress, member, rank, h), req, today)
    requires forall r :: r in before.completions && r.member == member ==> r.requirement != req.id
    ensures Completion(member, req.id, today, Approved, None, None, None, Auto, None, false) in after.completions
    ensures req.id in ApprovedIds(ActiveOn(after.completions, member, LeafIds(cat.Live(setId))))
  {
    QualifiesIff(cat, before.progress, member, h, rank, req, today);
    assert Earns(cat, before.progress, member, h, req.id, today);
    EarnedIsApproved(cat, h, member, today, before, after, created, req.id, LeafIds(cat.Live(setId)));
  }

  /** Whatever is earned and had no row ends with an active approved one. */
  lemma EarnedIsApproved(cat: Catalog, h: History, member: Id, today: Date, before: Ledger, after: Ledger,
                         created: seq<Completion>, id: Id, ids: set<Id>)
    requires CreditStep(cat, h, member, today, before, after, created)
    requires Earns(cat, before.progress, member, h, id, today) && id !in RowIds(before.completions, member)
    requires id in ids
    ensures Completion(member, id, today, Approved, None, None, None, Auto, None, false) in after.completions
    ensures id in ApprovedIds(ActiveOn(after.completions, member, ids))
  {
    assert id in RowIds(after.completions, member);
    AppendedRows(before.completions, created, member);
    var c :| c in created && c.member == member && c.requirement == id;
    assert c == Completion(member, id, today, Approved, None, None, None, Auto, None, false);
    assert c in ActiveOn(after.completions, member, ids);
  }

  /** A run leaves old rows in place, appends the created ones, and adds progress rows without a date. */
  lemma RunOnlyAppends(cat: Catalog, h: History, member: Id, today: Date, before: Ledger, after: Ledger,
                       created: seq<Completion>, k: (Id, Id))
    requires CreditStep(cat, h, member, today, before, after, created)
    ensures after.completions == before.completions + created
    ensures forall i, j :: 0 <= i < j < |created| ==> created[i].requirement != created[j].requirement
    ensures k in before.progress ==> k in after.progress && after.progress[k] == before.progress[k]
    ensures k in after.progress && k !in before.progress ==>
              k.0 == member && k.1 in cat.latest && after.progress[k] == Progress(cat.latest[k.1], None)
  {
    assert ElectionsKept(cat, member, before.progress, after.progress);
  }

  // ---- runs over many days ----

  lemma EarnsStays(cat: Catalog, progress: map<(Id, Id), Progress>, member: Id, h: History, id: Id, d1: Date, d2: Date)
    requires d1 <= d2 && Earns(cat, progress, member, h, id, d1)
    ensures Earns(cat, progress, member, h, id, d2)
  {
    var rank, req :| rank in cat.ranks && Qualifies(cat, progress, member, h, rank, req, d1) && req.id == id;
    forall c | c in req.metrics.value
      ensures Met(ContextOf(cat, progress, member, rank, h), c, d2)
    {
      MetStaysMet(ContextOf(cat, progress, member, rank, h), c, d1, d2);
    }
    assert Qualifies(cat, progress, member, h, rank, req, d2);
  }

  datatype DailyRun = DailyRun(today: Date, created: seq<Completion>)

  ghost predicate CreditRun(cat: Catalog, h: History, member: Id, states: seq<Ledger>, runs: seq<DailyRun>) {
    && |states| == |runs| + 1
    && forall i :: 0 <= i < |runs| ==>
        CreditStep(cat, h, member, runs[i].today, states[i], states[i + 1], runs[i].created)
  }

  /** Rows after any sequence of runs: those at the start and those earned on some day of it. */
  lemma {:induction false} RowsAfterManyRuns(cat: Catalog, h: History, member: Id, states: seq<Ledger>,
                                             runs: seq<DailyRun>, id: Id)
    requires CreditRun(cat, h, member, states, runs)
    ensures ElectionsKept(cat, member, states[0].progress, states[|runs|].progress)
    ensures id in RowIds(states[|runs|].completions, member) <==>
            || id in RowIds(states[0].completions, member)
            || exists i :: 0 <= i < |runs| && Earns(cat, states[0].progress, member, h, id, runs[i].today)
  {
    if runs != [] {
      var n := |runs| - 1;
      RowsAfterManyRuns(cat, h, member, states[..|runs|], runs[..n], id);
      assert states[..|runs|][n] == states[n];
      KeptTrans(cat, member, states[0].progress, states[n].progress, states[n + 1].progress);
      RowsAfterRun(cat, h, member, runs[n].today, states[n], states[n + 1], runs[n].created, id);
      KeptSameEarns(cat, member, states[0].progress, states[n].progress, h, id, runs[n].today);
      assert forall i :: 0 <= i < n ==> runs[..n][i] == runs[i];
    }
  }

  /**
   * Missed runs self-heal: any sequence of runs that includes its latest day leaves rows on exactly
   * the requirements that one run on that day alone would, whichever days were run or skipped.
   */
  lemma MissedRunsSelfHeal(cat: Catalog, h: History, member: Id, states: seq<Ledger>, runs: seq<DailyRun>, latest: nat,
                           single: Ledger, created: seq<Completion>)
    requires CreditRun(cat, h, member, states, runs)
    requires latest < |runs| && forall i :: 0 <= i < |runs| ==> runs[i].today <= runs[latest].today
    requires CreditStep(cat, h, member, runs[latest].today, states[0], single, created)
    ensures RowIds(states[|runs|].completions, member) == RowIds(single.completions, member)
  {
    forall id
      ensures id in RowIds(states[|runs|].completions, member) <==> id in RowIds(single.completions, member)
    {
      RowsAfterManyRuns(cat, h, member, states, runs, id);
      RowsAfterRun(cat, h, member, runs[latest].today, states[0], single, created, id);
      if i :| 0 <= i < |runs| && Earns(cat, states[0].progress, member, h, id, runs[i].today) {
        EarnsStays(cat, states[0].progress, member, h, id, runs[i].today, runs[latest].today);
      }
    }
  }
}
