/** Rows shared by the advancement engine and the catalog loader. */
module Records {

  datatype Option<+T> = None | Some(value: T)

  type Id = nat

  /** A calendar date by its ordinal; the first representable date is 1. */
  type Date = d: int | FIRST_DATE <= d witness FIRST_DATE

  const FIRST_DATE := 1

  datatype MetricKind =
    | CampingNights | ServiceHours | ConservationHours | HikingMiles | ActivityCount
    | TenureMonths | PorMonths
    | MeritBadgeCount | MeritBadgeCountEagleRequired

  datatype MetricWindow = AllHistory | SinceJoining | SinceRank

  datatype Condition = Condition(kind: MetricKind, threshold: real, window: MetricWindow)

  datatype Requirement = Requirement(
    id: Id,
    number: string,
    letter: string,
    parent: Option<Id>,
    sortOrder: nat,
    text: string,
    stableKey: Option<string>,
    metrics: Option<seq<Condition>>,
    autoCredit: bool)
  {
    /** Display label, such as "1a" or "7". */
    function Label(): string { number + letter }

    /** A stable key counts only when it is present and not the empty string. */
    predicate Keyed() { stableKey.Some? && stableKey.value != "" }
  }

  datatype Rank = Rank(id: Id, sortOrder: int)

  /**
   * The catalog as the engine reads it: live ranks in order, the live requirements of each set in
   * display order, and for each rank the set a new election defaults to.
   */
  datatype Catalog = Catalog(ranks: seq<Rank>, requirements: map<Id, seq<Requirement>>, latest: map<Id, Id>)
  {
    function Live(setId: Id): seq<Requirement> {
      if setId in requirements then requirements[setId] else []
    }
  }

  function Ids(reqs: seq<Requirement>): set<Id> {
    set r | r in reqs :: r.id
  }

  /** The requirement with this id; the last one listed if an id were repeated. */
  function ById(reqs: seq<Requirement>, id: Id): (r: Requirement)
    requires id in Ids(reqs)
    ensures r in reqs && r.id == id
  {
    var init, last := reqs[..|reqs| - 1], reqs[|reqs| - 1];
    assert reqs == init + [last];
    if last.id == id then last else ById(init, id)
  }

  ghost predicate DistinctIds(reqs: seq<Requirement>) {
    forall i, j :: 0 <= i < j < |reqs| ==> reqs[i].id != reqs[j].id
  }

  datatype Status = Reported | Approved | Rejected

  datatype RecordedVia = Manual | Auto | Import | Remap

  /** One completion row; `isDeleted` is the revocation tombstone. */
  datatype Completion = Completion(
    member: Id,
    requirement: Id,
    date: Date,
    status: Status,
    reportedBy: Option<Id>,
    approvedBy: Option<Id>,
    approvedAt: Option<int>,
    via: RecordedVia,
    note: Option<string>,
    isDeleted: bool)

  datatype Progress = Progress(electedSet: Id, earned: Option<Date>)

  /** All completion rows in insertion order, and one progress row for each (member, rank). */
  datatype Ledger = Ledger(completions: seq<Completion>, progress: map<(Id, Id), Progress>)

  /** Requirements on which the member has any row, tombstones included. */
  function RowIds(rows: seq<Completion>, member: Id): set<Id> {
    set c | c in rows && c.member == member :: c.requirement
  }

  /** The member's rows on the given requirements that are not tombstones, in row order. */
  function ActiveOn(rows: seq<Completion>, member: Id, ids: set<Id>): (active: seq<Completion>)
    ensures forall c :: c in active <==> c in rows && c.member == member && c.requirement in ids && !c.isDeleted
  {
    if rows == [] then []
    else
      var init, c := rows[..|rows| - 1], rows[|rows| - 1];
      assert rows == init + [c];
      ActiveOn(init, member, ids) + (if c.member == member && c.requirement in ids && !c.isDeleted then [c] else [])
  }

  ghost predicate DistinctTargets(copies: seq<Completion>) {
    forall i, j :: 0 <= i < j < |copies| ==> copies[i].requirement != copies[j].requirement
  }

  lemma AppendedRows(a: seq<Completion>, b: seq<Completion>, member: Id)
    ensures RowIds(a + b, member) == RowIds(a, member) + RowIds(b, member)
  {
    forall id
      ensures id in RowIds(a + b, member) <==> id in RowIds(a, member) || id in RowIds(b, member)
    {
      assert forall c :: c in a + b <==> c in a || c in b;
    }
  }
}
