/**
 * The tombstone reaper (backend/app/core/deletion.py:108-130, 203-267): it removes rows the change
 * stream cannot express and moves the tenant's watermark past every sequence value drawn before.
 */
module Reaper {
  import opened Records
  import opened Sizes

  datatype Table =
    | Members | Relationships | EventTypes | Locations | Events | Participants | Messages | Recipients
    | Organizers | GroupMembers | PositionAssignments | RankProgress | RequirementCompletions | MeritBadges
    | PushTokens

  /** Tables that carry a sync_seq, bumped by every insert and update. */
  predicate Synced(t: Table) {
    t.Members? || t.Relationships? || t.EventTypes? || t.Locations? || t.Events? || t.Participants?
    || t.Messages? || t.Recipients?
  }

  /** Tables whose rows belong to a member (or, for family edges, to two) and go with them. */
  predicate Owned(t: Table) {
    t.Participants? || t.Organizers? || t.GroupMembers? || t.PositionAssignments? || t.RankProgress?
    || t.RequirementCompletions? || t.MeritBadges? || t.Recipients? || t.PushTokens? || t.Relationships?
  }

  datatype Column = AssignedBy | AddedBy | PermissionBy | ReportedBy | ApprovedBy | SentBy

  /** The nullable back-references a reap clears, one UPDATE statement each. */
  const NULLED: seq<(Table, Column)> := [
    (PositionAssignments, AssignedBy), (GroupMembers, AddedBy), (Participants, PermissionBy),
    (RequirementCompletions, ReportedBy), (RequirementCompletions, ApprovedBy),
    (MeritBadges, ReportedBy), (MeritBadges, ApprovedBy), (Messages, SentBy)]

  /** `refs` are the row's nullable references to members; `purgedAt` is set on purged members only. */
  datatype Row = Row(table: Table, tenant: Id, stamp: nat, isDeleted: bool, owners: set<Id>,
                     refs: set<(Column, Id)>, purgedAt: Option<int>)

  /** `drawn` is the last value of the shared sequence; `marks` are the tenants' watermarks (NULL is 0). */
  datatype Db = Db(rows: map<Id, Row>, drawn: nat, marks: map<Id, nat>)

  const RETENTION_FLOOR := 180

  function Due(rows: map<Id, Row>, cutoff: int): set<Id> {
    set id | id in rows && rows[id].purgedAt.Some? && rows[id].purgedAt.value <= cutoff
  }

  /** Only members are purged, and members and other unowned tables have no owner. */
  ghost predicate Schema(rows: map<Id, Row>) {
    forall id :: id in rows ==> RowSchema(rows[id])
  }

  predicate RowSchema(r: Row) {
    (r.purgedAt.Some? ==> r.table.Members?) && (!Owned(r.table) ==> r.owners == {})
  }

  /** No value above the sequence is in use, and no synced row sits exactly on its tenant's watermark. */
  ghost predicate Sound(db: Db) {
    && Schema(db.rows)
    && (forall id :: id in db.rows ==> StampSound(db.rows[id], db))
    && forall t :: t in db.marks ==> db.marks[t] <= db.drawn
  }

  predicate StampSound(r: Row, db: Db) {
    && r.stamp <= db.drawn
    && (Synced(r.table) ==> r.stamp > 0 && (r.tenant in db.marks ==> r.stamp != db.marks[r.tenant]))
  }

  // ---- what a reap does, stated without its loops ----

  /** The row after the members in `gone` are removed from its listed back-references. */
  function Cleared(r: Row, gone: set<Id>): Row {
    r.(refs := set p | p in r.refs && !(p.1 in gone && (r.table, p.0) in NULLED))
  }

  function Doomed(rows: map<Id, Row>, gone: set<Id>): set<Id> {
    set id | id in rows && (id in gone || rows[id].owners * gone != {})
  }

  function TenantsOf(rows: map<Id, Row>, gone: set<Id>): set<Id> {
    set id | id in rows && id in gone :: rows[id].tenant
  }

  /** A surviving row changes only by losing references; a synced row that lost one has a new stamp. */
  predicate KeptAs(r: Row, s: Row, gone: set<Id>, lo: nat, hi: nat) {
    && s == Cleared(r, gone).(stamp := s.stamp)
    && if s.refs != r.refs && Synced(r.table) then lo < s.stamp <= hi else s.stamp == r.stamp
  }

  ghost predicate RowsReaped(before: Db, gone: set<Id>, after: Db) {
    && after.rows.Keys == before.rows.Keys - Doomed(before.rows, gone)
    && forall id :: id in after.rows ==> KeptAs(before.rows[id], after.rows[id], gone, before.drawn, after.drawn)
  }

  /** The reaped members' tenants get a watermark past everything drawn before; the others keep theirs. */
  ghost predicate MarksReaped(before: Db, gone: set<Id>, after: Db) {
    && after.marks.Keys == before.marks.Keys
    && before.drawn <= after.drawn
    && forall t :: t in before.marks ==>
         MarkMoved(t in TenantsOf(before.rows, gone), before.marks[t], after.marks[t], before.drawn, after.drawn)
  }

  predicate MarkMoved(touched: bool, earlier: nat, later: nat, lo: nat, hi: nat) {
    if touched then earlier <= later && lo < later <= hi else later == earlier
  }

  ghost predicate Reaped(before: Db, gone: set<Id>, after: Db) {
    RowsReaped(before, gone, after) && MarksReaped(before, gone, after)
  }

  // ---- the same, in terms of the rows and the tables' columns ----

  /** The nullable columns of a modelled table that hold a member. */
  function MemberColumns(t: Table): set<Column> {
    match t
    case PositionAssignments => {AssignedBy}
    case GroupMembers => {AddedBy}
    case Participants => {PermissionBy}
    case RequirementCompletions => {ReportedBy, ApprovedBy}
    case MeritBadges => {ReportedBy, ApprovedBy}
    case Messages => {SentBy}
    case _ => {}
  }

  /** The row holds members only in columns its table has. */
  predicate InColumns(r: Row) {
    forall p :: p in r.refs ==> p.0 in MemberColumns(r.table)
  }

  lemma EveryColumnIsCleared(t: Table, c: Column)
    ensures (t, c) in NULLED <==> c in MemberColumns(t)
  {
    assert NULLED[0] == (PositionAssignments, AssignedBy) && NULLED[1] == (GroupMembers, AddedBy);
    assert NULLED[2] == (Participants, PermissionBy) && NULLED[3] == (RequirementCompletions, ReportedBy);
    assert NULLED[4] == (RequirementCompletions, ApprovedBy) && NULLED[5] == (MeritBadges, ReportedBy);
    assert NULLED[6] == (MeritBadges, ApprovedBy) && NULLED[7] == (Messages, SentBy);
  }

  /**
   * No surviving row is, belongs to or refers to a reaped member; it keeps every other reference and
   * everything else, except that a synced row that lost one has a stamp nothing had before.
   */
  lemma NothingRefersToReaped(before: Db, gone: set<Id>, after: Db, id: Id)
    requires Reaped(before, gone, after) && id in after.rows && InColumns(before.rows[id])
    ensures var r, s := before.rows[id], after.rows[id];
            && id !in gone && (forall o :: o in s.owners ==> o !in gone) && (forall p :: p in s.refs ==> p.1 !in gone)
            && (forall p :: p in r.refs && p.1 !in gone ==> p in s.refs) && s.refs <= r.refs
            && (s.table, s.tenant, s.isDeleted, s.owners, s.purgedAt)
               == (r.table, r.tenant, r.isDeleted, r.owners, r.purgedAt)
            && (s.stamp == r.stamp || (Synced(r.table) && s.refs != r.refs && before.drawn < s.stamp <= after.drawn))
            && (Synced(r.table) && s.refs != r.refs ==> before.drawn < s.stamp)
  {
    var r, s := before.rows[id], after.rows[id];
    assert KeptAs(r, s, gone, before.drawn, after.drawn);
    forall p | p in s.refs
      ensures p.1 !in gone
    {
      EveryColumnIsCleared(r.table, p.0);
    }
    forall o | o in s.owners
      ensures o !in gone
    {
      assert o in gone ==> o in r.owners * gone;
    }
  }

  /** Purged at least so many days ago. */
  predicate Expired(r: Row, now: int, days: int) {
    r.purgedAt.Some? && now - r.purgedAt.value >= days
  }

  /** What goes is exactly the expired members and the rows that belong to one. */
  lemma ReapedIffExpired(before: Db, now: int, days: int, after: Db, id: Id)
    requires Reaped(before, Due(before.rows, now - days), after) && id in before.rows
    ensures id in after.rows <==>
            && !Expired(before.rows[id], now, days)
            && forall o :: o in before.rows[id].owners && o in before.rows ==> !Expired(before.rows[o], now, days)
  {
    var gone := Due(before.rows, now - days);
    assert id in Doomed(before.rows, gone) <==> id in gone || exists o :: o in before.rows[id].owners && o in gone by {
      if before.rows[id].owners * gone != {} {
        var o :| o in before.rows[id].owners * gone;
      }
      if o :| o in before.rows[id].owners && o in gone {
        assert o in before.rows[id].owners * gone;
      }
    }
    assert forall o :: o in gone <==> o in before.rows && Expired(before.rows[o], now, days);
  }

  // ---- the reaper ----

  class MemberStore {
    var rows: map<Id, Row>
    var drawn: nat
    var marks: map<Id, nat>

    ghost function State(): Db
      reads this
    {
      Db(rows, drawn, marks)
    }

    method NextVal() returns (v: nat)
      modifies this`drawn
      ensures v == drawn == old(drawn) + 1
    {
      drawn := drawn + 1;
      v := drawn;
    }

    /** UPDATE table SET column = NULL WHERE column = member: one drawn value for a synced table. */
    method NullReferences(table: Table, column: Column, member: Id)
      modifies this`rows, this`drawn
      ensures State() == Nulled(old(State()), table, column, member)
    {
      var v := 0;
      if Synced(table) {
        v := NextVal();
      }
      rows := map id | id in rows :: NulledRow(rows[id], table, column, member, v);
    }

    method ReapMember(member: Id)
      requires member in rows
      modifies this
      ensures State() == ReapOne(old(State()), member)
    {
      var tenant := rows[member].tenant;
      var i := 0;
      while i < |NULLED|
        invariant i <= |NULLED|
        invariant State() == NulledUpTo(old(State()), member, i)
      {
        NullReferences(NULLED[i].0, NULLED[i].1, member);
        i := i + 1;
      }
      rows := map id | id in rows && member !in rows[id].owners :: rows[id];
      if tenant in marks {
        var v := NextVal();
        marks := marks[tenant := if marks[tenant] >= v then marks[tenant] else v];
      }
      rows := rows - {member};
    }

    /** The loop over the due members, in the order the query lists them. */
    method ReapAll(due: seq<Id>)
      requires Schema(rows) && Distinct(due) && forall id :: id in due ==> id in rows && rows[id].purgedAt.Some?
      modifies this
      ensures State() == ReapEach(old(State()), due)
    {
      var i := 0;
      while i < |due|
        invariant i <= |due| && State() == ReapEach(old(State()), due[..i])
      {
        MemberRemains(old(State()), due, i);
        ReapMember(due[i]);
        assert due[..i + 1][..i] == due[..i];
        i := i + 1;
      }
      assert due[..i] == due;
    }

    /** Returns how many members were reaped, or nothing when the retention is below the 180-day floor. */
    method ReapPurgedMembers(now: int, days: int) returns (count: Option<nat>)
      requires Sound(State())
      modifies this
      ensures Sound(State())
      ensures count.None? <==> days < 180
      ensures days < RETENTION_FLOOR ==> count == None && State() == old(State())
      ensures days >= RETENTION_FLOOR ==>
                && count == Some(|Due(old(rows), now - days)|)
                && Reaped(old(State()), Due(old(rows), now - days), State())
    {
      if days < RETENTION_FLOOR {
        return None;
      }
      var due := Listed(Due(rows, now - days));
      DistinctSize(due);
      ReapAll(due);
      ReapEachReaps(old(State()), due);
      count := Some(|due|);
    }
  }

  /** The members of a set in some order; the query does not fix one. */
  method Listed(ids: set<Id>) returns (order: seq<Id>)
    ensures Distinct(order) && Elements(order) == ids && forall id :: id in order <==> id in ids
  {
    var pending := ids;
    order := [];
    while pending != {}
      invariant pending <= ids && Distinct(order)
      invariant forall id :: id in order <==> id in ids && id !in pending
      decreases |pending|
    {
      var id :| id in pending;
      order := order + [id];
      pending := pending - {id};
    }
  }

  // ---- one member, as a function of the state ----

  function NulledRow(r: Row, table: Table, column: Column, member: Id, v: nat): Row {
    if r.table == table && (column, member) in r.refs
    then r.(refs := r.refs - {(column, member)}, stamp := if Synced(table) then v else r.stamp)
    else r
  }

  ghost function Nulled(db: Db, table: Table, column: Column, member: Id): Db {
    var v := if Synced(table) then db.drawn + 1 else 0;
    db.(rows := map id | id in db.rows :: NulledRow(db.rows[id], table, column, member, v),
        drawn := if Synced(table) then db.drawn + 1 else db.drawn)
  }

  /** The state after the first `i` UPDATE statements. */
  ghost function NulledUpTo(db: Db, member: Id, i: nat): Db
    requires i <= |NULLED|
  {
    if i == 0 then db else Nulled(NulledUpTo(db, member, i - 1), NULLED[i - 1].0, NULLED[i - 1].1, member)
  }

  /** DELETE the owned rows, draw the watermark, DELETE the member. */
  ghost function Removed(db: Db, member: Id, tenant: Id): Db {
    var rows := (map id | id in db.rows && member !in db.rows[id].owners :: db.rows[id]) - {member};
    if tenant in db.marks
    then Db(rows, db.drawn + 1,
        db.marks[tenant := if db.marks[tenant] >= db.drawn + 1 then db.marks[tenant] else db.drawn + 1])
    else Db(rows, db.drawn, db.marks)
  }

  /** Everything the reaper does for one member. */
  ghost function ReapOne(db: Db, member: Id): Db
  {
    if member in db.rows
    then Removed(NulledUpTo(db, member, |NULLED|), member, db.rows[member].tenant)
    else db
  }

  ghost function ReapEach(db: Db, order: seq<Id>): Db {
    if order == [] then db
    else ReapOne(ReapEach(db, order[..|order| - 1]), order[|order| - 1])
  }

  /** The references of a row that the first `i` statements clear. */
  function Hit(table: Table, column: Column, i: nat): bool
    requires i <= |NULLED|
  {
    (table, column) in NULLED[..i]
  }

  predicate NulledAs(r: Row, s: Row, member: Id, i: nat, lo: nat, hi: nat)
    requires i <= |NULLED|
  {
    && s == r.(refs := s.refs, stamp := s.stamp)
    && s.refs == (set p | p in r.refs && !(p.1 == member && Hit(r.table, p.0, i)))
    && if s.refs != r.refs && Synced(r.table) then lo < s.stamp <= hi else s.stamp == r.stamp
  }

  ghost predicate RowsNulled(before: Db, member: Id, i: nat, after: Db)
    requires i <= |NULLED|
  {
    && after.rows.Keys == before.rows.Keys && after.marks == before.marks && before.drawn <= after.drawn
    && forall id :: id in after.rows ==>
         NulledAs(before.rows[id], after.rows[id], member, i, before.drawn, after.drawn)
  }

  lemma HitStep(table: Table, column: Column, i: nat)
    requires i < |NULLED|
    ensures Hit(table, column, i + 1) <==> Hit(table, column, i) || NULLED[i] == (table, column)
  {
    assert NULLED[..i + 1] == NULLED[..i] + [NULLED[i]];
  }

  lemma NulledRowStep(r: Row, s: Row, member: Id, i: nat, lo: nat, hi: nat)
    requires i < |NULLED| && NulledAs(r, s, member, i, lo, hi) && lo <= hi
    ensures var v := if Synced(NULLED[i].0) then hi + 1 else 0;
            NulledAs(r, NulledRow(s, NULLED[i].0, NULLED[i].1, member, v), member, i + 1, lo,
                     if Synced(NULLED[i].0) then hi + 1 else hi)
  {
    var v := if Synced(NULLED[i].0) then hi + 1 else 0;
    var t := NulledRow(s, NULLED[i].0, NULLED[i].1, member, v);
    forall p | p in r.refs
      ensures p in t.refs <==> !(p.1 == member && Hit(r.table, p.0, i + 1))
    {
      HitStep(r.table, p.0, i);
    }
    assert t.refs == (set p | p in r.refs && !(p.1 == member && Hit(r.table, p.0, i + 1)));
  }

  lemma NulledNone(db: Db, member: Id)
    ensures RowsNulled(db, member, 0, db)
  {
    forall id | id in db.rows
      ensures NulledAs(db.rows[id], db.rows[id], member, 0, db.drawn, db.drawn)
    {
      assert db.rows[id].refs == (set p | p in db.rows[id].refs && !(p.1 == member && Hit(db.rows[id].table, p.0, 0)));
    }
  }

  lemma {:induction false} NulledRows(db: Db, member: Id, i: nat)
    requires i <= |NULLED|
    ensures RowsNulled(db, member, i, NulledUpTo(db, member, i))
  {
    if i == 0 {
      NulledNone(db, member);
    } else {
      NulledRows(db, member, i - 1);
      NulledStep(db, member, i - 1);
    }
  }

  lemma NulledStep(db: Db, member: Id, i: nat)
    requires i < |NULLED| && RowsNulled(db, member, i, NulledUpTo(db, member, i))
    ensures RowsNulled(db, member, i + 1, NulledUpTo(db, member, i + 1))
  {
    var was := NulledUpTo(db, member, i);
    forall id | id in db.rows {
      NulledRowStep(db.rows[id], was.rows[id], member, i, db.drawn, was.drawn);
    }
  }

  lemma NulledIsKept(r: Row, s: Row, member: Id, lo: nat, hi: nat)
    requires NulledAs(r, s, member, |NULLED|, lo, hi)
    ensures KeptAs(r, s, {member}, lo, hi)
  {
    assert NULLED[..|NULLED|] == NULLED;
    assert s.refs == Cleared(r, {member}).refs;
  }

  lemma ReapOneRows(db: Db, middle: Db, member: Id)
    requires member in db.rows && RowsNulled(db, member, |NULLED|, middle)
    ensures RowsReaped(db, {member}, Removed(middle, member, db.rows[member].tenant))
  {
    var after := Removed(middle, member, db.rows[member].tenant);
    RemovedKeys(db, middle, member);
    forall id | id in after.rows
      ensures KeptAs(db.rows[id], after.rows[id], {member}, db.drawn, after.drawn)
    {
      NulledIsKept(db.rows[id], middle.rows[id], member, db.drawn, middle.drawn);
    }
  }

  lemma ReapOneMarks(db: Db, middle: Db, member: Id)
    requires member in db.rows && RowsNulled(db, member, |NULLED|, middle)
    requires forall t :: t in db.marks ==> db.marks[t] <= db.drawn
    ensures MarksReaped(db, {member}, Removed(middle, member, db.rows[member].tenant))
  {
    assert TenantsOf(db.rows, {member}) == {db.rows[member].tenant};
  }

  lemma RowStaysSound(r: Row, s: Row, db: Db, middle: Db, member: Id, tenant: Id)
    requires RowSchema(r) && StampSound(r, db) && NulledAs(r, s, member, |NULLED|, db.drawn, middle.drawn)
    requires middle.marks == db.marks && db.drawn <= middle.drawn
    requires forall t :: t in db.marks ==> db.marks[t] <= db.drawn
    ensures RowSchema(s) && StampSound(s, Removed(middle, member, tenant))
  {
  }

  lemma ReapOneSound(db: Db, middle: Db, member: Id)
    requires Sound(db) && member in db.rows && RowsNulled(db, member, |NULLED|, middle)
    ensures Sound(Removed(middle, member, db.rows[member].tenant))
  {
    var tenant := db.rows[member].tenant;
    var after := Removed(middle, member, tenant);
    forall id | id in after.rows
      ensures RowSchema(after.rows[id]) && StampSound(after.rows[id], after)
    {
      RowStaysSound(db.rows[id], middle.rows[id], db, middle, member, tenant);
    }
  }

  lemma ReapOneReaps(db: Db, member: Id)
    requires Sound(db) && member in db.rows
    ensures Sound(ReapOne(db, member)) && Reaped(db, {member}, ReapOne(db, member))
  {
    var middle := NulledUpTo(db, member, |NULLED|);
    NulledRows(db, member, |NULLED|);
    ReapOneRows(db, middle, member);
    ReapOneMarks(db, middle, member);
    ReapOneSound(db, middle, member);
  }

  lemma RemovedKeys(db: Db, middle: Db, member: Id)
    requires RowsNulled(db, member, |NULLED|, middle) && member in db.rows
    ensures Removed(middle, member, db.rows[member].tenant).rows.Keys == db.rows.Keys - Doomed(db.rows, {member})
  {
    forall id | id in db.rows
      ensures member in middle.rows[id].owners <==> db.rows[id].owners * {member} != {}
    {
      assert middle.rows[id].owners == db.rows[id].owners;
      assert member in db.rows[id].owners ==> member in db.rows[id].owners * {member};
    }
  }

  // ---- several members ----

  lemma NothingReaped(db: Db)
    ensures Reaped(db, {}, db)
  {
    forall id | id in db.rows
      ensures KeptAs(db.rows[id], db.rows[id], {}, db.drawn, db.drawn)
    {
      assert Cleared(db.rows[id], {}).refs == db.rows[id].refs;
    }
  }

  lemma ClearedTwice(r: Row, s: Row, t: Row, gone: set<Id>, member: Id, lo: nat, mid: nat, hi: nat)
    requires KeptAs(r, s, gone, lo, mid) && KeptAs(s, t, {member}, mid, hi) && lo <= mid <= hi
    ensures KeptAs(r, t, gone + {member}, lo, hi)
  {
    assert t.refs == Cleared(r, gone + {member}).refs;
  }

  lemma DoomedTwice(before: Db, gone: set<Id>, middle: Db, member: Id)
    requires RowsReaped(before, gone, middle) && member in middle.rows
    ensures middle.rows.Keys - Doomed(middle.rows, {member}) == before.rows.Keys - Doomed(before.rows, gone + {member})
  {
    forall id | id in before.rows
      ensures id in Doomed(before.rows, gone + {member})
         <==> id in Doomed(before.rows, gone) || id == member || member in before.rows[id].owners
    {
      var owners := before.rows[id].owners;
      assert owners * (gone + {member}) == owners * gone + owners * {member};
      assert owners * {member} == if member in owners then {member} else {};
    }
    forall id | id in middle.rows
      ensures id in Doomed(middle.rows, {member}) <==> id == member || member in before.rows[id].owners
    {
      var owners := middle.rows[id].owners;
      assert owners == before.rows[id].owners;
      assert owners * {member} == if member in owners then {member} else {};
    }
  }

  lemma ReapedCompose(before: Db, gone: set<Id>, middle: Db, member: Id, after: Db)
    requires Reaped(before, gone, middle) && Reaped(middle, {member}, after)
    requires member in middle.rows && middle.rows[member].tenant == before.rows[member].tenant
    ensures Reaped(before, gone + {member}, after)
  {
    DoomedTwice(before, gone, middle, member);
    forall id | id in after.rows
      ensures KeptAs(before.rows[id], after.rows[id], gone + {member}, before.drawn, after.drawn)
    {
      ClearedTwice(before.rows[id], middle.rows[id], after.rows[id], gone, member,
                   before.drawn, middle.drawn, after.drawn);
    }
    assert TenantsOf(before.rows, gone + {member})
        == TenantsOf(before.rows, gone) + TenantsOf(middle.rows, {member});
  }

  lemma {:induction false} ReapEachReaps(db: Db, order: seq<Id>)
    requires Sound(db) && Distinct(order)
    requires forall id :: id in order ==> id in db.rows && db.rows[id].purgedAt.Some?
    ensures Sound(ReapEach(db, order)) && Reaped(db, Elements(order), ReapEach(db, order))
  {
    if order == [] {
      NothingReaped(db);
    } else {
      var init, member := order[..|order| - 1], order[|order| - 1];
      var middle := ReapEach(db, init);
      ElementsOfPrefix(order);
      ReapEachReaps(db, init);
      ReapNext(db, init, middle, member);
    }
  }

  lemma ElementsOfPrefix(order: seq<Id>)
    requires Distinct(order) && order != []
    ensures var init, last := order[..|order| - 1], order[|order| - 1];
            && Distinct(init) && last !in init && last in order && (forall id :: id in init ==> id in order)
            && Elements(order) == Elements(init) + {last}
  {
    var init, last := order[..|order| - 1], order[|order| - 1];
    assert order == init + [last];
  }

  lemma ReapNext(db: Db, init: seq<Id>, middle: Db, member: Id)
    requires Sound(db) && Sound(middle) && Reaped(db, Elements(init), middle)
    requires member in db.rows && db.rows[member].purgedAt.Some? && member !in init
    ensures Sound(ReapOne(middle, member)) && Reaped(db, Elements(init) + {member}, ReapOne(middle, member))
  {
    StillThere(db, init, middle, member);
    ReapOneReaps(middle, member);
    ReapedCompose(db, Elements(init), middle, member, ReapOne(middle, member));
  }

  /** A due member is still there, in the same tenant, when its turn comes. */
  lemma StillThere(before: Db, init: seq<Id>, middle: Db, member: Id)
    requires Schema(before.rows) && RowsReaped(before, Elements(init), middle)
    requires member in before.rows && before.rows[member].purgedAt.Some? && member !in init
    ensures member in middle.rows && middle.rows[member].tenant == before.rows[member].tenant
  {
    assert RowSchema(before.rows[member]);
  }

  lemma MemberRemains(before: Db, due: seq<Id>, i: nat)
    requires Schema(before.rows) && Distinct(due) && i < |due|
    requires due[i] in before.rows && before.rows[due[i]].purgedAt.Some?
    ensures due[i] in ReapEach(before, due[..i]).rows
  {
    assert RowSchema(before.rows[due[i]]);
    KeysOnlyLose(before, due[..i], due[i]);
  }

  lemma {:induction false} KeysOnlyLose(db: Db, order: seq<Id>, member: Id)
    requires member in db.rows && db.rows[member].owners == {} && member !in order
    ensures var after := ReapEach(db, order);
            member in after.rows && after.rows[member].owners == {}
  {
    if order != [] {
      var init, last := order[..|order| - 1], order[|order| - 1];
      assert last in order;
      KeysOnlyLose(db, init, member);
      var middle := ReapEach(db, init);
      NulledRows(middle, last, |NULLED|);
    }
  }
}
