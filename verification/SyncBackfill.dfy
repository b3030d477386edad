/**
 * The two migrations that give existing rows their sync_seq: members first, then five more tables above
 * everything the shared sequence has handed out
 * (backend/alembic/versions/b1c2d3e4f5a6_add_member_sync_seq.py:33-44 and a2b3c4d5e6f7_extend_sync_seq.py:40-65).
 */
module SyncBackfill {
  import opened Records
  import opened Sizes

  datatype Row = Row(updatedAt: int, syncSeq: Option<nat>)

  type Table = map<Id, Row>

  /** The backfill order: (updated_at, id). */
  predicate Earlier(t: Table, a: Id, b: Id)
    requires a in t && b in t
  {
    t[a].updatedAt < t[b].updatedAt || (t[a].updatedAt == t[b].updatedAt && a < b)
  }

  function EarlierRows(t: Table, id: Id): set<Id>
    requires id in t
  {
    set x | x in t && Earlier(t, x, id)
  }

  /** row_number() OVER (ORDER BY updated_at, id). */
  function RowNumber(t: Table, id: Id): nat
    requires id in t
  {
    |EarlierRows(t, id)| + 1
  }

  function Backfilled(t: Table, offset: nat): Table {
    map id | id in t :: t[id].(syncSeq := Some(offset + RowNumber(t, id)))
  }

  function Values(t: Table): set<nat> {
    set id | id in t && t[id].syncSeq.Some? :: t[id].syncSeq.value
  }

  /** Where the shared sequence stands when the loop reaches table `i`. */
  function Offset(tables: seq<Table>, base: nat, i: nat): nat
    requires i <= |tables|
  {
    if i == 0 then base else Offset(tables, base, i - 1) + |tables[i - 1]|
  }

  /** COALESCE(MAX(values), 1). */
  method MaxOrOne(values: set<nat>) returns (m: nat)
    ensures values == {} ==> m == 1
    ensures values != {} ==> m in values && forall v :: v in values ==> v <= m
  {
    if values == {} {
      return 1;
    }
    m :| m in values;
    var rest := values - {m};
    while rest != {}
      invariant rest <= values && m in values
      invariant forall x :: x in values ==> x in rest || x <= m
      decreases |rest|
    {
      var v :| v in rest;
      m := if v > m then v else m;
      rest := rest - {v};
    }
  }

  class SyncDatabase {
    var lastValue: nat
    var isCalled: bool
    var members: Table
    var tables: seq<Table>

    /** A sequence starts at 1, before its first draw. */
    ghost predicate Valid()
      reads this
    {
      lastValue >= 1
    }

    method NextVal() returns (v: nat)
      requires Valid()
      modifies this`lastValue, this`isCalled
      ensures Valid() && isCalled && v == lastValue
      ensures v == if old(isCalled) then old(lastValue) + 1 else old(lastValue)
    {
      lastValue := if isCalled then lastValue + 1 else lastValue;
      isCalled := true;
      v := lastValue;
    }

    method SetVal(v: nat)
      requires v >= 1
      modifies this`lastValue, this`isCalled
      ensures Valid() && lastValue == v && isCalled
    {
      lastValue := v;
      isCalled := true;
    }

    /** The members adoption: numbers from 1, and the sequence moved to the last of them. */
    method UpgradeMembers()
      requires Valid()
      modifies this`members, this`lastValue, this`isCalled
      ensures Valid() && isCalled
      ensures members == Backfilled(old(members), 0)
      ensures lastValue == if old(members) == map[] then 1 else |old(members)|
    {
      BackfillMax(members, 0);
      members := Backfilled(members, 0);
      var m := MaxOrOne(Values(members));
      SetVal(m);
    }

    /** A statement that inserts or updates members draws one value for all the rows it touches. */
    method WriteRows(w: Write)
      requires Valid()
      modifies this`members, this`lastValue, this`isCalled
      ensures Valid() && isCalled
      ensures lastValue == if old(isCalled) then old(lastValue) + 1 else old(lastValue)
      ensures members == Written(old(members), w, lastValue)
    {
      var v := NextVal();
      members := Written(members, w, v);
    }

    /** One table: numbers above the sequence's position, then the sequence moved up if there were any. */
    method UpgradeTable(i: nat)
      requires Valid() && i < |tables|
      modifies this`tables, this`lastValue, this`isCalled
      ensures Valid() && isCalled
      ensures tables == old(tables)[i := Backfilled(old(tables)[i], old(lastValue))]
      ensures lastValue == old(lastValue) + |old(tables)[i]|
    {
      var offset := lastValue;
      BackfillMax(tables[i], offset);
      tables := tables[i := Backfilled(tables[i], offset)];
      var m := MaxOrOne(Values(tables[i]));
      SetVal(if lastValue >= m then lastValue else m);
    }

    /** The loop over the tables; members keep their values. */
    method UpgradeTables()
      requires Valid() && tables != []
      modifies this`tables, this`lastValue, this`isCalled
      ensures Valid() && isCalled && |tables| == |old(tables)|
      ensures forall i :: 0 <= i < |tables| ==> tables[i] == TableAfter(old(tables), old(lastValue), i)
      ensures lastValue == Offset(old(tables), old(lastValue), |tables|)
    {
      UpgradeEach();
      UpgradedAll(old(tables), old(lastValue));
    }

    /** The statements on members between the migrations. */
    method WriteMembers(writes: seq<Write>)
      requires Valid() && isCalled
      modifies this`members, this`lastValue, this`isCalled
      ensures Valid() && isCalled && lastValue == old(lastValue) + |writes|
      ensures members == Rewritten(old(members), old(lastValue), writes)
    {
      ghost var was, base := members, lastValue;
      var i := 0;
      while i < |writes|
        invariant i <= |writes| && Valid() && isCalled && lastValue == base + i
        invariant members == Rewritten(was, base, writes[..i])
      {
        assert writes[..i + 1][..i] == writes[..i];
        WriteRows(writes[i]);
        i := i + 1;
      }
      assert writes[..i] == writes;
    }

    /**
     * Both migrations, with member writes between them, on any tables and any position of the sequence:
     * every row has a value, two rows of members and the other tables share one exactly when they are two
     * members that one statement wrote last, and the sequence stands at or above all of them.
     */
    method BothMigrations(writes: seq<Write>)
      requires Valid() && tables != []
      modifies this
      ensures Valid() && isCalled && |tables| == |old(tables)|
      ensures members == Final(old(members), writes, old(tables), 0)
      ensures forall i :: 0 <= i < |tables| ==> tables[i] == Final(old(members), writes, old(tables), i + 1)
      ensures lastValue == Offset(old(tables), Base(old(members), writes), |tables|)
      ensures AllStamped(members, tables, lastValue) && SharedOnlyInBulk(members, tables, writes)
    {
      RunMigrations(writes);
      AllFinal(old(members), writes, old(tables), members, tables);
    }

    method RunMigrations(writes: seq<Write>)
      requires Valid() && tables != []
      modifies this
      ensures Valid() && isCalled && |tables| == |old(tables)|
      ensures members == Rewritten(Backfilled(old(members), 0), Base(old(members), []), writes)
      ensures forall i :: 0 <= i < |tables| ==> tables[i] == TableAfter(old(tables), Base(old(members), writes), i)
      ensures lastValue == Offset(old(tables), Base(old(members), writes), |tables|)
    {
      UpgradeThenWrite(writes);
      UpgradeTables();
    }

    method UpgradeThenWrite(writes: seq<Write>)
      requires Valid()
      modifies this`members, this`lastValue, this`isCalled
      ensures Valid() && isCalled && lastValue == Base(old(members), writes)
      ensures members == Rewritten(Backfilled(old(members), 0), Base(old(members), []), writes)
    {
      ghost var was := members;
      UpgradeMembers();
      assert lastValue == Base(was, []) && members == Backfilled(was, 0);
      WriteMembers(writes);
      BaseAdds(was, writes);
    }

    method UpgradeEach()
      requires Valid() && tables != []
      modifies this`tables, this`lastValue, this`isCalled
      ensures Valid() && isCalled
      ensures tables == Upgraded(old(tables), old(lastValue), |old(tables)|)
      ensures lastValue == Offset(old(tables), old(lastValue), |old(tables)|)
    {
      ghost var was, base := tables, lastValue;
      var i := 0;
      while i < |tables|
        invariant Valid() && i <= |tables| == |was| && (i > 0 ==> isCalled)
        invariant tables == Upgraded(was, base, i) && lastValue == Offset(was, base, i)
      {
        UpgradedAt(was, base, i, i);
        UpgradeTable(i);
        i := i + 1;
      }
    }
  }

  /** Table `i` after the second migration. */
  function TableAfter(tables: seq<Table>, base: nat, i: nat): Table
    requires i < |tables|
  {
    Backfilled(tables[i], Offset(tables, base, i))
  }

  /** The tables when the loop has done the first `i`. */
  ghost function Upgraded(was: seq<Table>, base: nat, i: nat): (now: seq<Table>)
    requires i <= |was|
    ensures |now| == |was|
  {
    if i == 0 then was else Upgraded(was, base, i - 1)[i - 1 := TableAfter(was, base, i - 1)]
  }

  lemma {:induction false} UpgradedAt(was: seq<Table>, base: nat, i: nat, j: nat)
    requires i <= |was| && j < |was|
    ensures Upgraded(was, base, i)[j] == if j < i then TableAfter(was, base, j) else was[j]
  {
    if i > 0 {
      UpgradedAt(was, base, i - 1, j);
    }
  }

  lemma UpgradedAll(was: seq<Table>, base: nat)
    ensures forall j :: 0 <= j < |was| ==> Upgraded(was, base, |was|)[j] == TableAfter(was, base, j)
  {
    forall j | 0 <= j < |was| {
      UpgradedAt(was, base, |was|, j);
    }
  }

  // ---- one table ----

  lemma EarlierIsTotal(t: Table, a: Id, b: Id)
    requires a in t && b in t
    ensures a == b || Earlier(t, a, b) || Earlier(t, b, a)
    ensures !(Earlier(t, a, b) && Earlier(t, b, a))
  {
  }

  /** row_number() orders the rows exactly as (updated_at, id) does. */
  lemma RowNumberOrder(t: Table, a: Id, b: Id)
    requires a in t && b in t
    ensures RowNumber(t, a) < RowNumber(t, b) <==>
            t[a].updatedAt < t[b].updatedAt || (t[a].updatedAt == t[b].updatedAt && a < b)
  {
    if Earlier(t, a, b) {
      NumberedBelow(t, a, b);
    } else if Earlier(t, b, a) {
      NumberedBelow(t, b, a);
    }
  }

  lemma NumberedBelow(t: Table, a: Id, b: Id)
    requires a in t && b in t && Earlier(t, a, b)
    ensures RowNumber(t, a) < RowNumber(t, b)
  {
    assert a in EarlierRows(t, b) && a !in EarlierRows(t, a);
    assert EarlierRows(t, a) <= EarlierRows(t, b) - {a};
    SubsetSize(EarlierRows(t, a), EarlierRows(t, b) - {a});
  }

  lemma RowNumberBounded(t: Table, id: Id)
    requires id in t
    ensures 1 <= RowNumber(t, id) <= |t|
  {
    assert id !in EarlierRows(t, id);
    SubsetSize(EarlierRows(t, id), t.Keys - {id});
  }

  ghost function Numbers(t: Table, ids: set<Id>): set<int>
    requires ids <= t.Keys
  {
    set id | id in ids :: RowNumber(t, id) as int
  }

  lemma {:induction false} NumbersDistinct(t: Table, ids: set<Id>)
    requires ids <= t.Keys
    ensures |Numbers(t, ids)| == |ids|
    decreases |ids|
  {
    if ids == {} {
      assert Numbers(t, ids) == {};
    } else {
      var id :| id in ids;
      NumbersDistinct(t, ids - {id});
      forall x | x in ids - {id}
        ensures RowNumber(t, x) != RowNumber(t, id)
      {
        EarlierIsTotal(t, x, id);
        RowNumberOrder(t, x, id);
        RowNumberOrder(t, id, x);
      }
      assert Numbers(t, ids) == Numbers(t, ids - {id}) + {RowNumber(t, id)};
    }
  }

  /** The numbers are 1 to n, each used once. */
  lemma NumbersAreOneToN(t: Table)
    ensures Numbers(t, t.Keys) == Span(1, |t| + 1)
  {
    NumbersDistinct(t, t.Keys);
    SpanSize(1, |t| + 1);
    forall id | id in t
      ensures Between(1, RowNumber(t, id), |t| + 1)
    {
      RowNumberBounded(t, id);
    }
    SubsetSize(Numbers(t, t.Keys), Span(1, |t| + 1));
  }

  lemma BackfilledBounded(t: Table, offset: nat)
    ensures forall v :: v in Values(Backfilled(t, offset)) ==> offset < v <= offset + |t|
  {
    forall id | id in t {
      RowNumberBounded(t, id);
    }
  }

  lemma LastNumberUsed(t: Table) returns (id: Id)
    requires t != map[]
    ensures id in t && RowNumber(t, id) == |t|
  {
    NumbersAreOneToN(t);
    assert Between(1, |t|, |t| + 1);
    assert |t| in Numbers(t, t.Keys);
    id :| id in t && RowNumber(t, id) == |t|;
  }

  /** The greatest value assigned is offset + n, so the next table starts right above this one. */
  lemma BackfillMax(t: Table, offset: nat)
    ensures forall v :: v in Values(Backfilled(t, offset)) ==> offset < v <= offset + |t|
    ensures t != map[] ==> offset + |t| in Values(Backfilled(t, offset))
    ensures t == map[] ==> Values(Backfilled(t, offset)) == {}
  {
    BackfilledBounded(t, offset);
    if t != map[] {
      var id := LastNumberUsed(t);
      assert Backfilled(t, offset)[id].syncSeq == Some(offset + |t|);
    }
  }

  // ---- all of them ----

  lemma {:induction false} OffsetGrows(tables: seq<Table>, base: nat, i: nat, j: nat)
    requires i <= j <= |tables|
    ensures Offset(tables, base, i) <= Offset(tables, base, j)
    ensures i < j ==> Offset(tables, base, i) + |tables[i]| <= Offset(tables, base, j)
    decreases j - i
  {
    if i < j {
      OffsetGrows(tables, base, i, j - 1);
    }
  }

  /** The values order all rows by (table, updated_at, id), from just above the base to the sequence's new position. */
  lemma BackfillOrder(tables: seq<Table>, base: nat, i: nat, a: Id, j: nat, b: Id)
    requires i < |tables| && j < |tables| && a in tables[i] && b in tables[j]
    ensures var s, t := TableAfter(tables, base, i), TableAfter(tables, base, j);
            && s.Keys == tables[i].Keys && s[a].updatedAt == tables[i][a].updatedAt
            && (s[a].syncSeq.value < t[b].syncSeq.value <==>
                || i < j
                || (i == j && tables[i][a].updatedAt < tables[i][b].updatedAt)
                || (i == j && tables[i][a].updatedAt == tables[i][b].updatedAt && a < b))
            && base < s[a].syncSeq.value <= Offset(tables, base, |tables|)
  {
    RowNumberBounded(tables[i], a);
    RowNumberBounded(tables[j], b);
    OffsetGrows(tables, base, 0, i);
    OffsetGrows(tables, base, i, |tables|);
    if i < j {
      OffsetGrows(tables, base, i, j);
    } else if j < i {
      OffsetGrows(tables, base, j, i);
    } else {
      RowNumberOrder(tables[i], a, b);
    }
  }

  // ---- both migrations, with member writes between them ----

  /** One statement: the members it inserts or updates, and when. */
  datatype Write = Write(ids: set<Id>, updatedAt: int)

  function Written(members: Table, w: Write, v: nat): Table {
    members + map id | id in w.ids :: Row(w.updatedAt, Some(v))
  }

  /** Members after a list of statements, each with the next value. */
  function Rewritten(members: Table, last: nat, writes: seq<Write>): Table {
    if writes == [] then members
    else Written(Rewritten(members, last, writes[..|writes| - 1]), writes[|writes| - 1], last + |writes|)
  }

  /** The last statement that wrote the member. */
  function LastWrite(writes: seq<Write>, id: Id): (at: Option<nat>)
    ensures at.Some? ==>
              at.value < |writes| && id in writes[at.value].ids
              && forall k :: at.value < k < |writes| ==> id !in writes[k].ids
    ensures at.None? ==> forall w :: w in writes ==> id !in w.ids
  {
    if writes == [] then None
    else if id in writes[|writes| - 1].ids then Some(|writes| - 1)
    else LastWrite(writes[..|writes| - 1], id)
  }

  ghost predicate DistinctUpTo(t: Table, last: nat) {
    && (forall id :: id in t ==> t[id].syncSeq.Some? && t[id].syncSeq.value <= last)
    && forall a, b :: a in t && b in t && a != b ==> t[a].syncSeq != t[b].syncSeq
  }

  lemma MembersDistinct(members: Table)
    ensures DistinctUpTo(Backfilled(members, 0), |members|)
  {
    forall a | a in members
      ensures RowNumber(members, a) <= |members|
    {
      RowNumberBounded(members, a);
    }
    forall a, b | a in members && b in members && a != b
      ensures RowNumber(members, a) != RowNumber(members, b)
    {
      EarlierIsTotal(members, a, b);
      RowNumberOrder(members, a, b);
      RowNumberOrder(members, b, a);
    }
  }

  /** A member has the value of the last statement that wrote it, or its own from before. */
  lemma {:induction false} RewrittenValue(members: Table, last: nat, writes: seq<Write>, id: Id)
    requires id in Rewritten(members, last, writes)
    ensures var at := LastWrite(writes, id);
            && (at.Some? ==> Rewritten(members, last, writes)[id] ==
                             Row(writes[at.value].updatedAt, Some(last + at.value + 1)))
            && (at.None? ==> id in members && Rewritten(members, last, writes)[id] == members[id])
  {
    if writes != [] && id !in writes[|writes| - 1].ids {
      RewrittenValue(members, last, writes[..|writes| - 1], id);
    }
  }

  /** One statement wrote both, and none of them was written after it. */
  predicate WrittenTogether(writes: seq<Write>, a: Id, b: Id) {
    LastWrite(writes, a).Some? && LastWrite(writes, a) == LastWrite(writes, b)
  }

  lemma RewrittenShareIff(members: Table, last: nat, writes: seq<Write>, a: Id, b: Id)
    requires DistinctUpTo(members, last) && a != b
    requires a in Rewritten(members, last, writes) && b in Rewritten(members, last, writes)
    ensures Rewritten(members, last, writes)[a].syncSeq == Rewritten(members, last, writes)[b].syncSeq <==>
            WrittenTogether(writes, a, b)
  {
    RewrittenValue(members, last, writes, a);
    RewrittenValue(members, last, writes, b);
  }

  /** Where the sequence stands before the second migration. */
  function Base(members: Table, writes: seq<Write>): nat {
    (if members == map[] then 1 else |members|) + |writes|
  }

  lemma BaseAdds(members: Table, writes: seq<Write>)
    ensures Base(members, writes) == Base(members, []) + |writes|
  {
  }

  /** Members (position 0) and the other tables, as both migrations leave them. */
  function Final(members: Table, writes: seq<Write>, tables: seq<Table>, i: nat): Table
    requires i <= |tables|
  {
    if i == 0 then Rewritten(Backfilled(members, 0), Base(members, []), writes)
    else TableAfter(tables, Base(members, writes), i - 1)
  }

  lemma MembersUpToBase(members: Table, writes: seq<Write>, id: Id)
    requires id in Final(members, writes, [], 0)
    ensures var v := Final(members, writes, [], 0)[id].syncSeq; v.Some? && v.value <= Base(members, writes)
  {
    MembersDistinct(members);
    RewrittenValue(Backfilled(members, 0), Base(members, []), writes, id);
  }

  /** The sequence ends at or above every assigned value, and members stay below the other tables. */
  lemma FinalBounded(members: Table, writes: seq<Write>, tables: seq<Table>, i: nat, id: Id)
    requires i <= |tables| && id in Final(members, writes, tables, i)
    ensures var v := Final(members, writes, tables, i)[id].syncSeq;
            && v.Some? && v.value <= Offset(tables, Base(members, writes), |tables|)
            && (i == 0 <==> v.value <= Base(members, writes))
  {
    if i == 0 {
      MembersUpToBase(members, writes, id);
      OffsetGrows(tables, Base(members, writes), 0, |tables|);
    } else {
      BackfillOrder(tables, Base(members, writes), i - 1, id, i - 1, id);
    }
  }

  lemma MembersShareIff(members: Table, writes: seq<Write>, a: Id, b: Id)
    requires a != b && a in Final(members, writes, [], 0) && b in Final(members, writes, [], 0)
    ensures Final(members, writes, [], 0)[a].syncSeq == Final(members, writes, [], 0)[b].syncSeq <==>
            WrittenTogether(writes, a, b)
  {
    MembersDistinct(members);
    RewrittenShareIff(Backfilled(members, 0), Base(members, []), writes, a, b);
  }

  lemma TablesNeverShare(tables: seq<Table>, base: nat, i: nat, a: Id, j: nat, b: Id)
    requires i < |tables| && j < |tables| && (i, a) != (j, b) && a in tables[i] && b in tables[j]
    ensures TableAfter(tables, base, i)[a].syncSeq != TableAfter(tables, base, j)[b].syncSeq
  {
    BackfillOrder(tables, base, i, a, j, b);
    BackfillOrder(tables, base, j, b, i, a);
  }

  /**
   * Whatever the tables held, and whatever was written to members between the two migrations: two rows
   * of members and the five tables share a value exactly when they are members written together last.
   */
  lemma BothMigrationsShareIff(members: Table, writes: seq<Write>, tables: seq<Table>, i: nat, a: Id, j: nat, b: Id)
    requires i <= |tables| && j <= |tables| && (i, a) != (j, b)
    requires a in Final(members, writes, tables, i) && b in Final(members, writes, tables, j)
    ensures Final(members, writes, tables, i)[a].syncSeq == Final(members, writes, tables, j)[b].syncSeq <==>
            i == j == 0 && WrittenTogether(writes, a, b)
  {
    if i == 0 && j == 0 {
      MembersShareIff(members, writes, a, b);
    } else if i == 0 || j == 0 {
      FinalBounded(members, writes, tables, i, a);
      FinalBounded(members, writes, tables, j, b);
    } else {
      TablesNeverShare(tables, Base(members, writes), i - 1, a, j - 1, b);
    }
  }

  /** Table 0 is members, table `i + 1` the other tables' number `i`. */
  function TableAt(members: Table, tables: seq<Table>, i: nat): Table
    requires i <= |tables|
  {
    if i == 0 then members else tables[i - 1]
  }

  ghost predicate AllStamped(members: Table, tables: seq<Table>, last: nat) {
    forall i, id :: 0 <= i <= |tables| && id in TableAt(members, tables, i) ==>
      StampedUpTo(TableAt(members, tables, i)[id], last)
  }

  predicate StampedUpTo(r: Row, last: nat) { r.syncSeq.Some? && r.syncSeq.value <= last }

  ghost predicate SharedOnlyInBulk(members: Table, tables: seq<Table>, writes: seq<Write>) {
    forall i, a, j, b :: 0 <= i <= |tables| && 0 <= j <= |tables| && (i, a) != (j, b)
                         && a in TableAt(members, tables, i) && b in TableAt(members, tables, j) ==>
      (TableAt(members, tables, i)[a].syncSeq == TableAt(members, tables, j)[b].syncSeq <==>
       i == j == 0 && WrittenTogether(writes, a, b))
  }

  lemma AllFinal(before: Table, writes: seq<Write>, was: seq<Table>, members: Table, tables: seq<Table>)
    requires |tables| == |was| && members == Final(before, writes, was, 0)
    requires forall i :: 0 <= i < |tables| ==> tables[i] == TableAfter(was, Base(before, writes), i)
    ensures forall i :: 0 <= i < |tables| ==> tables[i] == Final(before, writes, was, i + 1)
    ensures AllStamped(members, tables, Offset(was, Base(before, writes), |was|))
    ensures SharedOnlyInBulk(members, tables, writes)
  {
    assert forall i :: 0 <= i <= |tables| ==> TableAt(members, tables, i) == Final(before, writes, was, i);
    forall i, id | 0 <= i <= |tables| && id in TableAt(members, tables, i)
      ensures StampedUpTo(TableAt(members, tables, i)[id], Offset(was, Base(before, writes), |was|))
    {
      FinalBounded(before, writes, was, i, id);
    }
    forall i, a, j, b | 0 <= i <= |tables| && 0 <= j <= |tables| && (i, a) != (j, b)
                        && a in TableAt(members, tables, i) && b in TableAt(members, tables, j)
      ensures TableAt(members, tables, i)[a].syncSeq == TableAt(members, tables, j)[b].syncSeq <==>
              i == j == 0 && WrittenTogether(writes, a, b)
    {
      BothMigrationsShareIff(before, writes, was, i, a, j, b);
    }
  }
}
