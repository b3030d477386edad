/**
 * Offboarding a tenant: the export bundle and the hard delete that walks the tenant's tables in
 * reverse dependency order (backend/app/core/deletion.py:282-299, 330-345).
 */
module TenantPurge {
  import opened Records
  import opened Sizes

  /** A row of a tenant-scoped table; `refs` are its foreign keys as (table position, row id). */
  datatype TenantRow = TenantRow(tenant: Id, refs: set<(nat, Id)>)

  /** The tenant-scoped tables in dependency order. */
  type Tables = seq<map<Id, TenantRow>>

  predicate Resolves(tables: Tables, ref: (nat, Id)) {
    ref.0 < |tables| && ref.1 in tables[ref.0]
  }

  predicate RowIntact(tables: Tables, r: TenantRow) {
    forall ref :: ref in r.refs ==> Resolves(tables, ref)
  }

  /** Every foreign key of every row has its target. */
  predicate Intact(tables: Tables) {
    forall i, id :: 0 <= i < |tables| && id in tables[i] ==> RowIntact(tables, tables[i][id])
  }

  function OfTenant(rows: map<Id, TenantRow>, tenant: Id): map<Id, TenantRow> {
    map id | id in rows && rows[id].tenant == tenant :: rows[id]
  }

  function Without(rows: map<Id, TenantRow>, tenant: Id): map<Id, TenantRow> {
    map id | id in rows && rows[id].tenant != tenant :: rows[id]
  }

  /** The tables once those from position `k` on have been purged. */
  function PurgedFrom(tables: Tables, tenant: Id, k: nat): (after: Tables)
    ensures |after| == |tables|
    ensures forall i :: 0 <= i < |tables| ==> after[i] == if i >= k then Without(tables[i], tenant) else tables[i]
    decreases |tables| - k
  {
    if k >= |tables| then tables
    else PurgedFrom(tables, tenant, k + 1)[k := Without(tables[k], tenant)]
  }

  /** Every key that points at the tenant's rows is held by one of the tenant's rows, in the same or a later table. */
  ghost predicate PointsBack(tables: Tables, tenant: Id) {
    forall i, id :: 0 <= i < |tables| && id in tables[i] ==> RowPointsBack(tables, tenant, i, tables[i][id])
  }

  predicate RowPointsBack(tables: Tables, tenant: Id, i: nat, r: TenantRow) {
    forall ref :: ref in r.refs && Resolves(tables, ref) && tables[ref.0][ref.1].tenant == tenant ==>
      r.tenant == tenant && ref.0 <= i
  }

  class TenantStore {
    const names: seq<string>
    var tables: Tables
    var tenants: set<Id>

    ghost predicate Valid()
      reads this
    {
      |names| == |tables| && Distinct(names) && Intact(tables)
    }

    /** The export: per table, every row of the tenant, soft-deleted ones included. */
    method ExportTenant(tenant: Id) returns (bundle: map<string, map<Id, TenantRow>>)
      requires Valid()
      ensures bundle.Keys == Elements(names)
      ensures forall i :: 0 <= i < |names| ==> bundle[names[i]] == OfTenant(tables[i], tenant)
    {
      bundle := map[];
      var i := 0;
      while i < |names|
        invariant i <= |names|
        invariant bundle.Keys == Elements(names[..i])
        invariant forall j :: 0 <= j < i ==> bundle[names[j]] == OfTenant(tables[j], tenant)
      {
        assert names[..i + 1] == names[..i] + [names[i]];
        bundle := bundle[names[i] := OfTenant(tables[i], tenant)];
        i := i + 1;
      }
      assert names[..i] == names;
    }

    /** DELETE FROM one table WHERE tenant_id = tenant; fails when a key would be left without its target. */
    method DeleteRows(i: nat, tenant: Id) returns (ok: bool, rowcount: nat)
      requires i < |tables|
      modifies this`tables
      ensures rowcount == |OfTenant(old(tables)[i], tenant)|
      ensures tables == if ok then old(tables)[i := Without(old(tables)[i], tenant)] else old(tables)
      ensures ok <==> Intact(old(tables)[i := Without(old(tables)[i], tenant)])
    {
      var after := tables[i := Without(tables[i], tenant)];
      rowcount := |OfTenant(tables[i], tenant)|;
      ok := Intact(after);
      if ok {
        tables := after;
      }
    }

    /**
     * The purge: children first, then the tenant itself. It goes through exactly when every key into
     * the tenant's rows points back; `counts` lists the tables that lost rows, with how many.
     */
    method PurgeTenant(tenant: Id) returns (ok: bool, counts: map<string, nat>)
      requires Valid()
      modifies this
      ensures Valid()
      ensures ok <==> PointsBack(old(tables), tenant)
      ensures ok ==> tables == PurgedFrom(old(tables), tenant, 0) && tenants == old(tenants) - {tenant}
      ensures ok ==> counts == Counted(names, old(tables), tenant, 0)
    {
      ghost var was := tables;
      ok, counts := PurgeTables(tenant);
      if ok {
        IntactSincePointsBack(was, tenant);
        tenants := tenants - {tenant};
      }
    }

    /** The loop over the tables; it stops when a key would be left without its target. */
    method PurgeTables(tenant: Id) returns (ok: bool, counts: map<string, nat>)
      requires |names| == |tables| && Intact(tables)
      modifies this`tables
      ensures |tables| == |old(tables)| && Intact(tables)
      ensures if ok then PurgedTo(old(tables), tenant, 0, counts) else !PointsBack(old(tables), tenant)
    {
      ghost var was := tables;
      counts := map[];
      ok := true;
      var i: nat := |tables|;
      NothingPurged(was, tenant);
      while i > 0
        invariant i <= |was| == |names| && Intact(tables)
        invariant PurgedTo(was, tenant, i, counts)
      {
        ok, counts := PurgeTable(i - 1, tenant, counts, was);
        if !ok {
          return;
        }
        i := i - 1;
      }
    }

    /** The tables and the counts when the purge has done every table from position `i` on. */
    ghost predicate PurgedTo(was: Tables, tenant: Id, i: nat, counts: map<string, nat>)
      requires i <= |was| == |names|
      reads this
    {
      && tables == PurgedFrom(was, tenant, i) && IntactSince(was, tenant, i)
      && counts == Counted(names, was, tenant, i)
    }

    /** One iteration: it stops the purge when a key would dangle, and counts the table when it lost rows. */
    method PurgeTable(i: nat, tenant: Id, counts: map<string, nat>, ghost was: Tables)
      returns (ok: bool, after: map<string, nat>)
      requires i < |was| == |names| && Intact(was) && Intact(tables) && PurgedTo(was, tenant, i + 1, counts)
      modifies this`tables
      ensures Intact(tables) && |tables| == |was|
      ensures if ok then PurgedTo(was, tenant, i, after) else !PointsBack(was, tenant)
    {
      PurgeOneMore(was, tenant, i);
      var n;
      ok, n := DeleteRows(i, tenant);
      after := if n > 0 then counts[names[i] := n] else counts;
      if !ok {
        DanglingPointsForward(was, tenant, i);
      }
    }
  }

  /** The counts after the tables from position `k` on: only tables that lost rows are listed. */
  function Counted(names: seq<string>, was: Tables, tenant: Id, k: nat): map<string, nat>
    requires |names| == |was|
    decreases |was| - k
  {
    if k >= |was| then map[]
    else
      var later, n := Counted(names, was, tenant, k + 1), |OfTenant(was[k], tenant)|;
      if n > 0 then later[names[k] := n] else later
  }

  // ---- one table more ----

  lemma NothingPurged(tables: Tables, tenant: Id)
    ensures PurgedFrom(tables, tenant, |tables|) == tables
  {
  }

  lemma PurgeOneMore(tables: Tables, tenant: Id, i: nat)
    requires i < |tables|
    ensures var next := PurgedFrom(tables, tenant, i + 1);
            && next[i] == tables[i]
            && next[i := Without(next[i], tenant)] == PurgedFrom(tables, tenant, i)
  {
  }

  // ---- referential integrity ----

  /** While the tables from `k` on are purged, what is left is intact if every key points back. */
  lemma PointingBackIsIntact(tables: Tables, tenant: Id, k: nat)
    requires Intact(tables) && PointsBack(tables, tenant)
    ensures Intact(PurgedFrom(tables, tenant, k))
  {
    var after := PurgedFrom(tables, tenant, k);
    forall i, id | 0 <= i < |after| && id in after[i]
      ensures RowIntact(after, after[i][id])
    {
      assert RowIntact(tables, tables[i][id]) && RowPointsBack(tables, tenant, i, tables[i][id]);
      forall ref | ref in after[i][id].refs
        ensures Resolves(after, ref)
      {
        assert Resolves(tables, ref);
      }
    }
  }

  lemma DanglingPointsForward(tables: Tables, tenant: Id, k: nat)
    requires Intact(tables) && !Intact(PurgedFrom(tables, tenant, k))
    ensures !PointsBack(tables, tenant)
  {
    if PointsBack(tables, tenant) {
      PointingBackIsIntact(tables, tenant, k);
    }
  }

  /** Intact after each iteration of the purge, from the last table down to position `k`. */
  ghost predicate IntactSince(tables: Tables, tenant: Id, k: nat)
    requires k <= |tables|
    decreases |tables| - k
  {
    Intact(PurgedFrom(tables, tenant, k)) && (k < |tables| ==> IntactSince(tables, tenant, k + 1))
  }

  lemma {:induction false} IntactSinceEach(tables: Tables, tenant: Id, k: nat, j: nat)
    requires k <= j <= |tables| && IntactSince(tables, tenant, k)
    ensures Intact(PurgedFrom(tables, tenant, j))
    decreases j - k
  {
    if k < j {
      IntactSinceEach(tables, tenant, k + 1, j);
    }
  }

  lemma IntactSincePointsBack(tables: Tables, tenant: Id)
    requires Intact(tables) && IntactSince(tables, tenant, 0)
    ensures PointsBack(tables, tenant)
  {
    forall k | 0 <= k <= |tables| {
      IntactSinceEach(tables, tenant, 0, k);
    }
    EveryPrefixIntactIff(tables, tenant);
  }

  /** Another tenant's key dangles at the end; one that points forward, once its target's table is purged. */
  lemma ForwardKeyDangles(tables: Tables, tenant: Id, i: nat, id: Id, ref: (nat, Id))
    requires i < |tables| && id in tables[i] && ref in tables[i][id].refs
    requires Resolves(tables, ref) && tables[ref.0][ref.1].tenant == tenant
    requires tables[i][id].tenant != tenant || ref.0 > i
    ensures !Intact(PurgedFrom(tables, tenant, if tables[i][id].tenant != tenant then 0 else ref.0))
  {
    var after := PurgedFrom(tables, tenant, if tables[i][id].tenant != tenant then 0 else ref.0);
    assert id in after[i] && !Resolves(after, ref);
    assert !RowIntact(after, after[i][id]);
  }

  /** Every iteration of the purge leaves the tables intact exactly when every key into the tenant points back. */
  lemma EveryPrefixIntactIff(tables: Tables, tenant: Id)
    requires Intact(tables)
    ensures (forall k :: 0 <= k <= |tables| ==> Intact(PurgedFrom(tables, tenant, k))) <==> PointsBack(tables, tenant)
  {
    if PointsBack(tables, tenant) {
      forall k | 0 <= k <= |tables| {
        PointingBackIsIntact(tables, tenant, k);
      }
    } else {
      var i, id :| 0 <= i < |tables| && id in tables[i] && !RowPointsBack(tables, tenant, i, tables[i][id]);
      var ref :| ref in tables[i][id].refs && Resolves(tables, ref) && tables[ref.0][ref.1].tenant == tenant
                 && !(tables[i][id].tenant == tenant && ref.0 <= i);
      ForwardKeyDangles(tables, tenant, i, id, ref);
    }
  }

  // ---- what leaves and what stays ----

  lemma RowsPartition(rows: map<Id, TenantRow>, tenant: Id)
    ensures OfTenant(rows, tenant).Keys !! Without(rows, tenant).Keys
    ensures OfTenant(rows, tenant) + Without(rows, tenant) == rows
    ensures OfTenant(Without(rows, tenant), tenant) == map[]
    ensures |rows| == |OfTenant(rows, tenant)| + |Without(rows, tenant)|
  {
    var gone, left := OfTenant(rows, tenant), Without(rows, tenant);
    assert gone + left == rows;
    assert rows.Keys == gone.Keys + left.Keys;
  }

  /** What the purge removes is what the export bundled, and the two together are the table as it was. */
  lemma ExportAndRestPartition(tables: Tables, tenant: Id, i: nat)
    requires i < |tables|
    ensures var after := PurgedFrom(tables, tenant, 0);
            && OfTenant(tables[i], tenant).Keys !! after[i].Keys
            && OfTenant(tables[i], tenant) + after[i] == tables[i]
            && OfTenant(after[i], tenant) == map[]
            && |tables[i]| == |OfTenant(tables[i], tenant)| + |after[i]|
  {
    RowsPartition(tables[i], tenant);
  }

  /** Another tenant exports the same bundle before and after. */
  lemma OtherTenantsKeepTheirExport(tables: Tables, tenant: Id, other: Id, i: nat)
    requires i < |tables| && other != tenant
    ensures OfTenant(PurgedFrom(tables, tenant, 0)[i], other) == OfTenant(tables[i], other)
  {
  }

  // ---- counts ----

  lemma {:induction false} CountedNames(names: seq<string>, tables: Tables, tenant: Id, k: nat, name: string)
    requires |names| == |tables| && name in Counted(names, tables, tenant, k)
    ensures exists i :: k <= i < |names| && names[i] == name
    decreases |tables| - k
  {
    if k < |tables| && names[k] != name {
      CountedNames(names, tables, tenant, k + 1, name);
    }
  }

  lemma {:induction false} CountedAt(names: seq<string>, tables: Tables, tenant: Id, k: nat, i: nat)
    requires |names| == |tables| && Distinct(names) && k <= i < |names|
    ensures CountIs(Counted(names, tables, tenant, k), names[i], |OfTenant(tables[i], tenant)|)
    decreases |tables| - k
  {
    if k < i {
      CountedAt(names, tables, tenant, k + 1, i);
    } else if names[k] in Counted(names, tables, tenant, k + 1) {
      CountedNames(names, tables, tenant, k + 1, names[k]);
    }
  }

  predicate CountIs(counts: map<string, nat>, name: string, n: nat) {
    if n > 0 then name in counts && counts[name] == n else name !in counts
  }

  /** The audit counts are the bundle's sizes: a table is counted when its bundle is not empty, and with that size. */
  lemma CountsAreBundleSizes(names: seq<string>, tables: Tables, tenant: Id, bundle: map<string, map<Id, TenantRow>>)
    requires |names| == |tables| && Distinct(names) && bundle.Keys == Elements(names)
    requires forall i :: 0 <= i < |names| ==> bundle[names[i]] == OfTenant(tables[i], tenant)
    ensures Counted(names, tables, tenant, 0).Keys <= bundle.Keys
    ensures forall name :: name in bundle ==> CountIs(Counted(names, tables, tenant, 0), name, |bundle[name]|)
  {
    forall name | name in Counted(names, tables, tenant, 0)
      ensures name in bundle
    {
      CountedNames(names, tables, tenant, 0, name);
    }
    forall name | name in bundle
      ensures CountIs(Counted(names, tables, tenant, 0), name, |bundle[name]|)
    {
      var i :| 0 <= i < |names| && names[i] == name;
      CountedAt(names, tables, tenant, 0, i);
    }
  }

  // ---- the same, in terms of the rows alone ----

  /**
   * A row is exported when it is the tenant's and survives the purge unchanged when it is not; a table is
   * counted when it held some row of the tenant, with the number of those rows.
   */
  lemma PurgedRows(names: seq<string>, tables: Tables, tenant: Id, i: nat, id: Id)
    requires |names| == |tables| && Distinct(names) && i < |tables|
    ensures var bundle, after := OfTenant(tables[i], tenant), PurgedFrom(tables, tenant, 0)[i];
            && (id in bundle <==> id in tables[i] && tables[i][id].tenant == tenant)
            && (id in after <==> id in tables[i] && tables[i][id].tenant != tenant)
            && (id in bundle ==> bundle[id] == tables[i][id]) && (id in after ==> after[id] == tables[i][id])
    ensures var counts := Counted(names, tables, tenant, 0);
            var rows := set r | r in tables[i] && tables[i][r].tenant == tenant;
            && (names[i] in counts <==> exists r :: r in tables[i] && tables[i][r].tenant == tenant)
            && (names[i] in counts ==> counts[names[i]] == |rows|)
    ensures forall name :: name in Counted(names, tables, tenant, 0) ==> name in names
  {
    var rows := set r | r in tables[i] && tables[i][r].tenant == tenant;
    CountedAt(names, tables, tenant, 0, i);
    assert OfTenant(tables[i], tenant).Keys == rows;
    if r :| r in tables[i] && tables[i][r].tenant == tenant {
      assert r in rows;
    } else {
      assert rows == {};
    }
    forall name | name in Counted(names, tables, tenant, 0)
      ensures name in names
    {
      CountedNames(names, tables, tenant, 0, name);
    }
  }
}
