/**
 * The migration that folds patrols into groups and memberships, and its inverse
 * (backend/alembic/versions/e7f8a9b0c1d2_fold_patrol_into_groups.py:105-130, 133-175).
 */
module PatrolFold {
  import opened Records

  datatype Patrol = Patrol(name: string, tenant: Id, createdAt: int, updatedAt: int, isDeleted: bool)

  datatype GroupType = Manual | Dynamic | PatrolType

  datatype Group = Group(tenant: Id, name: string, description: Option<string>, groupType: GroupType,
                         color: Option<string>, isSystem: bool, createdAt: int, updatedAt: int, isDeleted: bool)

  datatype Membership = Membership(tenant: Id, group: Id, member: Id, addedBy: Option<Id>, at: int, isDeleted: bool)

  /**
   * `members` maps each member to its tenant and `patrolIds` holds the members' non-null patrol_id;
   * the columns and tables a revision does not have are empty.
   */
  datatype Db = Db(members: map<Id, Id>, patrolIds: map<Id, Id>, patrols: map<Id, Patrol>,
                   groups: map<Id, Group>, memberships: set<Membership>)

  // ---- upgrade ----

  function AsGroup(p: Patrol): Group {
    Group(p.tenant, p.name, None, PatrolType, None, false, p.createdAt, p.updatedAt, p.isDeleted)
  }

  /** uq_groups_tenant_name, which counts deleted rows too. */
  predicate UniqueNames(groups: map<Id, Group>) {
    forall a, b :: a in groups && b in groups && a != b ==> !SameName(groups[a], groups[b])
  }

  predicate SameName(g: Group, h: Group) { g.tenant == h.tenant && g.name == h.name }

  /** Every membership has its group and its member. */
  predicate MembershipsResolve(db: Db) {
    forall gm :: gm in db.memberships ==> gm.group in db.groups && gm.member in db.members
  }

  function Folded(db: Db, now: int): Db
    requires db.patrolIds.Keys <= db.members.Keys
  {
    Db(db.members, map[], map[],
       map id | id in db.patrols :: AsGroup(db.patrols[id]),
       set m | m in db.patrolIds :: Membership(db.members[m], db.patrolIds[m], m, None, now, false))
  }

  // ---- downgrade ----

  function AsPatrol(g: Group): Patrol { Patrol(g.name, g.tenant, g.createdAt, g.updatedAt, g.isDeleted) }

  function PatrolsOf(groups: map<Id, Group>): map<Id, Patrol> {
    map id | id in groups && groups[id].groupType == PatrolType :: AsPatrol(groups[id])
  }

  /** The patrols a member belongs to through live memberships. */
  function LivePatrols(db: Db, member: Id): set<Id> {
    set gm | gm in db.memberships && gm.member == member && !gm.isDeleted
             && gm.group in db.groups && db.groups[gm.group].groupType == PatrolType :: gm.group
  }

  /** UPDATE ... FROM: a member with live patrol memberships gets one of them, the others stay NULL. */
  ghost predicate Unfolds(before: Db, after: Db) {
    && after.members == before.members && after.groups == map[] && after.memberships == {}
    && after.patrols == PatrolsOf(before.groups)
    && after.patrolIds.Keys <= before.members.Keys
    && forall m :: m in before.members ==> Assigned(LivePatrols(before, m), m, after.patrolIds)
  }

  predicate Assigned(options: set<Id>, member: Id, patrolIds: map<Id, Id>) {
    if options == {} then member !in patrolIds else member in patrolIds && patrolIds[member] in options
  }

  class TroopDatabase {
    var members: map<Id, Id>
    var patrolIds: map<Id, Id>
    var patrols: map<Id, Patrol>
    var groups: map<Id, Group>
    var memberships: set<Membership>

    ghost function State(): Db
      reads this
    {
      Db(members, patrolIds, patrols, groups, memberships)
    }

    /**
     * The upgrade: it goes through exactly when patrol names are unique in each tenant, deleted patrols
     * included, and every patrol_id has its patrol; otherwise a constraint of the new tables refuses it.
     */
    method Upgrade(now: int) returns (ok: bool)
      requires groups == map[] && memberships == {} && patrolIds.Keys <= members.Keys
      modifies this
      ensures ok <==> NamesUnique(old(patrols)) && old(patrolIds).Values <= old(patrols).Keys
      ensures State() == if ok then Folded(old(State()), now) else old(State())
    {
      var folded := map id | id in patrols :: AsGroup(patrols[id]);
      FoldedNames(patrols, folded);
      if !UniqueNames(folded) {
        return false;
      }
      var joined := set m | m in patrolIds :: Membership(members[m], patrolIds[m], m, None, now, false);
      JoinedResolve(State(), now);
      if !MembershipsResolve(Db(members, patrolIds, patrols, folded, joined)) {
        return false;
      }
      groups, memberships, patrolIds, patrols := folded, joined, map[], map[];
      ok := true;
    }

    method Downgrade()
      requires patrolIds == map[] && patrols == map[]
      modifies this
      ensures Unfolds(old(State()), State())
    {
      patrols := PatrolsOf(groups);
      var chosen := AssignPatrols();
      patrolIds, groups, memberships := chosen, map[], {};
    }

    method AssignPatrols() returns (chosen: map<Id, Id>)
      ensures chosen.Keys <= members.Keys
      ensures forall m :: m in members ==> Assigned(LivePatrols(State(), m), m, chosen)
    {
      chosen := map[];
      var pending := members.Keys;
      while pending != {}
        invariant pending <= members.Keys && chosen.Keys <= members.Keys - pending
        invariant forall m :: m in members && m !in pending ==> Assigned(LivePatrols(State(), m), m, chosen)
        decreases |pending|
      {
        var member :| member in pending;
        var options := LivePatrols(Db(members, patrolIds, patrols, groups, memberships), member);
        if options != {} {
          var patrol :| patrol in options;
          chosen := chosen[member := patrol];
        }
        pending := pending - {member};
      }
    }
  }

  // ---- what the statements write, row by row ----

  /** Each patrol becomes the group with its id, and each assignment a live membership of the member's tenant. */
  lemma FoldedRows(db: Db, now: int, gm: Membership)
    requires db.patrolIds.Keys <= db.members.Keys
    ensures var after := Folded(db, now);
            && after.members == db.members && after.patrolIds == map[] && after.patrols == map[]
            && after.groups.Keys == db.patrols.Keys
            && (forall id :: id in db.patrols ==>
                 var p, g := db.patrols[id], after.groups[id];
                 && g.groupType == PatrolType && (g.tenant, g.name, g.isDeleted) == (p.tenant, p.name, p.isDeleted)
                 && (g.createdAt, g.updatedAt) == (p.createdAt, p.updatedAt)
                 && g.description == None && g.color == None && !g.isSystem)
            && (gm in after.memberships <==>
                 && gm.member in db.patrolIds && gm.group == db.patrolIds[gm.member]
                 && gm.tenant == db.members[gm.member] && gm.addedBy == None && gm.at == now && !gm.isDeleted)
  {
  }

  /** `gm` puts the member in patrol `id`. */
  predicate InPatrol(db: Db, gm: Membership, member: Id, id: Id) {
    && gm in db.memberships && gm.member == member && !gm.isDeleted && gm.group == id
    && id in db.groups && db.groups[id].groupType == PatrolType
  }

  /**
   * Patrol groups, deleted ones included, come back as patrols and other groups do not; a member ends
   * with a patrol exactly when some live membership is in one, and then with such a one.
   */
  lemma UnfoldedRows(db: Db, after: Db, id: Id, member: Id)
    requires Unfolds(db, after) && member in db.members
    ensures after.members == db.members
    ensures id in after.patrols <==> id in db.groups && db.groups[id].groupType == PatrolType
    ensures id in after.patrols ==>
              var p, g := after.patrols[id], db.groups[id];
              && (p.tenant, p.name, p.isDeleted) == (g.tenant, g.name, g.isDeleted)
              && (p.createdAt, p.updatedAt) == (g.createdAt, g.updatedAt)
    ensures member in after.patrolIds <==> exists gm, p :: InPatrol(db, gm, member, p)
    ensures member in after.patrolIds ==> exists gm :: InPatrol(db, gm, member, after.patrolIds[member])
  {
    forall p
      ensures p in LivePatrols(db, member) <==> exists gm :: InPatrol(db, gm, member, p)
    {
      if p in LivePatrols(db, member) {
        var gm :| gm in db.memberships && gm.member == member && !gm.isDeleted && gm.group == p;
        assert InPatrol(db, gm, member, p);
      }
    }
    assert Assigned(LivePatrols(db, member), member, after.patrolIds);
    if gm, p :| InPatrol(db, gm, member, p) {
      assert p in LivePatrols(db, member);
    }
    if member in after.patrolIds {
      var gm :| InPatrol(db, gm, member, after.patrolIds[member]);
    }
  }

  // ---- what the upgrade's constraints ask of the patrols ----

  predicate SamePatrolName(p: Patrol, q: Patrol) { p.tenant == q.tenant && p.name == q.name }

  ghost predicate NamesUnique(patrols: map<Id, Patrol>) {
    forall a, b :: a in patrols && b in patrols && a != b ==> !SamePatrolName(patrols[a], patrols[b])
  }

  lemma FoldedNames(patrols: map<Id, Patrol>, groups: map<Id, Group>)
    requires groups == map id | id in patrols :: AsGroup(patrols[id])
    ensures UniqueNames(groups) <==> NamesUnique(patrols)
  {
    forall a, b | a in patrols && b in patrols
      ensures SameName(groups[a], groups[b]) <==> SamePatrolName(patrols[a], patrols[b])
    {
    }
    if UniqueNames(groups) {
      forall a, b | a in patrols && b in patrols && a != b
        ensures !SamePatrolName(patrols[a], patrols[b])
      {
        assert !SameName(groups[a], groups[b]);
      }
    }
  }

  lemma JoinedResolve(db: Db, now: int)
    requires db.patrolIds.Keys <= db.members.Keys
    ensures MembershipsResolve(Db(db.members, db.patrolIds, db.patrols, Folded(db, now).groups,
        Folded(db, now).memberships))
       <==> db.patrolIds.Values <= db.patrols.Keys
  {
    var joined := Folded(db, now).memberships;
    forall m | m in db.patrolIds
      ensures Membership(db.members[m], db.patrolIds[m], m, None, now, false) in joined
    {
    }
    if db.patrolIds.Values <= db.patrols.Keys {
      forall gm | gm in joined
        ensures gm.group in db.patrols
      {
        assert gm.group in db.patrolIds.Values;
      }
    } else {
      var p :| p in db.patrolIds.Values && p !in db.patrols;
      var m :| m in db.patrolIds && db.patrolIds[m] == p;
      assert Membership(db.members[m], db.patrolIds[m], m, None, now, false) in joined;
    }
  }

  // ---- round trip ----

  lemma FoldedPatrols(db: Db, now: int)
    requires db.patrolIds.Keys <= db.members.Keys
    ensures PatrolsOf(Folded(db, now).groups) == db.patrols
  {
    forall id | id in db.patrols
      ensures AsPatrol(AsGroup(db.patrols[id])) == db.patrols[id]
    {
    }
  }

  lemma FoldedMember(db: Db, now: int, member: Id)
    requires db.patrolIds.Keys <= db.members.Keys && db.patrolIds.Values <= db.patrols.Keys
    ensures LivePatrols(Folded(db, now), member) == if member in db.patrolIds then {db.patrolIds[member]} else {}
  {
    var folded := Folded(db, now);
    if member in db.patrolIds {
      assert db.patrolIds[member] in db.patrolIds.Values;
      assert Membership(db.members[member], db.patrolIds[member], member, None, now, false) in folded.memberships;
    }
  }

  /** Up and down again: every patrol, deleted ones included, and every member's patrol_id, or its absence, is back. */
  lemma FoldThenUnfold(db: Db, now: int, after: Db)
    requires db.groups == map[] && db.memberships == {}
    requires db.patrolIds.Keys <= db.members.Keys && db.patrolIds.Values <= db.patrols.Keys
    requires Unfolds(Folded(db, now), after)
    ensures after == db
  {
    FoldedPatrols(db, now);
    forall m | m in db.members
      ensures m in after.patrolIds <==> m in db.patrolIds
      ensures m in db.patrolIds ==> after.patrolIds[m] == db.patrolIds[m]
    {
      FoldedMember(db, now, m);
      assert Assigned(LivePatrols(Folded(db, now), m), m, after.patrolIds);
    }
    assert after.patrolIds == db.patrolIds;
  }

  // ---- a downgrade after the groups were edited ----

  /** No member is in two live patrols. */
  ghost predicate OnePatrolEach(db: Db) {
    forall m, p, q :: m in db.members && p in LivePatrols(db, m) && q in LivePatrols(db, m) ==> p == q
  }

  /** A result of the downgrade in which `member` gets `patrol`. */
  lemma UnfoldExists(db: Db, member: Id, patrol: Id) returns (after: Db)
    requires member in db.members && patrol in LivePatrols(db, member)
    ensures Unfolds(db, after) && member in after.patrolIds && after.patrolIds[member] == patrol
  {
    var ids := map m | m in db.members && LivePatrols(db, m) != {} ::
                 if m == member then patrol else AnyOf(LivePatrols(db, m));
    after := Db(db.members, ids, PatrolsOf(db.groups), map[], {});
  }

  ghost function AnyOf(options: set<Id>): (p: Id)
    requires options != {}
    ensures p in options
  {
    var p :| p in options;
    p
  }

  /** The downgrade has only one possible result exactly when no member is in two live patrols. */
  lemma UnfoldDeterminedIff(db: Db)
    ensures OnePatrolEach(db) <==> forall a, b :: Unfolds(db, a) && Unfolds(db, b) ==> a == b
  {
    if OnePatrolEach(db) {
      forall a, b | Unfolds(db, a) && Unfolds(db, b)
        ensures a == b
      {
        SameUnfold(db, a, b);
      }
    } else {
      var m, p, q :| m in db.members && p in LivePatrols(db, m) && q in LivePatrols(db, m) && p != q;
      var a := UnfoldExists(db, m, p);
      var b := UnfoldExists(db, m, q);
      assert a != b;
    }
  }

  lemma SameUnfold(db: Db, a: Db, b: Db)
    requires OnePatrolEach(db) && Unfolds(db, a) && Unfolds(db, b)
    ensures a == b
  {
    forall m | m in db.members
      ensures m in a.patrolIds <==> m in b.patrolIds
      ensures m in a.patrolIds ==> a.patrolIds[m] == b.patrolIds[m]
    {
      assert Assigned(LivePatrols(db, m), m, a.patrolIds) && Assigned(LivePatrols(db, m), m, b.patrolIds);
    }
    assert a.patrolIds == b.patrolIds;
  }
}
