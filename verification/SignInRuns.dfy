/**
 * Runs of sign-ins together with every other writer of users, identities, platform roles and member
 * links: member records and their tokens (backend/app/routers/members.py:104-112, 204-218, 308;
 * backend/app/core/provisioning.py:435-475; backend/app/core/deletion.py:76-103, 153-161), token claims
 * (backend/app/routers/auth.py:119-174), platform administration (backend/app/routers/platform.py:327-388)
 * and the operator's scripts (backend/scripts/link_admin.py:76-132, backend/scripts/provision_tenant.py:80-118,
 * backend/scripts/promote_platform_admin.py:51-72).
 */
module SignInRuns {
  import opened Records
  import opened SignIn

  datatype Step =
    | Arrive(claims: Claims, newId: Id)
    | AddMember(member: Id, tenant: Id, address: Option<string>, link: Option<Id>)
    | EditEmail(member: Id, address: Option<string>)
    | DeleteMember(member: Id)
    | PurgeMember(member: Id)
    | IssueToken(member: Id, token: string)
    | Redeem(user: Id, member: Id, token: string)
    | RemoveIdentity(key: Key)
    | Grant(actor: Id, user: Id, email: string, role: Role)
    | Revoke(actor: Id, user: Id)
    | OperatorLink(member: Id, tenant: Id, user: Id)
    | OperatorRole(user: Id, email: string, given: Option<Role>)

  predicate IsSuperadmin(s: Store, u: Id) { u in s.users && s.users[u].role == Some(Superadmin) }

  function VerifiedUsers(s: Store, email: string): set<Id> {
    set u | u in s.users && s.users[u].email == Some(email) && s.users[u].emailVerified
  }

  /** A new administrator is linked at once only to a user with that verified address. */
  predicate MayPrelink(s: Store, email: Option<string>, link: Option<Id>) {
    link.Some? ==> Filled(email) && link.value in VerifiedUsers(s, email.value)
  }

  /** The token is the outstanding one, the member is free, and the user has no other record in the tenant. */
  predicate MayRedeem(s: Store, user: Id, member: Id, token: string) {
    && user in s.users && member in s.members
    && s.members[member].user == None && !s.members[member].isDeleted && s.members[member].invite == Some(token)
    && forall m :: m in s.members && s.members[m].user == Some(user) && !s.members[m].isDeleted ==>
         s.members[m].tenant != s.members[member].tenant
  }

  /** Exactly one user has the verified address, and a superadmin asks. */
  predicate MayGrant(s: Store, actor: Id, user: Id, email: string) {
    IsSuperadmin(s, actor) && VerifiedUsers(s, email) == {user}
  }

  /** The last superadmin cannot be revoked. */
  predicate MayRevoke(s: Store, actor: Id, user: Id) {
    && IsSuperadmin(s, actor) && user in s.users && s.users[user].role.Some?
    && (s.users[user].role == Some(Superadmin) ==>
        exists other :: other in s.users && other != user && IsSuperadmin(s, other))
  }

  function UsersWith(s: Store, email: string): set<Id> {
    set u | u in s.users && s.users[u].email == Some(email)
  }

  /** The operator links a member, new or not, when there is a single user. */
  predicate MayLink(s: Store, member: Id, tenant: Id, user: Id) {
    && s.users.Keys == {user}
    && (member in s.members ==> s.members[member].tenant == tenant && !s.members[member].isDeleted)
  }

  function OperatorLinked(s: Store, member: Id, tenant: Id, user: Id): Store {
    WithMember(s, member,
               if member in s.members then s.members[member].(user := Some(user))
               else Member(tenant, None, Some(user), None, false))
  }

  function WithMember(s: Store, id: Id, m: Member): Store { s.(members := s.members[id := m]) }

  function WithRole(s: Store, u: Id, role: Option<Role>): Store
    requires u in s.users
  {
    s.(users := s.users[u := s.users[u].(role := role)])
  }

  /** What each request does; one that is refused changes nothing. */
  ghost function Stepped(s: Store, step: Step, settings: Settings): Store {
    match step
    case Arrive(c, newId) => SignedIn(s, c, newId, settings)
    case AddMember(m, tenant, email, link) =>
      if m in s.members || !MayPrelink(s, email, link) then s
      else WithMember(s, m, Member(tenant, email, link, None, false))
    case EditEmail(m, email) => if m in s.members then WithMember(s, m, s.members[m].(email := email)) else s
    case DeleteMember(m) => if m in s.members then WithMember(s, m, s.members[m].(isDeleted := true)) else s
    case PurgeMember(m) =>
      if m in s.members
      then WithMember(s, m, s.members[m].(email := None, user := None, invite := None, isDeleted := true))
      else s
    case IssueToken(m, token) => if m in s.members then WithMember(s, m, s.members[m].(invite := Some(token))) else s
    case Redeem(u, m, token) =>
      if MayRedeem(s, u, m, token) then WithMember(s, m, s.members[m].(user := Some(u), invite := None)) else s
    case RemoveIdentity(k) =>
      if k in s.identities then s.(identities := s.identities[k := s.identities[k].(isDeleted := true)]) else s
    case Grant(actor, u, email, role) => if MayGrant(s, actor, u, email) then WithRole(s, u, Some(role)) else s
    case Revoke(actor, u) => if MayRevoke(s, actor, u) then WithRole(s, u, None) else s
    case OperatorLink(m, tenant, u) => if MayLink(s, m, tenant, u) then OperatorLinked(s, m, tenant, u) else s
    case OperatorRole(u, email, role) => if UsersWith(s, email) == {u} then WithRole(s, u, role) else s
  }

  /** A run starts with no users and no linked members, and every new user's id is new. */
  ghost predicate IsRun(run: seq<Store>, steps: seq<Step>, settings: Settings) {
    && |run| == |steps| + 1
    && Unlinked(run[0])
    && forall i :: 0 <= i < |steps| ==>
         run[i + 1] == Stepped(run[i], steps[i], settings) && (steps[i].Arrive? ==> steps[i].newId !in run[i].users)
  }

  predicate Unlinked(s: Store) {
    s.users == map[] && s.identities == map[] && forall m :: m in s.members ==> s.members[m].user == None
  }

  // ---- what is never overwritten ----

  /**
   * Identities keep their user, filled fields and verification stay, and a member link is never moved
   * to another user: only a purge clears it, and then for good.
   */
  ghost predicate Grows(s: Store, t: Store) {
    IdentitiesKept(s, t) && UsersKept(s, t) && LinksKept(s, t)
  }

  ghost predicate IdentitiesKept(s: Store, t: Store) {
    forall k :: k in s.identities ==> k in t.identities && t.identities[k].user == s.identities[k].user
  }

  ghost predicate UsersKept(s: Store, t: Store) {
    forall u :: u in s.users ==> u in t.users && UserKept(s.users[u], t.users[u])
  }

  ghost predicate LinksKept(s: Store, t: Store) {
    forall m :: m in s.members ==> m in t.members && LinkKept(s.members[m], t.members[m])
  }

  predicate UserKept(u: User, v: User) {
    && (Filled(u.email) ==> v.email == u.email)
    && (Filled(u.displayName) ==> v.displayName == u.displayName)
    && (u.emailVerified ==> v.emailVerified)
  }

  predicate LinkKept(m: Member, n: Member) {
    && (m.user.Some? ==> n.user == m.user || (n.user == None && n.isDeleted))
    && (m.isDeleted ==> n.isDeleted && (m.user == None ==> n.user == None))
  }

  /** Every member link leads to a user. */
  ghost predicate LinksExist(s: Store) {
    forall m :: m in s.members && s.members[m].user.Some? ==> s.members[m].user.value in s.users
  }

  lemma StepKeepsLinks(s: Store, step: Step, settings: Settings)
    requires LinksExist(s) && (step.Arrive? ==> step.newId !in s.users)
    ensures LinksExist(Stepped(s, step, settings))
  {
  }

  lemma {:induction false} RunKeepsLinks(run: seq<Store>, steps: seq<Step>, settings: Settings, n: nat)
    requires IsRun(run, steps, settings) && n < |run|
    ensures LinksExist(run[n])
  {
    if n > 0 {
      RunKeepsLinks(run, steps, settings, n - 1);
      StepKeepsLinks(run[n - 1], steps[n - 1], settings);
    }
  }

  lemma StepKeepsUsers(s: Store, step: Step, settings: Settings)
    requires step.Arrive? ==> step.newId !in s.users
    ensures IdentitiesKept(s, Stepped(s, step, settings)) && UsersKept(s, Stepped(s, step, settings))
  {
  }

  lemma StepKeepsMemberLinks(s: Store, step: Step, settings: Settings)
    requires LinksExist(s)
    ensures LinksKept(s, Stepped(s, step, settings))
  {
  }

  lemma StepGrows(s: Store, step: Step, settings: Settings)
    requires LinksExist(s) && (step.Arrive? ==> step.newId !in s.users)
    ensures Grows(s, Stepped(s, step, settings))
  {
    StepKeepsUsers(s, step, settings);
    StepKeepsMemberLinks(s, step, settings);
  }

  lemma GrowsTransitive(s: Store, t: Store, v: Store)
    requires Grows(s, t) && Grows(t, v)
    ensures Grows(s, v)
  {
    forall u | u in s.users
      ensures u in v.users && UserKept(s.users[u], v.users[u])
    {
      assert UserKept(s.users[u], t.users[u]) && UserKept(t.users[u], v.users[u]);
    }
    forall m | m in s.members
      ensures m in v.members && LinkKept(s.members[m], v.members[m])
    {
      assert LinkKept(s.members[m], t.members[m]) && LinkKept(t.members[m], v.members[m]);
    }
  }

  lemma GrowsItself(s: Store)
    ensures Grows(s, s)
  {
  }

  /** Over any run, from any moment to any later one. */
  lemma {:induction false} RunGrows(run: seq<Store>, steps: seq<Step>, settings: Settings, i: nat, j: nat)
    requires IsRun(run, steps, settings) && i <= j < |run|
    ensures Grows(run[i], run[j])
    decreases j - i
  {
    if i == j {
      GrowsItself(run[i]);
    } else {
      RunGrows(run, steps, settings, i, j - 1);
      RunKeepsLinks(run, steps, settings, j - 1);
      StepGrows(run[j - 1], steps[j - 1], settings);
      GrowsTransitive(run[i], run[j - 1], run[j]);
    }
  }

  // ---- where verification comes from ----

  predicate ArrivedAs(s: Store, c: Claims, user: Id) {
    KeyOf(c) in s.identities && s.identities[KeyOf(c)].user == user
  }

  /** Step `i` was a sign-in through this user's own identity that asserted the address as verified. */
  predicate VouchedAt(run: seq<Store>, steps: seq<Step>, i: nat, user: Id, email: string)
    requires i < |steps| && |run| == |steps| + 1
  {
    steps[i].Arrive? && Verified(steps[i].claims) && steps[i].claims.email == Some(email)
    && ArrivedAs(run[i + 1], steps[i].claims, user)
  }

  ghost predicate Vouched(run: seq<Store>, steps: seq<Step>, n: nat, user: Id, email: string)
    requires n <= |steps| && |run| == |steps| + 1
  {
    exists i :: 0 <= i < n && VouchedAt(run, steps, i, user, email)
  }

  lemma StepVerifies(s: Store, step: Step, settings: Settings, u: Id)
    requires step.Arrive? ==> step.newId !in s.users
    requires var t := Stepped(s, step, settings); u in t.users && t.users[u].emailVerified
    ensures var t := Stepped(s, step, settings);
            || (u in s.users && s.users[u].emailVerified && s.users[u].email == t.users[u].email)
            || (step.Arrive? && Verified(step.claims) && step.claims.email == t.users[u].email
                && ArrivedAs(t, step.claims, u))
            || (u in s.users && s.users[u].emailVerified && !Filled(s.users[u].email))
  {
  }

  /** A user is marked verified only if a sign-in of their own identity had verified that same address. */
  lemma {:induction false} VerifiedWasVouched(run: seq<Store>, steps: seq<Step>, settings: Settings, n: nat, u: Id)
    requires IsRun(run, steps, settings) && n <= |steps| && u in run[n].users && run[n].users[u].emailVerified
    ensures Filled(run[n].users[u].email) && Vouched(run, steps, n, u, run[n].users[u].email.value)
  {
    if n > 0 {
      StepVerifies(run[n - 1], steps[n - 1], settings, u);
      if u in run[n - 1].users && run[n - 1].users[u].emailVerified {
        VerifiedWasVouched(run, steps, settings, n - 1, u);
        var i :| 0 <= i < n - 1 && VouchedAt(run, steps, i, u, run[n - 1].users[u].email.value);
        RunKeepsLinks(run, steps, settings, n - 1);
        StepGrows(run[n - 1], steps[n - 1], settings);
        assert VouchedAt(run, steps, i, u, run[n].users[u].email.value);
      } else {
        assert VouchedAt(run, steps, n - 1, u, run[n].users[u].email.value);
      }
    }
  }

  // ---- where links come from ----

  /**
   * The step links the free member to the user: the user's own sign-in verified the member's address, or
   * the user redeemed the member's outstanding token, the member was added for an address the user had
   * verified, or the operator linked it while there was no other user.
   */
  predicate Links(s: Store, step: Step, t: Store, member: Id, user: Id) {
    match step
    case Arrive(c, _) =>
      ArrivedAs(t, c, user) && Verified(c) && member in s.members && Unclaimed(s.members[member], c.email.value)
    case AddMember(m, _, email, link) =>
      m == member && member !in s.members && link == Some(user) && Filled(email)
          && user in VerifiedUsers(s, email.value)
    case Redeem(u, m, token) => u == user && m == member && MayRedeem(s, user, member, token)
    case OperatorLink(m, tenant, u) => u == user && m == member && MayLink(s, member, tenant, user)
    case _ => false
  }

  predicate LinkedTo(s: Store, member: Id, user: Id) { member in s.members && s.members[member].user == Some(user) }

  lemma StepLinks(s: Store, step: Step, settings: Settings, member: Id, user: Id)
    requires step.Arrive? ==> step.newId !in s.users
    requires LinkedTo(Stepped(s, step, settings), member, user) && !LinkedTo(s, member, user)
    ensures Links(s, step, Stepped(s, step, settings), member, user)
  {
  }

  /** Every link was made by exactly such a step, and has stood since. */
  lemma {:induction false} EveryLinkHasASource(run: seq<Store>, steps: seq<Step>, settings: Settings, n: nat,
                                               member: Id, user: Id) returns (i: nat)
    requires IsRun(run, steps, settings) && n <= |steps| && LinkedTo(run[n], member, user)
    ensures i < n && Links(run[i], steps[i], run[i + 1], member, user)
    ensures forall j :: i < j <= n ==> LinkedTo(run[j], member, user)
  {
    assert n > 0;
    if LinkedTo(run[n - 1], member, user) {
      i := EveryLinkHasASource(run, steps, settings, n - 1, member, user);
    } else {
      StepLinks(run[n - 1], steps[n - 1], settings, member, user);
      i := n - 1;
    }
  }

  // ---- where roles come from ----

  /**
   * The step gives the role: a verified allowlisted sign-in of a user without one, a superadmin's grant,
   * or the operator's promotion.
   */
  predicate GivesRole(s: Store, step: Step, t: Store, settings: Settings, user: Id, role: Role) {
    match step
    case Arrive(c, _) =>
      ArrivedAs(t, c, user) && Allowlisted(c, settings) && role == Superadmin
      && (user in s.users ==> s.users[user].role == None)
    case Grant(actor, u, email, r) => u == user && r == role && MayGrant(s, actor, user, email)
    case OperatorRole(u, email, given) => u == user && given == Some(role) && UsersWith(s, email) == {user}
    case _ => false
  }

  predicate HasRole(s: Store, user: Id, role: Role) { user in s.users && s.users[user].role == Some(role) }

  lemma StepGivesRole(s: Store, step: Step, settings: Settings, user: Id, role: Role)
    requires step.Arrive? ==> step.newId !in s.users
    requires HasRole(Stepped(s, step, settings), user, role) && !HasRole(s, user, role)
    ensures GivesRole(s, step, Stepped(s, step, settings), settings, user, role)
  {
  }

  /** Every role was given by exactly such a step, and has stood since. */
  lemma {:induction false} EveryRoleHasASource(run: seq<Store>, steps: seq<Step>, settings: Settings, n: nat,
                                               user: Id, role: Role) returns (i: nat)
    requires IsRun(run, steps, settings) && n <= |steps| && HasRole(run[n], user, role)
    ensures i < n && GivesRole(run[i], steps[i], run[i + 1], settings, user, role)
    ensures forall j :: i < j <= n ==> HasRole(run[j], user, role)
  {
    assert n > 0;
    if HasRole(run[n - 1], user, role) {
      i := EveryRoleHasASource(run, steps, settings, n - 1, user, role);
    } else {
      StepGivesRole(run[n - 1], steps[n - 1], settings, user, role);
      i := n - 1;
    }
  }

  /** Without an allowlisted sign-in or a promotion by the operator there is never any role. */
  lemma {:induction false} RolesStartAtTheAllowlist(run: seq<Store>, steps: seq<Step>, settings: Settings, n: nat,
                                                    user: Id, role: Role)
    requires IsRun(run, steps, settings) && n <= |steps| && HasRole(run[n], user, role)
    ensures exists i :: 0 <= i < n && FirstRole(steps[i], settings)
    decreases n
  {
    var i := EveryRoleHasASource(run, steps, settings, n, user, role);
    if steps[i].Grant? {
      RolesStartAtTheAllowlist(run, steps, settings, i, steps[i].actor, Superadmin);
    } else {
      assert FirstRole(steps[i], settings);
    }
  }

  predicate FirstRole(step: Step, settings: Settings) {
    (step.Arrive? && Allowlisted(step.claims, settings)) || (step.OperatorRole? && step.given.Some?)
  }

  // ---- the last superadmin ----

  ghost predicate SomeSuperadmin(s: Store) { exists u :: IsSuperadmin(s, u) }

  /** A superadmin's grant, or the operator's script, replaces the user's role by a lesser one or none. */
  predicate Lowers(s: Store, step: Step, user: Id) {
    match step
    case Grant(actor, u, email, role) => u == user && role != Superadmin && MayGrant(s, actor, u, email)
    case OperatorRole(u, email, given) => u == user && given != Some(Superadmin) && UsersWith(s, email) == {u}
    case _ => false
  }

  ghost predicate LowersTheOnlyOne(s: Store, step: Step) {
    exists u :: Lowers(s, step, u) && forall other :: IsSuperadmin(s, other) ==> other == u
  }

  /**
   * Revocation refuses to take the last superadmin's role, yet the platform can be left without one:
   * exactly when a grant, or the operator's script, gives the only one a lesser role or none.
   */
  lemma LastSuperadminLostIff(s: Store, step: Step, settings: Settings)
    requires SomeSuperadmin(s) && (step.Arrive? ==> step.newId !in s.users)
    ensures !SomeSuperadmin(Stepped(s, step, settings)) <==> LowersTheOnlyOne(s, step)
  {
    var t := Stepped(s, step, settings);
    if u :| Lowers(s, step, u) && forall other :: IsSuperadmin(s, other) ==> other == u {
      forall other
        ensures !IsSuperadmin(t, other)
      {
        assert IsSuperadmin(s, other) ==> other == u;
      }
    } else {
      SuperadminStays(s, step, settings);
    }
  }

  lemma SuperadminStays(s: Store, step: Step, settings: Settings)
    requires SomeSuperadmin(s) && !LowersTheOnlyOne(s, step) && (step.Arrive? ==> step.newId !in s.users)
    ensures SomeSuperadmin(Stepped(s, step, settings))
  {
    var u :| IsSuperadmin(s, u);
    if step.Revoke? && MayRevoke(s, step.actor, step.user) && step.user == u {
      var other :| other != u && IsSuperadmin(s, other);
      assert IsSuperadmin(Stepped(s, step, settings), other);
    } else if Lowers(s, step, u) {
      var other :| IsSuperadmin(s, other) && other != u;
      assert IsSuperadmin(Stepped(s, step, settings), other);
    } else {
      assert IsSuperadmin(Stepped(s, step, settings), u);
    }
  }

  /**
   * And runs get there: whoever signs in with the allowlisted address becomes the only superadmin, and
   * may then give themselves a lesser role.
   */
  lemma OnlySuperadminSteps(settings: Settings, address: string) returns (run: seq<Store>, steps: seq<Step>)
    requires address != "" && settings.allowlisted != "" && settings.lower(address) == settings.allowlisted
    ensures IsRun(run, steps, settings)
    ensures |steps| == 2 && steps[0].Arrive? && steps[1] == Grant(0, 0, address, Support)
    ensures SomeSuperadmin(run[1]) && !SomeSuperadmin(run[2])
  {
    var claims := Claims("issuer", "subject", Some(address), None, true);
    var empty := Store(map[], map[], map[]);
    steps := [Arrive(claims, 0), Grant(0, 0, address, Support)];
    var arrived := Stepped(empty, steps[0], settings);
    var lowered := Stepped(arrived, steps[1], settings);
    run := [empty, arrived, lowered];
    assert IsSuperadmin(arrived, 0) && VerifiedUsers(arrived, address) == {0};
    assert LowersTheOnlyOne(arrived, steps[1]) by {
      assert Lowers(arrived, steps[1], 0);
    }
    LastSuperadminLostIff(arrived, steps[1], settings);
  }

  // ---- one user for each identity ----

  /** Two identities never share a user, and every identity's user exists. */
  ghost predicate OneUserEach(s: Store) {
    && (forall k :: k in s.identities ==> s.identities[k].user in s.users)
    && forall k, l :: k in s.identities && l in s.identities && k != l ==> s.identities[k].user != s.identities[l].user
  }

  lemma StepKeepsOneUserEach(s: Store, step: Step, settings: Settings)
    requires OneUserEach(s) && (step.Arrive? ==> step.newId !in s.users)
    ensures OneUserEach(Stepped(s, step, settings))
  {
  }

  lemma {:induction false} RunKeepsOneUserEach(run: seq<Store>, steps: seq<Step>, settings: Settings, n: nat)
    requires IsRun(run, steps, settings) && n < |run|
    ensures OneUserEach(run[n])
  {
    if n > 0 {
      RunKeepsOneUserEach(run, steps, settings, n - 1);
      StepKeepsOneUserEach(run[n - 1], steps[n - 1], settings);
    }
  }
}
