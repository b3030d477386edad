/**
 * Sign-in: finding or creating the user behind validated identity claims, filling in what was missing,
 * linking unclaimed members and granting the bootstrap role (backend/app/core/auth.py:61-137, 140-182).
 */
module SignIn {
  import opened Records

  datatype Claims = Claims(issuer: string, sub: string, email: Option<string>, name: Option<string>,
                           emailVerified: bool)

  datatype Role = Superadmin | Support | Billing

  datatype User = User(email: Option<string>, emailVerified: bool, displayName: Option<string>, role: Option<Role>)

  datatype Identity = Identity(user: Id, email: Option<string>, isDeleted: bool)

  /** `invite` is the identifier of the member's outstanding claim token. */
  datatype Member = Member(tenant: Id, email: Option<string>, user: Option<Id>, invite: Option<string>, isDeleted: bool)

  type Key = (string, string)

  datatype Store = Store(users: map<Id, User>, identities: map<Key, Identity>, members: map<Id, Member>)

  /** The bootstrap address, stripped and lower-cased, and the lower-casing it is compared with. */
  datatype Settings = Settings(allowlisted: string, lower: string -> string)

  function KeyOf(c: Claims): Key { (c.issuer, c.sub) }

  /** Present and not the empty string. */
  predicate Filled(s: Option<string>) { s.Some? && s.value != "" }

  predicate Verified(c: Claims) { Filled(c.email) && c.emailVerified }

  predicate Allowlisted(c: Claims, settings: Settings) {
    settings.allowlisted != "" && Verified(c) && settings.lower(c.email.value) == settings.allowlisted
  }

  // ---- what a sign-in leaves behind ----

  /** What is already filled stays; verification is only for the address the user has. */
  function Merged(u: User, c: Claims, settings: Settings): User {
    var email := if Filled(u.email) || !Filled(c.email) then u.email else c.email;
    User(email,
         u.emailVerified || (Verified(c) && c.email == email),
         if Filled(u.displayName) || !Filled(c.name) then u.displayName else c.name,
         if u.role == None && Allowlisted(c, settings) then Some(Superadmin) else u.role)
  }

  const BLANK := User(None, false, None, None)

  /** A first sign-in stores the claims as they came, empty strings included. */
  function Created(c: Claims, settings: Settings): User {
    Merged(BLANK, c, settings).(email := c.email, displayName := c.name)
  }

  predicate Unclaimed(m: Member, email: string) {
    m.email == Some(email) && m.user == None && !m.isDeleted
  }

  function Claimed(m: Member, c: Claims, user: Id): Member {
    if Verified(c) && Unclaimed(m, c.email.value) then m.(user := Some(user)) else m
  }

  function MembersClaimed(members: map<Id, Member>, c: Claims, user: Id): map<Id, Member> {
    map id | id in members :: Claimed(members[id], c, user)
  }

  /** A removed identity still occupies its (issuer, sub): such a sign-in fails and writes nothing. */
  function SignedIn(s: Store, c: Claims, newId: Id, settings: Settings): Store {
    var key := KeyOf(c);
    if key in s.identities then
      var user := s.identities[key].user;
      if s.identities[key].isDeleted || user !in s.users then s
      else Store(s.users[user := Merged(s.users[user], c, settings)], s.identities, MembersClaimed(s.members, c, user))
    else
      Store(s.users[newId := Created(c, settings)], s.identities[key := Identity(newId, c.email, false)],
            MembersClaimed(s.members, c, newId))
  }

  // ---- the same, in terms of the rows alone ----

  predicate Blank(s: Option<string>) { s == None || s == Some("") }

  /** The provider vouches for an address. */
  predicate Vouches(c: Claims) { c.email.Some? && c.email.value != "" && c.emailVerified }

  /**
   * With a vouched address every live member with it that had no user has this one, and so no live member
   * with it is left without; no other member row changes, and without one none does.
   */
  ghost predicate LinksInvited(before: map<Id, Member>, after: map<Id, Member>, c: Claims, user: Id) {
    && after.Keys == before.Keys
    && (forall id :: id in before ==>
         if Vouches(c) && before[id].email == c.email && before[id].user == None && !before[id].isDeleted
         then after[id] == before[id].(user := Some(user)) else after[id] == before[id])
    && (Vouches(c) ==>
         forall id :: id in after && after[id].email == c.email && !after[id].isDeleted ==> after[id].user != None)
  }

  /** What was missing is filled from the claims, what was there stays, and the address may become verified. */
  ghost predicate FillsIn(before: User, after: User, c: Claims, settings: Settings) {
    && after.email == (if Blank(before.email) && !Blank(c.email) then c.email else before.email)
    && after.displayName == (if Blank(before.displayName) && !Blank(c.name) then c.name else before.displayName)
    && (after.emailVerified <==> before.emailVerified || (Vouches(c) && after.email == c.email))
    && GrantsRole(before.role, after.role, c, settings)
  }

  /** Only a user without a role whose vouched address is the allowlisted one gets one. */
  ghost predicate GrantsRole(before: Option<Role>, after: Option<Role>, c: Claims, settings: Settings) {
    if && before == None && Vouches(c) && settings.allowlisted != ""
       && settings.lower(c.email.value) == settings.allowlisted
    then after == Some(Superadmin) else after == before
  }

  /** The user of a first sign-in: the claims as they came, verified only if vouched for. */
  ghost predicate FirstUser(u: User, c: Claims, settings: Settings) {
    && u.email == c.email && u.displayName == c.name && (u.emailVerified <==> Vouches(c))
    && GrantsRole(None, u.role, c, settings)
  }

  lemma ClaimedLinksInvited(members: map<Id, Member>, c: Claims, user: Id)
    ensures LinksInvited(members, MembersClaimed(members, c, user), c, user)
  {
    forall id | id in members
      ensures var m := Claimed(members[id], c, user);
              && (if Vouches(c) && members[id].email == c.email && members[id].user == None && !members[id].isDeleted
                  then m == members[id].(user := Some(user)) else m == members[id])
              && (Vouches(c) && m.email == c.email && !m.isDeleted ==> m.user != None)
    {
    }
  }

  lemma MergedFillsIn(u: User, c: Claims, settings: Settings)
    ensures FillsIn(u, Merged(u, c, settings), c, settings)
  {
  }

  /**
   * A known identity's user is filled in and no other user or identity changes; a first sign-in adds one
   * user and one identity; an identity that was removed, or has lost its user, writes nothing.
   */
  lemma SignInWrites(s: Store, c: Claims, newId: Id, settings: Settings)
    requires newId !in s.users
    ensures var after, key := SignedIn(s, c, newId, settings), (c.issuer, c.sub);
            if key !in s.identities then
              && after.users.Keys == s.users.Keys + {newId} && FirstUser(after.users[newId], c, settings)
              && (forall id :: id in s.users ==> after.users[id] == s.users[id])
              && after.identities == s.identities[key := Identity(newId, c.email, false)]
              && LinksInvited(s.members, after.members, c, newId)
            else if s.identities[key].isDeleted || s.identities[key].user !in s.users then after == s
            else
              var user := s.identities[key].user;
              && after.users.Keys == s.users.Keys && FillsIn(s.users[user], after.users[user], c, settings)
              && (forall id :: id in s.users && id != user ==> after.users[id] == s.users[id])
              && after.identities == s.identities
              && LinksInvited(s.members, after.members, c, user)
  {
    var key := (c.issuer, c.sub);
    if key !in s.identities {
      ClaimedLinksInvited(s.members, c, newId);
    } else {
      ClaimedLinksInvited(s.members, c, s.identities[key].user);
    }
  }

  // ---- the code ----

  class AuthStore {
    const settings: Settings
    var users: map<Id, User>
    var identities: map<Key, Identity>
    var members: map<Id, Member>

    ghost function State(): Store
      reads this
    {
      Store(users, identities, members)
    }

    ghost predicate Valid()
      reads this
    {
      forall k :: k in identities ==> identities[k].user in users
    }

    /** Returns whether a member row was actually linked. */
    method AutolinkUnclaimedMembers(user: Id, email: string) returns (linked: bool)
      modifies this`members
      ensures members == map id | id in old(members) ::
                           if Unclaimed(old(members)[id], email) then old(members)[id].(user := Some(user))
                           else old(members)[id]
      ensures linked <==> members != old(members)
    {
      var matching := set id | id in members && Unclaimed(members[id], email);
      var after := map id | id in members ::
        if Unclaimed(members[id], email) then members[id].(user := Some(user)) else members[id];
      linked := matching != {};
      if linked {
        var id :| id in matching;
        assert after[id] != members[id];
      } else {
        assert forall id :: id in members ==> id !in matching;
        assert after == members;
      }
      members := after;
    }

    /** Returns whether the role was granted. */
    method BootstrapSuperadmin(user: Id, c: Claims) returns (granted: bool)
      requires user in users
      modifies this`users
      ensures granted <==> old(users)[user].role == None && Allowlisted(c, settings)
      ensures users == if granted then old(users)[user := old(users)[user].(role := Some(Superadmin))] else old(users)
    {
      if settings.allowlisted == "" || users[user].role != None {
        return false;
      }
      if !(Verified(c) && settings.lower(c.email.value) == settings.allowlisted) {
        return false;
      }
      users := users[user := users[user].(role := Some(Superadmin))];
      granted := true;
    }

    /**
     * The sign-in. `written` is whether it commits: for a known identity exactly when some row changed.
     * No user is returned when the identity's place is taken by a removed one.
     */
    method GetOrCreateUser(c: Claims, newId: Id) returns (user: Option<Id>, written: bool)
      requires Valid() && newId !in users
      modifies this`users, this`identities, this`members
      ensures Valid()
      ensures State() == SignedIn(old(State()), c, newId, settings)
      ensures written <==> State() != old(State())
      ensures user.Some? <==> KeyOf(c) in identities && !identities[KeyOf(c)].isDeleted
      ensures user.Some? ==> user.value == identities[KeyOf(c)].user && user.value in users
      ensures if user.Some? then LinksInvited(old(members), members, c, user.value) else members == old(members)
    {
      var key := KeyOf(c);
      if key in identities {
        if identities[key].isDeleted {
          return None, false;
        }
        written := RefreshUser(identities[key].user, c);
        return Some(identities[key].user), written;
      }
      users := users[newId := User(c.email, Filled(c.email) && c.emailVerified, c.name, None)];
      if Verified(c) {
        var _ := AutolinkUnclaimedMembers(newId, c.email.value);
      }
      assert members == MembersClaimed(old(members), c, newId);
      ClaimedLinksInvited(old(members), c, newId);
      var _ := BootstrapSuperadmin(newId, c);
      identities := identities[key := Identity(newId, c.email, false)];
      assert users[newId] == Created(c, settings);
      return Some(newId), true;
    }

    /** A known identity: fill what is missing, verify, link, grant; report whether anything changed. */
    method RefreshUser(id: Id, c: Claims) returns (changed: bool)
      requires id in users
      modifies this`users, this`members
      ensures users == old(users)[id := Merged(old(users)[id], c, settings)]
      ensures FillsIn(old(users)[id], users[id], c, settings)
      ensures members == MembersClaimed(old(members), c, id) && LinksInvited(old(members), members, c, id)
      ensures changed <==> users != old(users) || members != old(members)
    {
      var filled := FillProfile(id, c);
      var linked := false;
      if Verified(c) {
        linked := AutolinkUnclaimedMembers(id, c.email.value);
      }
      assert members == MembersClaimed(old(members), c, id);
      ClaimedLinksInvited(old(members), c, id);
      var granted := BootstrapSuperadmin(id, c);
      changed := filled || linked || granted;
      assert users[id] == Merged(old(users)[id], c, settings);
      MergedFillsIn(old(users)[id], c, settings);
      assert filled || granted <==> users[id] != old(users)[id];
    }

    /** The missing address, its verification and the missing name. */
    method FillProfile(id: Id, c: Claims) returns (changed: bool)
      requires id in users
      modifies this`users
      ensures users == old(users)[id := Merged(old(users)[id], c, settings).(role := old(users)[id].role)]
      ensures changed <==> users[id] != old(users)[id]
    {
      var user := users[id];
      changed := false;
      if Filled(c.email) && !Filled(user.email) {
        user := user.(email := c.email);
        changed := true;
      }
      if Verified(c) && c.email == user.email && !user.emailVerified {
        user := user.(emailVerified := true);
        changed := true;
      }
      if Filled(c.name) && !Filled(user.displayName) {
        user := user.(displayName := c.name);
        changed := true;
      }
      users := users[id := user];
    }
  }

  // ---- repeating a sign-in ----

  lemma MergeTwice(u: User, c: Claims, settings: Settings)
    ensures Merged(Merged(u, c, settings), c, settings) == Merged(u, c, settings)
    ensures Merged(Created(c, settings), c, settings) == Created(c, settings)
  {
  }

  lemma ClaimTwice(members: map<Id, Member>, c: Claims, user: Id, other: Id)
    ensures MembersClaimed(MembersClaimed(members, c, user), c, other) == MembersClaimed(members, c, user)
  {
    forall id | id in members
      ensures Claimed(Claimed(members[id], c, user), c, other) == Claimed(members[id], c, user)
    {
    }
  }

  /** Repeating the last sign-in with identical claims writes nothing. */
  lemma RepeatWritesNothing(s: Store, c: Claims, newId: Id, again: Id, settings: Settings)
    ensures SignedIn(SignedIn(s, c, newId, settings), c, again, settings) == SignedIn(s, c, newId, settings)
  {
    var once := SignedIn(s, c, newId, settings);
    var key := KeyOf(c);
    if key !in s.identities {
      MergeTwice(BLANK, c, settings);
      ClaimTwice(s.members, c, newId, newId);
    } else if !s.identities[key].isDeleted && s.identities[key].user in s.users {
      var user := s.identities[key].user;
      MergeTwice(s.users[user], c, settings);
      ClaimTwice(s.members, c, user, user);
    }
  }
}
