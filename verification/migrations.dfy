/**
  The one-off email and role migrations over the whole users table. Each one
  decides a user's new row from that user's row as read at the start, so a
  migration is a pointwise map over the table. A patch cannot fail here, so
  the backend's per-user error catching has nothing to catch.
 */
module Migrations {
  import opened Wrappers
  import opened Schema
  import opened Helpers
  import opened Invariants
  import opened Users

  /** What a bulk migration reports back. */
  datatype Report = Report(updatedCount: nat, adminCount: nat, totalUsers: nat)

  /** The made-up address for a user without one: the first eight characters of the external id, at `domain`. */
  function Placeholder(clerkId: string, domain: string): (r: string)
    ensures |r| == |"user-"| + (if |clerkId| < 8 then |clerkId| else 8) + 1 + |domain|
    ensures r[..5] == "user-" && r[|r| - |domain|..] == domain
    ensures r[5..|r| - |domain| - 1] == clerkId[..if |clerkId| < 8 then |clerkId| else 8]
    ensures r[|r| - |domain| - 1] == '@'
  {
    var prefix := if |clerkId| < 8 then clerkId else clerkId[..8];
    "user-" + prefix + "@" + domain
  }

  /** No placeholder address is the admin address, so a placeholder never makes anyone admin. */
  lemma PlaceholderNotAdmin(clerkId: string, domain: string)
    requires domain == "placeholder.com" || domain == "needs-sync.com"
    ensures Placeholder(clerkId, domain) != AdminEmail
  {
  }

  /** The same users, each row replaced by `f` of it. */
  function MapUsers(users: map<UserId, User>, f: User -> User): (r: map<UserId, User>)
    ensures r.Keys == users.Keys
    ensures forall u :: u in r ==> r[u] == f(users[u])
  {
    map u | u in users :: f(users[u])
  }

  /** The users whose email differs between two versions of the table. */
  function EmailChanged(before: map<UserId, User>, after: map<UserId, User>): set<UserId>
    requires after.Keys == before.Keys
  {
    set u | u in before && after[u].email != before[u].email
  }

  /** The users whose role differs between two versions of the table. */
  function RoleChanged(before: map<UserId, User>, after: map<UserId, User>): set<UserId>
    requires after.Keys == before.Keys
  {
    set u | u in before && after[u].role != before[u].role
  }

  /** Replacing user rows without touching their keys or external ids keeps every database invariant. */
  lemma SameIdentitiesKeepValid(st: State, users: map<UserId, User>)
    requires Valid(st)
    requires users.Keys == st.users.Keys
    requires forall u :: u in users ==> users[u].clerkId == st.users[u].clerkId
    ensures Valid(st.(users := users))
  {
    var st' := st.(users := users);
    assert IdsAllocated(st');
  }

  // ---------------------------------------------------------------------------
  // migrateUserEmails
  // ---------------------------------------------------------------------------

  predicate NeedsAdminRole(user: User)
  {
    user.clerkId != "" && user.role.None? && user.email == Some(AdminEmail)
  }

  /** Gives the admin role to a user without any role whose email is the admin address. */
  function MigrateUser(user: User): (r: User)
    // only the role may change, and only upward: it becomes admin exactly when it was or when the row qualifies
    ensures r.(role := user.role) == user
    ensures r.role == Some(AdminRole) <==> user.role == Some(AdminRole) || NeedsAdminRole(user)
    ensures r.role != Some(AdminRole) ==> r.role == user.role
  {
    if NeedsAdminRole(user) then user.(role := Some(AdminRole)) else user
  }

  /** The users the role migration promotes. */
  function RoleLess(users: map<UserId, User>): set<UserId>
  {
    set u | u in users && NeedsAdminRole(users[u])
  }

  /** Internal: promotes role-less admin-address users. Reports the count and the table size. */
  function MigrateUserEmails(st: State): (r: (State, Report))
    ensures r.0 == st.(users := r.0.users) && r.0.users.Keys == st.users.Keys
    ensures forall u :: u in st.users ==> r.0.users[u] == MigrateUser(st.users[u])
    ensures r.1.totalUsers == |st.users| && r.1.adminCount == 0
  {
    (st.(users := MapUsers(st.users, MigrateUser)), Report(|RoleLess(st.users)|, 0, |st.users|))
  }

  /** The role migration reports the number of users whose role it changed, and changes no email. */
  lemma MigrateReportsChanges(st: State)
    ensures var (st', report) := MigrateUserEmails(st);
            && report.updatedCount == |RoleChanged(st.users, st'.users)|
            && EmailChanged(st.users, st'.users) == {}
  {
    var st' := MigrateUserEmails(st).0;
    forall u | u in st.users
      ensures u in RoleLess(st.users) <==> u in RoleChanged(st.users, st'.users)
      ensures u !in EmailChanged(st.users, st'.users)
    {
    }
    assert RoleLess(st.users) == RoleChanged(st.users, st'.users);
  }

  // ---------------------------------------------------------------------------
  // syncAllUserEmails and syncAllUserEmailsSimple
  // ---------------------------------------------------------------------------

  /** An admin-address user without the admin role, as read before any patch. */
  predicate PromotesToAdmin(user: User)
  {
    user.email == Some(AdminEmail) && user.role != Some(AdminRole)
  }

  /** The placeholder step: `requireClerkId` tells the internal variant, which skips an empty external id. */
  predicate GetsPlaceholder(user: User, requireClerkId: bool)
  {
    (!requireClerkId || user.clerkId != "") && !StringSet(user.email)
  }

  function SyncUser(user: User, requireClerkId: bool): (r: User)
    ensures r.email == (if GetsPlaceholder(user, requireClerkId) then Some(Placeholder(user.clerkId, "placeholder.com"))
                        else user.email)
    ensures r.role == (if PromotesToAdmin(user) then Some(AdminRole) else user.role)
    ensures r.(email := user.email, role := user.role) == user
  {
    var withEmail := if GetsPlaceholder(user, requireClerkId)
                     then user.(email := Some(Placeholder(user.clerkId, "placeholder.com"))) else user;
    if PromotesToAdmin(user) then withEmail.(role := Some(AdminRole)) else withEmail
  }

  /** The per-user sync rule lifted to the whole user table, for the two sync migrations built on `SyncAll`. */
  function SyncUsers(users: map<UserId, User>, requireClerkId: bool): (r: map<UserId, User>)
    ensures r.Keys == users.Keys
    ensures forall u :: u in r ==> r[u] == SyncUser(users[u], requireClerkId)
  {
    map u | u in users :: SyncUser(users[u], requireClerkId)
  }

  /** The users a sync gives a placeholder address. */
  function Placeheld(users: map<UserId, User>, requireClerkId: bool): set<UserId>
  {
    set u | u in users && GetsPlaceholder(users[u], requireClerkId)
  }

  /** The users a sync promotes to admin. */
  function Promoted(users: map<UserId, User>): set<UserId>
  {
    set u | u in users && PromotesToAdmin(users[u])
  }

  function SyncAll(st: State, requireClerkId: bool): (r: (State, Report))
    ensures r.0 == st.(users := r.0.users) && r.0.users.Keys == st.users.Keys
    ensures forall u :: u in st.users ==> r.0.users[u] == SyncUser(st.users[u], requireClerkId)
    ensures r.1.totalUsers == |st.users|
  {
    (st.(users := SyncUsers(st.users, requireClerkId)),
     Report(|Placeheld(st.users, requireClerkId)|, |Promoted(st.users)|, |st.users|))
  }

  lemma PlaceheldAreEmailChanges(users: map<UserId, User>, requireClerkId: bool)
    ensures Placeheld(users, requireClerkId) == EmailChanged(users, SyncUsers(users, requireClerkId))
  {
    var users' := SyncUsers(users, requireClerkId);
    forall u | u in users
      ensures u in Placeheld(users, requireClerkId) <==> u in EmailChanged(users, users')
    {
    }
  }

  lemma PromotedAreRoleChanges(users: map<UserId, User>, requireClerkId: bool)
    ensures Promoted(users) == RoleChanged(users, SyncUsers(users, requireClerkId))
  {
    var users' := SyncUsers(users, requireClerkId);
    forall u | u in users
      ensures u in Promoted(users) <==> u in RoleChanged(users, users')
    {
    }
  }

  /** The counts a sync reports are the numbers of users whose email, and whose role, it changed. */
  lemma SyncAllReportsChanges(st: State, requireClerkId: bool)
    ensures var (st', report) := SyncAll(st, requireClerkId);
            && report.updatedCount == |EmailChanged(st.users, st'.users)|
            && report.adminCount == |RoleChanged(st.users, st'.users)|
  {
    PlaceheldAreEmailChanges(st.users, requireClerkId);
    PromotedAreRoleChanges(st.users, requireClerkId);
  }

  /** Internal: a placeholder address for users with an external id and no address; admin-address users promoted. */
  function SyncAllUserEmails(st: State): (r: (State, Report))
    ensures r == SyncAll(st, true)
    ensures forall u :: u in r.0.users && r.0.users[u].clerkId != "" ==> StringSet(r.0.users[u].email)
  {
    SyncAll(st, true)
  }

  /** An admin gives every user without an address a placeholder, and promotes admin-address users. */
  function SyncAllUserEmailsSimple(st: State, identity: Option<Identity>): (r: Reply<(State, Report)>)
    ensures RequireAdmin(st, identity).Err? ==> r == Err(RequireAdmin(st, identity).error)
    ensures r.Ok? <==> RequireAdmin(st, identity).Ok?
    ensures r.Ok? ==> r.value == SyncAll(st, false)
    ensures r.Ok? ==> forall u :: u in r.value.0.users ==> StringSet(r.value.0.users[u].email)
  {
    var admin :- RequireAdmin(st, identity);
    Ok(SyncAll(st, false))
  }

  /**
    The simple sync is idempotent: a second run changes nothing and reports
    nothing updated and nobody promoted.
   */
  lemma {:induction false} SyncAllSimpleIdempotent(st: State)
    ensures var (st1, _) := SyncAll(st, false);
            var (st2, report) := SyncAll(st1, false);
            st2 == st1 && report.updatedCount == 0 && report.adminCount == 0
  {
    var st1 := SyncAll(st, false).0;
    var st2 := SyncAll(st1, false).0;
    forall u | u in st1.users
      ensures !GetsPlaceholder(st1.users[u], false) && !PromotesToAdmin(st1.users[u])
    {
      var user := st.users[u];
      if GetsPlaceholder(user, false) {
        PlaceholderNotAdmin(user.clerkId, "placeholder.com");
      }
    }
    assert st2.users == st1.users;
  }

  /** No migration ever takes the admin role away. */
  lemma SyncNeverDemotes(st: State, requireClerkId: bool, u: UserId)
    requires u in st.users && st.users[u].role == Some(AdminRole)
    ensures SyncAll(st, requireClerkId).0.users[u].role == Some(AdminRole)
    ensures MigrateUserEmails(st).0.users[u].role == Some(AdminRole)
  {
  }

  // ---------------------------------------------------------------------------
  // syncAllUserEmailsFromJWT
  // ---------------------------------------------------------------------------

  /**
    The admin's own row takes the token's email when it has none; any other
    user without an address gets a "needs sync" placeholder.
   */
  function SyncUserFromToken(u: UserId, user: User, admin: UserId, tokenEmail: Option<string>): (r: User)
    ensures u == admin && !StringSet(user.email) && StringSet(tokenEmail) ==>
              r.email == tokenEmail && (r.role == Some(AdminRole) <==> user.role == Some(AdminRole) || tokenEmail == Some(AdminEmail))
    ensures !(u == admin && StringSet(tokenEmail)) && !StringSet(user.email) ==>
              r == user.(email := Some(Placeholder(user.clerkId, "needs-sync.com")))
    ensures StringSet(user.email) ==> r == user
    ensures r.clerkId == user.clerkId
  {
    if u == admin && !StringSet(user.email) && StringSet(tokenEmail) then WithEmail(user, tokenEmail.value)
    else if !StringSet(user.email) then user.(email := Some(Placeholder(user.clerkId, "needs-sync.com")))
    else user
  }

  /** An admin fills in missing addresses: their own from the token, everyone else's with a placeholder. */
  function SyncAllUserEmailsFromToken(st: State, identity: Option<Identity>): (r: Reply<(State, Report)>)
    ensures RequireAdmin(st, identity).Err? ==> r == Err(RequireAdmin(st, identity).error)
    ensures r.Ok? <==> RequireAdmin(st, identity).Ok?
    ensures r.Ok? ==> var admin := RequireAdmin(st, identity).value;
              && r.value.0 == st.(users := r.value.0.users)
              && r.value.0.users.Keys == st.users.Keys
              && (forall u :: u in st.users ==>
                    r.value.0.users[u] == SyncUserFromToken(u, st.users[u], admin, identity.value.email))
              && r.value.1.updatedCount == |set u | u in st.users && !StringSet(st.users[u].email)|
              && r.value.1.adminCount == 0
              && r.value.1.totalUsers == |st.users|
    ensures r.Ok? ==> forall u :: u in r.value.0.users ==> StringSet(r.value.0.users[u].email)
  {
    var admin :- RequireAdmin(st, identity);
    var tokenEmail := identity.value.email;
    var users := map u | u in st.users :: SyncUserFromToken(u, st.users[u], admin, tokenEmail);
    var filled := set u | u in st.users && !StringSet(st.users[u].email);
    // The admin already holds the admin role, so the promotion branch never counts anyone.
    Ok((st.(users := users), Report(|filled|, 0, |st.users|)))
  }

  /** Every migration keeps every database invariant. */
  lemma MigrateUserEmailsKeepsValid(st: State)
    requires Valid(st)
    ensures Valid(MigrateUserEmails(st).0)
  {
    SameIdentitiesKeepValid(st, MigrateUserEmails(st).0.users);
  }

  lemma SyncAllKeepsValid(st: State, requireClerkId: bool)
    requires Valid(st)
    ensures Valid(SyncAll(st, requireClerkId).0)
  {
    SameIdentitiesKeepValid(st, SyncAll(st, requireClerkId).0.users);
  }

  /**
    The token sync reports the number of users whose email it changed, and
    changes nobody's role: the one row it may promote is the admin's own.
   */
  lemma SyncFromTokenReportsChanges(st: State, identity: Option<Identity>)
    requires SyncAllUserEmailsFromToken(st, identity).Ok?
    ensures var (st', report) := SyncAllUserEmailsFromToken(st, identity).value;
            && report.updatedCount == |EmailChanged(st.users, st'.users)|
            && RoleChanged(st.users, st'.users) == {}
  {
    var admin := RequireAdmin(st, identity).value;
    var st' := SyncAllUserEmailsFromToken(st, identity).value.0;
    var filled := set u | u in st.users && !StringSet(st.users[u].email);
    forall u | u in st.users
      ensures u in filled <==> u in EmailChanged(st.users, st'.users)
      ensures u !in RoleChanged(st.users, st'.users)
    {
      assert st'.users[u] == SyncUserFromToken(u, st.users[u], admin, identity.value.email);
    }
    assert filled == EmailChanged(st.users, st'.users);
  }

  lemma SyncFromTokenKeepsValid(st: State, identity: Option<Identity>)
    requires Valid(st)
    requires SyncAllUserEmailsFromToken(st, identity).Ok?
    ensures Valid(SyncAllUserEmailsFromToken(st, identity).value.0)
  {
    var admin := RequireAdmin(st, identity).value;
    var users := SyncAllUserEmailsFromToken(st, identity).value.0.users;
    forall u | u in users
      ensures users[u].clerkId == st.users[u].clerkId
    {
      assert users[u] == SyncUserFromToken(u, st.users[u], admin, identity.value.email);
    }
    SameIdentitiesKeepValid(st, users);
  }
}
