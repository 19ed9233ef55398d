/**
  The user handlers: profile sync from the authentication provider, the admin
  role, privacy, and the admin's direct messages. These handlers do their own
  identity checks rather than run under the authenticated wrapper, and throw
  their own messages.
 */
module Users {
  import opened Wrappers
  import opened Schema
  import opened Helpers
  import opened Invariants
  import Messages

  // ---------------------------------------------------------------------------
  // Identity and profile sync
  // ---------------------------------------------------------------------------

  /** The caller's own user row, or null when signed out or unknown. */
  function Get(st: State, identity: Option<Identity>): (r: Reply<Option<User>>)
    ensures identity.None? ==> r == Ok(None)
    ensures GetCurrentUser(st, identity).Err? ==> r.Err?
    ensures r.Ok? && r.value.Some? ==>
              exists u :: u in st.users && st.users[u] == r.value.value &&
                          identity.Some? && r.value.value.clerkId == identity.value.subject
    ensures ClerkIdsUnique(st) && identity.Some? ==>
              (r == Ok(None) <==> forall u :: u in st.users ==> st.users[u].clerkId != identity.value.subject)
  {
    var user :- GetCurrentUser(st, identity);
    if user.None? then Ok(None) else Ok(Some(st.users[user.value]))
  }

  /** The role a newly seen user receives: admin exactly for the admin address. */
  function InitialRole(email: Option<string>): (role: Role)
    ensures role == AdminRole <==> email == Some(AdminEmail)
  {
    if email == Some(AdminEmail) then AdminRole else UserRole
  }

  /**
    Sync of a user from the authentication provider's webhook. A known
    `clerkId` gets its username, image and email overwritten (an absent email
    clears the field) and keeps its role and privacy flag; an unknown one gets
    a new public user row.
   */
  function Upsert(st: State, username: string, image: string, clerkId: string, email: Option<string>): (r: Reply<(State, ())>)
    ensures r.Err? <==> GetUserByClerkId(st, clerkId).Err?
    ensures forall u :: GetUserByClerkId(st, clerkId) == Ok(Some(u)) ==>
              && r.Ok?
              && var st' := r.value.0;
              && st'.users.Keys == st.users.Keys
              && st'.users[u] == User(username, image, clerkId, email, st.users[u].role, st.users[u].isPrivate)
              && (forall v :: v in st.users && v != u ==> st'.users[v] == st.users[v])
              && st' == st.(users := st'.users)
    ensures GetUserByClerkId(st, clerkId) == Ok(None) ==>
              && r.Ok?
              && var st' := r.value.0;
              && st'.users == st.users[st.next := User(username, image, clerkId, email, Some(InitialRole(email)), Some(false))]
              && (st'.users[st.next].role == Some(AdminRole) <==> email == Some(AdminEmail))
              && st' == st.(users := st'.users, next := st.next + 1)
  {
    var existing :- GetUserByClerkId(st, clerkId);
    if existing.Some? then
      var u := existing.value;
      Ok((st.(users := st.users[u := st.users[u].(username := username, image := image, email := email)]), ()))
    else
      var isAdmin := email == Some(AdminEmail);
      var user := User(username, image, clerkId, email, Some(if isAdmin then AdminRole else UserRole), Some(false));
      Ok((st.(users := st.users[st.next := user], next := st.next + 1), ()))
  }

  /** Deletes the user with this `clerkId`; nothing happens when there is none. */
  function Remove(st: State, clerkId: string): (r: Reply<(State, ())>)
    ensures r.Err? <==> GetUserByClerkId(st, clerkId).Err?
    ensures GetUserByClerkId(st, clerkId) == Ok(None) ==> r == Ok((st, ()))
    ensures forall u :: GetUserByClerkId(st, clerkId) == Ok(Some(u)) ==> r == Ok((st.(users := st.users - {u}), ()))
    ensures r.Ok? ==> forall u :: u in r.value.0.users ==> r.value.0.users[u].clerkId != clerkId
  {
    var existing :- GetUserByClerkId(st, clerkId);
    if existing.Some? then Ok((st.(users := st.users - {existing.value}), ()))
    else Ok((st, ()))
  }

  /** Whether the caller is an admin; false when signed out or unknown. */
  function IsAdmin(st: State, identity: Option<Identity>): (r: Reply<bool>)
    ensures identity.None? ==> r == Ok(false)
    ensures r.Ok? <==> GetCurrentUser(st, identity).Ok?
    ensures r.Ok? ==> (r.value <==> exists u :: GetCurrentUser(st, identity) == Ok(Some(u)) && st.users[u].role == Some(AdminRole))
  {
    var user :- GetCurrentUser(st, identity);
    Ok(user.Some? && st.users[user.value].role == Some(AdminRole))
  }

  /** The admin check of the admin-only handlers: the caller resolves to a user with the admin role. */
  function RequireAdmin(st: State, identity: Option<Identity>): (r: Reply<UserId>)
    ensures GetCurrentUser(st, identity).Err? ==> r == Err(GetCurrentUser(st, identity).error)
    ensures GetCurrentUser(st, identity) == Ok(None) ==> r == Err(AdminRequired)
    ensures forall u :: GetCurrentUser(st, identity) == Ok(Some(u)) ==>
              (r.Ok? <==> st.users[u].role == Some(AdminRole)) && (r.Ok? ==> r.value == u)
    ensures r.Err? ==> r.error in {AdminRequired, NotUnique}
    ensures r.Ok? ==> r.value in st.users && st.users[r.value].role == Some(AdminRole)
  {
    var user :- GetCurrentUser(st, identity);
    if user.None? || st.users[user.value].role != Some(AdminRole) then Err(AdminRequired)
    else Ok(user.value)
  }

  // ---------------------------------------------------------------------------
  // Email and role
  // ---------------------------------------------------------------------------

  /**
    The two patches every email setter makes: the new email, then the admin
    role when the address is the admin's and the user is not admin yet.
   */
  function WithEmail(user: User, email: string): (r: User)
    ensures r.email == Some(email)
    ensures r.role == Some(AdminRole) <==> user.role == Some(AdminRole) || email == AdminEmail
    ensures r.role != Some(AdminRole) ==> r.role == user.role
    ensures r.(email := user.email, role := user.role) == user
  {
    var patched := user.(email := Some(email));
    if email == AdminEmail && user.role != Some(AdminRole) then patched.(role := Some(AdminRole))
    else patched
  }

  /** A user's role never goes down through an email change. */
  lemma WithEmailNeverDemotes(user: User, email: string)
    requires user.role == Some(AdminRole)
    ensures WithEmail(user, email).role == Some(AdminRole)
  {
  }

  /** The caller sets their own email. */
  function UpdateUserEmail(st: State, identity: Option<Identity>, email: string): (r: Reply<(State, ())>)
    ensures GetCurrentUser(st, identity).Err? ==> r == Err(GetCurrentUser(st, identity).error)
    ensures GetCurrentUser(st, identity) == Ok(None) ==> r == Err(UserNotFound)
    ensures forall u :: GetCurrentUser(st, identity) == Ok(Some(u)) ==>
              r == Ok((st.(users := st.users[u := WithEmail(st.users[u], email)]), ()))
  {
    var user :- GetCurrentUser(st, identity);
    if user.None? then Err(UserNotFound)
    else Ok((st.(users := st.users[user.value := WithEmail(st.users[user.value], email)]), ()))
  }

  /** The caller's email is copied from the identity token, which must carry a non-empty one. */
  function SyncCurrentUserEmail(st: State, identity: Option<Identity>): (r: Reply<(State, string)>)
    ensures identity.None? ==> r == Err(NotAuthenticated)
    ensures identity.Some? && GetCurrentUser(st, identity) == Ok(None) ==> r == Err(UserNotInDatabase)
    ensures forall u :: GetCurrentUser(st, identity) == Ok(Some(u)) ==>
              if StringSet(identity.value.email) then
                r == Ok((st.(users := st.users[u := WithEmail(st.users[u], identity.value.email.value)]),
                         identity.value.email.value))
              else r == Err(NoIdentityEmail)
  {
    if identity.None? then Err(NotAuthenticated)
    else
      var user :- GetCurrentUser(st, identity);
      if user.None? then Err(UserNotInDatabase)
      else if !StringSet(identity.value.email) then Err(NoIdentityEmail)
      else
        var email := identity.value.email.value;
        Ok((st.(users := st.users[user.value := WithEmail(st.users[user.value], email)]), email))
  }

  /** What the admin email setters return: the user, the email, and the role the user had before. */
  datatype EmailResult = EmailResult(userId: UserId, email: string, role: Option<Role>)

  /** Internal: sets the email of the user with this `clerkId`. */
  function ForceUpdateUserEmail(st: State, clerkId: string, email: string): (r: Reply<(State, EmailResult)>)
    ensures GetUserByClerkId(st, clerkId).Err? ==> r == Err(NotUnique)
    ensures GetUserByClerkId(st, clerkId) == Ok(None) ==> r == Err(UserNotFound)
    ensures forall u :: GetUserByClerkId(st, clerkId) == Ok(Some(u)) ==>
              r == Ok((st.(users := st.users[u := WithEmail(st.users[u], email)]),
                       EmailResult(u, email, st.users[u].role)))
  {
    var found :- GetUserByClerkId(st, clerkId);
    if found.None? then Err(UserNotFound)
    else
      var u := found.value;
      Ok((st.(users := st.users[u := WithEmail(st.users[u], email)]), EmailResult(u, email, st.users[u].role)))
  }

  /** An admin sets any user's email. */
  function SetUserEmail(st: State, identity: Option<Identity>, userId: UserId, email: string): (r: Reply<(State, EmailResult)>)
    ensures RequireAdmin(st, identity).Err? ==> r == Err(RequireAdmin(st, identity).error)
    ensures RequireAdmin(st, identity).Ok? && userId !in st.users ==> r == Err(UserNotFound)
    ensures r.Ok? <==> RequireAdmin(st, identity).Ok? && userId in st.users
    ensures r.Ok? ==> r.value == (st.(users := st.users[userId := WithEmail(st.users[userId], email)]),
                                  EmailResult(userId, email, st.users[userId].role))
  {
    var admin :- RequireAdmin(st, identity);
    if userId !in st.users then Err(UserNotFound)
    else Ok((st.(users := st.users[userId := WithEmail(st.users[userId], email)]),
             EmailResult(userId, email, st.users[userId].role)))
  }

  // ---------------------------------------------------------------------------
  // Privacy
  // ---------------------------------------------------------------------------

  /** The caller sets their own privacy flag; nothing else changes. */
  function SetPrivacy(st: State, identity: Option<Identity>, isPrivate: bool): (r: Reply<(State, bool)>)
    ensures GetCurrentUser(st, identity).Err? ==> r == Err(GetCurrentUser(st, identity).error)
    ensures GetCurrentUser(st, identity) == Ok(None) ==> r == Err(UserNotFound)
    ensures forall u :: GetCurrentUser(st, identity) == Ok(Some(u)) ==>
              && r.Ok? && r.value.1 == isPrivate
              && var st' := r.value.0;
              && st'.users.Keys == st.users.Keys
              && st'.users[u] == st.users[u].(isPrivate := Some(isPrivate))
              && (forall v :: v in st.users && v != u ==> st'.users[v] == st.users[v])
              && st' == st.(users := st'.users)
  {
    var user :- GetCurrentUser(st, identity);
    if user.None? then Err(UserNotFound)
    else
      var u := user.value;
      Ok((st.(users := st.users[u := st.users[u].(isPrivate := Some(isPrivate))]), isPrivate))
  }

  /**
    The users found through the `by_privacy` index with the given flag. A row
    without the field matches neither value.
   */
  function UsersWithPrivacy(st: State, isPrivate: bool): (r: map<UserId, User>)
    ensures forall u :: u in r <==> u in st.users && st.users[u].isPrivate == Some(isPrivate)
    ensures forall u :: u in r ==> r[u] == st.users[u]
  {
    map u | u in st.users && st.users[u].isPrivate == Some(isPrivate) :: st.users[u]
  }

  /** The public users. Needs no signed-in caller. */
  function GetPublicUsers(st: State): (r: map<UserId, User>)
    ensures forall u :: u in r <==> u in st.users && st.users[u].isPrivate == Some(false)
    ensures forall u :: u in r ==> r[u] == st.users[u]
  {
    UsersWithPrivacy(st, false)
  }

  /** The private users, to an admin. */
  function GetPrivateUsers(st: State, identity: Option<Identity>): (r: Reply<map<UserId, User>>)
    ensures RequireAdmin(st, identity).Err? ==> r == Err(RequireAdmin(st, identity).error)
    ensures r.Ok? <==> RequireAdmin(st, identity).Ok?
    ensures r.Ok? ==> forall u :: u in r.value <==> u in st.users && st.users[u].isPrivate == Some(true)
    ensures r.Ok? ==> forall u :: u in r.value ==> r.value[u] == st.users[u]
  {
    var admin :- RequireAdmin(st, identity);
    Ok(UsersWithPrivacy(st, true))
  }

  /**
    The public users plus the caller, even when the caller is private; an
    empty list when there is no caller. A public caller is listed once.
   */
  function GetAllPublicUsers(st: State, identity: Option<Identity>): (r: Reply<map<UserId, User>>)
    ensures GetCurrentUser(st, identity).Err? ==> r == Err(GetCurrentUser(st, identity).error)
    ensures GetCurrentUser(st, identity) == Ok(None) ==> r == Ok(map[])
    ensures forall me :: GetCurrentUser(st, identity) == Ok(Some(me)) ==>
              && r.Ok?
              && (forall u :: u in r.value <==> u == me || (u in st.users && st.users[u].isPrivate == Some(false)))
              && (forall u :: u in r.value ==> u in st.users && r.value[u] == st.users[u])
  {
    var current :- GetCurrentUser(st, identity);
    if current.None? then Ok(map[])
    else
      var me := current.value;
      var publicUsers := UsersWithPrivacy(st, false);
      if me in st.users && me !in publicUsers then Ok(publicUsers[me := st.users[me]])
      else Ok(publicUsers)
  }

  // ---------------------------------------------------------------------------
  // The admin's direct messages
  // ---------------------------------------------------------------------------

  /** The direct-message membership rows of a user (the `by_user` index). */
  function RowsOfUser(st: State, u: UserId): set<DmMemberId>
  {
    set m | m in st.dmMembers && st.dmMembers[m].user == u
  }

  /** The direct message of row `m` has exactly two member rows, one of them the target's. */
  predicate Qualifies(st: State, m: DmMemberId, target: UserId)
    requires m in st.dmMembers
  {
    var d := st.dmMembers[m].directMessage;
    |RowsOfDm(st, d)| == 2 && exists x :: x in RowsOfDm(st, d) && st.dmMembers[x].user == target
  }

  /** Row `m` is the admin's first row, in creation order, whose direct message qualifies. */
  predicate IsFirstQualifying(st: State, admin: UserId, target: UserId, m: DmMemberId)
  {
    && m in RowsOfUser(st, admin)
    && Qualifies(st, m, target)
    && forall x :: x in RowsOfUser(st, admin) && Qualifies(st, x, target) ==> m <= x
  }

  /** The backend's scan for an existing conversation: the admin's rows, oldest first. */
  method FindDirectMessage(st: State, admin: UserId, target: UserId) returns (found: Option<DmMemberId>)
    ensures found.Some? ==> IsFirstQualifying(st, admin, target, found.value)
    ensures found.None? ==> forall x :: x in RowsOfUser(st, admin) ==> !Qualifies(st, x, target)
  {
    var rows := RowsOfUser(st, admin);
    var rest := rows;
    while rest != {}
      invariant rest <= rows
      invariant forall x :: x in rows && x !in rest ==> !Qualifies(st, x, target)
      decreases |rest|
    {
      LeastExists(rest);
      var m :| IsLeast(m, rest);
      if Qualifies(st, m, target) {
        forall x | x in rows && Qualifies(st, x, target)
          ensures m <= x
        {
          assert x in rest;
        }
        return Some(m);
      }
      rest := rest - {m};
    }
    return None;
  }

  /** A new direct message with two member rows: the admin's, then the target's. */
  function NewDirectMessage(st: State, admin: UserId, target: UserId): (st': State)
    // only the conversation tables and the id counter change
    ensures st'.(directMessages := st.directMessages, dmMembers := st.dmMembers, next := st.next) == st
    ensures st'.next == st.next + 3 && st.next in st'.directMessages
    ensures HasDmMemberRow(st', st.next, admin) && HasDmMemberRow(st', st.next, target)
    // with every id below `next`, the three ids are fresh and the conversation holds exactly the two new rows
    ensures IdsAllocated(st) ==>
              && st'.directMessages == st.directMessages + {st.next}
              && st.next !in st.directMessages
              && st'.dmMembers.Keys == st.dmMembers.Keys + {st.next + 1, st.next + 2}
              && (forall m :: m in st.dmMembers ==> st'.dmMembers[m] == st.dmMembers[m])
              && RowsOfDm(st', st.next) == {st.next + 1, st.next + 2}
  {
    var d := st.next;
    var st' := st.(directMessages := st.directMessages + {d},
                   dmMembers := st.dmMembers[d + 1 := DmMember(d, admin)][d + 2 := DmMember(d, target)],
                   next := st.next + 3);
    assert st'.dmMembers[d + 1] == DmMember(d, admin) && st'.dmMembers[d + 2] == DmMember(d, target);
    if IdsAllocated(st) then (PairRows(st, st', admin, target); st') else st'
  }

  /** With every id below `next`, the two rows added under the next ids are the only rows of the new conversation. */
  lemma PairRows(st: State, st': State, admin: UserId, target: UserId)
    requires IdsAllocated(st)
    requires st'.dmMembers == st.dmMembers[st.next + 1 := DmMember(st.next, admin)][st.next + 2 := DmMember(st.next, target)]
    ensures RowsOfDm(st', st.next) == {st.next + 1, st.next + 2}
  {
    forall x | x in RowsOfDm(st', st.next)
      ensures x == st.next + 1 || x == st.next + 2
    {
    }
  }

  /** The admin's message in direct message `d`, with no attachment. */
  function PostToDm(st: State, admin: UserId, d: DmId, content: string): (st': State)
    // only the message table and the id counter change
    ensures st'.(messages := st.messages, next := st.next) == st
    ensures st'.next == st.next + 1
    ensures st.next in st'.messages
    ensures var msg := st'.messages[st.next];
            msg.sender == admin && msg.target == DM(d) && msg.content == content && msg.attachment.None?
    // with every id below `next`, the message is new and every older message stays as it was
    ensures IdsAllocated(st) ==>
              && st.next !in st.messages
              && st'.messages.Keys == st.messages.Keys + {st.next}
              && (forall m :: m in st.messages ==> st'.messages[m] == st.messages[m])
  {
    st.(messages := st.messages[st.next := Message(admin, content, DM(d), None, None, None)], next := st.next + 1)
  }

  /**
    The admin's post is the insert the message handler makes, without that
    handler's membership guard and without its two scheduled jobs.
   */
  lemma PostIsMessageInsert(st: State, admin: UserId, d: DmId, content: string)
    requires Messages.Create(st, admin, content, None, DM(d)).Ok?
    ensures PostToDm(st, admin, d, content) == Messages.Create(st, admin, content, None, DM(d)).value.0.(jobs := st.jobs)
  {
  }

  /**
    An admin messages a user: in the first existing two-member conversation of
    the admin's that includes the user, or else in a new conversation with
    exactly the two of them.
   */
  method SendDirectMessage(st: State, identity: Option<Identity>, target: UserId, content: string)
    returns (r: Reply<(State, ())>)
    ensures RequireAdmin(st, identity).Err? ==> r == Err(RequireAdmin(st, identity).error)
    ensures r.Ok? <==> RequireAdmin(st, identity).Ok?
    ensures r.Ok? ==> forall m :: IsFirstQualifying(st, RequireAdmin(st, identity).value, target, m) ==>
              r.value.0 == PostToDm(st, RequireAdmin(st, identity).value, st.dmMembers[m].directMessage, content)
    ensures r.Ok? && (forall x :: x in RowsOfUser(st, RequireAdmin(st, identity).value) ==>
                        !Qualifies(st, x, target)) ==>
              r.value.0 == PostToDm(NewDirectMessage(st, RequireAdmin(st, identity).value, target),
                                    RequireAdmin(st, identity).value, st.next, content)
    ensures r.Ok? && IdsAllocated(st) ==> DeliveredToPair(st, r.value.0, RequireAdmin(st, identity).value, target)
    ensures r.Ok? && Valid(st) ==> Valid(r.value.0)
  {
    var checked := RequireAdmin(st, identity);
    if checked.Err? {
      return Err(checked.error);
    }
    var admin := checked.value;
    var found := FindDirectMessage(st, admin, target);
    if found.Some? {
      var m := found.value;
      var d := st.dmMembers[m].directMessage;
      if IdsAllocated(st) {
        ExistingConversation(st, admin, target, m);
        PostDelivers(st, st, admin, target, d, content);
      }
      if Valid(st) {
        PostToDmKeepsValid(st, admin, d, content);
      }
      r := Ok((PostToDm(st, admin, d, content), ()));
    } else {
      var st1 := NewDirectMessage(st, admin, target);
      if IdsAllocated(st) {
        NewConversation(st, admin, target);
        PostDelivers(st, st1, admin, target, st.next, content);
      }
      if Valid(st) {
        NewDirectMessageKeepsValid(st, admin, target);
        PostToDmKeepsValid(st1, admin, st.next, content);
      }
      r := Ok((PostToDm(st1, admin, st.next, content), ()));
    }
  }

  /**
    The last message of `st'` is new since `st`, is the admin's, and sits in a
    conversation of exactly two member rows: the admin's and the target's.
   */
  predicate DeliveredToPair(st: State, st': State, admin: UserId, target: UserId)
  {
    var id := st'.next - 1;
    && id in st'.messages && id !in st.messages
    && st'.messages[id].sender == admin
    && st'.messages[id].target.DM?
    && var d := st'.messages[id].target.dm;
    && |RowsOfDm(st', d)| == 2
    && HasDmMemberRow(st', d, admin)
    && HasDmMemberRow(st', d, target)
  }

  /** Posting into a conversation of the admin and the target delivers the message to that pair. */
  lemma PostDelivers(st0: State, st: State, admin: UserId, target: UserId, d: DmId, content: string)
    requires IdsAllocated(st0) && st.messages == st0.messages && st.next >= st0.next
    requires |RowsOfDm(st, d)| == 2 && HasDmMemberRow(st, d, admin) && HasDmMemberRow(st, d, target)
    ensures DeliveredToPair(st0, PostToDm(st, admin, d, content), admin, target)
  {
    var st' := PostToDm(st, admin, d, content);
    assert st.next !in st0.messages;
    assert RowsOfDm(st', d) == RowsOfDm(st, d);
  }

  /** The conversation found by the scan has two rows, the admin's and the target's, and exists. */
  lemma ExistingConversation(st: State, admin: UserId, target: UserId, m: DmMemberId)
    requires IsFirstQualifying(st, admin, target, m)
    ensures var d := st.dmMembers[m].directMessage;
            && |RowsOfDm(st, d)| == 2
            && HasDmMemberRow(st, d, admin)
            && HasDmMemberRow(st, d, target)
  {
    var d := st.dmMembers[m].directMessage;
    assert st.dmMembers[m] == DmMember(d, admin);
    var x :| x in RowsOfDm(st, d) && st.dmMembers[x].user == target;
    assert st.dmMembers[x] == DmMember(d, target);
  }

  /** A conversation created for the admin and the target has exactly their two rows. */
  lemma NewConversation(st: State, admin: UserId, target: UserId)
    requires IdsAllocated(st)
    ensures var st' := NewDirectMessage(st, admin, target);
            && RowsOfDm(st', st.next) == {st.next + 1, st.next + 2}
            && |RowsOfDm(st', st.next)| == 2
            && HasDmMemberRow(st', st.next, admin)
            && HasDmMemberRow(st', st.next, target)
  {
    var st' := NewDirectMessage(st, admin, target);
    forall x | x in RowsOfDm(st', st.next)
      ensures x == st.next + 1 || x == st.next + 2
    {
    }
    assert st'.dmMembers[st.next + 1] == DmMember(st.next, admin);
    assert st'.dmMembers[st.next + 2] == DmMember(st.next, target);
  }

  /**
    When the admin writes to themselves, any two-member conversation of the
    admin's qualifies, including one with another user: the backend only asks
    that the target be one of the two members.
   */
  lemma SelfMessageMatchesAnyPair(st: State, admin: UserId, m: DmMemberId)
    requires m in RowsOfUser(st, admin)
    requires |RowsOfDm(st, st.dmMembers[m].directMessage)| == 2
    ensures Qualifies(st, m, admin)
  {
    assert m in RowsOfDm(st, st.dmMembers[m].directMessage);
  }

  /**
    A conversation the admin creates with themselves holds two identical
    member rows, so the direct-message guard's unique lookup throws there:
    the admin cannot read or post in it through the message handlers.
   */
  lemma SelfConversationUnreadable(st: State, admin: UserId)
    requires IdsAllocated(st)
    ensures var st' := NewDirectMessage(st, admin, admin);
            && DmMemberRows(st', st.next, admin) == {st.next + 1, st.next + 2}
            && AssertChannelMember(st', admin, DM(st.next)) == Err(NotUnique)
  {
    var st' := NewDirectMessage(st, admin, admin);
    forall x | x in DmMemberRows(st', st.next, admin)
      ensures x == st.next + 1 || x == st.next + 2
    {
    }
    assert st'.dmMembers[st.next + 1] == DmMember(st.next, admin);
    assert st'.dmMembers[st.next + 2] == DmMember(st.next, admin);
    assert DmMemberRows(st', st.next, admin) == {st.next + 1, st.next + 2};
    SeveralIffTwoDistinct(DmMemberRows(st', st.next, admin));
  }

  // ---------------------------------------------------------------------------
  // Invariants
  // ---------------------------------------------------------------------------

  /** Replacing a user row by one with the same `clerkId` keeps every database invariant. */
  lemma PatchUserKeepsValid(st: State, u: UserId, user: User)
    requires Valid(st)
    requires u in st.users && user.clerkId == st.users[u].clerkId
    ensures Valid(st.(users := st.users[u := user]))
  {
    var st' := st.(users := st.users[u := user]);
    assert IdsAllocated(st');
    assert ClerkIdsUnique(st') by {
      forall u1, u2 | u1 in st'.users && u2 in st'.users && u1 != u2
        ensures st'.users[u1].clerkId != st'.users[u2].clerkId
      {
        if u1 == u {
          assert st'.users[u2] == st.users[u2];
        } else if u2 == u {
          assert st'.users[u1] == st.users[u1];
        }
      }
    }
  }

  /** Syncing a user keeps every database invariant: one row per `clerkId` in particular. */
  lemma UpsertKeepsValid(st: State, username: string, image: string, clerkId: string, email: Option<string>)
    requires Valid(st)
    ensures Upsert(st, username, image, clerkId, email).Ok?
    ensures Valid(Upsert(st, username, image, clerkId, email).value.0)
  {
    var st' := Upsert(st, username, image, clerkId, email).value.0;
    var existing := GetUserByClerkId(st, clerkId).value;
    if existing.Some? {
      var u := existing.value;
      PatchUserKeepsValid(st, u, st.users[u].(username := username, image := image, email := email));
    } else {
      assert IdsAllocated(st');
      assert ClerkIdsUnique(st') by {
        forall u1, u2 | u1 in st'.users && u2 in st'.users && u1 != u2
          ensures st'.users[u1].clerkId != st'.users[u2].clerkId
        {
          if u1 == st.next {
            assert st'.users[u2] == st.users[u2];
          } else if u2 == st.next {
            assert st'.users[u1] == st.users[u1];
          }
        }
      }
    }
  }

  /** The email setters keep every database invariant. */
  lemma UpdateUserEmailKeepsValid(st: State, identity: Option<Identity>, email: string)
    requires Valid(st)
    requires UpdateUserEmail(st, identity, email).Ok?
    ensures Valid(UpdateUserEmail(st, identity, email).value.0)
  {
    var u := GetCurrentUser(st, identity).value.value;
    PatchUserKeepsValid(st, u, WithEmail(st.users[u], email));
  }

  lemma SetPrivacyKeepsValid(st: State, identity: Option<Identity>, isPrivate: bool)
    requires Valid(st)
    requires SetPrivacy(st, identity, isPrivate).Ok?
    ensures Valid(SetPrivacy(st, identity, isPrivate).value.0)
  {
    var u := GetCurrentUser(st, identity).value.value;
    PatchUserKeepsValid(st, u, st.users[u].(isPrivate := Some(isPrivate)));
  }

  /** Deleting the user found by external id keeps every database invariant, and never throws on a valid database. */
  lemma RemoveKeepsValid(st: State, clerkId: string)
    requires Valid(st)
    ensures Remove(st, clerkId).Ok?
    ensures Valid(Remove(st, clerkId).value.0)
  {
    LookupNeverThrows(st, clerkId);
  }

  lemma SyncCurrentUserEmailKeepsValid(st: State, identity: Option<Identity>)
    requires Valid(st)
    requires SyncCurrentUserEmail(st, identity).Ok?
    ensures Valid(SyncCurrentUserEmail(st, identity).value.0)
  {
    var u := GetCurrentUser(st, identity).value.value;
    PatchUserKeepsValid(st, u, WithEmail(st.users[u], identity.value.email.value));
  }

  lemma ForceUpdateUserEmailKeepsValid(st: State, clerkId: string, email: string)
    requires Valid(st)
    requires ForceUpdateUserEmail(st, clerkId, email).Ok?
    ensures Valid(ForceUpdateUserEmail(st, clerkId, email).value.0)
  {
    var u := GetUserByClerkId(st, clerkId).value.value;
    PatchUserKeepsValid(st, u, WithEmail(st.users[u], email));
  }

  lemma SetUserEmailKeepsValid(st: State, identity: Option<Identity>, userId: UserId, email: string)
    requires Valid(st)
    requires SetUserEmail(st, identity, userId, email).Ok?
    ensures Valid(SetUserEmail(st, identity, userId, email).value.0)
  {
    PatchUserKeepsValid(st, userId, WithEmail(st.users[userId], email));
  }

  /** Opening a conversation keeps every database invariant; none of them is about conversations beyond their ids. */
  lemma NewDirectMessageKeepsValid(st: State, admin: UserId, target: UserId)
    requires Valid(st)
    ensures Valid(NewDirectMessage(st, admin, target))
  {
    var st' := NewDirectMessage(st, admin, target);
    assert IdsAllocated(st');
    NewDirectMessageKeepsPairs(st, admin, target);
  }

  /** The new conversation has its two rows, and every older one keeps exactly the rows it had. */
  lemma NewDirectMessageKeepsPairs(st: State, admin: UserId, target: UserId)
    requires IdsAllocated(st) && DmsArePairs(st)
    ensures DmsArePairs(NewDirectMessage(st, admin, target))
  {
    forall d | d in NewDirectMessage(st, admin, target).directMessages
      ensures |RowsOfDm(NewDirectMessage(st, admin, target), d)| == 2
    {
      PairAfterNew(st, admin, target, d);
    }
  }

  /** One conversation after the insert: the new one by its two rows, an older one by its unchanged rows. */
  lemma PairAfterNew(st: State, admin: UserId, target: UserId, d: DmId)
    requires IdsAllocated(st) && DmsArePairs(st)
    requires d in NewDirectMessage(st, admin, target).directMessages
    ensures |RowsOfDm(NewDirectMessage(st, admin, target), d)| == 2
  {
    var st' := NewDirectMessage(st, admin, target);
    if d != st.next {
      OlderRowsKept(st, st', admin, target, d);
    }
  }

  /** The two rows added for the new conversation belong to no older one. */
  lemma OlderRowsKept(st: State, st': State, admin: UserId, target: UserId, d: DmId)
    requires IdsAllocated(st) && d != st.next
    requires st'.dmMembers == st.dmMembers[st.next + 1 := DmMember(st.next, admin)][st.next + 2 := DmMember(st.next, target)]
    ensures RowsOfDm(st', d) == RowsOfDm(st, d)
  {
    forall x | x in RowsOfDm(st', d)
      ensures x in RowsOfDm(st, d)
    {
    }
  }

  lemma PostToDmKeepsValid(st: State, admin: UserId, d: DmId, content: string)
    requires Valid(st)
    ensures Valid(PostToDm(st, admin, d, content))
  {
    var st' := PostToDm(st, admin, d, content);
    assert IdsAllocated(st');
  }

  /**
    After the caller sets their privacy flag, the public listing and the
    admins' private listing agree with it, and other callers' combined listing
    shows the caller exactly when public.
   */
  lemma PrivacyIsListed(st: State, identity: Option<Identity>, isPrivate: bool, other: Option<Identity>)
    requires SetPrivacy(st, identity, isPrivate).Ok?
    ensures var st' := SetPrivacy(st, identity, isPrivate).value.0;
            var u := GetCurrentUser(st, identity).value.value;
            && (u in GetPublicUsers(st') <==> !isPrivate)
            && (RequireAdmin(st', other).Ok? ==> (u in GetPrivateUsers(st', other).value <==> isPrivate))
            && (forall v :: GetCurrentUser(st', other) == Ok(Some(v)) && v != u ==>
                  (u in GetAllPublicUsers(st', other).value <==> !isPrivate))
  {
  }

  /** The flag query and the admin check agree on who is an admin. */
  lemma IsAdminMatchesRequireAdmin(st: State, identity: Option<Identity>)
    requires GetCurrentUser(st, identity).Ok?
    ensures IsAdmin(st, identity) == Ok(true) <==> RequireAdmin(st, identity).Ok?
  {
  }

  /** After the webhook sync, a caller signed in with that external id reads back the synced profile. */
  lemma UpsertThenGet(st: State, username: string, image: string, clerkId: string, email: Option<string>,
                      identity: Option<Identity>)
    requires Valid(st)
    requires identity.Some? && identity.value.subject == clerkId
    ensures var st' := Upsert(st, username, image, clerkId, email).value.0;
            && Get(st', identity).Ok? && Get(st', identity).value.Some?
            && var user := Get(st', identity).value.value;
            && user.username == username && user.image == image
            && user.clerkId == clerkId && user.email == email
  {
    UpsertKeepsValid(st, username, image, clerkId, email);
    var st' := Upsert(st, username, image, clerkId, email).value.0;
    var u := UpsertedRow(st, username, image, clerkId, email);
    SignedInFindsRow(st', identity, u);
  }

  /** The row the webhook sync writes: the existing one for the external id, or the new one. */
  lemma UpsertedRow(st: State, username: string, image: string, clerkId: string, email: Option<string>)
    returns (u: UserId)
    requires Upsert(st, username, image, clerkId, email).Ok?
    ensures var st' := Upsert(st, username, image, clerkId, email).value.0;
            && u in st'.users
            && st'.users[u].username == username && st'.users[u].image == image
            && st'.users[u].clerkId == clerkId && st'.users[u].email == email
  {
    var found := GetUserByClerkId(st, clerkId).value;
    if found.Some? {
      u := found.value;
      assert GetUserByClerkId(st, clerkId) == Ok(Some(u));
    } else {
      u := st.next;
      assert GetUserByClerkId(st, clerkId) == Ok(None);
    }
  }

  /** With one row per external id, a signed-in caller resolves to the row carrying their id. */
  lemma SignedInFindsRow(st: State, identity: Option<Identity>, u: UserId)
    requires ClerkIdsUnique(st)
    requires identity.Some? && u in st.users && st.users[u].clerkId == identity.value.subject
    ensures GetCurrentUser(st, identity) == Ok(Some(u))
    ensures Get(st, identity) == Ok(Some(st.users[u]))
  {
  }
}
