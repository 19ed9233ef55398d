/**
  Identity resolution and the authorization guards every chat handler runs
  before touching data. A guard receives the database but returns no new
  database: guards only read, whether they pass or throw.
 */
module Helpers {
  import opened Wrappers
  import opened Schema

  // ---------------------------------------------------------------------------
  // Identity resolution
  // ---------------------------------------------------------------------------

  /** The user row whose `clerkId` is the given one, looked up with `unique()`. */
  function GetUserByClerkId(st: State, clerkId: string): (r: Reply<Option<UserId>>)
    ensures r.Ok? && r.value.Some? ==>
              r.value.value in st.users && st.users[r.value.value].clerkId == clerkId
    ensures r == Ok(None) <==> forall u :: u in st.users ==> st.users[u].clerkId != clerkId
    ensures r.Err? <==>
              exists a, b :: a in st.users && b in st.users && a != b &&
                             st.users[a].clerkId == clerkId && st.users[b].clerkId == clerkId
    ensures r.Err? ==> r.error == NotUnique
    ensures forall u :: u in st.users && st.users[u].clerkId == clerkId &&
                        (forall v :: v in st.users && st.users[v].clerkId == clerkId ==> v == u) ==>
              r == Ok(Some(u))
  {
    var found := Unique(UsersWithClerkId(st, clerkId));
    assert forall a :: a in UsersWithClerkId(st, clerkId) <==> a in st.users && st.users[a].clerkId == clerkId;
    found
  }

  /** The user behind the caller's identity; no identity means no user. */
  function GetCurrentUser(st: State, identity: Option<Identity>): (r: Reply<Option<UserId>>)
    ensures identity.None? ==> r == Ok(None)
    ensures r.Ok? && r.value.Some? ==>
              identity.Some? && r.value.value in st.users &&
              st.users[r.value.value].clerkId == identity.value.subject
    ensures identity.Some? && (forall u :: u in st.users ==> st.users[u].clerkId != identity.value.subject) ==>
              r == Ok(None)
    ensures identity.Some? ==> r == GetUserByClerkId(st, identity.value.subject)
  {
    if identity.None? then Ok(None)
    else GetUserByClerkId(st, identity.value.subject)
  }

  /** The check run by the authenticated wrappers: the caller must resolve to a user. */
  function Authenticate(st: State, identity: Option<Identity>): (r: Reply<UserId>)
    ensures GetCurrentUser(st, identity) == Ok(None) ==> r == Err(Unauthorized)
    ensures GetCurrentUser(st, identity).Err? ==> r == Err(GetCurrentUser(st, identity).error)
    ensures r.Ok? <==> GetCurrentUser(st, identity).Ok? && GetCurrentUser(st, identity).value.Some?
    ensures r.Ok? ==> r.value == GetCurrentUser(st, identity).value.value
  {
    var user :- GetCurrentUser(st, identity);
    if user.None? then Err(Unauthorized) else Ok(user.value)
  }

  /**
    The authenticated query and mutation wrappers: a handler body runs with the
    resolved caller, or the call fails with "Unauthorized" before the body runs.
   */
  function Authenticated<T>(st: State, identity: Option<Identity>, handler: UserId -> Reply<T>): (r: Reply<T>)
    ensures identity.None? ==> r == Err(Unauthorized)
    ensures GetCurrentUser(st, identity) == Ok(None) ==> r == Err(Unauthorized)
    ensures forall u :: GetCurrentUser(st, identity) == Ok(Some(u)) ==> r == handler(u)
    ensures r.Ok? ==> exists u :: u in st.users && GetCurrentUser(st, identity) == Ok(Some(u))
  {
    var caller :- Authenticate(st, identity);
    handler(caller)
  }

  // ---------------------------------------------------------------------------
  // Guards
  // ---------------------------------------------------------------------------

  /** The caller owns the server. */
  function AssertServerOwner(st: State, caller: UserId, s: ServerId): (r: Reply<()>)
    ensures s !in st.servers ==> r == Err(ServerNotFound)
    ensures r.Ok? <==> s in st.servers && st.servers[s].ownerId == caller
    ensures r.Err? ==> r.error in {ServerNotFound, NotServerOwner}
  {
    if s !in st.servers then Err(ServerNotFound)
    else if st.servers[s].ownerId != caller then Err(NotServerOwner)
    else Ok(())
  }

  /** A membership row (`s`, `u`) exists, whether or not it is the only one. */
  predicate HasMemberRow(st: State, s: ServerId, u: UserId)
  {
    exists m :: m in st.serverMembers && st.serverMembers[m] == ServerMember(s, u)
  }

  /** A direct-message membership row (`d`, `u`) exists. */
  predicate HasDmMemberRow(st: State, d: DmId, u: UserId)
  {
    exists m :: m in st.dmMembers && st.dmMembers[m] == DmMember(d, u)
  }

  /** The caller has a membership row for the server, found with `unique()`. */
  function AssertServerMember(st: State, caller: UserId, s: ServerId): (r: Reply<()>)
    ensures !HasMemberRow(st, s, caller) <==> r == Err(NotServerMember)
    ensures r.Ok? ==> HasMemberRow(st, s, caller)
    ensures r.Err? ==> r.error in {NotServerMember, NotUnique}
    ensures r.Ok? <==> |MemberRows(st, s, caller)| == 1
  {
    assert forall m :: m in MemberRows(st, s, caller) <==>
      m in st.serverMembers && st.serverMembers[m] == ServerMember(s, caller);
    var row :- Unique(MemberRows(st, s, caller));
    if row.None? then Err(NotServerMember) else Ok(())
  }

  /**
    The caller may read and write the messages of a channel or a direct message.
    For a channel this is the membership check of the channel's server, written
    out again in the backend; for a direct message it asks for a row of the
    direct message's member table.
   */
  function AssertChannelMember(st: State, caller: UserId, t: Target): (r: Reply<()>)
    ensures t.Chan? && t.channel !in st.channels ==> r == Err(TargetNotFound)
    ensures t.DM? && t.dm !in st.directMessages ==> r == Err(TargetNotFound)
    ensures t.Chan? && t.channel in st.channels ==>
              r == AssertServerMember(st, caller, st.channels[t.channel].serverId)
    ensures t.DM? && t.dm in st.directMessages ==>
              (r == Err(NotDmMember) <==> !HasDmMemberRow(st, t.dm, caller))
    ensures t.DM? && r.Ok? ==> t.dm in st.directMessages && |DmMemberRows(st, t.dm, caller)| == 1
    ensures t.DM? && t.dm in st.directMessages ==> (r.Ok? <==> |DmMemberRows(st, t.dm, caller)| == 1)
    ensures r.Ok? ==> TargetExists(st, t)
  {
    match t
    case Chan(c) =>
      if c !in st.channels then Err(TargetNotFound)
      else
        var row :- Unique(MemberRows(st, st.channels[c].serverId, caller));
        if row.None? then Err(NotServerMember) else Ok(())
    case DM(d) =>
      if d !in st.directMessages then Err(TargetNotFound)
      else
        assert forall m :: m in DmMemberRows(st, d, caller) <==>
          m in st.dmMembers && st.dmMembers[m] == DmMember(d, caller);
        var row :- Unique(DmMemberRows(st, d, caller));
        if row.None? then Err(NotDmMember) else Ok(())
  }

  /** The document a target id refers to is present. */
  predicate TargetExists(st: State, t: Target)
  {
    match t
    case Chan(c) => c in st.channels
    case DM(d) => d in st.directMessages
  }
}
