/**
  Invites: an invite admits users to one server, optionally until a time and
  optionally a limited number of times. Absent and 0 both mean "no limit",
  because the backend tests the fields for truthiness. The clock is a
  parameter `now` (milliseconds, as the platform's `Date.now()`).
 */
module Invites {
  import opened Wrappers
  import opened Schema
  import opened Helpers
  import opened Invariants

  /** An invite may still be used: not past its expiry, and not at its use limit. */
  predicate Usable(inv: Invite, now: int)
  {
    && (inv.expiresAt.None? || inv.expiresAt.value == 0 || now <= inv.expiresAt.value)
    && (inv.maxUses.None? || inv.maxUses.value == 0 || inv.uses < inv.maxUses.value)
  }

  /** Fetches an invite and throws unless it can still be used. */
  function GetInvite(st: State, id: InviteId, now: int): (r: Reply<Invite>)
    ensures id !in st.invites ==> r == Err(InviteNotFound)
    ensures r.Ok? <==> id in st.invites && Usable(st.invites[id], now)
    ensures r.Ok? ==> r.value == st.invites[id]
    ensures id in st.invites && NumberSet(st.invites[id].expiresAt) && st.invites[id].expiresAt.value < now ==>
              r == Err(InviteExpired)
    ensures id in st.invites && !(NumberSet(st.invites[id].expiresAt) && st.invites[id].expiresAt.value < now) &&
            NumberSet(st.invites[id].maxUses) && st.invites[id].uses >= st.invites[id].maxUses.value ==>
              r == Err(InviteUsedUp)
    ensures r.Err? ==> r.error in {InviteNotFound, InviteExpired, InviteUsedUp}
  {
    if id !in st.invites then Err(InviteNotFound)
    else
      var invite := st.invites[id];
      if NumberSet(invite.expiresAt) && invite.expiresAt.value < now then Err(InviteExpired)
      else if NumberSet(invite.maxUses) && invite.uses >= invite.maxUses.value then Err(InviteUsedUp)
      else Ok(invite)
  }

  /** An invite together with its server, as shown on the join page. */
  datatype InviteView = InviteView(invite: Invite, server: Server)

  /** Looks up a usable invite and its server. Needs no signed-in caller. */
  function Get(st: State, id: InviteId, now: int): (r: Reply<InviteView>)
    ensures GetInvite(st, id, now).Err? ==> r == Err(GetInvite(st, id, now).error)
    ensures r.Ok? <==> id in st.invites && Usable(st.invites[id], now) && st.invites[id].serverId in st.servers
    ensures GetInvite(st, id, now).Ok? && st.invites[id].serverId !in st.servers ==> r == Err(ServerNotFound)
    ensures r.Ok? ==> r.value.invite == st.invites[id] && r.value.server == st.servers[st.invites[id].serverId]
  {
    var invite :- GetInvite(st, id, now);
    if invite.serverId !in st.servers then Err(ServerNotFound)
    else Ok(InviteView(invite, st.servers[invite.serverId]))
  }

  /** Any member of a server (not only its owner) creates an invite to it, with no uses yet. */
  function Create(st: State, caller: UserId, s: ServerId, expiresAt: Option<int>, maxUses: Option<int>): (r: Reply<(State, InviteId)>)
    ensures AssertServerMember(st, caller, s).Err? ==> r == Err(AssertServerMember(st, caller, s).error)
    ensures r.Ok? <==> AssertServerMember(st, caller, s).Ok?
    ensures r.Ok? ==> r.value.1 == st.next
    ensures r.Ok? ==> r.value.0 == st.(invites := st.invites[st.next := Invite(s, expiresAt, maxUses, 0)], next := st.next + 1)
  {
    var ok :- AssertServerMember(st, caller, s);
    var id := st.next;
    Ok((st.(invites := st.invites[id := Invite(s, expiresAt, maxUses, 0)], next := st.next + 1), id))
  }

  /**
    Uses an invite. A caller who already belongs to the server gets nothing
    done: no new row and no use counted. Anyone else gets one membership row,
    and the invite one more use.
   */
  function Join(st: State, caller: UserId, id: InviteId, now: int): (r: Reply<(State, ())>)
    ensures GetInvite(st, id, now).Err? ==> r == Err(GetInvite(st, id, now).error)
    ensures GetInvite(st, id, now).Ok? && |MemberRows(st, st.invites[id].serverId, caller)| == 1 ==>
              r == Ok((st, ()))
    ensures GetInvite(st, id, now).Ok? && |MemberRows(st, st.invites[id].serverId, caller)| >= 2 ==>
              r == Err(NotUnique)
    ensures GetInvite(st, id, now).Ok? && !HasMemberRow(st, st.invites[id].serverId, caller) ==>
              var invite := st.invites[id];
              if invite.serverId !in st.servers then r == Err(ServerNotFound)
              else r == Ok((st.(serverMembers := st.serverMembers[st.next := ServerMember(invite.serverId, caller)],
                                invites := st.invites[id := invite.(uses := invite.uses + 1)],
                                next := st.next + 1), ()))
    ensures r.Ok? ==> id in st.invites && Usable(st.invites[id], now) &&
                      HasMemberRow(r.value.0, st.invites[id].serverId, caller)
  {
    var invite :- GetInvite(st, id, now);
    assert forall m :: m in MemberRows(st, invite.serverId, caller) <==>
      m in st.serverMembers && st.serverMembers[m] == ServerMember(invite.serverId, caller);
    var existingMember :- Unique(MemberRows(st, invite.serverId, caller));
    if existingMember.Some? then Ok((st, ()))
    else if invite.serverId !in st.servers then Err(ServerNotFound)
    else
      var st' := st.(serverMembers := st.serverMembers[st.next := ServerMember(invite.serverId, caller)],
                     invites := st.invites[id := invite.(uses := invite.uses + 1)],
                     next := st.next + 1);
      assert st'.serverMembers[st.next] == ServerMember(invite.serverId, caller);
      Ok((st', ()))
  }

  // ---------------------------------------------------------------------------
  // Properties
  // ---------------------------------------------------------------------------

  /** With a limit set, a successful join never takes the use count past it. */
  lemma JoinStaysWithinLimit(st: State, caller: UserId, id: InviteId, now: int)
    requires id in st.invites && NumberSet(st.invites[id].maxUses)
    requires st.invites[id].uses <= st.invites[id].maxUses.value
    requires Join(st, caller, id, now).Ok?
    ensures var st' := Join(st, caller, id, now).value.0;
            id in st'.invites && st'.invites[id].uses <= st'.invites[id].maxUses.value
  {
  }

  /** A join by a non-member adds exactly one membership row and counts exactly one use. */
  lemma JoinCountsOneUse(st: State, caller: UserId, id: InviteId, now: int)
    requires IdsAllocated(st)
    requires id in st.invites && !HasMemberRow(st, st.invites[id].serverId, caller)
    requires Join(st, caller, id, now).Ok?
    ensures var st' := Join(st, caller, id, now).value.0;
            && |st'.serverMembers| == |st.serverMembers| + 1
            && st'.invites[id].uses == st.invites[id].uses + 1
            && MemberRows(st', st.invites[id].serverId, caller) == {st.next}
  {
    var s := st.invites[id].serverId;
    var st' := Join(st, caller, id, now).value.0;
    assert st.next !in st.serverMembers;
    assert st'.serverMembers == st.serverMembers[st.next := ServerMember(s, caller)];
    forall m | m in MemberRows(st', s, caller)
      ensures m == st.next
    {
    }
  }

  /**
    An invite with a limit of one admits one user: after a non-member's join
    succeeds, every later join fails, whoever tries and whenever; before the
    expiry it fails for having reached its maximum uses.
   */
  lemma SingleUseInvite(st: State, a: UserId, b: UserId, id: InviteId, now: int, later: int)
    requires id in st.invites && st.invites[id].maxUses == Some(1) && st.invites[id].uses == 0
    requires !HasMemberRow(st, st.invites[id].serverId, a)
    requires Join(st, a, id, now).Ok?
    ensures Join(Join(st, a, id, now).value.0, b, id, later).Err?
    ensures Usable(st.invites[id].(uses := 0), later) ==>
              Join(Join(st, a, id, now).value.0, b, id, later) == Err(InviteUsedUp)
  {
    var st' := Join(st, a, id, now).value.0;
    assert st'.invites[id].uses == 1;
  }

  /** Creating an invite keeps every database invariant. */
  lemma CreateKeepsValid(st: State, caller: UserId, s: ServerId, expiresAt: Option<int>, maxUses: Option<int>)
    requires Valid(st)
    requires Create(st, caller, s, expiresAt, maxUses).Ok?
    ensures Create(st, caller, s, expiresAt, maxUses).value.1 !in st.invites
    ensures Valid(Create(st, caller, s, expiresAt, maxUses).value.0)
  {
    var st' := Create(st, caller, s, expiresAt, maxUses).value.0;
    var m :| m in st.serverMembers && st.serverMembers[m] == ServerMember(s, caller);
    assert s < st.next;
    assert IdsAllocated(st');
    assert InvitesWithinLimit(st');
    assert st'.dmMembers == st.dmMembers && st'.directMessages == st.directMessages;
  }

  /** Joining keeps every database invariant, the use limit and membership uniqueness included. */
  lemma JoinKeepsValid(st: State, caller: UserId, id: InviteId, now: int)
    requires Valid(st)
    requires Join(st, caller, id, now).Ok?
    ensures Valid(Join(st, caller, id, now).value.0)
  {
    var st' := Join(st, caller, id, now).value.0;
    if st' != st {
      var s := st.invites[id].serverId;
      MemberGuardExact(st, caller, s);
      assert !HasMemberRow(st, s, caller);
      assert st' == Joined(st, caller, id);
      JoinedKeepsValid(st, caller, id, now);
    }
  }

  /** The database after a non-member joins through invite `id`: one new row, one more use. */
  function Joined(st: State, caller: UserId, id: InviteId): State
    requires id in st.invites
  {
    var invite := st.invites[id];
    st.(serverMembers := st.serverMembers[st.next := ServerMember(invite.serverId, caller)],
        invites := st.invites[id := invite.(uses := invite.uses + 1)],
        next := st.next + 1)
  }

  lemma JoinedKeepsValid(st: State, caller: UserId, id: InviteId, now: int)
    requires Valid(st)
    requires id in st.invites && Usable(st.invites[id], now)
    requires !HasMemberRow(st, st.invites[id].serverId, caller)
    ensures Valid(Joined(st, caller, id))
  {
    JoinedKeepsIds(st, caller, id);
    JoinedKeepsMemberships(st, caller, id);
    JoinedKeepsLimits(st, caller, id, now);
  }

  lemma JoinedKeepsIds(st: State, caller: UserId, id: InviteId)
    requires IdsAllocated(st) && id in st.invites
    ensures IdsAllocated(Joined(st, caller, id))
  {
  }

  lemma JoinedKeepsMemberships(st: State, caller: UserId, id: InviteId)
    requires IdsAllocated(st) && MembershipsUnique(st) && id in st.invites
    requires !HasMemberRow(st, st.invites[id].serverId, caller)
    ensures MembershipsUnique(Joined(st, caller, id))
  {
    var st' := Joined(st, caller, id);
    var row := ServerMember(st.invites[id].serverId, caller);
    forall m | m in st.serverMembers
      ensures st.serverMembers[m] != row
    {
    }
    forall m1, m2 | m1 in st'.serverMembers && m2 in st'.serverMembers && m1 != m2
      ensures st'.serverMembers[m1] != st'.serverMembers[m2]
    {
    }
  }

  lemma JoinedKeepsLimits(st: State, caller: UserId, id: InviteId, now: int)
    requires InvitesWithinLimit(st) && id in st.invites && Usable(st.invites[id], now)
    ensures InvitesWithinLimit(Joined(st, caller, id))
  {
    assert InviteWithinLimit(Joined(st, caller, id).invites[id]);
  }
}
