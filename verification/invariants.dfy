/**
  The invariants of the chat database that the handlers keep. None of them is
  enforced by the schema; each follows from the checks the handlers make
  before they insert or delete.
 */
module Invariants {
  import opened Wrappers
  import opened Schema
  import opened Helpers

  /** Every id in use, as a key or as a reference to a server or direct message, is below `next`. */
  predicate IdsAllocated(st: State)
  {
    && (forall k :: k in st.users ==> k < st.next)
    && (forall k :: k in st.friends ==> k < st.next)
    && (forall k :: k in st.directMessages ==> k < st.next)
    && (forall k :: k in st.dmMembers ==> k < st.next && st.dmMembers[k].directMessage < st.next)
    && (forall k :: k in st.servers ==> k < st.next)
    && (forall k :: k in st.channels ==> k < st.next && st.channels[k].serverId < st.next)
    && (forall k :: k in st.serverMembers ==> k < st.next && st.serverMembers[k].serverId < st.next)
    && (forall k :: k in st.invites ==> k < st.next && st.invites[k].serverId < st.next)
    && (forall k :: k in st.messages ==> k < st.next)
    && (forall k :: k in st.typingIndicators ==> k < st.next)
  }

  /** A channel's server exists. */
  predicate ChannelsInServers(st: State)
  {
    forall c :: c in st.channels ==> st.channels[c].serverId in st.servers
  }

  /** A server's default channel exists and belongs to that server. */
  predicate DefaultChannelsOwned(st: State)
  {
    forall s :: s in st.servers && st.servers[s].defaultChannelId.Some? ==>
      var c := st.servers[s].defaultChannelId.value;
      c in st.channels && st.channels[c].serverId == s
  }

  /** No two channels of one server share a name. */
  predicate ChannelNamesUnique(st: State)
  {
    forall c1, c2 ::
      (c1 in st.channels && c2 in st.channels && c1 != c2 &&
       st.channels[c1].serverId == st.channels[c2].serverId) ==>
      st.channels[c1].name != st.channels[c2].name
  }

  /** No (server, user) pair has two membership rows. */
  predicate MembershipsUnique(st: State)
  {
    forall m1, m2 :: m1 in st.serverMembers && m2 in st.serverMembers && m1 != m2 ==>
      st.serverMembers[m1] != st.serverMembers[m2]
  }

  /** An invite's use count is not negative and never passes a positive `maxUses`. */
  predicate InviteWithinLimit(inv: Invite)
  {
    && inv.uses >= 0
    && (inv.maxUses.Some? && inv.maxUses.value > 0 ==> inv.uses <= inv.maxUses.value)
  }

  predicate InvitesWithinLimit(st: State)
  {
    forall i :: i in st.invites ==> InviteWithinLimit(st.invites[i])
  }

  /** No two users share an external identity key. */
  predicate ClerkIdsUnique(st: State)
  {
    forall u1, u2 :: u1 in st.users && u2 in st.users && u1 != u2 ==>
      st.users[u1].clerkId != st.users[u2].clerkId
  }

  /** Every direct message has exactly two member rows, as the only handler creating one inserts them. */
  predicate DmsArePairs(st: State)
  {
    forall d :: d in st.directMessages ==> |RowsOfDm(st, d)| == 2
  }

  predicate Valid(st: State)
  {
    && IdsAllocated(st)
    && ChannelsInServers(st)
    && DefaultChannelsOwned(st)
    && ChannelNamesUnique(st)
    && MembershipsUnique(st)
    && InvitesWithinLimit(st)
    && ClerkIdsUnique(st)
    && DmsArePairs(st)
  }

  /** The empty database. */
  function Empty(): (st: State)
    ensures Valid(st)
    ensures st.users == map[] && st.servers == map[] && st.next == 0
  {
    State(map[], map[], {}, map[], map[], map[], map[], map[], map[], map[], {}, [], 0)
  }

  /** In a valid database the server-membership guard passes exactly when a row exists. */
  lemma MemberGuardExact(st: State, caller: UserId, s: ServerId)
    requires MembershipsUnique(st)
    ensures AssertServerMember(st, caller, s).Ok? <==> HasMemberRow(st, s, caller)
    ensures AssertServerMember(st, caller, s).Err? ==> AssertServerMember(st, caller, s).error == NotServerMember
  {
  }

  /** In a valid database the channel guard on a channel passes exactly when its server has the caller's row. */
  lemma ChannelGuardExact(st: State, caller: UserId, c: ChannelId)
    requires MembershipsUnique(st)
    requires c in st.channels
    ensures AssertChannelMember(st, caller, Chan(c)).Ok? <==> HasMemberRow(st, st.channels[c].serverId, caller)
  {
    MemberGuardExact(st, caller, st.channels[c].serverId);
  }

  /** In a valid database resolving an identity never throws. */
  lemma LookupNeverThrows(st: State, clerkId: string)
    requires ClerkIdsUnique(st)
    ensures GetUserByClerkId(st, clerkId).Ok?
  {
  }
}
