/**
  End-to-end consequences that span several handlers: what a non-member of a
  server can do there, and the walk-through of creating a server and listing
  its channels.
 */
module Scenarios {
  import opened Wrappers
  import opened Schema
  import opened Helpers
  import opened Invariants
  import Servers
  import Channels
  import Messages
  import Invites

  /**
    Without a membership row, a user is refused every read or write scoped to
    the server, each time with the membership error.
   */
  lemma NonMemberLockedOut(st: State, caller: UserId, s: ServerId, resolve: StorageId -> Option<string>)
    requires !HasMemberRow(st, s, caller)
    ensures Servers.Get(st, caller, s) == Err(NotServerMember)
    ensures Servers.Members(st, caller, s) == Err(NotServerMember)
    ensures Channels.List(st, caller, s) == Err(NotServerMember)
    ensures Invites.Create(st, caller, s, None, None) == Err(NotServerMember)
    ensures forall c :: c in st.channels && st.channels[c].serverId == s ==>
              && Channels.Get(st, caller, c) == Err(NotServerMember)
              && Messages.List(st, caller, Chan(c), resolve) == Err(NotServerMember)
              && (forall content, attachment :: Messages.Create(st, caller, content, attachment, Chan(c)) == Err(NotServerMember))
  {
  }

  /**
    User `a` creates "Acme": the reply carries the server and its default
    channel. Another user `b` cannot list its channels; `a` can, and sees
    "general" among them, as the only one.
   */
  lemma AcmeWalkthrough(st: State, a: UserId, b: UserId, icon: Option<StorageId>)
    requires IdsAllocated(st)
    requires a != b
    ensures var (st1, ids) := Servers.Create(st, a, "Acme", icon).value;
            var (s, c) := ids;
            && st1.servers[s].name == "Acme"
            && st1.servers[s].defaultChannelId == Some(c)
            && Channels.List(st1, b, s) == Err(NotServerMember)
            && Channels.List(st1, a, s).Ok?
            && Channels.List(st1, a, s).value.Keys == {c}
            && Channels.List(st1, a, s).value[c].name == "general"
  {
    var st1 := Servers.Create(st, a, "Acme", icon).value.0;
    var s := st.next;
    var c := st.next + 1;
    Servers.CreateShape(st, a, "Acme", icon);
    assert MemberRows(st1, s, b) == {};
    assert MemberRows(st1, s, a) == {st.next + 2};
    assert Channels.List(st1, a, s).value.Keys == ChannelsOf(st1, s);
  }

  /**
    An invite good for one use, created by a member, admits one outsider; a
    second outsider is then refused, and the server keeps exactly one row
    for the first.
   */
  lemma SingleUseInviteWalkthrough(st: State, owner: UserId, a: UserId, b: UserId, s: ServerId, now: int)
    requires Valid(st)
    requires s in st.servers && HasMemberRow(st, s, owner)
    requires !HasMemberRow(st, s, a) && !HasMemberRow(st, s, b)
    ensures var (st1, id) := Invites.Create(st, owner, s, None, Some(1)).value;
            && Invites.Join(st1, a, id, now).Ok?
            && var st2 := Invites.Join(st1, a, id, now).value.0;
            && |MemberRows(st2, s, a)| == 1
            && Invites.Join(st2, b, id, now) == Err(InviteUsedUp)
  {
    MemberGuardExact(st, owner, s);
    var st1 := Invites.Create(st, owner, s, None, Some(1)).value.0;
    var id := st.next;
    Invites.CreateKeepsValid(st, owner, s, None, Some(1));
    assert MemberRows(st1, s, a) == MemberRows(st, s, a) == {};
    assert st1.invites[id] == Invite(s, None, Some(1), 0);
    Invites.JoinCountsOneUse(st1, a, id, now);
  }
}
