/**
  The server handlers. Each runs under the authenticated wrapper
  (`Helpers.Authenticated`) and receives the resolved caller.
 */
module Servers {
  import opened Wrappers
  import opened Schema
  import opened Helpers
  import opened Invariants

  /** A server as listed to a member: the row, its id and the resolved icon URL. */
  datatype ServerView = ServerView(id: ServerId, server: Server, iconUrl: Option<string>)

  /** The icon URL: resolved through file storage when the server has an icon, else null. */
  function IconUrl(server: Server, resolve: StorageId -> Option<string>): Option<string>
  {
    if server.iconId.Some? then resolve(server.iconId.value) else None
  }

  /**
    The servers the caller belongs to, one entry per membership row of the
    caller (keyed by that row); a row whose server is gone is dropped.
   */
  function List(st: State, caller: UserId, resolve: StorageId -> Option<string>): (r: Reply<map<MemberId, ServerView>>)
    ensures r.Ok?
    ensures forall m :: m in r.value <==>
              m in st.serverMembers && st.serverMembers[m].userId == caller &&
              st.serverMembers[m].serverId in st.servers
    ensures forall m :: m in r.value ==>
              && r.value[m].id == st.serverMembers[m].serverId
              && r.value[m].server == st.servers[r.value[m].id]
              && r.value[m].iconUrl == IconUrl(r.value[m].server, resolve)
  {
    var rows := set m | m in st.serverMembers && st.serverMembers[m].userId == caller &&
                        st.serverMembers[m].serverId in st.servers;
    Ok(map m | m in rows ::
         var s := st.serverMembers[m].serverId;
         ServerView(s, st.servers[s], IconUrl(st.servers[s], resolve)))
  }

  /** A server, to a member of it; null when the member's server row is gone. */
  function Get(st: State, caller: UserId, id: ServerId): (r: Reply<Option<Server>>)
    ensures AssertServerMember(st, caller, id).Err? ==> r == Err(AssertServerMember(st, caller, id).error)
    ensures r.Ok? <==> AssertServerMember(st, caller, id).Ok?
    ensures r.Ok? ==> (r.value.Some? <==> id in st.servers)
    ensures r.Ok? && r.value.Some? ==> r.value.value == st.servers[id]
  {
    var ok :- AssertServerMember(st, caller, id);
    if id in st.servers then Ok(Some(st.servers[id])) else Ok(None)
  }

  /** The users of a server's membership rows, keyed by row, skipping users that are gone; to a member. */
  function Members(st: State, caller: UserId, id: ServerId): (r: Reply<map<MemberId, User>>)
    ensures AssertServerMember(st, caller, id).Err? ==> r == Err(AssertServerMember(st, caller, id).error)
    ensures r.Ok? <==> AssertServerMember(st, caller, id).Ok?
    ensures r.Ok? ==> forall m :: m in r.value <==>
              m in st.serverMembers && st.serverMembers[m].serverId == id &&
              st.serverMembers[m].userId in st.users
    ensures r.Ok? ==> forall m :: m in r.value ==> r.value[m] == st.users[st.serverMembers[m].userId]
  {
    var ok :- AssertServerMember(st, caller, id);
    var rows := set m | m in st.serverMembers && st.serverMembers[m].serverId == id &&
                        st.serverMembers[m].userId in st.users;
    Ok(map m | m in rows :: st.users[st.serverMembers[m].userId])
  }

  /**
    Creates a server owned by the caller with a channel named "general" as its
    default channel and the caller as its one member; returns both new ids.
   */
  function Create(st: State, caller: UserId, name: string, iconId: Option<StorageId>): (r: Reply<(State, (ServerId, ChannelId))>)
    ensures r.Ok?
    ensures r.value.1.0 == st.next && r.value.1.1 == st.next + 1
    ensures r.value.0.servers == st.servers[st.next := Server(name, caller, iconId, Some(st.next + 1))]
    ensures r.value.0.channels == st.channels[st.next + 1 := Channel("general", st.next)]
    ensures r.value.0.serverMembers == st.serverMembers[st.next + 2 := ServerMember(st.next, caller)]
    ensures r.value.0 == st.(servers := r.value.0.servers, channels := r.value.0.channels,
                             serverMembers := r.value.0.serverMembers, next := st.next + 3)
  {
    var serverId := st.next;
    var defaultChannelId := st.next + 1;
    var memberId := st.next + 2;
    var st1 := st.(servers := st.servers[serverId := Server(name, caller, iconId, None)]);
    var st2 := st1.(channels := st1.channels[defaultChannelId := Channel("general", serverId)]);
    var st3 := st2.(servers := st2.servers[serverId := st2.servers[serverId].(defaultChannelId := Some(defaultChannelId))]);
    var st4 := st3.(serverMembers := st3.serverMembers[memberId := ServerMember(serverId, caller)]);
    Ok((st4.(next := st.next + 3), (serverId, defaultChannelId)))
  }

  // ---------------------------------------------------------------------------
  // Cascading removal
  // ---------------------------------------------------------------------------

  /** The messages whose target is one of the given channels. */
  function MessagesIn(st: State, chans: set<ChannelId>): set<MessageId>
  {
    set m | m in st.messages && st.messages[m].target.Chan? && st.messages[m].target.channel in chans
  }

  /** The typing indicators whose target is one of the given channels. */
  function TypingIn(st: State, chans: set<ChannelId>): set<TypingId>
  {
    set t | t in st.typingIndicators && st.typingIndicators[t].target.Chan? &&
            st.typingIndicators[t].target.channel in chans
  }

  /** The stored files attached to the given messages. */
  function AttachmentsOf(st: State, msgs: set<MessageId>): set<StorageId>
  {
    set m | m in msgs && m in st.messages && st.messages[m].attachment.Some? :: st.messages[m].attachment.value
  }

  /** A message or typing indicator is aimed at a channel of server `s`. */
  predicate InServer(st: State, t: Target, s: ServerId)
  {
    t.Chan? && t.channel in st.channels && st.channels[t.channel].serverId == s
  }

  /**
    Deletes a server the caller owns together with its channels, the messages
    and typing indicators of those channels, the files attached to those
    messages, its membership rows, its invites and its icon file.
   */
  function Remove(st: State, caller: UserId, id: ServerId): (r: Reply<(State, ())>)
    ensures AssertServerOwner(st, caller, id).Err? ==> r == Err(AssertServerOwner(st, caller, id).error)
    ensures r.Ok? <==> id in st.servers && st.servers[id].ownerId == caller
    // nothing of the server remains
    ensures r.Ok? ==> var st' := r.value.0;
              && id !in st'.servers
              && (forall c :: c in st'.channels ==> st'.channels[c].serverId != id)
              && (forall m :: m in st'.serverMembers ==> st'.serverMembers[m].serverId != id)
              && (forall i :: i in st'.invites ==> st'.invites[i].serverId != id)
              && (forall m :: m in st'.messages ==> !InServer(st, st'.messages[m].target, id))
              && (forall t :: t in st'.typingIndicators ==> !InServer(st, st'.typingIndicators[t].target, id))
    // everything else remains as it was
    ensures r.Ok? ==> var st' := r.value.0;
              && (forall s :: s in st.servers && s != id ==> s in st'.servers && st'.servers[s] == st.servers[s])
              && (forall c :: c in st.channels && st.channels[c].serverId != id ==>
                    c in st'.channels && st'.channels[c] == st.channels[c])
              && (forall m :: m in st.serverMembers && st.serverMembers[m].serverId != id ==>
                    m in st'.serverMembers && st'.serverMembers[m] == st.serverMembers[m])
              && (forall i :: i in st.invites && st.invites[i].serverId != id ==>
                    i in st'.invites && st'.invites[i] == st.invites[i])
              && (forall m :: m in st.messages && !InServer(st, st.messages[m].target, id) ==>
                    m in st'.messages && st'.messages[m] == st.messages[m])
              && (forall t :: t in st.typingIndicators && !InServer(st, st.typingIndicators[t].target, id) ==>
                    t in st'.typingIndicators && st'.typingIndicators[t] == st.typingIndicators[t])
              && st'.servers.Keys <= st.servers.Keys
              && st'.channels.Keys <= st.channels.Keys
              && st'.serverMembers.Keys <= st.serverMembers.Keys
              && st'.invites.Keys <= st.invites.Keys
              && st'.messages.Keys <= st.messages.Keys
              && st'.typingIndicators.Keys <= st.typingIndicators.Keys
              && st'.users == st.users && st'.friends == st.friends
              && st'.directMessages == st.directMessages && st'.dmMembers == st.dmMembers
              && st'.jobs == st.jobs && st'.next == st.next
    // files: the attachments of the removed messages and the icon are deleted, and nothing else
    ensures r.Ok? ==> var st' := r.value.0;
              && (forall m :: (m in st.messages && InServer(st, st.messages[m].target, id) &&
                               st.messages[m].attachment.Some?) ==> st.messages[m].attachment.value !in st'.files)
              && (st.servers[id].iconId.Some? ==> st.servers[id].iconId.value !in st'.files)
              && (forall f :: f in st.files && f !in st'.files ==>
                    (st.servers[id].iconId == Some(f) ||
                     exists m :: m in st.messages && InServer(st, st.messages[m].target, id) &&
                                 st.messages[m].attachment == Some(f)))
              && st'.files <= st.files
  {
    var owner :- AssertServerOwner(st, caller, id);
    var chans := ChannelsOf(st, id);
    var msgs := MessagesIn(st, chans);
    var typing := TypingIn(st, chans);
    var icon := if st.servers[id].iconId.Some? then {st.servers[id].iconId.value} else {};
    Ok((st.(
      servers := st.servers - {id},
      channels := st.channels - chans,
      serverMembers := map m | m in st.serverMembers && st.serverMembers[m].serverId != id :: st.serverMembers[m],
      invites := map i | i in st.invites && st.invites[i].serverId != id :: st.invites[i],
      messages := st.messages - msgs,
      typingIndicators := st.typingIndicators - typing,
      files := st.files - AttachmentsOf(st, msgs) - icon), ()))
  }

  // ---------------------------------------------------------------------------
  // Properties
  // ---------------------------------------------------------------------------

  /** The ids of the listed servers are exactly the existing servers the caller has a membership row for. */
  lemma ListedServersAreMemberships(st: State, caller: UserId, resolve: StorageId -> Option<string>)
    ensures var listed := List(st, caller, resolve).value;
            (set m | m in listed :: listed[m].id) ==
            (set s | s in st.servers && HasMemberRow(st, s, caller))
  {
    var listed := List(st, caller, resolve).value;
    var ids := set m | m in listed :: listed[m].id;
    var expected := set s | s in st.servers && HasMemberRow(st, s, caller);
    forall s | s in expected
      ensures s in ids
    {
      var m :| m in st.serverMembers && st.serverMembers[m] == ServerMember(s, caller);
      assert m in listed;
    }
  }

  /** A new server has one channel, "general", which is its default, and one membership row, the caller's. */
  lemma CreateShape(st: State, caller: UserId, name: string, iconId: Option<StorageId>)
    requires IdsAllocated(st)
    ensures var st' := Create(st, caller, name, iconId).value.0;
            var (s, c) := Create(st, caller, name, iconId).value.1;
            && s !in st.servers && c !in st.channels
            && st'.servers[s].ownerId == caller
            && st'.servers[s].defaultChannelId == Some(c)
            && ChannelsOf(st', s) == {c}
            && st'.channels[c].name == "general"
            && (forall u :: MemberRows(st', s, u) == if u == caller then {st.next + 2} else {})
            && |st'.serverMembers| == |st.serverMembers| + 1
  {
    var server := Server(name, caller, iconId, Some(st.next + 1));
    assert Create(st, caller, name, iconId).value.0 == WithNewServer(st, server, caller);
    NewServerRows(st, server, caller);
  }

  /** The new server's only channel is its default one, and its only member row is the creator's. */
  lemma NewServerRows(st: State, server: Server, caller: UserId)
    requires IdsAllocated(st)
    ensures var st' := WithNewServer(st, server, caller);
            && ChannelsOf(st', st.next) == {st.next + 1}
            && (forall u :: MemberRows(st', st.next, u) == if u == caller then {st.next + 2} else {})
            && |st'.serverMembers| == |st.serverMembers| + 1
  {
    assert st.next + 2 !in st.serverMembers;
    forall u
      ensures MemberRows(WithNewServer(st, server, caller), st.next, u) == if u == caller then {st.next + 2} else {}
    {
      NewServerMemberRows(st, server, caller, u);
    }
    NewServerChannels(st, server, caller);
  }

  lemma NewServerMemberRows(st: State, server: Server, caller: UserId, u: UserId)
    requires IdsAllocated(st)
    ensures MemberRows(WithNewServer(st, server, caller), st.next, u) == if u == caller then {st.next + 2} else {}
  {
    var st' := WithNewServer(st, server, caller);
    forall m | m in MemberRows(st', st.next, u)
      ensures m == st.next + 2
    {
    }
  }

  lemma NewServerChannels(st: State, server: Server, caller: UserId)
    requires IdsAllocated(st)
    ensures ChannelsOf(WithNewServer(st, server, caller), st.next) == {st.next + 1}
  {
    var st' := WithNewServer(st, server, caller);
    forall x | x in ChannelsOf(st', st.next)
      ensures x == st.next + 1
    {
    }
  }

  /** Creating a server keeps every database invariant. */
  lemma CreateKeepsValid(st: State, caller: UserId, name: string, iconId: Option<StorageId>)
    requires Valid(st)
    ensures Valid(Create(st, caller, name, iconId).value.0)
  {
    var server := Server(name, caller, iconId, Some(st.next + 1));
    assert Create(st, caller, name, iconId).value.0 == WithNewServer(st, server, caller);
    NewServerKeepsValid(st, server, caller);
  }

  /** The database with a server, its default channel "general" and one membership row under three fresh ids. */
  function WithNewServer(st: State, server: Server, caller: UserId): State
  {
    st.(servers := st.servers[st.next := server],
        channels := st.channels[st.next + 1 := Channel("general", st.next)],
        serverMembers := st.serverMembers[st.next + 2 := ServerMember(st.next, caller)],
        next := st.next + 3)
  }

  /** Adding a server, its default channel and one membership row under three fresh ids keeps the invariants. */
  lemma NewServerKeepsValid(st: State, server: Server, caller: UserId)
    requires Valid(st)
    requires server.defaultChannelId == Some(st.next + 1)
    ensures Valid(WithNewServer(st, server, caller))
  {
    NewServerKeepsReferences(st, server, caller);
    NewServerKeepsUniqueness(st, server, caller);
  }

  lemma NewServerKeepsReferences(st: State, server: Server, caller: UserId)
    requires Valid(st)
    requires server.defaultChannelId == Some(st.next + 1)
    ensures var st' := WithNewServer(st, server, caller);
            && IdsAllocated(st') && ChannelsInServers(st') && DefaultChannelsOwned(st')
            && InvitesWithinLimit(st') && ClerkIdsUnique(st')
  {
    NewServerKeepsIds(st, server, caller);
    NewServerKeepsDefaults(st, server, caller);
  }

  lemma NewServerKeepsIds(st: State, server: Server, caller: UserId)
    requires IdsAllocated(st)
    ensures IdsAllocated(WithNewServer(st, server, caller))
  {
  }

  lemma NewServerKeepsDefaults(st: State, server: Server, caller: UserId)
    requires IdsAllocated(st) && DefaultChannelsOwned(st)
    requires server.defaultChannelId == Some(st.next + 1)
    ensures DefaultChannelsOwned(WithNewServer(st, server, caller))
  {
    var st' := WithNewServer(st, server, caller);
    forall s | s in st'.servers && st'.servers[s].defaultChannelId.Some?
      ensures var c := st'.servers[s].defaultChannelId.value;
              c in st'.channels && st'.channels[c].serverId == s
    {
      if s != st.next {
        var c := st.servers[s].defaultChannelId.value;
        assert c in st.channels && c < st.next;
      }
    }
  }

  lemma NewServerKeepsUniqueness(st: State, server: Server, caller: UserId)
    requires Valid(st)
    ensures var st' := WithNewServer(st, server, caller);
            ChannelNamesUnique(st') && MembershipsUnique(st')
  {
    var st' := WithNewServer(st, server, caller);
    assert ChannelNamesUnique(st') by {
      forall c1, c2 | c1 in st'.channels && c2 in st'.channels && c1 != c2 &&
                      st'.channels[c1].serverId == st'.channels[c2].serverId
        ensures st'.channels[c1].name != st'.channels[c2].name
      {
      }
    }
    assert MembershipsUnique(st') by {
      forall m1, m2 | m1 in st'.serverMembers && m2 in st'.serverMembers && m1 != m2
        ensures st'.serverMembers[m1] != st'.serverMembers[m2]
      {
      }
    }
  }

  /** Removing a server keeps every database invariant. */
  lemma RemoveKeepsValid(st: State, caller: UserId, id: ServerId)
    requires Valid(st)
    requires Remove(st, caller, id).Ok?
    ensures Valid(Remove(st, caller, id).value.0)
  {
    var st' := Remove(st, caller, id).value.0;
    assert IdsAllocated(st');
    assert ChannelsInServers(st');
    assert DefaultChannelsOwned(st') by {
      forall s | s in st'.servers && st'.servers[s].defaultChannelId.Some?
        ensures st'.servers[s].defaultChannelId.value in st'.channels
      {
        var d := st.servers[s].defaultChannelId.value;
        assert st.channels[d].serverId == s;
      }
    }
    assert ChannelNamesUnique(st');
    assert MembershipsUnique(st');
    assert InvitesWithinLimit(st');
    assert ClerkIdsUnique(st');
  }
}
