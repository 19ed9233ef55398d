/**
  The channel handlers. Each runs under the authenticated wrapper
  (`Helpers.Authenticated`) and receives the resolved caller.
 */
module Channels {
  import opened Wrappers
  import opened Schema
  import opened Helpers
  import opened Invariants

  /** A channel, to a member of its server. */
  function Get(st: State, caller: UserId, id: ChannelId): (r: Reply<Channel>)
    ensures id !in st.channels ==> r == Err(ChannelNotFound)
    ensures id in st.channels && AssertServerMember(st, caller, st.channels[id].serverId).Err? ==>
              r == Err(AssertServerMember(st, caller, st.channels[id].serverId).error)
    ensures r.Ok? <==> id in st.channels && AssertServerMember(st, caller, st.channels[id].serverId).Ok?
    ensures r.Ok? ==> r.value == st.channels[id] && HasMemberRow(st, r.value.serverId, caller)
  {
    if id !in st.channels then Err(ChannelNotFound)
    else
      var ok :- AssertServerMember(st, caller, st.channels[id].serverId);
      Ok(st.channels[id])
  }

  /** All channels of a server, to a member of it. */
  function List(st: State, caller: UserId, s: ServerId): (r: Reply<map<ChannelId, Channel>>)
    ensures AssertServerMember(st, caller, s).Err? ==> r == Err(AssertServerMember(st, caller, s).error)
    ensures r.Ok? <==> AssertServerMember(st, caller, s).Ok?
    ensures r.Ok? ==> forall c :: c in r.value <==> c in st.channels && st.channels[c].serverId == s
    ensures r.Ok? ==> forall c :: c in r.value ==> r.value[c] == st.channels[c]
  {
    var ok :- AssertServerMember(st, caller, s);
    Ok(map c | c in ChannelsOf(st, s) :: st.channels[c])
  }

  /** Adds a channel to a server the caller owns, unless the server has a channel of that name. */
  function Create(st: State, caller: UserId, s: ServerId, name: string): (r: Reply<(State, ChannelId)>)
    ensures AssertServerOwner(st, caller, s).Err? ==> r == Err(AssertServerOwner(st, caller, s).error)
    ensures r.Ok? <==>
              && AssertServerOwner(st, caller, s).Ok?
              && forall c :: c in st.channels ==> st.channels[c] != Channel(name, s)
    ensures AssertServerOwner(st, caller, s).Ok? && |ChannelsNamed(st, s, name)| == 1 ==>
              r == Err(ChannelExists)
    ensures r.Ok? ==>
              var (st', c) := r.value;
              && c == st.next
              && st' == st.(channels := st.channels[c := Channel(name, s)], next := st.next + 1)
  {
    var owner :- AssertServerOwner(st, caller, s);
    assert forall c :: c in ChannelsNamed(st, s, name) <==> c in st.channels && st.channels[c] == Channel(name, s);
    var existing :- Unique(ChannelsNamed(st, s, name));
    if existing.Some? then Err(ChannelExists)
    else
      var c := st.next;
      Ok((st.(channels := st.channels[c := Channel(name, s)], next := st.next + 1), c))
  }

  /**
    Deletes a channel of a server the caller owns, unless it is that server's
    default channel. The backend fetches the server again and repeats the
    ownership test after the guard; those repeated branches cannot fail.
   */
  function Remove(st: State, caller: UserId, id: ChannelId): (r: Reply<(State, ())>)
    ensures id !in st.channels ==> r == Err(ChannelNotFound)
    ensures id in st.channels && AssertServerOwner(st, caller, st.channels[id].serverId).Err? ==>
              r == Err(AssertServerOwner(st, caller, st.channels[id].serverId).error)
    ensures (id in st.channels && st.channels[id].serverId in st.servers &&
             st.servers[st.channels[id].serverId].defaultChannelId == Some(id)) ==> r.Err?
    ensures r.Ok? <==>
              && id in st.channels
              && st.channels[id].serverId in st.servers
              && st.servers[st.channels[id].serverId].ownerId == caller
              && st.servers[st.channels[id].serverId].defaultChannelId != Some(id)
    ensures r.Ok? ==> r.value.0 == st.(channels := st.channels - {id})
  {
    if id !in st.channels then Err(ChannelNotFound)
    else
      var channel := st.channels[id];
      var owner :- AssertServerOwner(st, caller, channel.serverId);
      if channel.serverId !in st.servers then Err(ServerNotFound)
      else if st.servers[channel.serverId].ownerId != caller then Err(NotServerOwner)
      else if Some(id) == st.servers[channel.serverId].defaultChannelId then Err(DefaultChannel)
      else Ok((st.(channels := st.channels - {id}), ()))
  }

  // ---------------------------------------------------------------------------
  // Properties
  // ---------------------------------------------------------------------------

  /** A name already used in the server is refused, whoever asks. */
  lemma CreateRefusesTakenName(st: State, caller: UserId, s: ServerId, name: string, c: ChannelId)
    requires c in st.channels && st.channels[c] == Channel(name, s)
    ensures Create(st, caller, s, name).Err?
  {
  }

  /** Creating a channel adds exactly one new row and keeps every database invariant. */
  lemma CreateKeepsValid(st: State, caller: UserId, s: ServerId, name: string)
    requires Valid(st)
    requires Create(st, caller, s, name).Ok?
    ensures Create(st, caller, s, name).value.1 !in st.channels
    ensures |Create(st, caller, s, name).value.0.channels| == |st.channels| + 1
    ensures Valid(Create(st, caller, s, name).value.0)
  {
    var r := Create(st, caller, s, name);
    var st' := r.value.0;
    var c := r.value.1;
    assert AssertServerOwner(st, caller, s).Ok?;
    assert c == st.next && st' == st.(channels := st.channels[c := Channel(name, s)], next := st.next + 1);
    InsertChannelKeepsValid(st, Channel(name, s));
  }

  /** Inserting a channel under a fresh id into an existing server, with a name unused there, keeps the invariants. */
  lemma InsertChannelKeepsValid(st: State, ch: Channel)
    requires Valid(st)
    requires ch.serverId in st.servers
    requires forall c :: c in st.channels ==> st.channels[c] != ch
    ensures var st' := st.(channels := st.channels[st.next := ch], next := st.next + 1);
            st.next !in st.channels && Valid(st')
  {
    var c := st.next;
    var st' := st.(channels := st.channels[c := ch], next := st.next + 1);
    assert IdsAllocated(st');
    assert ChannelsInServers(st');
    assert DefaultChannelsOwned(st');
    assert ChannelNamesUnique(st') by {
      forall c1, c2 | c1 in st'.channels && c2 in st'.channels && c1 != c2 &&
                      st'.channels[c1].serverId == st'.channels[c2].serverId
        ensures st'.channels[c1].name != st'.channels[c2].name
      {
        if c1 == c {
          assert st'.channels[c2] == st.channels[c2];
        } else if c2 == c {
          assert st'.channels[c1] == st.channels[c1];
        }
      }
    }
  }

  /** In a valid database, whoever asks, a server's default channel cannot be deleted. */
  lemma DefaultChannelNeverRemoved(st: State, caller: UserId, s: ServerId)
    requires DefaultChannelsOwned(st)
    requires s in st.servers && st.servers[s].defaultChannelId.Some?
    ensures Remove(st, caller, st.servers[s].defaultChannelId.value).Err?
  {
  }

  /** Deleting a channel keeps every database invariant; no other server loses its default channel. */
  lemma RemoveKeepsValid(st: State, caller: UserId, id: ChannelId)
    requires Valid(st)
    requires Remove(st, caller, id).Ok?
    ensures Valid(Remove(st, caller, id).value.0)
  {
    var st' := Remove(st, caller, id).value.0;
    assert DefaultChannelsOwned(st') by {
      forall s | s in st'.servers && st'.servers[s].defaultChannelId.Some?
        ensures st'.servers[s].defaultChannelId.value in st'.channels
      {
      }
    }
  }
}
