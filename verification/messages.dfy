/**
  The message handlers. The backend's message module imports a guard named
  `assertMember` that its helpers module does not define; the model uses the
  channel-or-direct-message guard `assertChannelMember` in its place. Each
  handler runs under the authenticated wrapper (`Helpers.Authenticated`).
 */
module Messages {
  import opened Wrappers
  import opened Schema
  import opened Helpers
  import opened Invariants

  /** A listed message: the row, its attachment's URL and its sender's user row (null once deleted). */
  datatype MessageView = MessageView(message: Message, attachmentUrl: Option<string>, sender: Option<User>)

  function SenderOf(st: State, m: Message): Option<User>
  {
    if m.sender in st.users then Some(st.users[m.sender]) else None
  }

  function AttachmentUrl(m: Message, resolve: StorageId -> Option<string>): Option<string>
  {
    if m.attachment.Some? then resolve(m.attachment.value) else None
  }

  /** The messages of a channel or direct message, to a member of it, each joined with its sender. */
  function List(st: State, caller: UserId, t: Target, resolve: StorageId -> Option<string>): (r: Reply<map<MessageId, MessageView>>)
    ensures AssertChannelMember(st, caller, t).Err? ==> r == Err(AssertChannelMember(st, caller, t).error)
    ensures r.Ok? <==> AssertChannelMember(st, caller, t).Ok?
    ensures r.Ok? ==> forall m :: m in r.value <==> m in st.messages && st.messages[m].target == t
    ensures r.Ok? ==> forall m :: m in r.value ==>
              && r.value[m].message == st.messages[m]
              && (r.value[m].sender.Some? <==> st.messages[m].sender in st.users)
              && (r.value[m].sender.Some? ==> r.value[m].sender.value == st.users[st.messages[m].sender])
              && (st.messages[m].attachment.None? ==> r.value[m].attachmentUrl.None?)
              && (st.messages[m].attachment.Some? ==>
                    r.value[m].attachmentUrl == resolve(st.messages[m].attachment.value))
  {
    var ok :- AssertChannelMember(st, caller, t);
    var ids := set m | m in st.messages && st.messages[m].target == t;
    Ok(map m | m in ids ::
         MessageView(st.messages[m], AttachmentUrl(st.messages[m], resolve), SenderOf(st, st.messages[m])))
  }

  /**
    Posts a message as the caller, then enqueues two jobs: clearing the
    caller's typing indicator for the target, and moderating the new message.
   */
  function Create(st: State, caller: UserId, content: string, attachment: Option<StorageId>, t: Target): (r: Reply<(State, ())>)
    ensures AssertChannelMember(st, caller, t).Err? ==> r == Err(AssertChannelMember(st, caller, t).error)
    ensures r.Ok? <==> AssertChannelMember(st, caller, t).Ok?
    ensures r.Ok? ==>
              && (t.Chan? ==> t.channel in st.channels && HasMemberRow(st, st.channels[t.channel].serverId, caller))
              && (t.DM? ==> t.dm in st.directMessages && HasDmMemberRow(st, t.dm, caller))
    ensures r.Ok? ==> var st' := r.value.0;
              && st'.messages == st.messages[st.next := Message(caller, content, t, attachment, None, None)]
              && st'.jobs == st.jobs + [ClearTyping(t, caller), Moderate(st.next)]
              && st' == st.(messages := st'.messages, jobs := st'.jobs, next := st.next + 1)
  {
    var ok :- AssertChannelMember(st, caller, t);
    var id := st.next;
    var st1 := st.(messages := st.messages[id := Message(caller, content, t, attachment, None, None)],
                   next := st.next + 1);
    var st2 := st1.(jobs := st1.jobs + [ClearTyping(t, caller)]);
    Ok((st2.(jobs := st2.jobs + [Moderate(id)]), ()))
  }

  /** Deletes a message sent by the caller, and its attachment; no membership is asked for. */
  function Remove(st: State, caller: UserId, id: MessageId): (r: Reply<(State, ())>)
    ensures id !in st.messages ==> r == Err(MessageNotFound)
    ensures id in st.messages && st.messages[id].sender != caller ==> r == Err(NotSender)
    ensures r.Ok? <==> id in st.messages && st.messages[id].sender == caller
    ensures r.Ok? ==> var st' := r.value.0;
              && st'.messages == st.messages - {id}
              && (st.messages[id].attachment.Some? ==> st'.files == st.files - {st.messages[id].attachment.value})
              && (st.messages[id].attachment.None? ==> st'.files == st.files)
              && st' == st.(messages := st'.messages, files := st'.files)
  {
    if id !in st.messages then Err(MessageNotFound)
    else
      var message := st.messages[id];
      if message.sender != caller then Err(NotSender)
      else
        var st' := st.(messages := st.messages - {id});
        if message.attachment.Some? then Ok((st'.(files := st'.files - {message.attachment.value}), ()))
        else Ok((st', ()))
  }

  // ---------------------------------------------------------------------------
  // Properties
  // ---------------------------------------------------------------------------

  /** A posted message is listed back to its sender, with its content, attachment URL and sender row. */
  lemma CreatedMessageIsListed(st: State, caller: UserId, content: string, attachment: Option<StorageId>,
                               t: Target, resolve: StorageId -> Option<string>)
    requires IdsAllocated(st)
    requires caller in st.users
    requires Create(st, caller, content, attachment, t).Ok?
    ensures var st' := Create(st, caller, content, attachment, t).value.0;
            var listed := List(st', caller, t, resolve);
            && listed.Ok?
            && st.next in listed.value
            && listed.value[st.next].message.content == content
            && listed.value[st.next].sender == Some(st.users[caller])
            && (attachment.Some? ==> listed.value[st.next].attachmentUrl == resolve(attachment.value))
  {
    var st' := Create(st, caller, content, attachment, t).value.0;
    assert AssertChannelMember(st, caller, t).Ok?;
    match t {
      case Chan(c) =>
        var s := st.channels[c].serverId;
        assert MemberRows(st', s, caller) == MemberRows(st, s, caller);
      case DM(d) =>
        assert DmMemberRows(st', d, caller) == DmMemberRows(st, d, caller);
    }
    assert AssertChannelMember(st', caller, t) == AssertChannelMember(st, caller, t);
  }

  /** Posting keeps every database invariant. */
  lemma CreateKeepsValid(st: State, caller: UserId, content: string, attachment: Option<StorageId>, t: Target)
    requires Valid(st)
    requires Create(st, caller, content, attachment, t).Ok?
    ensures st.next !in st.messages
    ensures Valid(Create(st, caller, content, attachment, t).value.0)
  {
    var st' := Create(st, caller, content, attachment, t).value.0;
    assert IdsAllocated(st');
  }

  /** Deleting a message keeps every database invariant. */
  lemma RemoveKeepsValid(st: State, caller: UserId, id: MessageId)
    requires Valid(st)
    requires Remove(st, caller, id).Ok?
    ensures Valid(Remove(st, caller, id).value.0)
  {
  }
}
