/**
  The tables of the chat backend and the rows they hold, following the schema
  file of the backend. Ids are opaque: the model uses natural numbers handed
  out by one counter (`State.next`), so an id is never reused, as in the
  storage platform. Numbers the backend stores as JavaScript numbers are
  modelled as integers.
 */
module Schema {
  import opened Wrappers

  type UserId = nat
  type FriendId = nat
  type DmId = nat
  type DmMemberId = nat
  type ServerId = nat
  type ChannelId = nat
  type MemberId = nat
  type InviteId = nat
  type MessageId = nat
  type TypingId = nat
  /** A file in the platform's file storage; its ids are not handed out by the database. */
  type StorageId = nat

  /** The address that is promoted to the admin role by every email-setting handler. */
  const AdminEmail: string := "ash474d@gmail.com"

  // ---------------------------------------------------------------------------
  // Enumerations of the schema and their string literals
  // ---------------------------------------------------------------------------

  datatype Role = UserRole | AdminRole

  function RoleLiteral(role: Role): string
  {
    match role
    case UserRole => "user"
    case AdminRole => "admin"
  }

  /** The schema's validator for the `role` field: only the two literals are accepted. */
  function ParseRole(s: string): (r: Option<Role>)
    ensures r.Some? <==> s == "user" || s == "admin"
    ensures r.Some? ==> RoleLiteral(r.value) == s
  {
    if s == "user" then Some(UserRole)
    else if s == "admin" then Some(AdminRole)
    else None
  }

  lemma RoleLiteralRoundTrip(role: Role)
    ensures ParseRole(RoleLiteral(role)) == Some(role)
  {
  }

  datatype FriendStatus = Pending | Accepted | Rejected

  function StatusLiteral(status: FriendStatus): string
  {
    match status
    case Pending => "pending"
    case Accepted => "accepted"
    case Rejected => "rejected"
  }

  /** The schema's validator for a friend row's `status`: exactly three literals. */
  function ParseStatus(s: string): (r: Option<FriendStatus>)
    ensures r.Some? <==> s == "pending" || s == "accepted" || s == "rejected"
    ensures r.Some? ==> StatusLiteral(r.value) == s
  {
    if s == "pending" then Some(Pending)
    else if s == "accepted" then Some(Accepted)
    else if s == "rejected" then Some(Rejected)
    else None
  }

  lemma StatusLiteralRoundTrip(status: FriendStatus)
    ensures ParseStatus(StatusLiteral(status)) == Some(status)
  {
  }

  /**
    The polymorphic `dmOrChannelId` of messages and typing indicators. The
    backend tells the two apart by looking for a `serverId` field on the
    fetched document; the model tags the id instead.
   */
  datatype Target = Chan(channel: ChannelId) | DM(dm: DmId)

  // ---------------------------------------------------------------------------
  // Rows
  // ---------------------------------------------------------------------------

  datatype User = User(
    username: string,
    image: string,
    clerkId: string,
    email: Option<string>,
    role: Option<Role>,
    isPrivate: Option<bool>)

  datatype Friend = Friend(user1: UserId, user2: UserId, status: FriendStatus)

  datatype DmMember = DmMember(directMessage: DmId, user: UserId)

  datatype Server = Server(
    name: string,
    ownerId: UserId,
    iconId: Option<StorageId>,
    defaultChannelId: Option<ChannelId>)

  datatype Channel = Channel(name: string, serverId: ServerId)

  datatype ServerMember = ServerMember(serverId: ServerId, userId: UserId)

  datatype Invite = Invite(
    serverId: ServerId,
    expiresAt: Option<int>,
    maxUses: Option<int>,
    uses: int)

  /** The field is spelled `attatchment` in the backend. */
  datatype Message = Message(
    sender: UserId,
    content: string,
    target: Target,
    attachment: Option<StorageId>,
    deleted: Option<bool>,
    deletedReason: Option<string>)

  datatype TypingIndicator = TypingIndicator(user: UserId, target: Target, expireAt: int)

  /** A deferred job handed to the platform's scheduler; only its enqueueing is modelled. */
  datatype Job =
    | ClearTyping(target: Target, user: UserId)
    | Moderate(message: MessageId)

  /**
    The whole database. `directMessages` rows carry no fields, so that table is a
    set of ids. `files` is the file storage, `jobs` the scheduler queue, and
    `next` the id the next insert receives.
   */
  datatype State = State(
    users: map<UserId, User>,
    friends: map<FriendId, Friend>,
    directMessages: set<DmId>,
    dmMembers: map<DmMemberId, DmMember>,
    servers: map<ServerId, Server>,
    channels: map<ChannelId, Channel>,
    serverMembers: map<MemberId, ServerMember>,
    invites: map<InviteId, Invite>,
    messages: map<MessageId, Message>,
    typingIndicators: map<TypingId, TypingIndicator>,
    files: set<StorageId>,
    jobs: seq<Job>,
    next: nat)

  /** The caller's identity as resolved by the authentication provider. */
  datatype Identity = Identity(subject: string, email: Option<string>)

  // ---------------------------------------------------------------------------
  // Errors
  // ---------------------------------------------------------------------------

  datatype Error =
    | Unauthorized
    | NotAuthenticated
    | AdminRequired
    | UserNotFound
    | UserNotInDatabase
    | NoIdentityEmail
    | ServerNotFound
    | NotServerOwner
    | NotServerMember
    | TargetNotFound
    | NotDmMember
    | ChannelNotFound
    | ChannelExists
    | DefaultChannel
    | InviteNotFound
    | InviteExpired
    | InviteUsedUp
    | MessageNotFound
    | NotSender
    | NotUnique

  type Reply<T> = Result<T, Error>

  /** The message each error is thrown with. `NotUnique` is raised by the platform's `unique()`. */
  function Text(e: Error): string
  {
    match e
    case Unauthorized => "Unauthorized"
    case NotAuthenticated => "Not authenticated"
    case AdminRequired => "Unauthorized: Admin access required"
    case UserNotFound => "User not found"
    case UserNotInDatabase => "User not found in database"
    case NoIdentityEmail => "No email found in Clerk JWT identity"
    case ServerNotFound => "Server not found"
    case NotServerOwner => "You are not the owner of this server"
    case NotServerMember => "You are not a member of this server"
    case TargetNotFound => "DM or channel not found"
    case NotDmMember => "You are not a member of this Direct Message"
    case ChannelNotFound => "Channel not found"
    case ChannelExists => "Channel already exists"
    case DefaultChannel => "You cannot delete the default channel"
    case InviteNotFound => "Invite not found"
    case InviteExpired => "Invite has expired"
    case InviteUsedUp => "Invite has reached its maximum uses"
    case MessageNotFound => "Message not found"
    case NotSender => "You are not authorized to delete this message"
    case NotUnique => "unique() query returned more than one result"
  }

  // ---------------------------------------------------------------------------
  // JavaScript truthiness of optional fields
  // ---------------------------------------------------------------------------

  /** `x ? … : …` on an optional number: absent and 0 are both false. */
  predicate NumberSet(x: Option<int>)
  {
    x.Some? && x.value != 0
  }

  /** `x ? … : …` on an optional string: absent and "" are both false. */
  predicate StringSet(x: Option<string>)
  {
    x.Some? && x.value != ""
  }

  // ---------------------------------------------------------------------------
  // Index lookups
  // ---------------------------------------------------------------------------

  lemma SingletonShape(ks: set<nat>)
    requires |ks| == 1
    ensures exists k :: ks == {k}
  {
    var k :| k in ks;
    assert |ks - {k}| == 0;
    assert ks == {k};
  }

  /** A set with more than one element is exactly one holding two distinct elements. */
  lemma {:induction false} SeveralIffTwoDistinct(ks: set<nat>)
    ensures |ks| > 1 <==> exists a, b :: a in ks && b in ks && a != b
  {
    if |ks| > 1 {
      var a :| a in ks;
      assert |ks - {a}| > 0;
      var b :| b in ks - {a};
      assert a in ks && b in ks && a != b;
    }
    if exists a, b :: a in ks && b in ks && a != b {
      var a, b :| a in ks && b in ks && a != b;
      var rest := ks - {a, b};
      assert ks == rest + {a, b};
      assert rest * {a, b} == {};
      assert |{a, b}| == 2;
    }
  }

  /** `m` is the least of `ks`: the row created first. */
  predicate IsLeast(m: nat, ks: set<nat>)
  {
    m in ks && forall x :: x in ks ==> m <= x
  }

  /** Every non-empty set of ids has a least element: the one created first. */
  lemma {:induction false} LeastExists(ks: set<nat>)
    requires ks != {}
    ensures exists m :: IsLeast(m, ks)
  {
    var y :| y in ks;
    var rest := ks - {y};
    if rest == {} {
      forall x | x in ks
        ensures y <= x
      {
        assert x !in rest;
      }
      assert IsLeast(y, ks);
    } else {
      LeastExists(rest);
      var m :| IsLeast(m, rest);
      var least := if y < m then y else m;
      forall x | x in ks
        ensures least <= x
      {
        if x != y {
          assert x in rest;
        }
      }
      assert IsLeast(least, ks);
    }
  }

  /**
    The platform's `unique()` on an index query whose matching rows are `ks`:
    no row gives null, one row gives that row, and more than one throws.
   */
  function Unique(ks: set<nat>): (r: Reply<Option<nat>>)
    ensures r == Ok(None) <==> ks == {}
    ensures r.Ok? && r.value.Some? ==> ks == {r.value.value}
    ensures r.Err? <==> exists a, b :: a in ks && b in ks && a != b
    ensures r.Err? ==> r.error == NotUnique
  {
    SeveralIffTwoDistinct(ks);
    if |ks| == 0 then Ok(None)
    else if |ks| == 1 then
      SingletonShape(ks);
      var k :| ks == {k};
      Ok(Some(k))
    else Err(NotUnique)
  }

  /** Rows of the `by_clerk_id` index for `clerkId`. */
  function UsersWithClerkId(st: State, clerkId: string): set<UserId>
  {
    set u | u in st.users && st.users[u].clerkId == clerkId
  }

  /** Rows of the `by_serverId_userId` index for (`s`, `u`). */
  function MemberRows(st: State, s: ServerId, u: UserId): set<MemberId>
  {
    set m | m in st.serverMembers && st.serverMembers[m] == ServerMember(s, u)
  }

  /** Rows of the `by_serverId_name` index for (`s`, `name`). */
  function ChannelsNamed(st: State, s: ServerId, name: string): set<ChannelId>
  {
    set c | c in st.channels && st.channels[c] == Channel(name, s)
  }

  /** Rows of the `by_direct_message_user` index for (`d`, `u`). */
  function DmMemberRows(st: State, d: DmId, u: UserId): set<DmMemberId>
  {
    set m | m in st.dmMembers && st.dmMembers[m] == DmMember(d, u)
  }

  /** Rows of the `by_direct_message` index for `d`. */
  function RowsOfDm(st: State, d: DmId): set<DmMemberId>
  {
    set m | m in st.dmMembers && st.dmMembers[m].directMessage == d
  }

  /** Rows of the `by_serverId` index of the channels table for `s`. */
  function ChannelsOf(st: State, s: ServerId): set<ChannelId>
  {
    set c | c in st.channels && st.channels[c].serverId == s
  }
}
