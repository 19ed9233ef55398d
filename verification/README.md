# Chat backend: authorization and membership model

A Dafny model of the server side of a Discord-like chat application. The
backend stores users, servers, channels, server memberships, invites,
messages, typing indicators, direct messages (DMs) and DM memberships in
document tables. Each request handler reads and writes those tables after a
guard checks that the caller may act. This project models the tables as one
immutable `State` record and every handler as a pure transition function,
then proves the guards exact and the database invariants preserved.

## Design

- **Tables.** Each table is a `map` from a `nat` id to a row datatype
  (`schema.dfy`). The `directMessages` table has no fields, so it is a `set`.
  File storage is a `set` of stored file ids. The scheduler queue is a `seq<Job>`.
- **Fresh ids.** The platform's ids are opaque and never reused. A counter
  `State.next` models them: each insert takes the next id. Creation order is
  id order, which is the order the backend scans an index in.
- **Errors.** Every `throw` becomes `Err(e)` of a `Reply`. `Schema.Text` holds
  the exact message for each error. A mutation returns `Reply<(State, ret)>`,
  so a rejected request carries no new state. This matches the platform's
  rollback of a handler that throws.
- **`unique()`.** `Schema.Unique` models the platform's lookup faithfully.
  No row gives null, one row gives that row, and more than one throws
  (`NotUnique`). The invariants rule out duplicate rows where the handlers
  avoid them, which makes the guards exact (`Invariants.MemberGuardExact`).
- **Identity.** The signed-in identity (`Option<Identity>`) and the clock
  (`now`) are parameters. Handlers behind the authenticated wrapper take the
  resolved `caller`, and `Helpers.Authenticated` models the wrapper itself.
- **Message targets.** The backend distinguishes a channel from a DM by
  whether the fetched document has a `serverId` field. The model uses a
  tagged `Target = Chan(channel) | DM(dm)` instead.
- **JavaScript truthiness.** `expiresAt`/`maxUses` equal to 0 mean "no
  limit", and an empty email counts as missing (`NumberSet`, `StringSet`).
- **Storage URLs.** Resolving a stored file to a URL is the function parameter
  `resolve`.
- **A build mismatch.** The message handlers import a guard named
  `assertMember`, which the helpers file does not define. The model uses
  `assertChannelMember` there, the only guard with the matching signature.

Invariant `Invariants.Valid` holds of `Invariants.Empty()`, and every
mutation modelled here is proved to keep it: the server, channel, invite and
message handlers, every user handler (`upsert`, `remove`, the four email
setters, `setPrivacy`, `sendDirectMessage`) and the four migrations
(`migrateUserEmails`, `syncAllUserEmails`, `syncAllUserEmailsSimple`,
`syncAllUserEmailsFromJWT`). It is the conjunction of:

- ids allocated below `next`;
- every channel's server exists;
- a server's default channel exists and belongs to it;
- channel names are unique per server;
- at most one membership row per (server, user);
- invite uses are non-negative and within a positive `maxUses`;
- external ids (`clerkId`) are unique among users;
- every direct message has exactly two member rows.

## Model

| member | source | states |
|---|---|---|
| Schema.ParseRole | chatstarter/convex/schema.ts:10 | a stored role is exactly one of the two literals "user" and "admin", and each parses back to its literal |
| Schema.ParseStatus | chatstarter/convex/schema.ts:21-25 | a friendship status is exactly one of "pending", "accepted", "rejected", and each parses back to its literal |
| Schema.Unique | chatstarter/convex/functions/helpers.ts:53-58 | the platform's unique lookup: null exactly when no row matches, the row when one does, an error exactly when two distinct rows match |
| Schema.SeveralIffTwoDistinct | chatstarter/convex/functions/helpers.ts:58 | a match set has more than one row exactly when it holds two distinct rows, the case the unique lookup throws on |
| Schema.LeastExists | chatstarter/convex/functions/user.ts:103-107 | a non-empty set of index rows has a first row in creation order, which the scan of an index starts from |
| Helpers.GetUserByClerkId | chatstarter/convex/functions/user.ts:66-74 | the lookup by external id returns a user with that id, null exactly when there is none, and throws exactly when two users share it |
| Helpers.GetCurrentUser | chatstarter/convex/functions/user.ts:58-64 | null when signed out, otherwise the by-external-id lookup of the identity's subject: the one user carrying it is found, no user gives null |
| Helpers.Authenticate | chatstarter/convex/functions/helpers.ts:16-21 | the wrapper's caller check fails with "Unauthorized" when the identity resolves to no user and yields the user otherwise |
| Helpers.Authenticated | chatstarter/convex/functions/helpers.ts:14-34 | every wrapped query and mutation fails with "Unauthorized" when there is no identity or no user, and otherwise runs its handler with the resolved user |
| Helpers.AssertServerOwner | chatstarter/convex/functions/helpers.ts:36-47 | "Server not found" for a missing server; passes exactly when the server exists and the caller owns it |
| Helpers.AssertServerMember | chatstarter/convex/functions/helpers.ts:49-63 | fails with the membership error exactly when no (server, caller) row exists; passes exactly when one row does |
| Helpers.AssertChannelMember | chatstarter/convex/functions/helpers.ts:65-95 | a missing target is "DM or channel not found"; a channel reduces to membership of its server; a DM passes exactly when the caller has one (dm, caller) row, fails with the DM membership error when it has none; the guard is read-only because it returns no state |
| Invariants.Empty | chatstarter/convex/schema.ts:4-81 | the empty database satisfies every invariant |
| Invariants.MemberGuardExact | chatstarter/convex/functions/helpers.ts:53-62 | with unique membership rows the server-member guard passes exactly when a row exists, and only ever fails with the membership error |
| Invariants.ChannelGuardExact | chatstarter/convex/functions/helpers.ts:72-82 | with unique membership rows the guard on a channel passes exactly when the channel's server has the caller's row |
| Invariants.LookupNeverThrows | chatstarter/convex/functions/user.ts:66-74 | with unique external ids, resolving an identity never throws |
| Invites.GetInvite | chatstarter/convex/functions/invite.ts:6-16 | succeeds exactly for a present invite that is usable: not past a set expiry (expiry equal to now is still valid) and under a set use limit (0 or absent means no limit); an expired invite fails as expired, an unexpired one at its limit as used up |
| Invites.Get | chatstarter/convex/functions/invite.ts:18-31 | an unauthenticated lookup returns the usable invite with its server, with the invite's error or "Server not found" otherwise |
| Invites.Create | chatstarter/convex/functions/invite.ts:33-49 | any member, not only the owner, creates an invite with zero uses under a fresh id; non-members get the membership error |
| Invites.Join | chatstarter/convex/functions/invite.ts:51-74 | an invalid invite fails; an existing member changes nothing; two or more membership rows make the platform's unique lookup throw; a non-member gets one membership row and the invite one more use; a success leaves the caller a member |
| Invites.JoinStaysWithinLimit | chatstarter/convex/functions/invite.ts:12-13 | with a use limit set and not yet passed, a successful join keeps uses within the limit |
| Invites.JoinCountsOneUse | chatstarter/convex/functions/invite.ts:64-72 | a non-member's join adds exactly one membership row, the caller's only one, and exactly one use |
| Invites.SingleUseInvite | chatstarter/convex/functions/invite.ts:12-13 | an invite with a limit of one admits one user; every later join fails, with the used-up error while unexpired |
| Invites.CreateKeepsValid | chatstarter/convex/functions/invite.ts:40-47 | creating an invite under a fresh id keeps every database invariant |
| Invites.JoinKeepsValid | chatstarter/convex/functions/invite.ts:55-72 | joining keeps every invariant, including one membership row per pair and uses within the limit |
| Invites.JoinedKeepsValid | chatstarter/convex/functions/invite.ts:55-72 | a non-member's join through a usable invite, as an explicit new row and use count, keeps every invariant |
| Invites.JoinedKeepsMemberships | chatstarter/convex/functions/invite.ts:55-71 | because the row is inserted only when the lookup found none, no (server, user) pair gets a second row |
| Invites.JoinedKeepsLimits | chatstarter/convex/functions/invite.ts:72 | counting one more use of an invite that passed the usability test keeps its count within a positive limit |
| Channels.Get | chatstarter/convex/functions/channel.ts:9-19 | "Channel not found" for a missing channel; otherwise the channel exactly when the caller belongs to its server |
| Channels.List | chatstarter/convex/functions/channel.ts:21-32 | for a member, exactly the channels whose server is the argument, unchanged; for others the membership error |
| Channels.Create | chatstarter/convex/functions/channel.ts:34-55 | succeeds exactly for the owner when no channel of the server has that name, inserting one channel under a fresh id; a taken name is "Channel already exists" |
| Channels.Remove | chatstarter/convex/functions/channel.ts:57-75 | succeeds exactly for the owner of the channel's server when the channel is not the default, and then deletes only that channel row |
| Channels.CreateRefusesTakenName | chatstarter/convex/functions/channel.ts:41-50 | a name already used in the server is refused, whoever asks |
| Channels.CreateKeepsValid | chatstarter/convex/functions/channel.ts:41-53 | a created channel is one new row, and names stay unique per server with every other invariant kept |
| Channels.InsertChannelKeepsValid | chatstarter/convex/functions/channel.ts:52-53 | inserting a channel with an unused name into an existing server keeps every invariant |
| Channels.DefaultChannelNeverRemoved | chatstarter/convex/functions/channel.ts:70-71 | the default channel of a server can never be deleted, whoever asks |
| Channels.RemoveKeepsValid | chatstarter/convex/functions/channel.ts:73 | deleting a channel keeps every invariant, and no server loses its default channel |
| Servers.List | chatstarter/convex/functions/server.ts:9-29 | the caller's membership rows whose server still exists, each with its server and icon URL; dangling rows are dropped |
| Servers.ListedServersAreMemberships | chatstarter/convex/functions/server.ts:11-27 | every listed server is one the caller has a membership row for, and every existing such server is listed |
| Servers.Get | chatstarter/convex/functions/server.ts:31-37 | a member gets the server, or null when it is gone; others get the membership error |
| Servers.Members | chatstarter/convex/functions/server.ts:39-56 | a member gets the users of the server's membership rows, with rows of missing users dropped |
| Servers.Create | chatstarter/convex/functions/server.ts:58-82 | creates a server owned by the caller, a "general" channel as its default, and the caller's membership row, and returns both ids |
| Servers.CreateShape | chatstarter/convex/functions/server.ts:64-80 | the new server has exactly one channel, "general", which is its default, and exactly one membership row, the caller's |
| Servers.CreateKeepsValid | chatstarter/convex/functions/server.ts:64-80 | creating a server keeps every invariant |
| Servers.NewServerKeepsValid | chatstarter/convex/functions/server.ts:64-80 | inserting a server with its default channel and owner's row under fresh ids keeps every invariant |
| Servers.NewServerKeepsReferences | chatstarter/convex/functions/server.ts:64-74 | after the inserts every id stays allocated, the new channel's server exists and the server's default channel is its own |
| Servers.NewServerKeepsDefaults | chatstarter/convex/functions/server.ts:68-74 | the patched default channel exists and belongs to the new server, and older servers keep theirs |
| Servers.NewServerKeepsUniqueness | chatstarter/convex/functions/server.ts:68-78 | the new channel clashes with no name in its server and the new membership row with no existing pair |
| Servers.NewServerRows | chatstarter/convex/functions/server.ts:68-78 | right after the inserts the new server's only channel is its default one and its only membership row is the creator's; the membership table grows by one |
| Servers.NewServerMemberRows | chatstarter/convex/functions/server.ts:75-78 | the creator holds exactly the one new membership row of the new server and nobody else holds any |
| Servers.NewServerChannels | chatstarter/convex/functions/server.ts:68-71 | the new server has exactly one channel, the one inserted with it |
| Servers.Remove | chatstarter/convex/functions/server.ts:84-159 | only the owner removes a server; afterwards nothing of the server remains, its message attachments and icon are deleted from storage, and DMs, DM messages, users and other servers are untouched |
| Servers.RemoveKeepsValid | chatstarter/convex/functions/server.ts:90-157 | the cascading delete keeps every invariant |
| Messages.List | chatstarter/convex/functions/message.ts:9-35 | for a member of the target, exactly the messages with that target, each with its sender row and, when it has an attachment, that file's resolved URL |
| Messages.Create | chatstarter/convex/functions/message.ts:37-59 | a member of the target posts one message under a fresh id, with the caller as sender, and enqueues the typing clear and then the moderation of that message |
| Messages.Remove | chatstarter/convex/functions/message.ts:61-78 | "Message not found" or not-sender errors; otherwise only the sender deletes the message and its attachment, with no membership check |
| Messages.CreatedMessageIsListed | chatstarter/convex/functions/message.ts:14-50 | a posted message is listed back to its sender with its content, its resolved attachment URL and the sender's row |
| Messages.CreateKeepsValid | chatstarter/convex/functions/message.ts:44-57 | posting keeps every invariant |
| Messages.RemoveKeepsValid | chatstarter/convex/functions/message.ts:73-76 | deleting a message keeps every invariant |
| Users.Get | chatstarter/convex/functions/user.ts:11-15 | the caller's own row, null when signed out or when no user has the identity's subject |
| Users.InitialRole | chatstarter/convex/functions/user.ts:35-42 | a new user is admin exactly when the email is the admin address |
| Users.Upsert | chatstarter/convex/functions/user.ts:17-46 | an existing external id gets only username, image and email replaced; a new one gets one public user row, admin exactly for the admin address |
| Users.UpsertThenGet | chatstarter/convex/functions/user.ts:11-46 | after the webhook sync on a valid database, a caller signed in with that external id reads back the synced username, image and email |
| Users.SignedInFindsRow | chatstarter/convex/functions/user.ts:11-15 | with one row per external id, a signed-in caller resolves to the row carrying their id, and reads it back |
| Users.UpsertKeepsValid | chatstarter/convex/functions/user.ts:17-46 | syncing a user keeps one row per external id and every other invariant |
| Users.Remove | chatstarter/convex/functions/user.ts:48-56 | deletes the user with that external id if present and changes nothing otherwise |
| Users.RemoveKeepsValid | chatstarter/convex/functions/user.ts:48-56 | on a valid database the delete never throws and keeps every invariant |
| Users.IsAdmin | chatstarter/convex/functions/user.ts:83-88 | true exactly when the caller resolves to a user with the admin role |
| Users.IsAdminMatchesRequireAdmin | chatstarter/convex/functions/user.ts:83-99 | the admin flag query answers true exactly when the admin-only check passes |
| Users.RequireAdmin | chatstarter/convex/functions/user.ts:96-99 | the admin-only handlers pass exactly for a caller whose row has the admin role |
| Users.WithEmail | chatstarter/convex/functions/user.ts:160-169 | an email setter sets the email and makes the user admin exactly when already admin or the address is the admin's; nothing else changes |
| Users.WithEmailNeverDemotes | chatstarter/convex/functions/user.ts:165-169 | an email change never takes the admin role away |
| Users.UpdateUserEmail | chatstarter/convex/functions/user.ts:150-171 | the caller's own email is set, with the promotion rule; "User not found" when the caller has no row |
| Users.UpdateUserEmailKeepsValid | chatstarter/convex/functions/user.ts:160-169 | the email setter keeps every invariant |
| Users.SyncCurrentUserEmail | chatstarter/convex/functions/user.ts:173-204 | the caller's email is copied from the identity token; each missing piece (identity, user row, non-empty token email) has its own error |
| Users.SyncCurrentUserEmailKeepsValid | chatstarter/convex/functions/user.ts:173-204 | copying the token email keeps every invariant |
| Users.ForceUpdateUserEmail | chatstarter/convex/functions/user.ts:270-298 | sets the email of the user with that external id, with the promotion rule, and returns the role the user had before |
| Users.ForceUpdateUserEmailKeepsValid | chatstarter/convex/functions/user.ts:270-298 | the internal email setter keeps every invariant |
| Users.SetUserEmail | chatstarter/convex/functions/user.ts:457-486 | an admin sets any existing user's email, with the promotion rule, and gets back the user's previous role |
| Users.SetUserEmailKeepsValid | chatstarter/convex/functions/user.ts:457-486 | the admin email setter keeps every invariant |
| Users.SetPrivacy | chatstarter/convex/functions/user.ts:488-504 | changes only the caller's privacy flag, and no other row or table |
| Users.SetPrivacyKeepsValid | chatstarter/convex/functions/user.ts:497-499 | setting privacy keeps every invariant |
| Users.PrivacyIsListed | chatstarter/convex/functions/user.ts:488-559 | after setting the flag, the caller is in the public list exactly when public, in an admin's private list exactly when private, and in another caller's combined list exactly when public |
| Users.PatchUserKeepsValid | chatstarter/convex/functions/user.ts:497-499 | replacing a user row without changing its external id keeps every invariant |
| Users.UsersWithPrivacy | chatstarter/convex/schema.ts:11-16 | the privacy index lookup: exactly the users whose flag is present and equals the value |
| Users.GetPublicUsers | chatstarter/convex/functions/user.ts:506-515 | exactly the users whose privacy flag is false |
| Users.GetPrivateUsers | chatstarter/convex/functions/user.ts:517-531 | for an admin, exactly the users whose privacy flag is true |
| Users.GetAllPublicUsers | chatstarter/convex/functions/user.ts:533-559 | nothing when there is no caller; otherwise the public users plus the caller, each user once |
| Users.FindDirectMessage | chatstarter/convex/functions/user.ts:102-124 | the scan returns the admin's first DM row, in creation order, whose DM has two rows with one of them the target's, or reports that none qualifies |
| Users.NewDirectMessage | chatstarter/convex/functions/user.ts:127-139 | only the DM tables and the counter change; the new DM has rows for the admin and the target, and on an allocated database its ids are fresh, older rows stay, and it holds exactly the two new rows |
| Users.PostToDm | chatstarter/convex/functions/user.ts:142-146 | only the message table and the counter change; the new message is the admin's, in the DM, with the content and no attachment, and on an allocated database it is fresh and older messages stay |
| Users.PostIsMessageInsert | chatstarter/convex/functions/user.ts:142-146 | the admin's DM post is exactly the message handler's insert, minus that handler's guard and scheduled jobs |
| Users.SendDirectMessage | chatstarter/convex/functions/user.ts:90-148 | admin only; reuses the first qualifying DM or creates one with exactly two members, then inserts one new message from the admin into a two-member DM holding both the admin and the target; keeps every invariant |
| Users.PostDelivers | chatstarter/convex/functions/user.ts:142-146 | posting into a two-member DM of the admin and the target delivers a new message from the admin to that pair |
| Users.ExistingConversation | chatstarter/convex/functions/user.ts:117-123 | the DM the scan picks has two rows, one the admin's and one the target's |
| Users.NewConversation | chatstarter/convex/functions/user.ts:127-139 | a created DM has exactly the two new rows, the admin's and the target's |
| Users.NewDirectMessageKeepsValid | chatstarter/convex/functions/user.ts:127-139 | opening a DM keeps every invariant |
| Users.NewDirectMessageKeepsPairs | chatstarter/convex/functions/user.ts:127-139 | after a DM is opened, it and every older DM still have exactly two member rows |
| Users.PostToDmKeepsValid | chatstarter/convex/functions/user.ts:142-146 | the admin's DM post keeps every invariant |
| Users.SelfMessageMatchesAnyPair | chatstarter/convex/functions/user.ts:117-120 | when the admin writes to themselves, any two-member DM of theirs qualifies, whoever the other member is |
| Users.SelfConversationUnreadable | chatstarter/convex/functions/helpers.ts:85-90 | a DM created for the admin with themselves holds two identical rows, so the DM guard's unique lookup throws on it |
| Migrations.Placeholder | chatstarter/convex/functions/user.ts:243-245 | the made-up address is "user-", the first eight characters of the external id, "@" and the domain |
| Migrations.PlaceholderNotAdmin | chatstarter/convex/functions/user.ts:243-255 | no placeholder address equals the admin address |
| Migrations.MigrateUser | chatstarter/convex/functions/user.ts:215-224 | only the role can change and never downward; it becomes admin exactly when it already was or the row has an external id, no role and the admin address |
| Migrations.MigrateUserEmails | chatstarter/convex/functions/user.ts:206-229 | only user rows change, each as the per-user rule says, keys stay, and the report carries the table size and no admin count |
| Migrations.MigrateReportsChanges | chatstarter/convex/functions/user.ts:215-227 | the reported count is the number of users whose role the migration changed, and no email changes |
| Migrations.SyncUser | chatstarter/convex/functions/user.ts:240-255 | a user without an address gets a placeholder; an admin-address user without the admin role is promoted; nothing else changes |
| Migrations.SyncUsers | chatstarter/convex/functions/user.ts:237-259 | the user table after a sync has the same keys, each row rewritten by the per-user rule |
| Migrations.SyncAll | chatstarter/convex/functions/user.ts:231-268 | only user rows change, each by the per-user rule, keys stay, and the report carries the table size |
| Migrations.PlaceheldAreEmailChanges | chatstarter/convex/functions/user.ts:240-255 | the users given a placeholder are exactly the users whose email the sync changes |
| Migrations.PromotedAreRoleChanges | chatstarter/convex/functions/user.ts:240-255 | the users promoted are exactly the users whose role the sync changes |
| Migrations.SyncAllReportsChanges | chatstarter/convex/functions/user.ts:240-255 | the reported counts are the numbers of users whose email, and whose role, the sync changed |
| Migrations.SyncAllUserEmails | chatstarter/convex/functions/user.ts:231-268 | afterwards every user with an external id has a non-empty email |
| Migrations.SyncAllUserEmailsSimple | chatstarter/convex/functions/user.ts:357-397 | admin only; afterwards every user has a non-empty email |
| Migrations.SyncAllSimpleIdempotent | chatstarter/convex/functions/user.ts:357-397 | a second run of the simple sync changes nothing and reports nothing |
| Migrations.SyncNeverDemotes | chatstarter/convex/functions/user.ts:249-255 | no migration takes the admin role away |
| Migrations.SyncUserFromToken | chatstarter/convex/functions/user.ts:420-442 | the admin's own row without an address takes the token's email; any other row without one gets a "needs sync" placeholder; rows with an address are unchanged |
| Migrations.SyncAllUserEmailsFromToken | chatstarter/convex/functions/user.ts:399-455 | admin only; afterwards every user has a non-empty email, and the count is the number of users without one before |
| Migrations.SyncFromTokenReportsChanges | chatstarter/convex/functions/user.ts:420-442 | the count is the number of users whose email changed, and no role changes |
| Migrations.SameIdentitiesKeepValid | chatstarter/convex/schema.ts:5-16 | rewriting user rows without changing keys or external ids keeps every invariant |
| Migrations.MigrateUserEmailsKeepsValid | chatstarter/convex/functions/user.ts:206-229 | the role migration keeps every invariant |
| Migrations.SyncAllKeepsValid | chatstarter/convex/functions/user.ts:357-397 | both placeholder syncs keep every invariant |
| Migrations.SyncFromTokenKeepsValid | chatstarter/convex/functions/user.ts:399-455 | the token sync keeps every invariant |
| Scenarios.NonMemberLockedOut | chatstarter/convex/functions/helpers.ts:49-95 | a user without a membership row is refused every server-scoped read and write (server, members, channels, channel messages, posting, invites) with the membership error |
| Scenarios.AcmeWalkthrough | chatstarter/convex/functions/server.ts:58-82 | after "Acme" is created by one user, another user cannot list its channels, and the creator sees exactly one channel, "general" |
| Scenarios.SingleUseInviteWalkthrough | chatstarter/convex/functions/invite.ts:51-74 | a one-use invite admits the first outsider with one membership row and refuses the second as used up |

## Left out

- Ordering of list results: lists are maps keyed by row id, so contents and multiplicity are modelled and order is not.
- Numbers: JavaScript numbers are unbounded integers here. NaN, infinities and fractions are not modelled.
- Migrations.Placeholder: takes the first eight characters of the external id as Unicode scalar values, while the source's `slice(0, 8)` counts UTF-16 code units; the two differ for ids holding characters outside the Basic Multilingual Plane. Strings throughout are sequences of Unicode scalar values, with no encoding.
- Text of the `NotUnique` error: the platform raises it, so its message text is not the backend's; `Schema.Text` gives a stand-in.
- Scheduled jobs: only their enqueueing is modelled. The typing, moderation, friend and DM handler modules are not part of this model.
- `generateUploadUrl` (message.ts:80-84): only asks the storage service for an upload URL.
- `getAllUsers` (user.ts:76-81): returns the whole users table, with no guard and no logic.
- `syncAllUserEmailsFromClerk` (user.ts:300-355): each step is a network request to the authentication provider.
- The `message` strings of the migration reports: these are formatted text built from the counts, and the counts are modelled.
- The voice-token endpoints: they only call foreign token SDKs.
- File storage deletes: a delete is a set difference here, so deleting a missing file does nothing; the storage service's own behaviour for that case is not modelled.
- Concurrency and the platform's transaction isolation: each handler is one atomic step.
- Invites.SingleUseInvite: states that every later join fails, and that the failure is the used-up error only while the invite is unexpired, because after its expiry the expiry check fires first.
- Users.SendDirectMessage: the two-member-DM-with-both guarantee is stated when ids are allocated below the counter, the invariant every valid state has.
