# Conversation bookkeeping of the dating app's messaging hub

This project models the part of the dating application that keeps conversations.
It covers these operations:

- the deterministic name of a two-user conversation group;
- joining a conversation when a hub connection opens;
- sending a message, with its read receipt and live broadcast;
- leaving a conversation when the connection closes;
- the REST endpoints that create a message and soft-delete one.

The store behind the message repository is one in-memory object, `MessageStore.MessageRepository`.
It holds:

- a group table: a sequence of `Group(name, connections)` records;
- a message table: a sequence of `Message` records, each with `SenderUsername`,
  `RecipientUsername`, `Content`, `DateRead?`, `SenderDeleted` and `RecipientDeleted`;
- the next message id.

The hub (`SignalR.MessageHub`) and the controller (`Controllers.MessagesController`) are classes over that store.
Their methods change it in place.
What the hub pushes to clients is appended to the hub's `sent` log.
This covers adding a connection to a transport group, `ReceivedMessageThread` and `NewMessage`.

Outside inputs are parameters:

- `SaveAllAsync` is a boolean `saved`. A method's staged changes reach the store only when it is true. The `NewMessage` broadcast also happens only then.
- `DateTime.UtcNow` is an opaque `Timestamp`.
- The user directory is a map from lookup name to `User`, whose `UserName` may be null.
- The caller is a `Principal` whose name claim may be missing.

Notes on the code as modelled:

- The group table is a sequence and not a map keyed by name. A group is added without checking whether its name is already taken. The `Group` entity and `AddGroup` are not part of this model, so this is an assumption; see "## Left out".
- Repository lookups (`GetMessageGroup`, `GetConnection`, `GetMessage`) return the first matching record in table order.
- `string.CompareOrdinal(other, caller) < 0` puts the ordinally greater name first: `GetGroupName("alice", "bob") == "bob-alice"`. A lower-name-first rule would give `alice-bob`; the model follows the code.
- The hub sends no presence notifications and no membership broadcasts on join or leave, so neither does the model.

## Model

| member | source | states |
|---|---|---|
| GroupNames.GetGroupName | API/SignalR/MessageHub.cs:115-119 | the group name is the ordinally greater name, `-`, then the other name; equal names give `a-a` |
| GroupNames.GroupNameSymmetric | API/SignalR/MessageHub.cs:115-119 | both participants compute the same group name, whoever calls |
| GroupNames.GroupNameCollision | API/SignalR/MessageHub.cs:118 | the names are not injective: `("a-b","c")` and `("c-a","b")` both give `c-a-b` |
| GroupNames.GroupNameInjectiveWithoutSeparator | API/SignalR/MessageHub.cs:115-119 | when no user name contains `-`, equal group names mean the same unordered pair of users |
| GroupNames.OrdinalLessTotal | API/SignalR/MessageHub.cs:117 | ordinal comparison orders any two different strings one way or the other |
| GroupNames.OrdinalLessAsymmetric | API/SignalR/MessageHub.cs:117 | ordinal "less than" never holds both ways |
| GroupNames.OrdinalLessIrreflexive | API/SignalR/MessageHub.cs:117 | no string is ordinally less than itself |
| GroupNames.OrdinalLessTransitive | API/SignalR/MessageHub.cs:117 | ordinal "less than" is transitive |
| MessageStore.FindGroup | API/SignalR/MessageHub.cs:86 | the group lookup answers the first group with the given name, or nothing when no group has it |
| MessageStore.IsConnected | API/SignalR/MessageHub.cs:64-67 | the read-receipt test holds iff the first group with the shared name has a connection whose Username is the recipient's |
| MessageStore.JoinGroupAddsOneConnection | API/SignalR/MessageHub.cs:82-101 | a join adds exactly one connection to the group table and loses none |
| MessageStore.JoinGroupKeepsGroups | API/SignalR/MessageHub.cs:93-99 | a join keeps every existing group with its name and its connections in order |
| MessageStore.JoinGroupCreatesIffMissing | API/SignalR/MessageHub.cs:86-97 | a new group, holding only the new connection, is created iff the lookup key finds no group |
| MessageStore.SplitConversationAsWritten | API/SignalR/MessageHub.cs:86-99 | with the lookup under the user name, the second participant of a new conversation gets a second record of the same name and is never seen by the read-receipt test |
| MessageStore.JoinByNameKeepsNamesUnique | API/SignalR/MessageHub.cs:86-96 | with the lookup under the group's own name, group names stay unique |
| MessageStore.JoinByNameConnects | API/SignalR/MessageHub.cs:86-99 | with the lookup under the group's own name, the joining user is seen by the read-receipt test and no one already seen is lost |
| MessageStore.JoinByNameConnectsBoth | API/SignalR/MessageHub.cs:86-99 | with the lookup under the group's own name, both participants are seen after each joins once |
| MessageStore.FindConnection | API/SignalR/MessageHub.cs:106 | the connection lookup finds a stored connection with the caller's id, or reports that no stored connection has it |
| MessageStore.RemoveConnectionDropsOne | API/SignalR/MessageHub.cs:108-110 | removing the found connection drops exactly that one connection from the table |
| MessageStore.FindMessage | API/Controllers/MessagesController.cs:72 | the message lookup answers a message with the given id, or nothing when none has it |
| MessageStore.RemovedIdGone | API/Controllers/MessagesController.cs:82-85 | with ids unique, a hard-deleted message leaves no message with its id |
| MessageStore.MarkDeleted | API/Controllers/MessagesController.cs:79-80 | deleting as sender sets SenderDeleted and as recipient sets RecipientDeleted; no other flag is set, none is cleared, and nothing else changes |
| MessageStore.MarkDeletedIdempotent | API/Controllers/MessagesController.cs:79-80 | a repeat delete by the same party changes no flag |
| MessageStore.BothPartiesPurge | API/Controllers/MessagesController.cs:79-85 | the message is purged after sender and recipient have each deleted it, in either order, and not after only one of two distinct parties has |
| SignalR.MessageHub.OnConnected | API/SignalR/MessageHub.cs:13-30 | a missing user or an empty or missing peer fails with no change; otherwise the caller's connection joins via AddToGroup and the thread is sent to the group |
| SignalR.MessageHub.AddToGroup | API/SignalR/MessageHub.cs:82-102 | the lookup is under the caller's user name; one connection is appended to the found group, or a new group named `groupName` is created; the change holds only if saved |
| SignalR.MessageHub.AddToGroupByName | API/SignalR/MessageHub.cs:82-102 | corrected join: the lookup is under the group name; the joiner is then seen by the read-receipt test and names stay unique |
| SignalR.MessageHub.SendMessage | API/SignalR/MessageHub.cs:38-80 | self-messaging and unresolved users fail with no change; otherwise the message gets both user names and the content, DateRead is set iff the recipient is connected to the shared group, and the message is stored and broadcast iff saved |
| SignalR.MessageHub.RemoveFromMessageGroup | API/SignalR/MessageHub.cs:104-113 | an unknown connection id changes nothing; otherwise exactly the found connection is removed when saved |
| SignalR.SplitConversationScenario | API/SignalR/MessageHub.cs:13-102 | two users opening a conversation with each other end up in two `bob-alice` groups, alice's connection alone in the first and bob's alone in the second, and alice's message to bob stays unread |
| SignalR.JoinedConversationScenario | API/SignalR/MessageHub.cs:38-102 | with the corrected join, the one `bob-alice` group holds alice's and then bob's connection, and alice's message to bob is marked read on send |
| Controllers.MessagesController.CreateMessage | API/Controllers/MessagesController.cs:17-45 | self-messaging and unresolved users give BadRequest with no change; otherwise exactly one unread message with both user names and the content is added iff saved |
| Controllers.MessagesController.DeleteMessage | API/Controllers/MessagesController.cs:68-90 | a missing id gives BadRequest and a stranger Forbid, with no change; otherwise the caller's flag is set, and the message is removed iff both flags are set, when saved |

## Left out

- PresenceHub and PresenceTracker are not part of this model. They only forward to an online-user map and broadcast to other clients.
- The `GetMessages` and `GetMessageThread` controller actions are not modelled. They pass queries straight to a repository whose code is not part of this model.
- OnConnected does not compute the message thread. The thread the repository returns is a parameter, and the model only records that it is sent. `GetMessageThread` is not part of this model, so whatever it writes to the message table (for example marking fetched messages read) is not modelled; `SignalR.MessageHub.OnConnected` promises an unchanged message table only on that account.
- `OnDisconnectedAsync` has no member of its own. Besides the framework's base call, it is exactly `RemoveFromMessageGroup`.
- Concurrency is out of scope. Concurrent joins racing to create the same group, and the ordering of connection lifecycle events, fall outside a sequential model.
- A failed `SaveAllAsync` is a `false` answer that discards the staged changes. The model does not represent the database exceptions a save can throw.
- AutoMapper's `MessageDto` is not modelled. The `NewMessage` event and the created message's 200 answer carry the message itself.
- The `Sender` and `Recipient` navigation properties and the message's sent date are not modelled.
- The group table assumes that `Group.Name` has no uniqueness constraint when changes are saved, because the `Group` entity and its key are not part of this model. If `Name` were the key, the second join of `MessageStore.SplitConversationAsWritten` and `SignalR.SplitConversationScenario` would fail to save instead of adding a second `bob-alice` record; the second participant would still not be recorded in the group, and the message would still stay unread.
- Message ids are a counter in the store; in the database they are assigned on save.
- The user lookup is an exact-key lookup in a map, because `GetUserByUsernameAsync` is not part of this model.
- Ordinal comparison works on Dafny characters (code points), while .NET compares UTF-16 code units. The two orders differ only when a string has characters above U+FFFF.
- Controllers.MessagesController.CreateMessage: a resolved user whose UserName is null ends the action as a server error, and nothing is added. The source does not check for this case and would go on to build a message with a null user name, which `Message` cannot hold here.

## Findings

| source | as written | input that shows it | evidently intended | confidence | as-written member | corrected member |
|---|---|---|---|---|---|---|
| API/SignalR/MessageHub.cs:86 | `AddToGroup` looks the group up under the caller's user name, but groups are created under the group name | On an empty store, alice connects with user=bob, then bob connects with user=alice. With every save succeeding, the second join cannot find `bob-alice` under "bob" and adds a second `bob-alice` group (this assumes `Group.Name` is not a unique key). One direction of the conversation then loses its read receipt, although bob is in the conversation: under the first-record lookup, alice's messages to bob. If `Group.Name` is a unique key, bob's save fails instead, `OnConnectedAsync` fails with it, and bob's join does not register him. | look the group up under `groupName`, so that both connections share one group | not executed; medium, because the repository and the Group entity are not part of this model | SignalR.SplitConversationScenario | SignalR.MessageHub.AddToGroupByName |

`SignalR.MessageHub.OnConnected` keeps the as-written lookup, so that its contract describes the program as it runs.
The corrected join, `SignalR.MessageHub.AddToGroupByName`, proves the intended property: the joining user is then seen by the read-receipt test, and group names stay unique.
`MessageStore.SplitConversationAsWritten` and `MessageStore.JoinByNameConnectsBoth` prove the same contrast for every store in which no group is named after either user or after the pair (a fresh conversation).
