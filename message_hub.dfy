/** The conversation hub (MessageHub.cs): joining a conversation on connect,
    sending a message with its read receipt and live broadcast, and leaving on
    disconnect. What the hub sends to clients is recorded in `sent`, in order. */
module SignalR {
  import opened Entities
  import opened GroupNames
  import opened MessageStore

  /** The exceptions the hub throws, one per message text. */
  datatype HubError =
    | CannotJoinGroup             // "Cannot join group"
    | CannotGetUsernameFromToken  // thrown by GetUserName when the name claim is missing
    | CouldNotGetUser             // "Could not get user"
    | CannotMessageYourself       // "You cannot message yourself"
    | CannotSendMessage           // "Cannot send message at this time"

  /** What the hub pushes out: a connection added to a transport group, and the two
      client events it sends to a group. */
  datatype HubEvent =
    | AddedToGroup(connectionId: string, groupName: string)
    | ReceivedMessageThread(groupName: string, thread: seq<Message>)
    | NewMessage(groupName: string, message: Message)

  /** The invoking connection: its id, and the authenticated user if there is one. */
  datatype HubCallerContext = HubCallerContext(connectionId: string, user: Option<Principal>)

  class MessageHub {
    const repo: MessageRepository
    const users: map<string, User>
    var sent: seq<HubEvent>

    constructor (repo: MessageRepository, users: map<string, User>)
      ensures this.repo == repo && this.users == users && sent == []
    {
      this.repo := repo;
      this.users := users;
      sent := [];
    }

    /** OnConnectedAsync: `otherUser` is the `user` query value of the connect request,
        `thread` what GetMessageThread answers and `saved` what SaveAllAsync answers. */
    method OnConnected(ctx: HubCallerContext, otherUser: Option<string>, thread: seq<Message>, saved: bool)
      returns (r: Outcome<HubError>)
      requires repo.Valid()
      modifies this, repo
      ensures repo.Valid()
      ensures repo.messages == old(repo.messages) && repo.nextId == old(repo.nextId)
      ensures ctx.user.None? || otherUser.None? || otherUser.value == "" ==> r == Fail(CannotJoinGroup)
      ensures ctx.user.Some? && otherUser.Some? && otherUser.value != "" && ctx.user.value.name.None?
        ==> r == Fail(CannotGetUsernameFromToken)
      ensures r.Pass? <==> ctx.user.Some? && ctx.user.value.name.Some? && otherUser.Some? && otherUser.value != ""
      ensures r.Fail? ==> repo.groups == old(repo.groups) && sent == old(sent)
      ensures r.Pass? ==>
        var username := ctx.user.value.name.value;
        var groupName := GetGroupName(username, otherUser.value);
        && repo.groups == (if saved then JoinGroup(old(repo.groups), username, groupName, Connection(ctx.connectionId, username))
                           else old(repo.groups))
        && sent == old(sent) + [AddedToGroup(ctx.connectionId, groupName), ReceivedMessageThread(groupName, thread)]
    {
      if ctx.user.None? || otherUser.None? || otherUser.value == "" {
        return Fail(CannotJoinGroup);
      }
      var username := GetUserName(ctx.user.value);
      if username.None? {
        return Fail(CannotGetUsernameFromToken);
      }
      var groupName := GetGroupName(username.value, otherUser.value);
      sent := sent + [AddedToGroup(ctx.connectionId, groupName)];
      var _ := AddToGroup(ctx.connectionId, username.value, groupName, saved);
      sent := sent + [ReceivedMessageThread(groupName, thread)];
      r := Pass;
    }

    /** AddToGroup as written: the group is looked up under the caller's user name,
        and created under `groupName` when that lookup finds nothing. The caller's
        name is passed in; the source reads it again from the same claim. */
    method AddToGroup(connectionId: string, username: string, groupName: string, saved: bool) returns (ok: bool)
      modifies repo
      ensures ok == saved
      ensures repo.messages == old(repo.messages) && repo.nextId == old(repo.nextId)
      ensures repo.groups == if saved then JoinGroup(old(repo.groups), username, groupName, Connection(connectionId, username))
                             else old(repo.groups)
    {
      // Step by step, this builds JoinGroup(repo.groups, username, groupName, connection).
      var groups := repo.groups;
      var connection := Connection(connectionId, username);
      match FindGroup(groups, username) {
        case Some(i) =>
          groups := groups[i := Group(groups[i].name, groups[i].connections + [connection])];
        case None =>
          var group := Group(groupName, []);
          groups := groups + [group];
          assert group.connections + [connection] == [connection];
          groups := groups[|groups| - 1 := Group(group.name, group.connections + [connection])];
          assert groups == repo.groups + [Group(groupName, [connection])];
      }
      ok := saved;
      if ok {
        repo.groups := groups;
      }
    }

    /** AddToGroup with the lookup under `groupName`, the name the group is created
        under: group names stay unique, and the joining user is then seen by the
        read-receipt test of SendMessage. */
    method AddToGroupByName(connectionId: string, username: string, groupName: string, saved: bool) returns (ok: bool)
      modifies repo
      ensures ok == saved
      ensures repo.messages == old(repo.messages) && repo.nextId == old(repo.nextId)
      ensures repo.groups == if saved then JoinGroup(old(repo.groups), groupName, groupName, Connection(connectionId, username))
                             else old(repo.groups)
      ensures saved ==> IsConnected(repo.groups, groupName, username)
      ensures UniqueNames(old(repo.groups)) ==> UniqueNames(repo.groups)
    {
      // The same steps as AddToGroup with `groupName` as the lookup key; the result
      // equals JoinGroup(repo.groups, groupName, groupName, connection).
      var groups := repo.groups;
      var connection := Connection(connectionId, username);
      match FindGroup(groups, groupName) {
        case Some(i) =>
          groups := groups[i := Group(groups[i].name, groups[i].connections + [connection])];
        case None =>
          var group := Group(groupName, []);
          groups := groups + [group];
          assert group.connections + [connection] == [connection];
          groups := groups[|groups| - 1 := Group(group.name, group.connections + [connection])];
          assert groups == repo.groups + [Group(groupName, [connection])];
      }
      ok := saved;
      if ok {
        JoinByNameConnects(repo.groups, groupName, connection, username);
        if UniqueNames(repo.groups) {
          JoinByNameKeepsNamesUnique(repo.groups, groupName, connection);
        }
        repo.groups := groups;
      }
    }

    /** SendMessage: `now` is the value DateTime.UtcNow would give and `saved` what
        SaveAllAsync answers. On success the message that was added is returned. */
    method SendMessage(ctx: HubCallerContext, dto: CreateMessageDto, now: Timestamp, saved: bool)
      returns (r: Result<Message, HubError>)
      requires repo.Valid()
      modifies this, repo
      ensures repo.Valid()
      ensures repo.groups == old(repo.groups)
      ensures ctx.user.None? ==> r == Failure(CouldNotGetUser)
      ensures ctx.user.Some? && ctx.user.value.name.None? ==> r == Failure(CannotGetUsernameFromToken)
      ensures ctx.user.Some? && ctx.user.value.name == Some(dto.recipientUsername) ==> r == Failure(CannotMessageYourself)
      ensures ctx.user.Some? && ctx.user.value.name.Some? && ctx.user.value.name.value != dto.recipientUsername
              && (ResolveUserName(users, ctx.user.value.name.value).None? || ResolveUserName(users, dto.recipientUsername).None?)
        ==> r == Failure(CannotSendMessage)
      ensures r.Success? <==>
        && ctx.user.Some? && ctx.user.value.name.Some? && ctx.user.value.name.value != dto.recipientUsername
        && ResolveUserName(users, ctx.user.value.name.value).Some? && ResolveUserName(users, dto.recipientUsername).Some?
      ensures r.Failure? ==> repo.messages == old(repo.messages) && repo.nextId == old(repo.nextId) && sent == old(sent)
      ensures r.Success? ==>
        var senderName := ResolveUserName(users, ctx.user.value.name.value).value;
        var recipientName := ResolveUserName(users, dto.recipientUsername).value;
        var groupName := GetGroupName(senderName, recipientName);
        var m := r.value;
        && m.senderUsername == senderName && m.recipientUsername == recipientName && m.content == dto.content
        && !m.senderDeleted && !m.recipientDeleted && m.id == old(repo.nextId)
        && (m.dateRead.Some? <==> IsConnected(old(repo.groups), groupName, recipientName))
        && (m.dateRead.Some? ==> m.dateRead.value == now)
        && repo.messages == old(repo.messages) + (if saved then [m] else [])
        && repo.nextId == old(repo.nextId) + (if saved then 1 else 0)
        && sent == old(sent) + (if saved then [NewMessage(groupName, m)] else [])
    {
      if ctx.user.None? {
        return Failure(CouldNotGetUser);
      }
      var username := GetUserName(ctx.user.value);
      if username.None? {
        return Failure(CannotGetUsernameFromToken);
      }
      if username.value == dto.recipientUsername {
        return Failure(CannotMessageYourself);
      }
      var sender := ResolveUserName(users, username.value);
      var recipient := ResolveUserName(users, dto.recipientUsername);
      if recipient.None? || sender.None? {
        return Failure(CannotSendMessage);
      }
      var message := Message(repo.nextId, sender.value, recipient.value, dto.content, None, false, false);
      var groupName := GetGroupName(sender.value, recipient.value);
      if IsConnected(repo.groups, groupName, recipient.value) {
        message := message.(dateRead := Some(now));
      }
      if saved {
        repo.messages := repo.messages + [message];
        repo.nextId := repo.nextId + 1;
        sent := sent + [NewMessage(groupName, message)];
      }
      r := Success(message);
    }

    /** RemoveFromMessageGroup, which is all OnDisconnectedAsync does besides the
        framework's own clean-up: the connection stored under the caller's id, if
        any, is removed. */
    method RemoveFromMessageGroup(ctx: HubCallerContext, saved: bool)
      modifies repo
      ensures repo.messages == old(repo.messages) && repo.nextId == old(repo.nextId)
      ensures FindConnection(old(repo.groups), ctx.connectionId).None? || !saved ==> repo.groups == old(repo.groups)
      ensures FindConnection(old(repo.groups), ctx.connectionId).Some? && saved ==>
        var i, k := FindConnection(old(repo.groups), ctx.connectionId).value.0,
                    FindConnection(old(repo.groups), ctx.connectionId).value.1;
        && repo.groups == RemoveConnectionAt(old(repo.groups), i, k)
        && multiset(AllConnections(repo.groups))
           == multiset(AllConnections(old(repo.groups))) - multiset{old(repo.groups)[i].connections[k]}
    {
      var connection := FindConnection(repo.groups, ctx.connectionId);
      if connection.Some? {
        var i, k := connection.value.0, connection.value.1;
        RemoveConnectionDropsOne(repo.groups, i, k);
        if saved {
          repo.groups := RemoveConnectionAt(repo.groups, i, k);
        }
      }
    }
  }

  /** Two users open the conversation with each other on a fresh store, every save
      succeeding; then the first sends to the second. Because the join looks the
      group up under the joining user's name, the second join creates a second
      "bob-alice" record, and the message is left unread although the recipient
      is connected to the conversation. */
  method SplitConversationScenario(now: Timestamp) returns (groups: seq<Group>, sentMessage: Result<Message, HubError>)
    ensures |groups| == 2 && groups[0].name == "bob-alice" && groups[1].name == "bob-alice"
    ensures groups[0].connections == [Connection("c1", "alice")]
    ensures groups[1].connections == [Connection("c2", "bob")]
    ensures sentMessage.Success? && sentMessage.value.recipientUsername == "bob" && sentMessage.value.dateRead.None?
  {
    var repo := new MessageRepository();
    var users := map["alice" := User(Some("alice")), "bob" := User(Some("bob"))];
    var hub := new MessageHub(repo, users);
    var alice := HubCallerContext("c1", Some(Principal(Some("alice"))));
    var bob := HubCallerContext("c2", Some(Principal(Some("bob"))));
    assert GetGroupName("alice", "bob") == "bob-alice";
    assert GetGroupName("bob", "alice") == "bob-alice";
    var joined := hub.OnConnected(alice, Some("bob"), [], true);
    assert repo.groups == [Group("bob-alice", [Connection("c1", "alice")])];
    joined := hub.OnConnected(bob, Some("alice"), [], true);
    assert FindGroup([Group("bob-alice", [Connection("c1", "alice")])], "bob").None?;
    assert repo.groups == [Group("bob-alice", [Connection("c1", "alice")]), Group("bob-alice", [Connection("c2", "bob")])];
    assert FindGroup(repo.groups, "bob-alice") == Some(0);
    groups := repo.groups;
    assert groups[0].connections == [Connection("c1", "alice")];
    sentMessage := hub.SendMessage(alice, CreateMessageDto("bob", "hi"), now, true);
  }

  /** The same conversation with the group looked up under its own name: both
      connections land in the one "bob-alice" group, so the message is marked read
      on send and broadcast to that group. */
  method JoinedConversationScenario(now: Timestamp) returns (groups: seq<Group>, sentMessage: Result<Message, HubError>)
    ensures |groups| == 1 && groups[0].name == "bob-alice"
    ensures groups[0].connections == [Connection("c1", "alice"), Connection("c2", "bob")]
    ensures IsConnected(groups, "bob-alice", "bob")
    ensures sentMessage.Success? && sentMessage.value.recipientUsername == "bob"
    ensures sentMessage.value.dateRead == Some(now)
  {
    var repo := new MessageRepository();
    var users := map["alice" := User(Some("alice")), "bob" := User(Some("bob"))];
    var hub := new MessageHub(repo, users);
    var alice := HubCallerContext("c1", Some(Principal(Some("alice"))));
    assert GetGroupName("alice", "bob") == "bob-alice";
    var ok := hub.AddToGroupByName("c1", "alice", "bob-alice", true);
    assert |repo.groups| == 1 && repo.groups[0].name == "bob-alice";
    assert FindGroup(repo.groups, "bob-alice") == Some(0);
    ok := hub.AddToGroupByName("c2", "bob", "bob-alice", true);
    groups := repo.groups;
    sentMessage := hub.SendMessage(alice, CreateMessageDto("bob", "hi"), now, true);
  }
}
