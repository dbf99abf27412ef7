/** The REST side of messaging (MessagesController.cs): creating a message without
    the live channel, and the two-party soft delete. */
module Controllers {
  import opened Entities
  import opened MessageStore

  /** What an action answers: 200 with or without a message body, 400 with its
      text, 403, or an exception escaping the action. */
  datatype ActionResult =
    | Ok
    | OkMessage(message: Message)
    | BadRequest(reason: string)
    | Forbid
    | ServerError(reason: string)

  class MessagesController {
    const repo: MessageRepository
    const users: map<string, User>

    constructor (repo: MessageRepository, users: map<string, User>)
      ensures this.repo == repo && this.users == users
    {
      this.repo := repo;
      this.users := users;
    }

    /** CreateMessage: `user` is the caller, `saved` what SaveAllAsync answers. */
    method CreateMessage(user: Principal, dto: CreateMessageDto, saved: bool) returns (r: ActionResult)
      requires repo.Valid()
      modifies repo
      ensures repo.Valid() && repo.groups == old(repo.groups)
      ensures user.name.None? ==> r == ServerError("Cannot get username from token")
      ensures user.name == Some(dto.recipientUsername) ==> r == BadRequest("You cannot message yourself")
      ensures user.name.Some? && user.name.value != dto.recipientUsername
              && (user.name.value !in users || dto.recipientUsername !in users)
        ==> r == BadRequest("Cannot send message at this time")
      ensures user.name.Some? && user.name.value != dto.recipientUsername
              && ResolveUserName(users, user.name.value).Some? && ResolveUserName(users, dto.recipientUsername).Some?
              && !saved
        ==> r == BadRequest("Failed to save message")
      ensures r.OkMessage? <==>
        && user.name.Some? && user.name.value != dto.recipientUsername
        && ResolveUserName(users, user.name.value).Some? && ResolveUserName(users, dto.recipientUsername).Some?
        && saved
      ensures !r.OkMessage? ==> repo.messages == old(repo.messages) && repo.nextId == old(repo.nextId)
      ensures r.OkMessage? ==>
        var m := r.message;
        && m.senderUsername == ResolveUserName(users, user.name.value).value
        && m.recipientUsername == ResolveUserName(users, dto.recipientUsername).value
        && m.content == dto.content && m.dateRead.None? && !m.senderDeleted && !m.recipientDeleted
        && repo.messages == old(repo.messages) + [m]
        && m.id == old(repo.nextId) && repo.nextId == old(repo.nextId) + 1
    {
      var username := GetUserName(user);
      if username.None? {
        return ServerError("Cannot get username from token");
      }
      if username.value == dto.recipientUsername {
        return BadRequest("You cannot message yourself");
      }
      // This check and the null check below together are ResolveUserName on both names.
      if username.value !in users || dto.recipientUsername !in users {
        return BadRequest("Cannot send message at this time");
      }
      var sender, recipient := users[username.value], users[dto.recipientUsername];
      if sender.userName.None? || recipient.userName.None? {
        return ServerError("UserName is null");
      }
      var message := Message(repo.nextId, sender.userName.value, recipient.userName.value, dto.content, None, false, false);
      if saved {
        repo.messages := repo.messages + [message];
        repo.nextId := repo.nextId + 1;
        return OkMessage(message);
      }
      r := BadRequest("Failed to save message");
    }

    /** DeleteMessage: `user` is the caller, `saved` what SaveAllAsync answers. */
    method DeleteMessage(user: Principal, id: int, saved: bool) returns (r: ActionResult)
      requires repo.Valid()
      modifies repo
      ensures repo.Valid() && repo.groups == old(repo.groups) && repo.nextId == old(repo.nextId)
      ensures user.name.None? ==> r == ServerError("Cannot get username from token") && repo.messages == old(repo.messages)
      ensures user.name.Some? && FindMessage(old(repo.messages), id).None?
        ==> r == BadRequest("Cannot delete this message") && repo.messages == old(repo.messages)
      ensures user.name.Some? && FindMessage(old(repo.messages), id).Some? ==>
        var i := FindMessage(old(repo.messages), id).value;
        var m := old(repo.messages)[i];
        var username := user.name.value;
        if m.senderUsername != username && m.recipientUsername != username then
          r == Forbid && repo.messages == old(repo.messages)
        else
          var m' := MarkDeleted(m, username);
          && r == (if saved then Ok else BadRequest("Problem deleting the message"))
          && repo.messages == (if !saved then old(repo.messages)
                               else if Purged(m') then old(repo.messages)[..i] + old(repo.messages)[i + 1..]
                               else old(repo.messages)[i := m'])
          && (saved && Purged(m') ==> FindMessage(repo.messages, id).None?)
    {
      var username := GetUserName(user);
      if username.None? {
        return ServerError("Cannot get username from token");
      }
      var found := FindMessage(repo.messages, id);
      if found.None? {
        return BadRequest("Cannot delete this message");
      }
      var i := found.value;
      var message := repo.messages[i];
      if message.senderUsername != username.value && message.recipientUsername != username.value {
        return Forbid;
      }
      // The two flag updates compute MarkDeleted(message, username.value), and the
      // test after them is Purged of that message.
      if message.senderUsername == username.value {
        message := message.(senderDeleted := true);
      }
      if message.recipientUsername == username.value {
        message := message.(recipientDeleted := true);
      }
      var messages := repo.messages[i := message];
      if message.senderDeleted && message.recipientDeleted {
        RemovedIdGone(repo.messages, i);
        messages := repo.messages[..i] + repo.messages[i + 1..];
      }
      if saved {
        repo.messages := messages;
        return Ok;
      }
      r := BadRequest("Problem deleting the message");
    }
  }
}
