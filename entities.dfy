/** The records the messaging hub and the messages controller work on.
    The entity classes themselves (Message, Group, Connection, AppUser) and the
    repository interfaces are not part of this model; their fields are
    reconstructed from the way MessageHub.cs and MessagesController.cs use them. */
module Entities {

  datatype Option<+T> = None | Some(value: T)

  /** Success or failure of a hub operation that returns nothing. */
  datatype Outcome<+E> = Pass | Fail(error: E)

  /** Success with a value, or failure. */
  datatype Result<+R, +E> = Success(value: R) | Failure(error: E)

  /** An opaque point in time: the value DateTime.UtcNow had when it was read. */
  datatype Timestamp = Timestamp(ticks: int)

  /** The authenticated caller; `name` is its ClaimTypes.Name claim, if present. */
  datatype Principal = Principal(name: Option<string>)

  /** A user of the user directory; Identity's UserName is nullable. */
  datatype User = User(userName: Option<string>)

  /** One live hub connection registered in a conversation group. */
  datatype Connection = Connection(connectionId: string, username: string)

  /** A stored conversation group with its member connections, in insertion order. */
  datatype Group = Group(name: string, connections: seq<Connection>)

  /** A stored message; the soft-delete flags are per party. */
  datatype Message = Message(
    id: nat,
    senderUsername: string,
    recipientUsername: string,
    content: string,
    dateRead: Option<Timestamp>,
    senderDeleted: bool,
    recipientDeleted: bool)

  /** The payload of a send: who to, and what. */
  datatype CreateMessageDto = CreateMessageDto(recipientUsername: string, content: string)

  /** The claim lookup of ClaimsPrincipleExtensions.GetUserName: absent when the claim is missing
      (where the extension throws). */
  function GetUserName(user: Principal): Option<string>
  {
    user.name
  }

  /** GetUserByUsernameAsync followed by the null checks on the user and on its UserName:
      the user name a lookup key resolves to, if any. */
  function ResolveUserName(users: map<string, User>, key: string): Option<string>
  {
    if key in users then users[key].userName else None
  }
}
