/** The message repository as an in-memory store: the group table (groups with their
    connections), the message table, and the queries and changes the hub and the
    controller make on them. The repository implementation is not part of this
    model; its lookups are modelled as "first matching record in table order". */
module MessageStore {
  import opened Entities
  import opened GroupNames

  // ---------------------------------------------------------------------------
  // Group table

  /** GetMessageGroup(name): the position of the first group called `name`. */
  function FindGroup(groups: seq<Group>, name: string): (r: Option<nat>)
    ensures r.Some? ==> r.value < |groups| && groups[r.value].name == name
    ensures r.Some? ==> forall j :: 0 <= j < r.value ==> groups[j].name != name
    ensures r.None? ==> forall j :: 0 <= j < |groups| ==> groups[j].name != name
  {
    if |groups| == 0 then None
    else if groups[0].name == name then Some(0)
    else match FindGroup(groups[1..], name)
      case None => None
      case Some(i) => Some(i + 1)
  }

  /** The first group called `name` is found. */
  lemma FindGroupAt(groups: seq<Group>, name: string, i: nat)
    requires i < |groups| && groups[i].name == name
    requires forall j :: 0 <= j < i ==> groups[j].name != name
    ensures FindGroup(groups, name) == Some(i)
  {
  }

  /** The read-receipt test of SendMessage: the group called `name` exists and
      one of its connections belongs to `username`. */
  function IsConnected(groups: seq<Group>, name: string, username: string): (r: bool)
    ensures r <==> exists i :: 0 <= i < |groups| && groups[i].name == name
                      && (forall j :: 0 <= j < i ==> groups[j].name != name)
                      && exists c :: c in groups[i].connections && c.username == username
  {
    match FindGroup(groups, name)
    case None => false
    case Some(i) => exists c :: c in groups[i].connections && c.username == username
  }

  /** The change AddToGroup makes to the group table: look a group up by `key`;
      append `conn` to it, or, if there is none, add a group called `name`
      holding just `conn`. */
  function JoinGroup(groups: seq<Group>, key: string, name: string, conn: Connection): seq<Group>
  {
    match FindGroup(groups, key)
    case Some(i) => groups[i := Group(groups[i].name, groups[i].connections + [conn])]
    case None => groups + [Group(name, [conn])]
  }

  /** Every connection of every group, group by group. */
  function AllConnections(groups: seq<Group>): seq<Connection>
  {
    if groups == [] then [] else groups[0].connections + AllConnections(groups[1..])
  }

  lemma {:induction false} AllConnectionsAppend(groups: seq<Group>, g: Group)
    ensures AllConnections(groups + [g]) == AllConnections(groups) + g.connections
  {
    if groups == [] {
      assert [g][1..] == [];
    } else {
      assert (groups + [g])[1..] == groups[1..] + [g];
      AllConnectionsAppend(groups[1..], g);
    }
  }

  /** The connections of the whole table, around the group at position `i`. */
  lemma {:induction false} AllConnectionsAround(groups: seq<Group>, i: nat)
    requires i < |groups|
    ensures AllConnections(groups)
         == AllConnections(groups[..i]) + groups[i].connections + AllConnections(groups[i + 1..])
  {
    if i == 0 {
      assert groups[..0] == [];
    } else {
      var tail := groups[1..];
      AllConnectionsAround(tail, i - 1);
      assert groups[..i][1..] == tail[..i - 1];
      assert tail[i..] == groups[i + 1..];
      assert tail[i - 1] == groups[i];
    }
  }

  lemma AllConnectionsUpdate(groups: seq<Group>, i: nat, g: Group)
    requires i < |groups|
    ensures multiset(AllConnections(groups[i := g]))
         == multiset(AllConnections(groups)) - multiset(groups[i].connections) + multiset(g.connections)
  {
    var u := groups[i := g];
    assert u[..i] == groups[..i] && u[i + 1..] == groups[i + 1..];
    AllConnectionsAround(groups, i);
    AllConnectionsAround(u, i);
  }

  /** A join adds exactly one connection to the group table and loses none. */
  lemma JoinGroupAddsOneConnection(groups: seq<Group>, key: string, name: string, conn: Connection)
    ensures multiset(AllConnections(JoinGroup(groups, key, name, conn)))
         == multiset(AllConnections(groups)) + multiset{conn}
  {
    match FindGroup(groups, key)
    case Some(i) =>
      AllConnectionsUpdate(groups, i, Group(groups[i].name, groups[i].connections + [conn]));
      AllConnectionsAround(groups, i);
    case None =>
      AllConnectionsAppend(groups, Group(name, [conn]));
  }

  /** A join keeps every group, its name and its connections in order; only the
      found group grows, by one connection at its end. */
  lemma JoinGroupKeepsGroups(groups: seq<Group>, key: string, name: string, conn: Connection)
    ensures var r := JoinGroup(groups, key, name, conn);
      |groups| <= |r| && forall j :: 0 <= j < |groups| ==>
        r[j].name == groups[j].name && groups[j].connections <= r[j].connections
  {
  }

  /** Whether a new group record is created depends only on the lookup key. */
  lemma JoinGroupCreatesIffMissing(groups: seq<Group>, key: string, name: string, conn: Connection)
    ensures var r := JoinGroup(groups, key, name, conn);
      (|r| == |groups| + 1 <==> forall j :: 0 <= j < |groups| ==> groups[j].name != key)
      && (|r| == |groups| + 1 ==> r[|groups|] == Group(name, [conn]))
  {
    if FindGroup(groups, key).Some? {
      assert groups[FindGroup(groups, key).value].name == key;
    }
  }

  /** No two groups share a name. */
  predicate UniqueNames(groups: seq<Group>)
  {
    forall i, j :: 0 <= i < j < |groups| ==> groups[i].name != groups[j].name
  }

  /** Looking a group up by the name it is created under keeps names unique. */
  lemma JoinByNameKeepsNamesUnique(groups: seq<Group>, name: string, conn: Connection)
    requires UniqueNames(groups)
    ensures UniqueNames(JoinGroup(groups, name, name, conn))
  {
  }

  /** Looking a group up by the name it is created under makes the joining user
      visible to the read-receipt test, and keeps everyone already visible. */
  lemma JoinByNameConnects(groups: seq<Group>, name: string, conn: Connection, other: string)
    ensures IsConnected(JoinGroup(groups, name, name, conn), name, conn.username)
    ensures IsConnected(groups, name, other) ==> IsConnected(JoinGroup(groups, name, name, conn), name, other)
  {
    var r := JoinGroup(groups, name, name, conn);
    match FindGroup(groups, name)
    case Some(i) =>
      assert forall j :: 0 <= j < i ==> r[j] == groups[j];
      FindGroupAt(r, name, i);
      assert conn in r[i].connections;
    case None =>
      FindGroupAt(r, name, |groups|);
      assert conn in r[|groups|].connections;
  }

  /** When each user joins the pair's conversation once and the group is looked up by
      the name it was created under, both users are seen by the read-receipt test. */
  lemma JoinByNameConnectsBoth(groups: seq<Group>, name: string, first: Connection, second: Connection)
    ensures var r := JoinGroup(JoinGroup(groups, name, name, first), name, name, second);
      IsConnected(r, name, first.username) && IsConnected(r, name, second.username)
  {
    var mid := JoinGroup(groups, name, name, first);
    JoinByNameConnects(groups, name, first, first.username);
    JoinByNameConnects(mid, name, second, first.username);
  }

  /** When the group is looked up by the joining user's name instead (and no group
      is called after either user), the second participant of a fresh conversation
      ends up in a second record with the same name, and the read-receipt test
      never sees them. With the first record alone (the second join not saved)
      they are not seen either. */
  lemma SplitConversationAsWritten(groups: seq<Group>, a: string, b: string, ca: string, cb: string)
    requires FindGroup(groups, a).None? && FindGroup(groups, b).None?
    requires FindGroup(groups, GetGroupName(a, b)).None?
    ensures var name := GetGroupName(a, b);
      var mid := JoinGroup(groups, a, name, Connection(ca, a));
      var r := JoinGroup(mid, b, name, Connection(cb, b));
      && r == groups + [Group(name, [Connection(ca, a)]), Group(name, [Connection(cb, b)])]
      && IsConnected(r, name, a)
      && (b != a ==> !IsConnected(r, name, b) && !IsConnected(mid, name, b))
  {
    var name := GetGroupName(a, b);
    OrdinalLessAsymmetric(a, b);
    assert |name| == |a| + |b| + 1;
    var ga := Group(name, [Connection(ca, a)]);
    var gb := Group(name, [Connection(cb, b)]);
    var mid := groups + [ga];
    assert JoinGroup(groups, a, name, Connection(ca, a)) == mid;
    assert forall j :: 0 <= j < |mid| ==> mid[j].name != b by {
      assert ga.name != b;
    }
    assert FindGroup(mid, b).None?;
    var r := mid + [gb];
    assert r == groups + [ga, gb];
    FindGroupAt(mid, name, |groups|);
    FindGroupAt(r, name, |groups|);
    assert r[|groups|] == ga;
  }

  /** The position of the first connection with id `id`. */
  function IndexOfConnection(conns: seq<Connection>, id: string): (r: Option<nat>)
    ensures r.Some? ==> r.value < |conns| && conns[r.value].connectionId == id
    ensures r.None? ==> forall k :: 0 <= k < |conns| ==> conns[k].connectionId != id
  {
    if |conns| == 0 then None
    else if conns[0].connectionId == id then Some(0)
    else match IndexOfConnection(conns[1..], id)
      case None => None
      case Some(k) => Some(k + 1)
  }

  /** GetConnection(id): the group and the position within it of the first stored
      connection with id `id`; nothing when no stored connection has that id. */
  function FindConnection(groups: seq<Group>, id: string): (r: Option<(nat, nat)>)
    ensures r.Some? ==> r.value.0 < |groups| && r.value.1 < |groups[r.value.0].connections|
                        && groups[r.value.0].connections[r.value.1].connectionId == id
    ensures r.None? ==> forall c :: c in AllConnections(groups) ==> c.connectionId != id
  {
    if |groups| == 0 then None
    else match IndexOfConnection(groups[0].connections, id)
      case Some(k) => Some((0, k))
      case None =>
        match FindConnection(groups[1..], id)
        case None => None
        case Some(p) => Some((p.0 + 1, p.1))
  }

  /** RemoveConnection: the table without the connection at position `k` of group `i`. */
  function RemoveConnectionAt(groups: seq<Group>, i: nat, k: nat): seq<Group>
    requires i < |groups| && k < |groups[i].connections|
  {
    var conns := groups[i].connections;
    groups[i := Group(groups[i].name, conns[..k] + conns[k + 1..])]
  }

  /** Removing a connection drops exactly that one connection from the table. */
  lemma RemoveConnectionDropsOne(groups: seq<Group>, i: nat, k: nat)
    requires i < |groups| && k < |groups[i].connections|
    ensures multiset(AllConnections(RemoveConnectionAt(groups, i, k)))
         == multiset(AllConnections(groups)) - multiset{groups[i].connections[k]}
  {
    var conns := groups[i].connections;
    assert conns == conns[..k] + [conns[k]] + conns[k + 1..];
    AllConnectionsUpdate(groups, i, Group(groups[i].name, conns[..k] + conns[k + 1..]));
    AllConnectionsAround(groups, i);
  }

  // ---------------------------------------------------------------------------
  // Message table

  /** GetMessage(id): the position of the first message with id `id`. */
  function FindMessage(messages: seq<Message>, id: int): (r: Option<nat>)
    ensures r.Some? ==> r.value < |messages| && messages[r.value].id == id
    ensures r.None? ==> forall k :: 0 <= k < |messages| ==> messages[k].id != id
  {
    if |messages| == 0 then None
    else if messages[0].id == id then Some(0)
    else match FindMessage(messages[1..], id)
      case None => None
      case Some(k) => Some(k + 1)
  }

  /** Message ids grow strictly along the table, so none repeats. */
  predicate IdsAscending(messages: seq<Message>)
  {
    forall i, j :: 0 <= i < j < |messages| ==> messages[i].id < messages[j].id
  }

  /** Once the message at `i` is taken out, no message with its id is left. */
  lemma RemovedIdGone(messages: seq<Message>, i: nat)
    requires IdsAscending(messages) && i < |messages|
    ensures IdsAscending(messages[..i] + messages[i + 1..])
    ensures FindMessage(messages[..i] + messages[i + 1..], messages[i].id).None?
  {
  }

  /** The soft delete of DeleteMessage: the caller's own flag(s) are set, nothing
      else changes. */
  function MarkDeleted(m: Message, username: string): (r: Message)
    ensures m.senderUsername == username ==> r.senderDeleted
    ensures m.recipientUsername == username ==> r.recipientDeleted
    ensures m.senderDeleted ==> r.senderDeleted
    ensures m.recipientDeleted ==> r.recipientDeleted
    ensures r.senderDeleted != m.senderDeleted ==> m.senderUsername == username
    ensures r.recipientDeleted != m.recipientDeleted ==> m.recipientUsername == username
    ensures r.(senderDeleted := m.senderDeleted, recipientDeleted := m.recipientDeleted) == m
  {
    var m' := if m.senderUsername == username then m.(senderDeleted := true) else m;
    if m'.recipientUsername == username then m'.(recipientDeleted := true) else m'
  }

  /** Whether a message is hard-deleted: both parties have deleted it. */
  predicate Purged(m: Message)
  {
    m.senderDeleted && m.recipientDeleted
  }

  /** A repeat delete by the same party changes no flag. */
  lemma MarkDeletedIdempotent(m: Message, username: string)
    ensures MarkDeleted(MarkDeleted(m, username), username) == MarkDeleted(m, username)
  {
  }

  /** A message is purged once the sender and the recipient have each deleted it,
      in either order, and not after only one of two distinct parties has. */
  lemma BothPartiesPurge(m: Message)
    requires !m.senderDeleted && !m.recipientDeleted
    ensures Purged(MarkDeleted(MarkDeleted(m, m.senderUsername), m.recipientUsername))
    ensures Purged(MarkDeleted(MarkDeleted(m, m.recipientUsername), m.senderUsername))
    ensures m.senderUsername != m.recipientUsername ==>
      !Purged(MarkDeleted(m, m.senderUsername)) && !Purged(MarkDeleted(m, m.recipientUsername))
  {
  }

  // ---------------------------------------------------------------------------
  // The store

  /** The durable state behind IMessageRepository: the group table, the message
      table, and the next message id the database will hand out. */
  class MessageRepository {
    var groups: seq<Group>
    var messages: seq<Message>
    var nextId: nat

    ghost predicate Valid()
      reads this
    {
      && IdsAscending(messages)
      && forall k :: 0 <= k < |messages| ==> messages[k].id < nextId
    }

    constructor ()
      ensures Valid() && groups == [] && messages == [] && nextId == 0
    {
      groups, messages, nextId := [], [], 0;
    }
  }
}
