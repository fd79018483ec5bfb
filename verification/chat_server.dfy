/**
 The Socket.IO side of the chat server (src/App.jsx:274-346): per-socket
 bindings, the `join-room`, `chat-message`, `leave-room` and `disconnect`
 handlers, and `handleDisconnect`. Each handler is one atomic transition of
 the server state. Broadcasts are appended to an outbox instead of being
 delivered; `Date.now()` and the store-assigned id and `createdAt` are inputs.
 */
module ChatServer {
  import opened JsValues
  import opened Presence
  import opened HistoryStore

  /** `socket.data`: the room and name the socket last joined with; `None` is `undefined`. */
  datatype SocketData = SocketData(roomId: Option<RoomId>, username: Option<string>)

  /** What the server emits. */
  datatype Payload =
    | ChatHistory(history: seq<Message>)     // 'chat-history'
    | SystemNotice(text: string, ts: int)    // 'system'
    | ChatMessage(msg: Message)              // 'chat-message'

  /** `socket.emit` reaches one socket; `io.to(room).emit` reaches a room. */
  datatype Emission = ToSocket(socket: SocketId, payload: Payload) | ToRoom(room: RoomId, payload: Payload)

  datatype State = State(
    participants: Registry,              // the in-memory presence registry
    messages: Collection,                // the `Message` collection
    rooms: set<RoomId>,                  // ids of the `Room` records
    sockets: map<SocketId, SocketData>,  // `socket.data` of every socket
    outbox: seq<Emission>)               // everything emitted so far, in order

  const Anonymous := "Anonymous"
  const User := "User"

  /** `socket.data` of a socket; a socket that never joined has both fields undefined. */
  function Data(st: State, s: SocketId): SocketData
  {
    if s in st.sockets then st.sockets[s] else SocketData(None, None)
  }

  function JoinedNotice(name: string): string { name + " joined." }
  function LeftNotice(name: string): string { name + " left." }

  /**
   `join-room`: binds the socket to `roomId` and to `username || 'Anonymous'`,
   adds it to the room's set, sends it the room's history and announces
   "<name> joined." to the room. A room the socket was bound to before keeps
   its membership: the socket is not removed from it.
   */
  function Join(st: State, s: SocketId, roomId: RoomId, username: Option<string>, now: int): (st': State)
    ensures st'.participants == st.participants[roomId := Members(st.participants, roomId) + {s}]
    ensures s in st'.participants[roomId]
    ensures forall q :: q != roomId ==> Members(st'.participants, q) == Members(st.participants, q)
    ensures st'.sockets == st.sockets[s := SocketData(Some(roomId), Some(OrElse(username, Anonymous)))]
    ensures Truthy(username) ==> Data(st', s).username == username
    ensures !Truthy(username) ==> Data(st', s).username == Some(Anonymous)
    ensures st'.messages == st.messages && st'.rooms == st.rooms
    ensures |st'.outbox| == |st.outbox| + 2 && st'.outbox[..|st.outbox|] == st.outbox
    ensures st'.outbox[|st.outbox|] == ToSocket(s, ChatHistory(ReadHistory(st.messages, roomId)))
    ensures st'.outbox[|st.outbox| + 1] ==
              ToRoom(roomId, SystemNotice(JoinedNotice(OrElse(username, Anonymous)), now))
  {
    var name := OrElse(username, Anonymous);
    var data := SocketData(Some(roomId), Some(name));
    var recent := ReadHistory(st.messages, roomId);
    var reg := Register(st.participants, roomId, s);
    assert reg == st.participants[roomId := Members(st.participants, roomId) + {s}];
    st.(participants := reg,
        sockets := st.sockets[s := data],
        outbox := st.outbox + [ToSocket(s, ChatHistory(recent)),
                               ToRoom(roomId, SystemNotice(JoinedNotice(name), now))])
  }

  /**
   `chat-message`: silently ignored when the room id or the text is missing or
   empty. Otherwise one record with the socket's name (or 'Anonymous') is
   stored and that stored record is broadcast to the room.
   */
  function SendChat(st: State, s: SocketId, roomId: Option<RoomId>, text: Option<string>,
                    id: MessageId, createdAt: int): (st': State)
    ensures !Truthy(roomId) || !Truthy(text) ==> st' == st
    ensures Truthy(roomId) && Truthy(text) ==>
              var stored := Message(id, roomId.value, OrElse(Data(st, s).username, Anonymous), text.value, createdAt);
              && st'.messages == st.messages + [stored]
              && st'.outbox == st.outbox + [ToRoom(roomId.value, ChatMessage(st'.messages[|st'.messages| - 1]))]
              && st'.participants == st.participants
              && st'.rooms == st.rooms
              && st'.sockets == st.sockets
  {
    if !Truthy(roomId) || !Truthy(text) then st
    else
      var msg := Message(id, roomId.value, OrElse(Data(st, s).username, Anonymous), text.value, createdAt);
      var stored := st.messages + [msg];
      st.(messages := stored,
          outbox := st.outbox + [ToRoom(roomId.value, ChatMessage(stored[|stored| - 1]))])
  }

  /**
   `handleDisconnect`, run for both `leave-room` and `disconnect`. A socket
   with no truthy bound room is ignored. Otherwise the socket is removed from
   its room's set (an entry is recreated first if the room has none), "<name>
   left." is announced with the bound name or 'User', and when the set is now
   empty the room's messages, its `Room` record and its registry entry are
   deleted. The binding itself is kept.
   */
  function HandleDisconnect(st: State, s: SocketId, now: int): (st': State)
    ensures !Truthy(Data(st, s).roomId) ==> st' == st
    ensures Truthy(Data(st, s).roomId) ==>
              var r := Data(st, s).roomId.value;
              var left := Members(st.participants, r) - {s};
              && Members(st'.participants, r) == left
              && (forall q :: q != r ==> Members(st'.participants, q) == Members(st.participants, q))
              && (left == {} ==> r !in st'.participants && st'.participants == st.participants - {r}
                                 && st'.messages == DeleteRoom(st.messages, r) && st'.rooms == st.rooms - {r})
              && (left != {} ==> st'.participants == st.participants[r := left]
                                 && st'.messages == st.messages && st'.rooms == st.rooms)
              && st'.outbox == st.outbox + [ToRoom(r, SystemNotice(LeftNotice(OrElse(Data(st, s).username, User)), now))]
    ensures st'.sockets == st.sockets
  {
    var data := Data(st, s);
    if !Truthy(data.roomId) then st
    else
      var r := data.roomId.value;
      var username := OrElse(data.username, User);
      var reg := Unregister(st.participants, r, s);
      var notified := st.(participants := reg,
                          outbox := st.outbox + [ToRoom(r, SystemNotice(LeftNotice(username), now))]);
      if |reg[r]| == 0 then
        notified.(messages := DeleteRoom(st.messages, r),
                  rooms := st.rooms - {r},
                  participants := reg - {r})
      else notified
  }

  /** The events a socket can send. */
  datatype Event =
    | JoinRoom(roomId: RoomId, username: Option<string>, now: int)
    | SendMessage(target: Option<RoomId>, text: Option<string>, id: MessageId, createdAt: int)
    | LeaveRoom(now: int)
    | Disconnect(now: int)

  /** Dispatches one event of socket `s` to its handler. */
  function Step(st: State, s: SocketId, e: Event): (st': State)
    ensures |st.outbox| <= |st'.outbox| && st'.outbox[..|st.outbox|] == st.outbox
    ensures Invariant(st) ==> Invariant(st')
  {
    match e
    case JoinRoom(r, u, now) =>
      JoinPreservesInvariant(st, s, r, u, now);
      Join(st, s, r, u, now)
    case SendMessage(r, t, id, at) => SendChat(st, s, r, t, id, at)
    case LeaveRoom(now) =>
      DisconnectPreservesInvariant(st, s, now);
      HandleDisconnect(st, s, now)
    case Disconnect(now) =>
      DisconnectPreservesInvariant(st, s, now);
      HandleDisconnect(st, s, now)
  }

  /**
   What every reachable state satisfies: no registry entry is an empty set,
   every registered socket has joined at some point, and every joined socket
   has a non-empty name.
   */
  ghost predicate Invariant(st: State)
  {
    && NoEmptyEntries(st.participants)
    && (forall q, s :: q in st.participants && s in st.participants[q] ==> s in st.sockets)
    && (forall s :: s in st.sockets ==> Truthy(st.sockets[s].username) && st.sockets[s].roomId.Some?)
  }

  /** The server's state before any connection. */
  function Initial(rooms: set<RoomId>, messages: Collection): (st: State)
    ensures Invariant(st)
    ensures st.participants == map[] && st.sockets == map[] && st.outbox == []
  {
    State(map[], messages, rooms, map[], [])
  }

  lemma JoinPreservesInvariant(st: State, s: SocketId, r: RoomId, u: Option<string>, now: int)
    ensures Invariant(st) ==> Invariant(Join(st, s, r, u, now))
  {
  }

  lemma DisconnectPreservesInvariant(st: State, s: SocketId, now: int)
    ensures Invariant(st) ==> Invariant(HandleDisconnect(st, s, now))
  {
  }

  /** A socket's events in arrival order. */
  datatype Input = Input(socket: SocketId, event: Event)

  /**
   Handles a sequence of events one after another, from a state satisfying
   the invariant; everything emitted before stays, in order, at the front of
   the outbox.
   */
  method Run(st0: State, inputs: seq<Input>) returns (st: State)
    requires Invariant(st0)
    ensures Invariant(st)
    ensures |st0.outbox| <= |st.outbox| && st.outbox[..|st0.outbox|] == st0.outbox
  {
    st := st0;
    var i := 0;
    while i < |inputs|
      invariant 0 <= i <= |inputs|
      invariant Invariant(st)
      invariant |st0.outbox| <= |st.outbox| && st.outbox[..|st0.outbox|] == st0.outbox
    {
      var next := Step(st, inputs[i].socket, inputs[i].event);
      assert next.outbox[..|st0.outbox|] == next.outbox[..|st.outbox|][..|st0.outbox|];
      st := next;
      i := i + 1;
    }
  }
}
