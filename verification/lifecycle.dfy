/**
 Properties of the room lifecycle that relate several handler calls:
 repeated joins and leaves, the last leave, rebinding to a second room, and
 a leave followed by a disconnect (`LeaveThenDisconnect`).
 */
module Lifecycle {
  import opened JsValues
  import opened Presence
  import opened HistoryStore
  import opened ChatServer

  /** Joining the same room twice leaves the registry and the binding as joining once. */
  lemma JoinTwice(st: State, s: SocketId, r: RoomId, u: Option<string>, t1: int, t2: int)
    ensures var once := Join(st, s, r, u, t1);
            var twice := Join(once, s, r, u, t2);
            twice.participants == once.participants && twice.sockets == once.sockets
  {
    var once := Join(st, s, r, u, t1);
    RegisterIdempotent(st.participants, r, s);
    assert once.participants == Register(st.participants, r, s);
  }

  /**
   A socket that sends `leave-room` and then drops its connection: the
   disconnect leaves the registry, the store, the room records and the
   bindings as the leave left them, and only adds a second "left." notice
   when the socket was bound to a room.
   */
  lemma LeaveThenDisconnect(st: State, s: SocketId, t1: int, t2: int)
    ensures var left := Step(st, s, LeaveRoom(t1));
            var gone := Step(left, s, Disconnect(t2));
            && gone.participants == left.participants
            && gone.messages == left.messages
            && gone.rooms == left.rooms
            && gone.sockets == left.sockets
            && (Truthy(Data(st, s).roomId) ==>
                  var name := OrElse(Data(st, s).username, User);
                  gone.outbox == left.outbox + [ToRoom(Data(st, s).roomId.value, SystemNotice(LeftNotice(name), t2))])
            && (!Truthy(Data(st, s).roomId) ==> gone == st)
  {
    DisconnectTwice(st, s, t1, t2);
  }

  /** Sending a chat message extends that room's log by the stored record and no other room's log. */
  lemma SendChatAppendsToRoom(st: State, s: SocketId, roomId: Option<RoomId>, text: Option<string>,
                              id: MessageId, createdAt: int, q: RoomId)
    requires Truthy(roomId) && Truthy(text)
    ensures var st' := SendChat(st, s, roomId, text, id, createdAt);
            var stored := Message(id, roomId.value, OrElse(Data(st, s).username, Anonymous), text.value, createdAt);
            && InRoom(st'.messages, roomId.value) == InRoom(st.messages, roomId.value) + [stored]
            && (q != roomId.value ==> InRoom(st'.messages, q) == InRoom(st.messages, q))
  {
    var stored := Message(id, roomId.value, OrElse(Data(st, s).username, Anonymous), text.value, createdAt);
    InRoomAppend(st.messages, stored, roomId.value);
    InRoomAppend(st.messages, stored, q);
  }

  /**
   Leaving deletes a room's messages exactly when its set becomes empty: the
   registry entry survives iff someone is left, the room's log is emptied when
   no one is, and is kept unchanged otherwise. Other rooms keep their logs.
   */
  lemma HistoryDestroyedIffEmptied(st: State, s: SocketId, now: int, q: RoomId)
    requires Truthy(Data(st, s).roomId)
    ensures var r := Data(st, s).roomId.value;
            var st' := HandleDisconnect(st, s, now);
            var emptied := Members(st.participants, r) <= {s};
            && (r in st'.participants <==> !emptied)
            && (st'.messages != st.messages ==> emptied)
            && (emptied ==> InRoom(st'.messages, r) == [] && r !in st'.rooms)
            && (!emptied ==> InRoom(st'.messages, r) == InRoom(st.messages, r))
            && (q != r ==> InRoom(st'.messages, q) == InRoom(st.messages, q))
  {
    var r := Data(st, s).roomId.value;
    DeleteRoomClears(st.messages, r, q);
    assert Members(st.participants, r) <= {s} <==> Members(st.participants, r) - {s} == {};
  }

  /**
   When the last member leaves, the room has no members and a full read of its
   history is empty.
   */
  lemma LastLeaveClearsRoom(st: State, s: SocketId, r: RoomId, now: int)
    requires Data(st, s).roomId == Some(r) && r != ""
    requires Members(st.participants, r) <= {s}
    ensures var st' := HandleDisconnect(st, s, now);
            MemberCount(st'.participants, r) == 0 && r !in st'.participants
            && InRoom(st'.messages, r) == [] && ReadHistory(st'.messages, r) == []
  {
    HistoryDestroyedIffEmptied(st, s, now, r);
  }

  /**
   Running `handleDisconnect` twice for one socket (an explicit leave followed
   by the transport disconnect) leaves the registry, the store, the room
   records and the bindings exactly as running it once. Only a second
   "<name> left." notice is emitted; when the first run had emptied the room,
   the second one recreates the entry, finds it empty and deletes again.
   */
  lemma DisconnectTwice(st: State, s: SocketId, t1: int, t2: int)
    ensures var once := HandleDisconnect(st, s, t1);
            var twice := HandleDisconnect(once, s, t2);
            && twice.participants == once.participants
            && twice.messages == once.messages
            && twice.rooms == once.rooms
            && twice.sockets == once.sockets
            && (Truthy(Data(st, s).roomId) ==>
                  var name := OrElse(Data(st, s).username, User);
                  twice.outbox == once.outbox + [ToRoom(Data(st, s).roomId.value, SystemNotice(LeftNotice(name), t2))])
  {
    var once := HandleDisconnect(st, s, t1);
    var twice := HandleDisconnect(once, s, t2);
    if Truthy(Data(st, s).roomId) {
      var r := Data(st, s).roomId.value;
      var name := OrElse(Data(st, s).username, User);
      assert Data(once, s) == Data(st, s);
      var left := Members(st.participants, r) - {s};
      assert Members(once.participants, r) - {s} == left;
      assert twice.outbox == once.outbox + [ToRoom(r, SystemNotice(LeftNotice(name), t2))];
      if left == {} {
        DeleteRoomIdempotent(st.messages, r);
        assert twice.messages == once.messages;
        assert twice.participants == once.participants - {r} == once.participants;
      } else {
        assert twice.participants == once.participants[r := left] == once.participants;
      }
    }
  }

  /** Leaving twice reduces the membership of any room by at most one. */
  lemma DisconnectTwiceRemovesOnce(st: State, s: SocketId, t1: int, t2: int, q: RoomId)
    ensures var twice := HandleDisconnect(HandleDisconnect(st, s, t1), s, t2);
            && Members(twice.participants, q) >= Members(st.participants, q) - {s}
            && MemberCount(twice.participants, q) + 1 >= MemberCount(st.participants, q)
  {
    DisconnectTwice(st, s, t1, t2);
    var twice := HandleDisconnect(HandleDisconnect(st, s, t1), s, t2);
    var before := Members(st.participants, q);
    assert before - {s} <= Members(twice.participants, q);
    assert |before - {s}| >= |before| - 1;
    SubsetCard(before - {s}, Members(twice.participants, q));
  }

  lemma SubsetCard<T>(a: set<T>, b: set<T>)
    requires a <= b
    ensures |a| <= |b|
  {
    assert b == a + (b - a);
  }

  /**
   A second `join-room` to another room does not leave the first: after
   joining `r1`, then `r2`, then leaving, the socket is still counted in
   `r1`, so `r1` is never seen empty and its history is never deleted by
   this socket's leave.
   */
  lemma RejoinLeavesPhantom(st: State, s: SocketId, r1: RoomId, r2: RoomId,
                            u1: Option<string>, u2: Option<string>, t1: int, t2: int, t3: int)
    requires r1 != r2 && r2 != ""
    ensures var st' := HandleDisconnect(Join(Join(st, s, r1, u1, t1), s, r2, u2, t2), s, t3);
            && s in Members(st'.participants, r1)
            && s !in Members(st'.participants, r2)
            && InRoom(st'.messages, r1) == InRoom(st.messages, r1)
  {
    var j1 := Join(st, s, r1, u1, t1);
    var j2 := Join(j1, s, r2, u2, t2);
    assert Data(j2, s).roomId == Some(r2);
    HistoryDestroyedIffEmptied(j2, s, t3, r1);
  }

  /**
   A socket that joined with an empty room id is registered under `""`, but
   the leave procedure treats `""` as no room, so the socket stays registered.
   */
  lemma EmptyRoomIdNeverLeft(st: State, s: SocketId, u: Option<string>, t1: int, t2: int)
    ensures var joined := Join(st, s, "", u, t1);
            && s in Members(joined.participants, "")
            && HandleDisconnect(joined, s, t2) == joined
  {
  }

  /**
   In every reachable state the bound name is never empty, so the 'User'
   fallback of the leave notice is never taken: the notice always names the
   socket by the name it joined with.
   */
  lemma LeaveNoticeUsesJoinName(st: State, s: SocketId, now: int)
    requires Invariant(st) && Truthy(Data(st, s).roomId)
    ensures var st' := HandleDisconnect(st, s, now);
            st'.outbox[|st'.outbox| - 1] ==
              ToRoom(Data(st, s).roomId.value, SystemNotice(LeftNotice(Data(st, s).username.value), now))
  {
  }

  // The states of the Alice and Bob scenario below, one per event.
  const Hi := Message("m1", "r1", "Alice", "hi", 2)
  const AliceData := SocketData(Some("r1"), Some("Alice"))
  const BobData := SocketData(Some("r1"), Some("Bob"))
  const Out1 := [ToSocket("A", ChatHistory([])), ToRoom("r1", SystemNotice("Alice joined.", 1))]
  const Out2 := [ToSocket("A", ChatHistory([])), ToRoom("r1", SystemNotice("Alice joined.", 1)),
                 ToRoom("r1", ChatMessage(Hi))]
  const Out3 := [ToSocket("A", ChatHistory([])), ToRoom("r1", SystemNotice("Alice joined.", 1)),
                 ToRoom("r1", ChatMessage(Hi)),
                 ToSocket("B", ChatHistory([Hi])), ToRoom("r1", SystemNotice("Bob joined.", 3))]
  const Out4 := [ToSocket("A", ChatHistory([])), ToRoom("r1", SystemNotice("Alice joined.", 1)),
                 ToRoom("r1", ChatMessage(Hi)),
                 ToSocket("B", ChatHistory([Hi])), ToRoom("r1", SystemNotice("Bob joined.", 3)),
                 ToRoom("r1", SystemNotice("Alice left.", 4))]
  const Out5 := [ToSocket("A", ChatHistory([])), ToRoom("r1", SystemNotice("Alice joined.", 1)),
                 ToRoom("r1", ChatMessage(Hi)),
                 ToSocket("B", ChatHistory([Hi])), ToRoom("r1", SystemNotice("Bob joined.", 3)),
                 ToRoom("r1", SystemNotice("Alice left.", 4)), ToRoom("r1", SystemNotice("Bob left.", 5))]
  const St1 := State(map["r1" := {"A"}], [], {"r1"}, map["A" := AliceData], Out1)
  const St2 := State(map["r1" := {"A"}], [Hi], {"r1"}, map["A" := AliceData], Out2)
  const St3 := State(map["r1" := {"A", "B"}], [Hi], {"r1"}, map["A" := AliceData, "B" := BobData], Out3)
  const St4 := State(map["r1" := {"B"}], [Hi], {"r1"}, map["A" := AliceData, "B" := BobData], Out4)
  const St5 := State(map[], [], {}, map["A" := AliceData, "B" := BobData], Out5)

  lemma AliceJoins()
    ensures Join(Initial({"r1"}, []), "A", "r1", Some("Alice"), 1) == St1
  {
    var st := Join(Initial({"r1"}, []), "A", "r1", Some("Alice"), 1);
    assert ReadHistory([], "r1") == [];
    assert JoinedNotice("Alice") == "Alice joined.";
    assert Members(map[], "r1") + {"A"} == {"A"};
    assert st.participants == St1.participants;
    assert st.sockets == St1.sockets;
    assert st.outbox == St1.outbox;
  }

  lemma AliceSaysHi()
    ensures SendChat(St1, "A", Some("r1"), Some("hi"), "m1", 2) == St2
  {
  }

  /** A room whose only stored message is `m` has history `[m]`. */
  lemma HistoryOfOne(m: Message)
    ensures ReadHistory([m], m.room) == [m]
  {
    assert [m][..0] == [];
    assert InRoom([m], m.room) == [m];
    assert SortByCreatedAt([m]) == [m];
  }

  lemma BobJoins()
    ensures Join(St2, "B", "r1", Some("Bob"), 3) == St3
  {
    var st := Join(St2, "B", "r1", Some("Bob"), 3);
    HistoryOfOne(Hi);
    assert JoinedNotice("Bob") == "Bob joined.";
    assert Members(St2.participants, "r1") + {"B"} == {"A", "B"};
    assert st.participants == St3.participants;
    assert st.sockets == St3.sockets;
    assert st.outbox == St3.outbox;
  }

  lemma AliceLeaves()
    ensures HandleDisconnect(St3, "A", 4) == St4
  {
    var st := HandleDisconnect(St3, "A", 4);
    assert Data(St3, "A") == AliceData;
    assert LeftNotice("Alice") == "Alice left.";
    assert {"A", "B"} - {"A"} == {"B"};
    assert st.participants == St4.participants;
    assert st.outbox == St4.outbox;
  }

  lemma BobLeaves()
    ensures HandleDisconnect(St4, "B", 5) == St5
  {
    var st := HandleDisconnect(St4, "B", 5);
    assert Data(St4, "B") == BobData;
    assert LeftNotice("Bob") == "Bob left.";
    assert {"B"} - {"B"} == {};
    assert DeleteRoom([Hi], "r1") == [] by {
      assert [Hi][..0] == [];
    }
    assert st.participants == St5.participants;
    assert st.outbox == St5.outbox;
  }

  /**
   Alice and Bob in room "r1": Alice joins an empty room and says "hi"; Bob
   joins and receives that message as history; Alice leaves and the history
   stays; Bob leaves and the room's messages, record and entry are gone.
   */
  lemma AliceAndBob()
    ensures HandleDisconnect(HandleDisconnect(Join(SendChat(
              Join(Initial({"r1"}, []), "A", "r1", Some("Alice"), 1),
              "A", Some("r1"), Some("hi"), "m1", 2), "B", "r1", Some("Bob"), 3), "A", 4), "B", 5) == St5
    ensures St5.messages == [] && St5.participants == map[] && St5.rooms == {}
  {
    var st0 := Initial({"r1"}, []);
    calc {
      HandleDisconnect(HandleDisconnect(Join(SendChat(Join(st0, "A", "r1", Some("Alice"), 1),
        "A", Some("r1"), Some("hi"), "m1", 2), "B", "r1", Some("Bob"), 3), "A", 4), "B", 5);
      == { AliceJoins(); }
      HandleDisconnect(HandleDisconnect(Join(SendChat(St1,
        "A", Some("r1"), Some("hi"), "m1", 2), "B", "r1", Some("Bob"), 3), "A", 4), "B", 5);
      == { AliceSaysHi(); }
      HandleDisconnect(HandleDisconnect(Join(St2, "B", "r1", Some("Bob"), 3), "A", 4), "B", 5);
      == { BobJoins(); }
      HandleDisconnect(HandleDisconnect(St3, "A", 4), "B", 5);
      == { AliceLeaves(); }
      HandleDisconnect(St4, "B", 5);
      == { BobLeaves(); }
      St5;
    }
  }
}
