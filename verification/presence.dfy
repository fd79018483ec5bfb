/**
 The presence registry of the chat server: a process-wide map from a room id
 to the set of socket ids currently counted as present in that room
 (src/App.jsx:274-280). JavaScript mutates the `Set` object stored in the map;
 here every mutation returns the new map.
 */
module Presence {

  type RoomId = string
  type SocketId = string

  /** `participants`: room id -> set of socket ids. */
  type Registry = map<RoomId, set<SocketId>>

  /** The members of a room, reading a missing entry as the empty set. */
  function Members(reg: Registry, r: RoomId): set<SocketId>
  {
    if r in reg then reg[r] else {}
  }

  /** Number of members of a room; 0 for a room without an entry. */
  function MemberCount(reg: Registry, r: RoomId): nat
  {
    |Members(reg, r)|
  }

  /**
   `getRoomSet(roomId)`: installs an empty set for a room that has no entry,
   then returns the entry. The pair is the registry after the call and the
   set returned.
   */
  function GetRoomSet(reg: Registry, r: RoomId): (res: (Registry, set<SocketId>))
    ensures r in res.0 && res.0[r] == res.1
    ensures r in reg ==> res.0 == reg && res.1 == reg[r]
    ensures r !in reg ==> res.1 == {}
    ensures res.0.Keys == reg.Keys + {r}
    ensures forall q :: q in reg ==> res.0[q] == reg[q]
  {
    if r in reg then (reg, reg[r]) else (reg[r := {}], {})
  }

  /**
   The registry part of joining: `getRoomSet(roomId).add(socket.id)`.
   The socket is present afterwards, and no other room's entry changes.
   */
  function Register(reg: Registry, r: RoomId, s: SocketId): (reg': Registry)
    ensures reg'.Keys == reg.Keys + {r}
    ensures Members(reg', r) == Members(reg, r) + {s}
    ensures s in reg'[r]
    ensures forall q :: q != r ==> Members(reg', q) == Members(reg, q)
    ensures forall q :: q in reg && q != r ==> reg'[q] == reg[q]
  {
    var (reg1, members) := GetRoomSet(reg, r);
    reg1[r := members + {s}]
  }

  /**
   The registry part of leaving, before the emptiness test:
   `getRoomSet(roomId).delete(socket.id)`. An entry exists afterwards even
   when the room had none, and it holds the old members without the socket.
   */
  function Unregister(reg: Registry, r: RoomId, s: SocketId): (reg': Registry)
    ensures reg'.Keys == reg.Keys + {r}
    ensures reg'[r] == Members(reg, r) - {s}
    ensures s !in reg'[r]
    ensures forall q :: q != r ==> Members(reg', q) == Members(reg, q)
  {
    var (reg1, members) := GetRoomSet(reg, r);
    reg1[r := members - {s}]
  }

  /** No room is kept with an empty member set. */
  ghost predicate NoEmptyEntries(reg: Registry)
  {
    forall q :: q in reg ==> reg[q] != {}
  }

  /** Registering twice leaves the registry as registering once (a set absorbs a repeated add). */
  lemma RegisterIdempotent(reg: Registry, r: RoomId, s: SocketId)
    ensures Register(Register(reg, r, s), r, s) == Register(reg, r, s)
  {
    var once := Register(reg, r, s);
    var twice := Register(once, r, s);
    assert twice.Keys == once.Keys;
    forall q | q in once
      ensures twice[q] == once[q]
    {
      assert Members(twice, q) == Members(once, q) by {
        if q == r {
          assert Members(once, r) + {s} == Members(once, r);
        }
      }
    }
  }

  /** Unregistering twice leaves the registry as unregistering once. */
  lemma UnregisterIdempotent(reg: Registry, r: RoomId, s: SocketId)
    ensures Unregister(Unregister(reg, r, s), r, s) == Unregister(reg, r, s)
  {
    var once := Unregister(reg, r, s);
    var twice := Unregister(once, r, s);
    assert twice.Keys == once.Keys;
    forall q | q in once
      ensures twice[q] == once[q]
    {
      assert Members(twice, q) == Members(once, q);
    }
  }
}
