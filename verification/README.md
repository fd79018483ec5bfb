# Ephemeral chat: room presence and lifecycle

A Dafny model of the Socket.IO server core of the ephemeral chat
(`src/App.jsx`, lines 274-346). Clients join a room, exchange messages that are
stored and broadcast to the room, and receive join and leave notices. When the
last participant of a room leaves, the server deletes the room's messages, its
`Room` record and its presence entry.

The model is functional. The server state (`ChatServer.State`) holds:

- the presence registry `participants`, a map from room id to a set of socket ids;
- the `Message` collection, a sequence of records in insertion order;
- the set of `Room` record ids;
- each socket's `socket.data` (its bound room and name; absent means `undefined`);
- an outbox of everything emitted, in emission order.

Each socket event is one pure transition:

- `join-room` is `Join`.
- `chat-message` is `SendChat`.
- `leave-room` and `disconnect` are both `HandleDisconnect`.

`Step` dispatches one event to its handler. `Run` handles a sequence of events.

Modules:

- `JsValues`: optional fields and JavaScript truthiness. `Truthy` is the test of `!roomId || !text` (src/App.jsx:308) and `if (roomId)` (src/App.jsx:332); `OrElse` is `x || fallback`.
- `Presence`: the registry, with `getRoomSet` and the add and delete done through it.
- `HistoryStore`: the message collection and its three queries. `find({room}).sort({createdAt: 1}).limit(100)` is `ReadHistory`, `create` is an append, and `deleteMany({room})` is `DeleteRoom`.
- `ChatServer`: socket bindings, the handlers, the reachable-state invariant and the event loop. `JoinedNotice` and `LeftNotice` are the notice templates `` `${socket.data.username} joined.` `` (src/App.jsx:301) and `` `${username} left.` `` (src/App.jsx:336).
- `Lifecycle`: properties relating several handler calls, and the two-user scenario.

## Behaviour as written

The model follows the code as written. The cases below are consequences a
reader of the handlers may not expect:

- **Oldest messages, not newest.** The history read on join sorts ascending and takes 100. A joiner therefore gets the *oldest* 100 messages of the room, although the code's own comment (src/App.jsx:292) says it sends "recent messages". `HistoryIsOldestPrefix` and `HistoryOmitsNewest` state this. When the room's creation times are distinct, the result does not depend on how the store breaks ties.
- **Leave runs twice.** An explicit leave followed by the transport disconnect runs `handleDisconnect` twice, because the socket's binding is never cleared. When no other event comes between the two runs, the second changes no state and only emits a second "left." notice; `DisconnectTwice` and `LeaveThenDisconnect` show this. If the first run emptied the room, the second run recreates the entry, finds it empty, and deletes again. Other sockets' events can come between the leave and the disconnect, though. A message posted in the meantime to the emptied room (accepted, since send has no membership check) is deleted by the second run.
- **Rebinding keeps the old membership.** A second `join-room` rebinds the socket without leaving the first room. The socket stays counted in the first room, so that room is never found empty by this socket's leave. `RejoinLeavesPhantom` shows this.
- **An empty room id is never left.** A `join-room` with an empty room id registers the socket under `""`. The leave procedure treats an empty bound room as no room, so it never removes that socket again. `EmptyRoomIdNeverLeft` shows this.
- **No membership check on send.** `chat-message` does not check that the sender is in the room. A message can be stored for a room that has no registry entry.

## Model

| member | source | states |
|---|---|---|
| JsValues.OrElse | src/App.jsx:287 | `v || fallback` (also at lines 311 and 330): the field when it is truthy, otherwise the fallback; never empty when the fallback is not |
| Presence.GetRoomSet | src/App.jsx:277-280 | returns the existing set of a room, or installs and returns an empty one; afterwards the room has an entry and no other entry changed |
| Presence.Register | src/App.jsx:289-290 | after adding, the socket is in the room's set, the set is the old members plus the socket, and every other room's members are unchanged |
| Presence.Unregister | src/App.jsx:333-334 | after deleting, the room has an entry holding the old members minus the socket, and every other room's members are unchanged |
| Presence.RegisterIdempotent | src/App.jsx:289-290 | adding the same socket to the same room twice gives the same registry as adding it once |
| Presence.UnregisterIdempotent | src/App.jsx:333-334 | deleting the same socket from the same room twice gives the same registry as deleting it once |
| HistoryStore.InRoom | src/App.jsx:293 | a message is in the room filter's result iff it is stored and belongs to that room; the result is no longer than the collection |
| HistoryStore.InRoomCounts | src/App.jsx:293 | the room filter holds each of the room's messages exactly as many times as it is stored and no other message, so its length is the room's message count |
| HistoryStore.DeleteRoom | src/App.jsx:340 | a message survives `deleteMany` iff it was stored and belongs to another room |
| HistoryStore.SortByCreatedAt | src/App.jsx:294 | the ordered read is sorted ascending by `createdAt` and is a permutation of its input |
| HistoryStore.SortKeepsSorted | src/App.jsx:294 | sorting a log already in `createdAt` order (ties allowed) returns it unchanged |
| HistoryStore.ReadHistory | src/App.jsx:293-296 | the join history has only the room's messages, all stored, sorted ascending, min(100, n) of them, and none it leaves out is older than one it holds |
| HistoryStore.HistoryIsOldestPrefix | src/App.jsx:292-297 | when the room's messages were stored in creation order, the history is exactly the first min(100, n) of them |
| HistoryStore.HistoryOmitsNewest | src/App.jsx:292-297 | with more than 100 messages in creation order and distinct ids, the room's newest message is not in the history |
| HistoryStore.InRoomConcat | src/App.jsx:293 | the room's log of a collection made of two parts is the room's log of the first part followed by that of the second |
| HistoryStore.DeleteRoomClears | src/App.jsx:340 | after `deleteMany` the room has no messages and every other room keeps its log |
| HistoryStore.DeleteRoomIdempotent | src/App.jsx:340 | deleting a room's messages twice is the same as once |
| ChatServer.Join | src/App.jsx:284-304 | the socket is added to the room's set and no other room's members change, including a room it was bound to before; the binding is the room and the name or 'Anonymous'; the socket gets the room's history, then the room gets "<name> joined." |
| ChatServer.SendChat | src/App.jsx:307-315 | a missing or empty room id or text leaves the state and outbox unchanged; otherwise one record with the bound name or 'Anonymous' is appended and that stored record is broadcast; the registry, rooms and bindings are untouched |
| ChatServer.HandleDisconnect | src/App.jsx:328-346 | no bound room means no change; otherwise the socket leaves its room's set and "<name> left." goes out with the bound name or 'User'; if the set is now empty, the room's messages, its record and its entry are deleted, else they are kept; bindings are kept |
| ChatServer.Step | src/App.jsx:282-326 | each event extends the outbox without reordering earlier emissions and preserves the reachable-state invariant |
| ChatServer.Initial | src/App.jsx:275 | the initial server state, with an empty registry and no bindings, satisfies the invariant |
| ChatServer.JoinPreservesInvariant | src/App.jsx:284-304 | a join keeps every registry entry non-empty, every registered socket bound, and every bound name non-empty |
| ChatServer.DisconnectPreservesInvariant | src/App.jsx:328-346 | a leave keeps the same invariant; in particular an emptied entry is removed rather than left empty |
| ChatServer.Run | src/App.jsx:282-326 | handling any event sequence from a state that satisfies the invariant ends in one that does, and keeps every earlier emission at the front of the outbox |
| Lifecycle.JoinTwice | src/App.jsx:284-290 | joining the same room twice leaves the registry and binding as joining once |
| Lifecycle.LeaveThenDisconnect | src/App.jsx:317-325 | a `leave-room` followed by a `disconnect` of the same socket: the disconnect leaves registry, store, room records and bindings as the leave left them and adds only a second "left." notice; for an unbound socket both events change nothing |
| Lifecycle.SendChatAppendsToRoom | src/App.jsx:307-315 | an accepted message extends the target room's log by the stored record and no other room's log |
| Lifecycle.HistoryDestroyedIffEmptied | src/App.jsx:333-344 | after a leave, the room keeps its entry iff someone is left; the store changes only if the room emptied; an emptied room has no messages and no record; otherwise its log is unchanged; other rooms' logs are unchanged |
| Lifecycle.LastLeaveClearsRoom | src/App.jsx:338-344 | after the last member leaves, the member count is 0 and the room's full history read is empty |
| Lifecycle.DisconnectTwice | src/App.jsx:328-346 | running the leave procedure twice for one socket gives the same registry, store, records and bindings as once, plus a second "left." notice |
| Lifecycle.DisconnectTwiceRemovesOnce | src/App.jsx:333-334 | running the leave procedure twice removes at most that one socket from any room, so membership drops by at most one |
| Lifecycle.RejoinLeavesPhantom | src/App.jsx:284-290 | after joining one room, then another, then leaving, the socket is still a member of the first room and that room's messages are untouched |
| Lifecycle.EmptyRoomIdNeverLeft | src/App.jsx:284-332 | a socket that joined with an empty room id is registered under it, and the leave procedure then changes nothing, so it stays registered |
| Lifecycle.LeaveNoticeUsesJoinName | src/App.jsx:328-336 | in any state satisfying the invariant, the leave notice names the socket by the name it joined with; the 'User' fallback is never taken |
| Lifecycle.AliceAndBob | src/App.jsx:284-346 | the two-user scenario. Alice joins and says "hi". Bob joins and gets that message as history. Alice leaves and the history stays. Bob leaves and the room's messages, record and entry are gone. Each step reaches the state spelled out in full |

## Left out

- Express, CORS, the REST router and the HTTP server (src/App.jsx:211-272): configuration and plumbing; the `Room` records they create appear only as an input set of ids.
- `server.listen`, `connectDB` and process exit (src/App.jsx:348-359): I/O.
- The commented-out React client (src/App.jsx:1-209): not executed.
- Socket.IO delivery. `socket.join`, `socket.leave` and the room a broadcast actually reaches are not modelled. A broadcast is an outbox entry naming the room. The leaving socket not getting its own "left." notice is therefore not modelled.
- `Date.now()`, the store-assigned id and the store-assigned `createdAt`: these are inputs of the transitions.
- Interleaving at the `await` points, including a join that races the last leave. Each handler is one atomic transition. So the relative order of `deleteMany`, `Room.deleteOne` and the registry removal has no observable effect here.
- Store failures. A rejected `find`, `create` or `deleteMany` ends the handler with an unhandled rejection in the source. The model assumes every store call succeeds.
- `join-room` with a missing room id. The source would key the registry under `undefined`. The model's join takes a string room id, which may be empty.
- Non-string payload values and their JavaScript truthiness: fields are optional strings.
- A `join-room` or `chat-message` sent with no payload object, or with `null`. Both handlers unpack the payload in their parameter list (src/App.jsx:284, 307), so this throws a TypeError before the body runs and ends in an unhandled rejection. The model's events always carry a payload. The no-op guard of `SendChat` (a missing or empty room id or text changes nothing) covers missing or empty fields only.
- HistoryStore.SortByCreatedAt: assumes MongoDB breaks `createdAt` ties by insertion order, which MongoDB does not guarantee.
- HistoryStore.HistoryIsOldestPrefix: when messages share a `createdAt`, the exact prefix it states relies on that insertion-order tie-break; MongoDB may return another sorted selection.
- HistoryStore.HistoryOmitsNewest: when the newest message shares its `createdAt` with older ones, its omission relies on the same tie-break.
- `console.log`.
