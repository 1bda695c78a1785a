# gowebsockets: the room and client registry and message routing

gowebsockets is a broker for WebSocket connections. Each connection becomes a
`Client` with a generated id. Every client is in its personal room, named by its
id, and can join and leave other rooms by name. A client can send a message to
one client, itself included (`Emit`). It can also broadcast a message to the members of
every room or of one room (`Broadcast`, `In(room).Broadcast`). User code
registers listeners for:

- named messages;
- connect and disconnect;
- errors.

This project models the broker (`websocket.go`), the client handle (`client.go`)
and the room (`room.go`) with the transport, the goroutines and the JSON encoding
stripped away.

- `room.dfy` (module `Rooms`): the room as a value, its id and its member set,
  with `NewRoom`, `IsClient` and `GetClients`.
- `enumeration.dfy`: the loop that appends every key of a Go map to a slice, in
  the unspecified order of `range`. It returns every key exactly once.
- `message.dfy`: the message envelope. It has a name, an opaque content and the
  routing fields `from`, `to` and `rooms`.
- `routing.dfy`: the broadcast loop, which walks the target rooms in order and
  their members, seeded with the sender as already sent. It sends to every
  member of a target room except the sender, each exactly once.
- `registry.dfy`: the broker's two registries as a value (`State`). It holds:
  - the effect of `joinRoom`, `leaveRoom`, `addClient` and `deleteClient` on
    that value;
  - the invariant `Valid` those keep, made of three parts:
    - a client lists a room exactly when the room lists the client;
    - no room is empty;
    - every client is in its personal room;
  - the lemmas relating the operations.
- `broker.dfy`: the `WebSocket` and `Client` classes themselves.
  - Their maps are fields that the methods update in place.
  - A client's room set is a `RoomSet` object, because an `In` copy shares it
    with the original.
  - `Abs()` reads the heap as a `Registry.State`. The methods are proved
    against the registry functions:
    - `WebSocket.AddClient` and `WebSocket.Register` against `Registry.Connect`;
    - `WebSocket.DeleteClient` against `Registry.Disconnect`;
    - `Client.Join` and `Client.Leave` against `Registry.Join` and
      `Registry.Leave`.
  - `WebSocket.JoinRoom` and `WebSocket.LeaveRoom` state their own updates of
    the rooms map and of the client's room set.
  - Channel sends are direct calls to the handler of the matching `Listen` case.
  - What leaves the registries is appended to `log`: a send on a connection, or
    a call of a user listener.

Behaviour of the code that a reader might not expect:

- **A missing room panics.** `leaveRoom` and the broadcast case dereference the
  room without checking that it exists (websocket.go:100-101, websocket.go:134).
  The panic happens on the goroutine that does the dereference:
  - In the broadcast case that is the broker's own goroutine, started at
    websocket.go:54. Nothing recovers the panic there, so the process stops.
  - `Client.Leave` calls `leaveRoom` on the caller's goroutine. From a message
    listener that goroutine is the connection handler (websocket.go:110-114,
    client.go:39, client.go:126). `net/http` recovers a panic in a handler, so
    the broker keeps running. The connection ends without reaching the send on
    `doneCh` (client.go:34), so the client stays registered for good.
  - The likeliest way to reach websocket.go:134 is an unscoped `Broadcast`. Its
    snapshot of the room ids (client.go:93-97) can name a room that a disconnect
    deletes before the broker dequeues the message. The disconnecting client's
    personal room is one such room. The model delivers a broadcast before the
    call returns, so it cannot reach this case.

  These are preconditions here:
  - `WebSocket.LeaveRoom` and `Client.Leave` require the room to exist;
  - `WebSocket.HandleBroadcast` requires every target room to exist;
  - `Client.Broadcast` requires the scoped room to exist.
- **A room member that is not a registered client panics.** The broadcast case
  looks each member up in `wss.clients` and sends on the result without checking
  it (websocket.go:137-138). A member missing from `wss.clients` gives a nil
  `*Client`, so the send dereferences nil. A stale handle can cause this: its
  `Join` adds a disconnected client to a room, and a later broadcast to that room
  then crashes. The model rules this out: `WebSocket.HandleBroadcast` and
  `Client.Broadcast` require `Valid()`, whose membership agreement makes every
  room member a registered client.
- **Join and leave are synchronous.** `Client.Join` and `Client.Leave` call
  `joinRoom` and `leaveRoom` directly, on the caller's goroutine (client.go:58,
  client.go:69), not through a channel. The model does the same.
- **A failed send is not reported.** A content that does not marshal is routed
  to the error listener only in `receive` (client.go:122-124). `websocket.JSON.Send`
  discards its error (websocket.go:127, websocket.go:138).
- **The personal room is garbage-collected.** Disconnect cleanup deletes the
  client's personal room like any other room once it is empty. The model keeps
  that behaviour (`Registry.Disconnect`).

## Model

| member | source | states |
|---|---|---|
| Rooms.NewRoom | room.go:27-31 | the new room carries the given id and has no member |
| Rooms.Room.IsClient | room.go:34-37 | true iff the id is a member of the room |
| Rooms.Room.GetClients | room.go:40-46 | lists every member exactly once: no duplicates, as many ids as members, and an id is listed iff `IsClient` holds of it |
| Enumeration.Enumerate | websocket.go:182-188 | appending every key met by `range` yields each key exactly once and nothing else, in some order |
| Messages.Message.constructor | message.go:36-49 | a message with the given name and content and unset routing fields |
| Routing.ReachIsUnion | websocket.go:133-134 | the clients the broadcast loop can meet are exactly the members of the target rooms |
| Routing.Recipients | websocket.go:130-142 | the ids the broadcast loop sends to have no duplicates and never include the sender. They are exactly the members of the target rooms other than the sender, each occurring exactly once. They come in room order: a member of the first k target rooms is never sent to after an id outside them |
| Routing.ReachGrows | websocket.go:133-134 | the clients met in a prefix of the target rooms are among those met in any longer prefix |
| Routing.AppendInRoomOrder | websocket.go:133-140 | sending to a member of room k, met in none of the rooms before it, keeps the sends in room order |
| Registry.Join | websocket.go:87-95 | the room exists afterwards, created if it was absent. It lists the client and the client lists it. Its other members, its id, the client's other rooms, every other client and every other room are unchanged |
| Registry.Leave | websocket.go:97-107 | the client no longer lists the room and the room lost only that client. The room survives iff someone else is left in it. Every other client and room is unchanged |
| Registry.Connect | websocket.go:58-64 | the new client is registered in exactly its personal room, which holds exactly it. Every other client and room is unchanged |
| Registry.Disconnect | websocket.go:72-85 | the client is unregistered, no room appears, and every room the client was not in is unchanged |
| Registry.LeaveNone | websocket.go:78-80 | before the first iteration of the cleanup loop nothing has changed |
| Registry.LeaveStep | websocket.go:78-80 | one more iteration of the cleanup loop, leaving one more room, is leaving the rooms left so far and that room together |
| Registry.JoinPreservesValid | websocket.go:87-95 | joining keeps both directions of the membership agreement, no empty room and every personal room |
| Registry.LeavePreservesValid | websocket.go:97-107 | leaving a room other than the personal room keeps the registries valid |
| Registry.ConnectPreservesValid | websocket.go:58-64 | registering a client whose id names no client and no room keeps the registries valid |
| Registry.DisconnectCleansUp | websocket.go:72-85 | after a disconnect the client is in no registry and no room. Each room it was in lost only that client, or was deleted because it had no other member. No other room changed |
| Registry.DisconnectPreservesValid | websocket.go:72-85 | disconnecting keeps the registries valid |
| Registry.JoinIdempotent | websocket.go:87-95 | joining a room the client is already in changes neither registry |
| Registry.LeaveUndoesJoin | websocket.go:87-107 | leaving a room just joined restores both registries, including deleting a room the join created |
| Registry.DisconnectUndoesConnect | websocket.go:58-85 | disconnecting a client just connected restores both registries, personal room included |
| Registry.BroadcastToAllReachesEveryClient | client.go:93-98 | a broadcast targeting every existing room reaches every registered client but the sender |
| Broker.Deliveries | websocket.go:133-141 | one send per listed id, in the listed order |
| Broker.WebSocket.constructor | websocket.go:34-56 | empty registries, no listeners, and the invariant holds |
| Broker.WebSocket.JoinRoom | websocket.go:87-95 | the room exists and lists the client, the client lists the room, no other room changes, and only this client's room set changes |
| Broker.WebSocket.LeaveRoom | websocket.go:97-107 | the client's set loses the room, the room loses the client, and the room is deleted iff that emptied it. Only this client's room set changes |
| Broker.WebSocket.AddClient | websocket.go:58-70 | the registries change as `Registry.Connect` says and stay valid. The connect listener, if any, is called once, with the client already in exactly its personal room |
| Broker.WebSocket.Register | websocket.go:59-64 | the registry part of `addClient`: the registries become `Registry.Connect` of what they were and stay valid |
| Broker.WebSocket.DeleteClient | websocket.go:72-85 | the disconnect listener, if any, is called first, with the client's rooms as they were. The registries then change as `Registry.Disconnect` says and stay valid |
| Broker.WebSocket.LeaveEveryRoom | websocket.go:78-80 | the cleanup loop leaves every room the client listed, in any order, with the effect of leaving them all |
| Broker.WebSocket.Serve | websocket.go:109-116 | a connection registers a fresh client. If its stream ends, the registries are back to what they were; otherwise the client stays connected. `clients` is back to what it was at the end of the stream, or else gains exactly the new client, so every earlier handle stays registered. The events are the connect listener's call, then what serving the reads produces |
| Broker.WebSocket.Accept | websocket.go:111-113 | a fresh client with the given id is registered in exactly its personal room, as `Registry.Connect` says, and the connect listener is called. `clients` gains exactly the new client and every other entry keeps its object |
| Broker.WebSocket.HandleSend | websocket.go:124-128 | one send to the addressee if it is registered, nothing otherwise |
| Broker.WebSocket.HandleBroadcast | websocket.go:130-142 | one send to each member of the target rooms other than the sender, each exactly once, all of them registered clients, in the order of the target rooms |
| Broker.WebSocket.HandleError | websocket.go:144-147 | the error listener is called once if set, and nothing happens otherwise |
| Broker.WebSocket.On | websocket.go:156-158 | the last listener registered for a name replaces the previous one |
| Broker.WebSocket.OnConnect | websocket.go:161-163 | the last connect listener replaces the previous one |
| Broker.WebSocket.OnDisconnect | websocket.go:166-168 | the last disconnect listener replaces the previous one |
| Broker.WebSocket.OnError | websocket.go:171-173 | the last call replaces the error listener; a nil function removes it |
| Broker.WebSocket.GetClient | websocket.go:176-179 | a client is found iff one is registered under the id, and it carries that id |
| Broker.WebSocket.GetClients | websocket.go:182-188 | every registered client id exactly once |
| Broker.WebSocket.GetRoom | websocket.go:191-194 | a room is found iff it exists. It carries the id asked for, and between two requests it has a member |
| Broker.WebSocket.GetRooms | websocket.go:197-203 | every existing room id exactly once |
| Broker.Client.constructor | client.go:21-25 | a new client has the given id, an empty room set of its own and no scoped room |
| Broker.Client.CopyOf | client.go:114-115 | the copy has the original's id, broker and room set object, and the given scoped room |
| Broker.Client.Listen | client.go:29-42 | the end of the stream disconnects the client and stops the loop. Failed reads and messages leave the registries unchanged. The events are exactly `Served`: a failed read goes to the error listener, a message goes through `receive`, and nothing after the first end of stream is read. `clients` loses exactly this client at the end of the stream and is otherwise unchanged |
| Broker.Client.Hangup | client.go:33-35 | at the end of the stream the client is disconnected as `Registry.Disconnect` says, `clients` loses exactly its id, and the events are those of serving the remaining reads |
| Broker.Client.HandleRead | client.go:36-40 | a read that does not end the stream leaves the registries unchanged and produces the events `Served` gives it, before those of the later reads |
| Broker.Client.Dispatch | client.go:36-40 | a failed read goes to the error listener, if one is set. A message goes to `receive` |
| Broker.ServedFrom | client.go:30-40 | serving the reads from a position on is the read at that position, then the rest unless that read ended the stream |
| Broker.ServedStopsAtEnd | client.go:33-35 | reads after the first end of stream produce no event |
| Broker.Client.GetRooms | client.go:45-51 | every room of the client exactly once. Between two requests these are exactly the rooms that list the client |
| Broker.Client.Join | client.go:57-59 | the registries change as `Registry.Join` says and stay valid |
| Broker.Client.Leave | client.go:65-71 | fails with `SelfRoomError` exactly on the personal room and then changes nothing. Otherwise it succeeds with the effect of `Registry.Leave` and keeps the registries valid |
| Broker.Client.Emit | client.go:78-82 | the message is stamped from this client to the addressee, then sent once to the addressee iff it is registered |
| Broker.Client.Broadcast | client.go:92-106 | the targets are every existing room, once each, or the scoped room alone. The message is stamped from this client to nobody. It reaches every other client (or every other member of the scoped room) exactly once, and never the sender |
| Broker.Client.In | client.go:113-117 | a new handle on the same client, sharing its room set and broker, scoped to the room. A handle on a registered client stays one |
| Broker.Client.Receive | client.go:119-129 | a listener registered for the name is called with the marshalled content. A content that does not marshal goes to the error listener instead, and an unknown name is ignored |

## Left out

- The WebSocket transport (`websocket.JSON.Send`, `websocket.JSON.Receive`,
  `ws.Close`, the `websocket.Handler` wrapper) is foreign I/O.
  - A send is recorded as a `Delivered` event naming the addressee.
  - The reads of a connection are the `inputs` parameter of `Client.Listen`,
    which is finite where the source waits forever.
- Goroutines, the four buffered channels and `bufferSize` are left out: their
  point is concurrency.
  - Every channel send is a direct call of the handler of the matching `Listen`
    case, so requests are processed one at a time in call order.
  - `NewWebSocket` does not start a listening goroutine.
  - The unsynchronised read of the broker's rooms in `Client.Broadcast` is a data
    race and is not modelled.
  - Message aliasing through `sendCh` is not modelled. `Emit` stamps `msg.to` and
    queues the `*Message` pointer (client.go:79-81). The broker reads `msg.to`
    only when it dequeues it (websocket.go:125). So `c.Emit(msg, a); c.Emit(msg, b)`
    can deliver to `b` twice. Here each `Emit` is delivered before it returns.
- JSON encoding (`encoding/json`) is not modelled.
  - A content is either the text it marshals to or a value that cannot be
    marshalled.
  - `NewMessage`'s unmarshalling of a `[]byte` content (message.go:37-43) is not
    modelled.
  - A failure of the marshalling inside `websocket.JSON.Send` is not told apart
    from a successful send.
- uuid.go is not part of this model. Client ids are parameters, and a fresh id is
  required to name no registered client and no room. `addClient` would replace a
  room that already has the client's name: `Registry.Connect` models that, but
  validity is proved only for a fresh id.
- Listener bodies are user callbacks, so a listener call is recorded as an event
  naming the listener and its arguments.
  - The client passed to the connect or disconnect listener is recorded by its
    id and its rooms at the time of the call. The client passed to a message
    listener is recorded by its id alone.
  - A listener that itself joins, leaves or sends is not modelled.
  - `Client.Listen` states that messages leave the registries unchanged only
    under that assumption.
- `Broker.WebSocket.GetRoom`: it returns the room as a value at the time of the
  call, where the source returns a pointer that later joins and leaves also
  change.
- `Broker.Client.Join`, `Broker.Client.Leave`: they state the effect on the
  registries only for a handle of a registered client. A handle kept after its
  client disconnected still changes the room side, which the invariant does not
  describe.
- `Broker.WebSocket.On`, `Broker.WebSocket.OnConnect`, `Broker.WebSocket.OnDisconnect`:
  they take a listener, never nil. The source stores a nil function too, and the
  broker panics when it later calls it (client.go:126, websocket.go:68,
  websocket.go:75).
- `Registry.LeavePreservesValid`: it is stated only for rooms other than the
  personal room. Leaving the personal room happens only during disconnect
  cleanup, which `Registry.DisconnectPreservesValid` covers.
