/**
 * The broker (websocket.go) and the client handle (client.go). The two refer to
 * each other (a client keeps its broker, the broker keeps its clients), so they
 * share one module.
 *
 * Channel sends are replaced by direct calls to the handler of the matching
 * `Listen` case, and everything the broker does outside its registries (sending a
 * message on a connection, calling a user listener) is appended to `log`.
 */
module Broker {
  import opened Wrappers
  import opened Enumeration
  import opened Rooms
  import opened Messages
  import Registry
  import Routing

  /** A user callback registered with the broker, known only by its identity. */
  datatype Listener = Listener(tag: nat)

  /** The errors of the core: `Leave` on the personal room, a payload `encoding/json` rejects, a failed read. */
  datatype Error = SelfRoomError | EncodingError | TransportError(reason: string)

  /** What the broker does that is observable outside its registries. */
  datatype Event =
    | Delivered(to: string, name: string, content: Payload)
      // `websocket.JSON.Send` of a message (its `Name` and `Content`) to a client
    | Connected(listener: Listener, client: string, clientRooms: set<string>)
      // the connect listener called with a client whose rooms were then `clientRooms`
    | Disconnected(listener: Listener, client: string, clientRooms: set<string>)
      // the disconnect listener called with a client whose rooms were then `clientRooms`
    | Handled(listener: Listener, client: string, payload: string)
      // a message listener called with a client and the marshalled payload
    | ErrorReported(listener: Listener, err: Error)
      // the error listener called

  /** One send per id, in order. */
  function Deliveries(ids: seq<string>, name: string, content: Payload): (es: seq<Event>)
    ensures |es| == |ids|
    ensures forall k :: 0 <= k < |ids| ==> es[k] == Delivered(ids[k], name, content)
  {
    if ids == [] then [] else [Delivered(ids[0], name, content)] + Deliveries(ids[1..], name, content)
  }

  /** What one read of the transport yields to `Client.Listen`. */
  datatype ReadOutcome = EndOfStream | ReadFailed(reason: string) | Received(name: string, content: Payload)

  /** What handing `err` to the error path does: call the error listener, if one is set. */
  function ErrorEvents(errListener: Option<Listener>, err: Error): seq<Event>
  {
    if errListener.Some? then [ErrorReported(errListener.value, err)] else []
  }

  /**
   * What `receive` does with a message named `name` from `client`: nothing when no
   * listener has that name, otherwise call it with the marshalled content, or report
   * the encoding error when the content does not marshal.
   */
  function Reaction(listeners: map<string, Listener>, errListener: Option<Listener>, client: string,
                    name: string, content: Payload): seq<Event>
  {
    if name !in listeners then []
    else match content
      case Json(text) => [Handled(listeners[name], client, text)]
      case Unencodable => ErrorEvents(errListener, EncodingError)
  }

  /** What `Client.Listen` does with one read that is not the end of the stream. */
  function ReadEvents(listeners: map<string, Listener>, errListener: Option<Listener>, client: string,
                      input: ReadOutcome): seq<Event>
  {
    match input
    case EndOfStream => []
    case ReadFailed(reason) => ErrorEvents(errListener, TransportError(reason))
    case Received(name, content) => Reaction(listeners, errListener, client, name, content)
  }

  /**
   * What `Client.Listen` does with the reads of `client`'s connection, given the
   * listeners and the rooms the client is in: read by read, up to and including the
   * first end of stream, which calls the disconnect listener and ends the loop.
   */
  function Served(listeners: map<string, Listener>, connListeners: map<string, Listener>,
                  errListener: Option<Listener>, client: string, clientRooms: set<string>,
                  inputs: seq<ReadOutcome>): seq<Event>
  {
    if inputs == [] then []
    else if inputs[0].EndOfStream? then
      if "disconnect" in connListeners then [Disconnected(connListeners["disconnect"], client, clientRooms)] else []
    else
      ReadEvents(listeners, errListener, client, inputs[0])
        + Served(listeners, connListeners, errListener, client, clientRooms, inputs[1..])
  }

  /** Serving the reads from position `i` on: the read at `i`, then the rest unless it ended the stream. */
  lemma ServedFrom(listeners: map<string, Listener>, connListeners: map<string, Listener>,
                   errListener: Option<Listener>, client: string, clientRooms: set<string>,
                   inputs: seq<ReadOutcome>, i: nat)
    requires i < |inputs|
    ensures inputs[i].EndOfStream? ==>
      Served(listeners, connListeners, errListener, client, clientRooms, inputs[i..])
      == if "disconnect" in connListeners then [Disconnected(connListeners["disconnect"], client, clientRooms)] else []
    ensures !inputs[i].EndOfStream? ==>
      Served(listeners, connListeners, errListener, client, clientRooms, inputs[i..])
      == ReadEvents(listeners, errListener, client, inputs[i])
         + Served(listeners, connListeners, errListener, client, clientRooms, inputs[i + 1..])
  {
  }

  /** Reads after the first end of stream are never served. */
  lemma {:induction false} ServedStopsAtEnd(listeners: map<string, Listener>, connListeners: map<string, Listener>,
                                            errListener: Option<Listener>, client: string, clientRooms: set<string>,
                                            before: seq<ReadOutcome>, after: seq<ReadOutcome>)
    ensures Served(listeners, connListeners, errListener, client, clientRooms, before + [EndOfStream] + after)
         == Served(listeners, connListeners, errListener, client, clientRooms, before + [EndOfStream])
  {
    if before == [] {
      assert ([EndOfStream] + after)[0] == EndOfStream;
    } else {
      ServedStopsAtEnd(listeners, connListeners, errListener, client, clientRooms, before[1..], after);
      assert (before + [EndOfStream] + after)[1..] == before[1..] + [EndOfStream] + after;
      assert (before + [EndOfStream])[1..] == before[1..] + [EndOfStream];
    }
  }

  /** The set of room ids a client belongs to: the Go map `Client.rooms`, shared by a client and its `In` copies. */
  class RoomSet {
    var ids: set<string>

    constructor ()
      ensures ids == {}
    {
      ids := {};
    }
  }

  class WebSocket {
    var clients: map<string, Client>
    var rooms: map<string, Room>
    var listeners: map<string, Listener>
    var connListeners: map<string, Listener>
    var errListener: Option<Listener>
    var log: seq<Event>

    /** The room sets of the registered clients. */
    ghost function RoomSets(): set<RoomSet>
      reads this`clients
    {
      set id | id in clients :: clients[id].rooms
    }

    /** The client side of the registry: each registered client's rooms. */
    ghost function ClientRooms(): map<string, set<string>>
      reads this`clients, RoomSets()
    {
      map id | id in clients :: clients[id].rooms.ids
    }

    /** The registries as a value. */
    ghost function Abs(): Registry.State
      reads this`clients, this`rooms, RoomSets()
    {
      Registry.State(ClientRooms(), rooms)
    }

    /** Clients are filed under their own ids, and distinct clients do not share a room set. */
    ghost predicate ClientsFiled()
      reads this`clients
    {
      && (forall id :: id in clients ==> clients[id].ID == id)
      && (forall a, b :: a in clients && b in clients && a != b ==> clients[a].rooms != clients[b].rooms)
    }

    /** Rooms are filed under their own ids. */
    ghost predicate RoomsFiled()
      reads this`rooms
    {
      forall r :: r in rooms ==> rooms[r].ID == r
    }

    /** The shape every operation keeps. */
    ghost predicate Wellformed()
      reads this`clients, this`rooms
    {
      ClientsFiled() && RoomsFiled()
    }

    /** The broker's invariant between two requests. */
    ghost predicate Valid()
      reads this`clients, this`rooms, RoomSets()
    {
      Wellformed() && Registry.Valid(Abs())
    }

    /** `c` is a handle of a registered client: the client itself or an `In` copy of it. */
    ghost predicate Handles(c: Client)
      reads this`clients
    {
      c.ID in clients && clients[c.ID].rooms == c.rooms
    }

    /** `NewWebSocket`: empty registries, no listeners. */
    constructor ()
      ensures clients == map[] && rooms == map[] && log == []
      ensures listeners == map[] && connListeners == map[] && errListener == None
      ensures Valid()
    {
      clients := map[];
      rooms := map[];
      listeners := map[];
      connListeners := map[];
      errListener := None;
      log := [];
    }

    /** `joinRoom`: create the room if absent, then record the membership on both sides. */
    method JoinRoom(c: Client, roomID: string)
      requires Wellformed()
      modifies this`rooms, c.rooms
      ensures Wellformed()
      ensures c.rooms.ids == old(c.rooms.ids) + {roomID}
      ensures roomID in rooms && rooms[roomID].IsClient(c.ID)
      ensures rooms[roomID].clients == (if roomID in old(rooms) then old(rooms[roomID].clients) else {}) + {c.ID}
      ensures rooms == old(rooms)[roomID := rooms[roomID]]
      ensures roomID in old(rooms) ==> rooms[roomID].ID == old(rooms[roomID].ID)
      ensures Handles(c) ==> ClientRooms() == old(ClientRooms())[c.ID := c.rooms.ids]
    {
      var room: Room;
      if roomID in rooms {
        room := rooms[roomID];
      } else {
        room := NewRoom(roomID);
        rooms := rooms[roomID := room];
      }
      rooms := rooms[roomID := room.(clients := room.clients + {c.ID})];
      c.rooms.ids := c.rooms.ids + {roomID};
      if Handles(c) {
        OnlyRoomSetChanged(c);
      }
    }

    /** `leaveRoom`: drop the membership on both sides and drop the room if that empties it. */
    method LeaveRoom(c: Client, roomID: string)
      requires Wellformed()
      requires roomID in rooms  // websocket.go:100-101 dereferences the room without checking it exists
      modifies this`rooms, c.rooms
      ensures Wellformed()
      ensures c.rooms.ids == old(c.rooms.ids) - {roomID}
      ensures var left := old(rooms[roomID]).(clients := old(rooms[roomID].clients) - {c.ID});
        rooms == if left.clients == {} then old(rooms) - {roomID} else old(rooms)[roomID := left]
      ensures Handles(c) ==> ClientRooms() == old(ClientRooms())[c.ID := c.rooms.ids]
    {
      c.rooms.ids := c.rooms.ids - {roomID};
      var r := rooms[roomID];
      r := r.(clients := r.clients - {c.ID});
      if |r.clients| == 0 {
        assert r.ID == roomID;
        rooms := rooms - {r.ID};
      } else {
        rooms := rooms[roomID := r];
      }
      if Handles(c) {
        OnlyRoomSetChanged(c);
      }
    }

    /**
     * `addClient`: register the client, install its personal room, join it, then
     * call the connect listener, which finds the client registered and in its
     * personal room.
     */
    method AddClient(c: Client)
      requires Valid()
      requires c.wss == this
      // the id is freshly generated: it names no registered client and no room
      requires c.ID !in clients && c.ID !in rooms
      // `c` is just out of `NewClient`
      requires c.rooms.ids == {} && c.rooms !in RoomSets()
      modifies this`clients, this`rooms, this`log, c.rooms
      ensures Valid() && Handles(c)
      ensures clients == old(clients)[c.ID := c]
      ensures Abs() == Registry.Connect(old(Abs()), c.ID)
      ensures c.rooms.ids == {c.ID} && rooms[c.ID] == Room(c.ID, {c.ID})
      ensures log == old(log) + if "connect" in connListeners then [Connected(connListeners["connect"], c.ID, {c.ID})] else []
    {
      Register(c);
      label registered:
      if "connect" in connListeners {
        log := log + [Connected(connListeners["connect"], c.ID, c.rooms.ids)];
      }
      RegistriesUnchanged@registered();
    }

    /** The registry part of `addClient`, before the connect listener. */
    method Register(c: Client)
      requires Valid()
      requires c.wss == this
      requires c.ID !in clients && c.ID !in rooms
      requires c.rooms.ids == {} && c.rooms !in RoomSets()
      modifies this`clients, this`rooms, c.rooms
      ensures Valid() && Handles(c)
      ensures clients == old(clients)[c.ID := c]
      ensures Abs() == Registry.Connect(old(Abs()), c.ID)
      ensures c.rooms.ids == {c.ID} && rooms[c.ID] == Room(c.ID, {c.ID})
    {
      ghost var s := Abs();
      clients := clients[c.ID := c];
      var room := NewRoom(c.ID);
      rooms := rooms[c.ID := room];
      RegisteredFresh(c);
      assert Abs() == Registry.State(s.clientRooms[c.ID := {}], s.rooms[c.ID := room]);
      c.Join(room.ID);
      Registry.ConnectPreservesValid(s, c.ID);
    }

    /**
     * After a client whose room set no registered client shares has been filed
     * under its id, the registries are still well formed and the client side gained
     * exactly its entry.
     */
    twostate lemma RegisteredFresh(c: Client)
      requires old(Wellformed()) && c.ID !in old(clients) && c.rooms !in old(RoomSets())
      requires clients == old(clients)[c.ID := c]
      requires forall r :: r in rooms ==> rooms[r].ID == r
      requires forall id :: id in old(clients) ==> unchanged(old(clients)[id].rooms)
      ensures Wellformed() && Handles(c)
      ensures ClientRooms() == old(ClientRooms())[c.ID := c.rooms.ids]
    {
      forall id | id in clients ensures ClientRooms()[id] == old(ClientRooms())[c.ID := c.rooms.ids][id] {
        if id != c.ID {
          assert clients[id].rooms in old(RoomSets());
        }
      }
      forall a, b | a in clients && b in clients && a != b ensures clients[a].rooms != clients[b].rooms {
        if a == c.ID {
          assert clients[b].rooms in old(RoomSets());
        } else if b == c.ID {
          assert clients[a].rooms in old(RoomSets());
        }
      }
    }

    /**
     * `deleteClient`: call the disconnect listener, which still finds the client in
     * all its rooms, make the client leave every room it lists, then unregister it.
     */
    method DeleteClient(c: Client)
      requires Valid() && Handles(c)
      modifies this`clients, this`rooms, this`log, c.rooms
      ensures Valid()
      ensures clients == old(clients) - {c.ID}
      ensures Abs() == Registry.Disconnect(old(Abs()), c.ID)
      ensures c.rooms.ids == {}
      ensures log == old(log) + if "disconnect" in connListeners then [Disconnected(connListeners["disconnect"], c.ID, old(c.rooms.ids))] else []
    {
      if "disconnect" in connListeners {
        log := log + [Disconnected(connListeners["disconnect"], c.ID, c.rooms.ids)];
      }
      RegistriesUnchanged();
      ghost var s := Abs();
      LeaveEveryRoom(c);
      assert c.rooms.ids == {} && Abs() == Registry.LeaveAll(s, c.ID, s.clientRooms[c.ID]);
      label left:
      clients := clients - {c.ID};
      Unregistered@left(c);
      Registry.DisconnectPreservesValid(s, c.ID);
    }

    /** The loop of `deleteClient`: leave the rooms of `c` one by one, in the unspecified order of `range`. */
    method LeaveEveryRoom(c: Client)
      requires Valid() && Handles(c)
      modifies this`rooms, c.rooms
      ensures Wellformed() && Handles(c)
      ensures c.rooms.ids == {}
      ensures Abs() == Registry.LeaveAll(old(Abs()), c.ID, old(c.rooms.ids))
    {
      ghost var s := Abs();
      ghost var done: set<string> := {};
      Registry.LeaveNone(s, c.ID);
      while c.rooms.ids != {}
        invariant Wellformed() && Handles(c)
        invariant done <= s.clientRooms[c.ID] && c.rooms.ids == s.clientRooms[c.ID] - done
        invariant Abs() == Registry.LeaveAll(s, c.ID, done)
        decreases |c.rooms.ids|
      {
        var roomID :| roomID in c.rooms.ids;
        Registry.LeaveStep(s, c.ID, done, roomID);
        label before:
        LeaveRoom(c, roomID);
        assert Abs() == Registry.Leave(old@before(Abs()), c.ID, roomID);
        done := done + {roomID};
      }
      assert done == s.clientRooms[c.ID];
    }

    /**
     * After a client has been taken out of the client registry, the registries are
     * still well formed and the client side lost exactly its entry.
     */
    twostate lemma Unregistered(c: Client)
      requires old(Wellformed()) && old(Handles(c))
      requires clients == old(clients) - {c.ID} && rooms == old(rooms)
      requires forall id :: id in clients ==> unchanged(clients[id].rooms)
      ensures Wellformed()
      ensures ClientRooms() == old(ClientRooms()) - {c.ID}
    {
      forall id | id in clients ensures ClientRooms()[id] == (old(ClientRooms()) - {c.ID})[id] {
      }
    }

    /**
     * The connection handler installed by `setHandler`, with the transport left out:
     * make a client with a freshly generated id, register it, then serve the reads
     * of its connection.
     */
    method Serve(id: string, inputs: seq<ReadOutcome>) returns (c: Client)
      requires Valid()
      // the id is freshly generated: it names no registered client and no room
      requires id !in clients && id !in rooms
      modifies this`clients, this`rooms, this`log
      ensures fresh(c) && c.ID == id && c.wss == this
      ensures clients == if EndOfStream in inputs then old(clients) else old(clients)[id := c]
      ensures Valid()
      ensures EndOfStream in inputs ==> Abs() == old(Abs()) && !Handles(c)
      ensures EndOfStream !in inputs ==> Handles(c) && Abs() == Registry.Connect(old(Abs()), id)
      ensures log == old(log) + (if "connect" in connListeners then [Connected(connListeners["connect"], id, {id})] else [])
                              + Served(listeners, connListeners, errListener, id, {id}, inputs)
    {
      c := Accept(id);
      c.Listen(inputs);
      if EndOfStream in inputs {
        Registry.DisconnectUndoesConnect(old(Abs()), id);
      }
    }

    /** The first half of the connection handler: `NewClient` and `addClient`. */
    method Accept(id: string) returns (c: Client)
      requires Valid()
      requires id !in clients && id !in rooms
      modifies this`clients, this`rooms, this`log
      ensures fresh(c) && fresh(c.rooms) && c.ID == id && c.wss == this
      ensures clients == old(clients)[id := c]
      ensures Valid() && Handles(c) && c.rooms.ids == {id}
      ensures Abs() == Registry.Connect(old(Abs()), id)
      ensures log == old(log) + if "connect" in connListeners then [Connected(connListeners["connect"], id, {id})] else []
    {
      c := new Client(id, this);
      AddClient(c);
    }

    /** The `sendCh` case of `Listen`: send to the addressee only if it is registered. */
    method HandleSend(msg: Message)
      modifies this`log
      ensures log == old(log) + if msg.to in clients then [Delivered(msg.to, msg.Name, msg.Content)] else []
    {
      if msg.to in clients {
        log := log + [Delivered(msg.to, msg.Name, msg.Content)];
      }
    }

    /**
     * The `broadcastCh` case of `Listen`: send to every member of the target rooms
     * except the sender, each once, in the order the nested loop meets them.
     */
    method HandleBroadcast(msg: Message) returns (delivered: seq<string>)
      requires Valid()
      // websocket.go:134 dereferences every target room without checking it exists
      requires forall r :: r in msg.rooms ==> r in rooms
      modifies this`log
      ensures Distinct(delivered) && msg.from !in delivered
      ensures forall x :: x in delivered <==> x in Routing.Audience(rooms, msg.rooms, msg.from)
      ensures forall x :: multiset(delivered)[x] == if x in Routing.Audience(rooms, msg.rooms, msg.from) then 1 else 0
      ensures Routing.InRoomOrder(rooms, msg.rooms, delivered)
      ensures forall x :: x in delivered ==> x in clients
      ensures log == old(log) + Deliveries(delivered, msg.Name, msg.Content)
    {
      delivered := Routing.Recipients(rooms, msg.rooms, msg.from);
      forall x | x in delivered ensures x in clients {
        Routing.ReachIsUnion(rooms, msg.rooms, x);
        var k :| 0 <= k < |msg.rooms| && msg.rooms[k] in rooms && x in rooms[msg.rooms[k]].clients;
        assert Abs().rooms[msg.rooms[k]].IsClient(x);
      }
      log := log + Deliveries(delivered, msg.Name, msg.Content);
    }

    /** The `errCh` case of `Listen`: call the error listener if one is set. */
    method HandleError(err: Error)
      modifies this`log
      ensures log == old(log) + if errListener.Some? then [ErrorReported(errListener.value, err)] else []
    {
      if errListener.Some? {
        log := log + [ErrorReported(errListener.value, err)];
      }
    }

    /** `On`: the listener for messages named `event`; a later call replaces it. */
    method On(event: string, fn: Listener)
      modifies this`listeners
      ensures listeners == old(listeners)[event := fn]
    {
      listeners := listeners[event := fn];
    }

    /** `OnConnect`: a later call replaces the connect listener. */
    method OnConnect(fn: Listener)
      modifies this`connListeners
      ensures connListeners == old(connListeners)["connect" := fn]
    {
      connListeners := connListeners["connect" := fn];
    }

    /** `OnDisconnect`: a later call replaces the disconnect listener. */
    method OnDisconnect(fn: Listener)
      modifies this`connListeners
      ensures connListeners == old(connListeners)["disconnect" := fn]
    {
      connListeners := connListeners["disconnect" := fn];
    }

    /** `OnError`: a later call replaces the error listener; `None` (a nil function) removes it. */
    method OnError(fn: Option<Listener>)
      modifies this`errListener
      ensures errListener == fn
    {
      errListener := fn;
    }

    /** `GetClient`: the client registered under `clientID`, if any. */
    function GetClient(clientID: string): (r: Option<Client>)
      reads this`clients
      ensures r.Some? <==> clientID in clients
      ensures r.Some? && ClientsFiled() ==> r.value.ID == clientID
    {
      if clientID in clients then Some(clients[clientID]) else None
    }

    /** `GetClients`: the id of every registered client, once each. */
    method GetClients() returns (ids: seq<string>)
      ensures Distinct(ids) && |ids| == |clients|
      ensures forall x :: x in ids <==> x in clients
    {
      ids := Enumerate(clients.Keys);
    }

    /** `GetRoom`: the room named `roomID`, if it exists; between two requests it is never empty. */
    function GetRoom(roomID: string): (r: Option<Room>)
      reads this`rooms, this`clients, RoomSets()
      ensures r.Some? <==> roomID in rooms
      ensures r.Some? && RoomsFiled() ==> r.value.ID == roomID
      ensures r.Some? && Valid() ==> r.value.clients != {}
    {
      if roomID in rooms then Some(rooms[roomID]) else None
    }

    /** `GetRooms`: the id of every existing room, once each. */
    method GetRooms() returns (ids: seq<string>)
      ensures Distinct(ids) && |ids| == |rooms|
      ensures forall x :: x in ids <==> x in rooms
    {
      ids := Enumerate(rooms.Keys);
    }

    /** When neither registry nor any registered room set changed, the abstraction and validity carry over. */
    twostate lemma RegistriesUnchanged()
      requires clients == old(clients) && rooms == old(rooms)
      requires forall id :: id in clients ==> unchanged(clients[id].rooms)
      ensures Abs() == old(Abs())
      ensures old(Valid()) ==> Valid()
    {
      forall id | id in clients ensures ClientRooms()[id] == old(ClientRooms())[id] {
      }
    }

    /**
     * When the registries still hold the same clients and, among their room sets,
     * only `c`'s has changed, the client side of the registry changed in `c`'s
     * entry only.
     */
    twostate lemma OnlyRoomSetChanged(c: Client)
      requires Handles(c) && clients == old(clients)
      requires forall id :: id in clients && id != c.ID ==> unchanged(clients[id].rooms)
      ensures ClientRooms() == old(ClientRooms())[c.ID := c.rooms.ids]
    {
      forall id | id in clients ensures ClientRooms()[id] == old(ClientRooms())[c.ID := c.rooms.ids][id] {
      }
    }
  }

  class Client {
    const ID: string
    const rooms: RoomSet
    var currentRoom: string
    const wss: WebSocket

    /** `NewClient`, with the generated id given as a parameter. */
    constructor (id: string, wss: WebSocket)
      ensures ID == id && this.wss == wss && currentRoom == ""
      ensures fresh(rooms) && rooms.ids == {}
    {
      ID := id;
      rooms := new RoomSet();
      currentRoom := "";
      this.wss := wss;
    }

    /** A copy of `c` scoped to `roomID`; the copy shares `c`'s room set, as a shallow struct copy does. */
    constructor CopyOf(c: Client, roomID: string)
      ensures ID == c.ID && rooms == c.rooms && wss == c.wss && currentRoom == roomID
    {
      ID := c.ID;
      rooms := c.rooms;
      currentRoom := roomID;
      wss := c.wss;
    }

    /**
     * `Listen`: serve the reads of the connection in order. The end of the stream
     * disconnects the client and ends the loop, a failed read goes to the error
     * listener, a message goes to `receive`. The reads are a parameter; the loop of
     * the source waits for them forever.
     */
    method Listen(inputs: seq<ReadOutcome>)
      requires wss.Valid() && wss.Handles(this)
      modifies wss`clients, wss`rooms, wss`log, rooms
      ensures wss.Valid()
      ensures EndOfStream in inputs ==> ID !in wss.clients && wss.Abs() == Registry.Disconnect(old(wss.Abs()), ID)
      ensures EndOfStream !in inputs ==> wss.Handles(this) && wss.Abs() == old(wss.Abs())
      ensures wss.clients == if EndOfStream in inputs then old(wss.clients) - {ID} else old(wss.clients)
      ensures wss.log == old(wss.log) + Served(wss.listeners, wss.connListeners, wss.errListener, ID, old(rooms.ids), inputs)
    {
      ghost var registries := wss.Abs();
      var i := 0;
      while i < |inputs|
        invariant i <= |inputs| && forall k :: 0 <= k < i ==> !inputs[k].EndOfStream?
        invariant wss.Valid() && wss.Handles(this) && wss.Abs() == registries && rooms.ids == old(rooms.ids)
        invariant wss.clients == old(wss.clients)
        invariant wss.log + Served(wss.listeners, wss.connListeners, wss.errListener, ID, rooms.ids, inputs[i..])
               == old(wss.log) + Served(wss.listeners, wss.connListeners, wss.errListener, ID, rooms.ids, inputs)
      {
        if inputs[i].EndOfStream? {
          Hangup(inputs, i);
          return;
        }
        HandleRead(inputs, i);
        i := i + 1;
      }
      assert inputs[i..] == [];
    }

    /** The iteration of `Listen` that meets the end of the stream: disconnect and serve nothing more. */
    method Hangup(inputs: seq<ReadOutcome>, i: nat)
      requires i < |inputs| && inputs[i].EndOfStream?
      requires wss.Valid() && wss.Handles(this)
      modifies wss`clients, wss`rooms, wss`log, rooms
      ensures wss.Valid() && ID !in wss.clients && wss.Abs() == Registry.Disconnect(old(wss.Abs()), ID)
      ensures wss.clients == old(wss.clients) - {ID}
      ensures wss.log == old(wss.log) + Served(wss.listeners, wss.connListeners, wss.errListener, ID, old(rooms.ids), inputs[i..])
    {
      ServedFrom(wss.listeners, wss.connListeners, wss.errListener, ID, rooms.ids, inputs, i);
      wss.DeleteClient(this);
    }

    /** One iteration of `Listen` for a read that is not the end of the stream. */
    method HandleRead(inputs: seq<ReadOutcome>, i: nat)
      requires i < |inputs| && !inputs[i].EndOfStream?
      requires wss.Valid() && wss.Handles(this)
      modifies wss`log
      ensures wss.Valid() && wss.Handles(this) && wss.Abs() == old(wss.Abs())
      ensures wss.log + Served(wss.listeners, wss.connListeners, wss.errListener, ID, rooms.ids, inputs[i + 1..])
           == old(wss.log) + Served(wss.listeners, wss.connListeners, wss.errListener, ID, rooms.ids, inputs[i..])
    {
      ServedFrom(wss.listeners, wss.connListeners, wss.errListener, ID, rooms.ids, inputs, i);
      Dispatch(inputs[i]);
    }

    /** What `Listen` does with a failed read or a message: report it or hand it to `Receive`. */
    method Dispatch(input: ReadOutcome)
      requires !input.EndOfStream?
      requires wss.Valid() && wss.Handles(this)
      modifies wss`log
      ensures wss.Valid() && wss.Handles(this) && wss.Abs() == old(wss.Abs())
      ensures wss.log == old(wss.log) + ReadEvents(wss.listeners, wss.errListener, ID, input)
    {
      match input {
        case ReadFailed(reason) =>
          wss.HandleError(TransportError(reason));
        case Received(name, content) =>
          var msg := new Message(name, content);
          Receive(msg);
      }
      wss.RegistriesUnchanged();
    }

    /** `GetRooms`: the id of every room the client is in, once each. */
    method GetRooms() returns (ids: seq<string>)
      ensures Distinct(ids) && |ids| == |rooms.ids|
      ensures forall x :: x in ids <==> x in rooms.ids
      ensures wss.Valid() && wss.Handles(this) ==> forall r :: r in ids <==> r in wss.rooms && wss.rooms[r].IsClient(ID)
    {
      ids := Enumerate(rooms.ids);
      if wss.Valid() && wss.Handles(this) {
        assert wss.Abs().clientRooms[ID] == rooms.ids;
      }
    }

    /** `Join`: calls the broker's `joinRoom` directly, not through a channel. */
    method Join(roomID: string)
      requires wss.Wellformed()
      modifies wss`rooms, rooms
      ensures wss.Wellformed()
      ensures roomID in wss.rooms && wss.rooms[roomID].IsClient(ID) && roomID in rooms.ids
      ensures wss.Handles(this) ==> wss.Abs() == Registry.Join(old(wss.Abs()), ID, roomID)
      ensures wss.Handles(this) && old(wss.Valid()) ==> wss.Valid()
    {
      wss.JoinRoom(this, roomID);
      if wss.Handles(this) {
        assert wss.Abs() == Registry.Join(old(wss.Abs()), ID, roomID);
        if old(wss.Valid()) {
          Registry.JoinPreservesValid(old(wss.Abs()), ID, roomID);
        }
      }
    }

    /**
     * `Leave`: refuse the personal room; otherwise call the broker's `leaveRoom`
     * directly, not through a channel.
     */
    method Leave(roomID: string) returns (err: Option<Error>)
      requires wss.Wellformed()
      // client.go:69 reaches `leaveRoom`, which dereferences the room without checking it exists
      requires roomID != ID ==> roomID in wss.rooms
      modifies wss`rooms, rooms
      ensures err == Some(SelfRoomError) <==> roomID == ID
      ensures err == None <==> roomID != ID
      ensures err.Some? ==> wss.rooms == old(wss.rooms) && rooms.ids == old(rooms.ids)
      ensures err.None? ==> rooms.ids == old(rooms.ids) - {roomID}
      ensures wss.Wellformed()
      ensures err.None? && wss.Handles(this) ==> wss.Abs() == Registry.Leave(old(wss.Abs()), ID, roomID)
      ensures wss.Handles(this) && old(wss.Valid()) ==> wss.Valid()
    {
      if ID == roomID {
        return Some(SelfRoomError);
      }
      wss.LeaveRoom(this, roomID);
      if wss.Handles(this) {
        assert wss.Abs() == Registry.Leave(old(wss.Abs()), ID, roomID);
        if old(wss.Valid()) {
          Registry.LeavePreservesValid(old(wss.Abs()), ID, roomID);
        }
      }
      return None;
    }

    /** `Emit`: address the message from this client to `clientID` and hand it to unicast routing. */
    method Emit(msg: Message, clientID: string)
      modifies msg`from, msg`to, wss`log
      ensures msg.from == ID && msg.to == clientID && msg.rooms == old(msg.rooms)
      ensures wss.log == old(wss.log) + if clientID in wss.clients then [Delivered(clientID, msg.Name, msg.Content)] else []
    {
      msg.from := ID;
      msg.to := clientID;
      wss.HandleSend(msg);
    }

    /**
     * `Broadcast`: target every room that exists now, or only the room this handle
     * was scoped to by `In`, then hand the message to broadcast routing.
     */
    method Broadcast(msg: Message) returns (delivered: seq<string>)
      requires wss.Valid()
      // websocket.go:134 dereferences the target room without checking it exists
      requires currentRoom != "" ==> currentRoom in wss.rooms
      modifies msg`from, msg`to, msg`rooms, wss`log
      ensures msg.from == ID && msg.to == ""
      ensures currentRoom == "" ==> Distinct(msg.rooms) && forall r :: r in msg.rooms <==> r in wss.rooms
      ensures currentRoom != "" ==> msg.rooms == [currentRoom]
      ensures ID !in delivered
      ensures forall x :: multiset(delivered)[x] == if x in Routing.Audience(wss.rooms, msg.rooms, ID) then 1 else 0
      ensures currentRoom == "" ==> forall x :: x in delivered <==> x in wss.clients && x != ID
      ensures currentRoom != "" ==> forall x :: x in delivered <==> x in wss.rooms[currentRoom].clients && x != ID
      ensures wss.log == old(wss.log) + Deliveries(delivered, msg.Name, msg.Content)
    {
      if currentRoom == "" {
        var targets := Enumerate(wss.rooms.Keys);
        msg.rooms := targets;
      } else {
        msg.rooms := [currentRoom];
      }
      msg.from := ID;
      msg.to := "";
      wss.RegistriesUnchanged();
      delivered := wss.HandleBroadcast(msg);
      wss.RegistriesUnchanged();
      if currentRoom == "" {
        Registry.BroadcastToAllReachesEveryClient(wss.Abs(), msg.rooms, ID);
      } else {
        assert msg.rooms[..0] == [];
        assert Routing.Reach(wss.rooms, msg.rooms) == wss.rooms[currentRoom].clients;
      }
    }

    /** `In`: a handle on the same client whose broadcasts go to `roomID` only. */
    method In(roomID: string) returns (scoped: Client)
      ensures fresh(scoped) && scoped.currentRoom == roomID
      ensures scoped.ID == ID && scoped.rooms == rooms && scoped.wss == wss
      ensures wss.Handles(this) ==> wss.Handles(scoped)
    {
      scoped := new Client.CopyOf(this, roomID);
    }

    /**
     * `receive`: call the listener registered under the message's name with the
     * marshalled content; a content that does not marshal goes to the error
     * listener instead, and a name nobody listens to is ignored.
     */
    method Receive(msg: Message)
      modifies wss`log
      ensures msg.Name !in wss.listeners ==> wss.log == old(wss.log)
      ensures msg.Name in wss.listeners && msg.Content.Json? ==>
        wss.log == old(wss.log) + [Handled(wss.listeners[msg.Name], ID, msg.Content.text)]
      ensures msg.Name in wss.listeners && msg.Content.Unencodable? ==>
        wss.log == old(wss.log) + if wss.errListener.Some? then [ErrorReported(wss.errListener.value, EncodingError)] else []
      ensures wss.log == old(wss.log) + Reaction(wss.listeners, wss.errListener, ID, msg.Name, msg.Content)
    {
      if msg.Name in wss.listeners {
        var listener := wss.listeners[msg.Name];
        match msg.Content {
          case Json(bytes) =>
            wss.log := wss.log + [Handled(listener, ID, bytes)];
          case Unencodable =>
            wss.HandleError(EncodingError);
        }
      }
    }
  }
}
