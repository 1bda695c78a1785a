/**
 * The broker's two registries as values, and the effect of each registry
 * operation of websocket.go on them. `clientRooms` maps every registered client id
 * to the ids of the rooms it belongs to (the client-side `rooms` map of each
 * `Client`); `rooms` maps room ids to rooms (`WebSocket.rooms`).
 */
module Registry {
  import opened Rooms
  import Routing

  datatype State = State(clientRooms: map<string, set<string>>, rooms: map<string, Room>)

  /**
   * Client side and room side agree: a client lists a room exactly when that room
   * exists and lists the client, and every member of a room is a registered client.
   */
  ghost predicate Consistent(s: State)
  {
    && (forall id, r :: id in s.clientRooms && r in s.clientRooms[id] ==>
          r in s.rooms && s.rooms[r].IsClient(id))
    && (forall r, id :: r in s.rooms && s.rooms[r].IsClient(id) ==>
          id in s.clientRooms && r in s.clientRooms[id])
  }

  /** Rooms do not persist empty. */
  ghost predicate NoEmptyRoom(s: State)
  {
    forall r :: r in s.rooms ==> s.rooms[r].clients != {}
  }

  /** Every registered client is in its personal room, the room named by its id. */
  ghost predicate PersonalRooms(s: State)
  {
    forall id :: id in s.clientRooms ==> id in s.clientRooms[id]
  }

  /** What holds between two requests processed by the broker. */
  ghost predicate Valid(s: State)
  {
    Consistent(s) && NoEmptyRoom(s) && PersonalRooms(s)
  }

  /** `joinRoom`: create the room if it is absent, then record the membership on both sides. */
  function Join(s: State, id: string, r: string): (t: State)
    requires id in s.clientRooms
    ensures t.clientRooms.Keys == s.clientRooms.Keys && t.rooms.Keys == s.rooms.Keys + {r}
    ensures r in t.rooms && t.rooms[r].IsClient(id) && r in t.clientRooms[id]
    ensures t.clientRooms[id] - {r} == s.clientRooms[id] - {r}
    ensures r in s.rooms ==> t.rooms[r].clients - {id} == s.rooms[r].clients - {id} && t.rooms[r].ID == s.rooms[r].ID
    ensures r !in s.rooms ==> t.rooms[r] == Room(r, {id})
    ensures forall x :: x in t.clientRooms && x != id ==> t.clientRooms[x] == s.clientRooms[x]
    ensures forall q :: q in t.rooms && q != r ==> t.rooms[q] == s.rooms[q]
  {
    var room := if r in s.rooms then s.rooms[r] else NewRoom(r);
    State(s.clientRooms[id := s.clientRooms[id] + {r}],
          s.rooms[r := room.(clients := room.clients + {id})])
  }

  /**
   * `leaveRoom`: drop the membership on both sides; if that empties the room,
   * drop the room.
   */
  function Leave(s: State, id: string, r: string): (t: State)
    requires id in s.clientRooms && r in s.rooms
    ensures t.clientRooms.Keys == s.clientRooms.Keys && t.clientRooms[id] == s.clientRooms[id] - {r}
    ensures r in t.rooms <==> s.rooms[r].clients - {id} != {}
    ensures r in t.rooms ==> t.rooms[r].clients == s.rooms[r].clients - {id} && t.rooms[r].ID == s.rooms[r].ID
    ensures forall x :: x in t.clientRooms && x != id ==> t.clientRooms[x] == s.clientRooms[x]
    ensures t.rooms - {r} == s.rooms - {r}
  {
    var room := s.rooms[r].(clients := s.rooms[r].clients - {id});
    State(s.clientRooms[id := s.clientRooms[id] - {r}],
          if room.clients == {} then s.rooms - {r} else s.rooms[r := room])
  }

  /**
   * `addClient`: register the client with no rooms, install a new personal room
   * under its id (replacing whatever was there) and join it.
   */
  function Connect(s: State, id: string): (t: State)
    requires id !in s.clientRooms
    ensures t.clientRooms.Keys == s.clientRooms.Keys + {id} && t.clientRooms[id] == {id}
    ensures id in t.rooms && t.rooms[id] == Room(id, {id})
    ensures forall x :: x in s.clientRooms ==> t.clientRooms[x] == s.clientRooms[x]
    ensures t.rooms - {id} == s.rooms - {id}
  {
    Join(State(s.clientRooms[id := {}], s.rooms[id := NewRoom(id)]), id, id)
  }

  /** The state after client `id` has left every room of `rs` it was asked to leave. */
  function LeaveAll(s: State, id: string, rs: set<string>): State
    requires id in s.clientRooms
  {
    State(s.clientRooms[id := s.clientRooms[id] - rs],
          map q | q in s.rooms && (q in rs ==> s.rooms[q].clients - {id} != {}) ::
            if q in rs then s.rooms[q].(clients := s.rooms[q].clients - {id}) else s.rooms[q])
  }

  /** `deleteClient`: leave every room the client lists, then unregister it. */
  function Disconnect(s: State, id: string): (t: State)
    requires id in s.clientRooms
    ensures t.clientRooms == s.clientRooms - {id}
    ensures t.rooms.Keys <= s.rooms.Keys
    ensures forall q :: q in s.rooms && q !in s.clientRooms[id] ==> q in t.rooms && t.rooms[q] == s.rooms[q]
  {
    var left := LeaveAll(s, id, s.clientRooms[id]);
    State(left.clientRooms - {id}, left.rooms)
  }

  /** Leaving nothing changes nothing. */
  lemma LeaveNone(s: State, id: string)
    requires id in s.clientRooms
    ensures LeaveAll(s, id, {}) == s
  {
    var t := LeaveAll(s, id, {});
    assert s.clientRooms[id] - {} == s.clientRooms[id];
    assert t.rooms == s.rooms;
    assert t.clientRooms == s.clientRooms;
  }

  /**
   * One iteration of `deleteClient`'s loop: leaving one more room after the rooms
   * of `rs` is leaving `rs` and that room together.
   */
  lemma LeaveStep(s: State, id: string, rs: set<string>, r: string)
    requires id in s.clientRooms && r in s.rooms && r !in rs
    ensures r in LeaveAll(s, id, rs).rooms
    ensures Leave(LeaveAll(s, id, rs), id, r) == LeaveAll(s, id, rs + {r})
  {
    var u := LeaveAll(s, id, rs);
    var v := Leave(u, id, r);
    var w := LeaveAll(s, id, rs + {r});
    assert s.clientRooms[id] - rs - {r} == s.clientRooms[id] - (rs + {r});
    assert v.clientRooms == w.clientRooms;
    assert v.rooms.Keys == w.rooms.Keys;
    forall q | q in v.rooms ensures v.rooms[q] == w.rooms[q] {
      if q != r {
        assert v.rooms[q] == u.rooms[q];
      }
    }
  }

  /** Joining keeps the registries valid. */
  lemma JoinPreservesValid(s: State, id: string, r: string)
    requires Valid(s) && id in s.clientRooms
    ensures Valid(Join(s, id, r))
  {
  }

  /** Leaving a room other than one's personal room keeps the registries valid. */
  lemma LeavePreservesValid(s: State, id: string, r: string)
    requires Valid(s) && id in s.clientRooms && r in s.rooms && r != id
    ensures Valid(Leave(s, id, r))
  {
    var t := Leave(s, id, r);
    forall x | x in t.clientRooms ensures x in t.clientRooms[x] {
      assert x in s.clientRooms[x];
    }
    forall x, q | x in t.clientRooms && q in t.clientRooms[x]
      ensures q in t.rooms && t.rooms[q].IsClient(x)
    {
      assert q in s.clientRooms[x];
      if q == r {
        assert x != id && x in s.rooms[r].clients - {id};
      }
    }
    forall q, x | q in t.rooms && t.rooms[q].IsClient(x)
      ensures x in t.clientRooms && q in t.clientRooms[x]
    {
      assert s.rooms[q].IsClient(x);
    }
  }

  /**
   * Connecting a client whose id is neither registered nor the name of an existing
   * room keeps the registries valid.
   */
  lemma ConnectPreservesValid(s: State, id: string)
    requires Valid(s) && id !in s.clientRooms && id !in s.rooms
    ensures Valid(Connect(s, id))
  {
  }

  /**
   * What a disconnect leaves behind: the client is gone from the client registry
   * and from every room, each room it was in lost only that client or was dropped
   * for being empty, and no other room changed.
   */
  lemma DisconnectCleansUp(s: State, id: string)
    requires Consistent(s) && id in s.clientRooms
    ensures var t := Disconnect(s, id);
      && id !in t.clientRooms
      && (forall q :: q in t.rooms ==> !t.rooms[q].IsClient(id))
      && (forall q :: q in s.rooms && q in t.rooms ==> t.rooms[q].clients == s.rooms[q].clients - {id})
      && (forall q :: q in s.rooms && q !in t.rooms ==> s.rooms[q].clients <= {id})
  {
  }

  /** Disconnecting keeps the registries valid. */
  lemma DisconnectPreservesValid(s: State, id: string)
    requires Valid(s) && id in s.clientRooms
    ensures Valid(Disconnect(s, id))
  {
  }

  /** Joining a room the client is already in changes nothing. */
  lemma JoinIdempotent(s: State, id: string, r: string)
    requires Consistent(s) && id in s.clientRooms && r in s.clientRooms[id]
    ensures Join(s, id, r) == s
  {
    var t := Join(s, id, r);
    assert s.rooms[r].IsClient(id);
    assert t.rooms[r] == s.rooms[r];
    assert t.rooms == s.rooms;
    assert s.clientRooms[id] + {r} == s.clientRooms[id];
    assert t.clientRooms == s.clientRooms;
  }

  /** Leaving a room just joined restores the registries: `leaveRoom` undoes `joinRoom`. */
  lemma LeaveUndoesJoin(s: State, id: string, r: string)
    requires Valid(s) && id in s.clientRooms && r !in s.clientRooms[id]
    ensures Leave(Join(s, id, r), id, r) == s
  {
  }

  /**
   * Disconnecting a client just connected restores the registries: `deleteClient`
   * undoes `addClient`, personal room included.
   */
  lemma DisconnectUndoesConnect(s: State, id: string)
    requires Valid(s) && id !in s.clientRooms && id !in s.rooms
    ensures Disconnect(Connect(s, id), id) == s
  {
  }

  /**
   * A broadcast to every existing room reaches every registered client except the
   * sender: each client is at least in its personal room.
   */
  lemma BroadcastToAllReachesEveryClient(s: State, targets: seq<string>, from: string)
    requires Valid(s)
    requires forall r :: r in targets <==> r in s.rooms
    ensures Routing.Audience(s.rooms, targets, from) == s.clientRooms.Keys - {from}
  {
    forall x | x in s.clientRooms ensures x in Routing.Reach(s.rooms, targets) {
      assert x in s.clientRooms[x] && x in s.rooms && x in targets;
      var k :| 0 <= k < |targets| && targets[k] == x;
      Routing.ReachIsUnion(s.rooms, targets, x);
    }
    forall x | x in Routing.Reach(s.rooms, targets) ensures x in s.clientRooms {
      Routing.ReachIsUnion(s.rooms, targets, x);
      var k :| 0 <= k < |targets| && targets[k] in s.rooms && x in s.rooms[targets[k]].clients;
      assert s.rooms[targets[k]].IsClient(x);
    }
  }
}
