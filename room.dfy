/**
 * A room of the broker (room.go): an id and the set of ids of the clients that
 * joined it. The broker keeps rooms by value in its room registry and replaces a
 * room whenever its membership changes.
 */
module Rooms {
  import opened Enumeration

  datatype Room = Room(ID: string, clients: set<string>)
  {
    /** Whether the client with the given id is a member. */
    predicate IsClient(clientID: string): (member: bool)
      ensures member <==> clientID in clients
    {
      clientID in clients
    }

    /** The ids of every member, each once, in no particular order. */
    method GetClients() returns (ids: seq<string>)
      ensures Distinct(ids)
      ensures |ids| == |clients|
      ensures forall x :: x in ids <==> IsClient(x)
    {
      ids := Enumerate(clients);
    }
  }

  /** A fresh room with the given id and nobody in it. */
  function NewRoom(id: string): (r: Room)
    ensures r.ID == id
    ensures forall x :: !r.IsClient(x)
  {
    Room(id, {})
  }
}
