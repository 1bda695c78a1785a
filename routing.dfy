/**
 * Broadcast routing (the `broadcastCh` case of `WebSocket.Listen`): walk the target
 * rooms in order and, inside each room, its members; send to a member unless the
 * "already sent" set, seeded with the sender, holds it.
 */
module Routing {
  import opened Rooms
  import opened Enumeration

  /** The members of room `r`, or nobody when there is no such room. */
  function MembersOf(rooms: map<string, Room>, r: string): set<string>
  {
    if r in rooms then rooms[r].clients else {}
  }

  /** Everybody who is a member of at least one of the target rooms. */
  function Reach(rooms: map<string, Room>, targets: seq<string>): set<string>
  {
    if targets == [] then {}
    else Reach(rooms, targets[..|targets| - 1]) + MembersOf(rooms, targets[|targets| - 1])
  }

  /** Who a broadcast from `from` to `targets` must reach: every member but the sender. */
  function Audience(rooms: map<string, Room>, targets: seq<string>, from: string): set<string>
  {
    Reach(rooms, targets) - {from}
  }

  /** `Reach` is exactly the union of the memberships of the target rooms that exist. */
  lemma {:induction false} ReachIsUnion(rooms: map<string, Room>, targets: seq<string>, x: string)
    ensures x in Reach(rooms, targets) <==>
      exists k :: 0 <= k < |targets| && targets[k] in rooms && x in rooms[targets[k]].clients
  {
    if targets != [] {
      var init := targets[..|targets| - 1];
      ReachIsUnion(rooms, init, x);
      if x in Reach(rooms, init) {
        var k :| 0 <= k < |init| && init[k] in rooms && x in rooms[init[k]].clients;
        assert targets[k] == init[k];
      }
      if exists k :: 0 <= k < |targets| && targets[k] in rooms && x in rooms[targets[k]].clients {
        var k :| 0 <= k < |targets| && targets[k] in rooms && x in rooms[targets[k]].clients;
        if k < |init| {
          assert init[k] == targets[k];
        }
      }
    }
  }

  /** The clients the first `k` target rooms reach include those the first `j` reach, for `j <= k`. */
  lemma ReachGrows(rooms: map<string, Room>, targets: seq<string>, j: nat, k: nat)
    requires j <= k <= |targets|
    ensures Reach(rooms, targets[..j]) <= Reach(rooms, targets[..k])
  {
    forall x | x in Reach(rooms, targets[..j]) ensures x in Reach(rooms, targets[..k]) {
      ReachIsUnion(rooms, targets[..j], x);
      var m :| 0 <= m < j && targets[..j][m] in rooms && x in rooms[targets[..j][m]].clients;
      assert targets[..k][m] == targets[..j][m];
      ReachIsUnion(rooms, targets[..k], x);
    }
  }

  /**
   * `ids` lists the clients in the order the target rooms first reach them: whoever
   * comes before a client reached by the first `k` rooms is reached by them too.
   */
  ghost predicate InRoomOrder(rooms: map<string, Room>, targets: seq<string>, ids: seq<string>)
  {
    forall a, b, k :: 0 <= a < b < |ids| && 0 <= k <= |targets| && ids[b] in Reach(rooms, targets[..k]) ==>
      ids[a] in Reach(rooms, targets[..k])
  }

  /**
   * Appending a client that the first `i` rooms do not reach to clients that the
   * first `i + 1` rooms all reach keeps the room order.
   */
  lemma AppendInRoomOrder(rooms: map<string, Room>, targets: seq<string>, ids: seq<string>, i: nat, id: string)
    requires InRoomOrder(rooms, targets, ids) && i < |targets|
    requires forall x :: x in ids ==> x in Reach(rooms, targets[..i + 1])
    requires id !in Reach(rooms, targets[..i])
    ensures InRoomOrder(rooms, targets, ids + [id])
  {
    var longer := ids + [id];
    forall a, b, k | 0 <= a < b < |longer| && 0 <= k <= |targets| && longer[b] in Reach(rooms, targets[..k])
      ensures longer[a] in Reach(rooms, targets[..k])
    {
      if b < |ids| {
        assert longer[a] == ids[a] && longer[b] == ids[b];
      } else if k <= i {
        ReachGrows(rooms, targets, k, i);
        assert false;
      } else {
        assert longer[a] == ids[a] && ids[a] in ids;
        ReachGrows(rooms, targets, i + 1, k);
      }
    }
  }

  /**
   * The nested loop of the broadcast case. Returns the ids sent to, in sending
   * order: every member of a target room other than the sender exactly once, and
   * nobody else.
   */
  method Recipients(rooms: map<string, Room>, targets: seq<string>, from: string)
    returns (delivered: seq<string>)
    requires forall r :: r in targets ==> r in rooms
    ensures Distinct(delivered)
    ensures from !in delivered
    ensures forall x :: x in delivered <==> x in Audience(rooms, targets, from)
    ensures forall x :: multiset(delivered)[x] == if x in Audience(rooms, targets, from) then 1 else 0
    ensures InRoomOrder(rooms, targets, delivered)
  {
    var sent: set<string> := {from};
    delivered := [];
    for i := 0 to |targets|
      invariant sent == Reach(rooms, targets[..i]) + {from}
      invariant forall x :: x in delivered <==> x in sent && x != from
      invariant Distinct(delivered)
      invariant InRoomOrder(rooms, targets, delivered)
    {
      assert targets[..i + 1][..i] == targets[..i];
      var room := rooms[targets[i]];
      var pending := room.clients;
      while pending != {}
        invariant pending <= room.clients
        invariant sent == Reach(rooms, targets[..i]) + (room.clients - pending) + {from}
        invariant forall x :: x in delivered <==> x in sent && x != from
        invariant Distinct(delivered)
        invariant InRoomOrder(rooms, targets, delivered)
        decreases |pending|
      {
        var id :| id in pending;
        pending := pending - {id};
        if id !in sent {
          AppendInRoomOrder(rooms, targets, delivered, i, id);
          delivered := delivered + [id];
          sent := sent + {id};
        }
      }
    }
    assert targets[..|targets|] == targets;
    forall x ensures multiset(delivered)[x] == if x in Audience(rooms, targets, from) then 1 else 0 {
      OccursOnce(delivered, x);
    }
  }
}
