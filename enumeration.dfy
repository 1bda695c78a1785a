/**
 * Enumerating the keys of a Go map into a slice. The source does this five times
 * (`WebSocket.GetClients`, `WebSocket.GetRooms`, `Client.GetRooms`, `Room.GetClients`
 * and the room snapshot in `Client.Broadcast`): start from an empty slice and
 * append every key met by `range`, in Go's unspecified iteration order.
 */
module Enumeration {

  /** No element occurs twice. */
  ghost predicate Distinct(xs: seq<string>)
  {
    forall i, j :: 0 <= i < j < |xs| ==> xs[i] != xs[j]
  }

  /**
   * The `for k := range m { out = append(out, k) }` loop. The order in which Go
   * visits map keys is unspecified, so the model picks the next key arbitrarily.
   */
  method Enumerate(keys: set<string>) returns (xs: seq<string>)
    ensures Distinct(xs)
    ensures |xs| == |keys|
    ensures forall x :: x in xs <==> x in keys
  {
    xs := [];
    var rest := keys;
    while rest != {}
      invariant rest <= keys
      invariant Distinct(xs)
      invariant forall x :: x in xs <==> x in keys && x !in rest
      invariant |xs| + |rest| == |keys|
      decreases |rest|
    {
      var k :| k in rest;
      xs := xs + [k];
      rest := rest - {k};
    }
  }

  /** In a sequence without duplicates every element occurs exactly once. */
  lemma {:induction false} OccursOnce(xs: seq<string>, x: string)
    requires Distinct(xs)
    ensures multiset(xs)[x] == if x in xs then 1 else 0
  {
    if xs != [] {
      assert xs == [xs[0]] + xs[1..];
      assert Distinct(xs[1..]) by {
        forall i, j | 0 <= i < j < |xs[1..]| ensures xs[1..][i] != xs[1..][j] {
          assert xs[1..][i] == xs[i + 1] && xs[1..][j] == xs[j + 1];
        }
      }
      OccursOnce(xs[1..], x);
      if x == xs[0] {
        assert x !in xs[1..] by {
          forall j | 0 <= j < |xs[1..]| ensures xs[1..][j] != x {
            assert xs[1..][j] == xs[j + 1];
          }
        }
      }
    }
  }
}
