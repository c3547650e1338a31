/** `_get_feasible_neighbors`: the interleaved test-and-mark scan of a neighbour list. */
module Neighbours {
  import opened Lattices

  /** The neighbours a scan accepts, in list order, and the visited set after it. */
  datatype Scan<T, K> = Scan(accepted: seq<T>, visited: set<K>)

  /**
   * Scans `ns` left to right. A neighbour is accepted when its key is not yet
   * visited and it meets the boundary; its key is marked before the next
   * neighbour is tested, so a later entry with the same key is refused.
   * A neighbour that misses the boundary is skipped without being marked.
   */
  function FeasibleNeighbours<T, K, P>(lat: Lattice<T, K, P>, visited: set<K>, ns: seq<T>): (r: Scan<T, K>)
    ensures r.visited == visited + Keys(lat, r.accepted)
    ensures forall i :: 0 <= i < |r.accepted| ==>
              r.accepted[i] in ns && Feasible(lat, r.accepted[i]) && !Searched(lat, visited, r.accepted[i])
    ensures DistinctKeys(lat, r.accepted)
    ensures forall n :: n in ns && Feasible(lat, n) ==> Searched(lat, r.visited, n)
    decreases |ns|
  {
    if |ns| == 0 then
      Scan([], visited)
    else if !Searched(lat, visited, ns[0]) && Feasible(lat, ns[0]) then
      var rest := FeasibleNeighbours(lat, Mark(lat, visited, ns[0]), ns[1..]);
      KeysAppend(lat, [ns[0]], rest.accepted);
      KeysSingleton(lat, ns[0]);
      assert forall n :: n in ns ==> n == ns[0] || n in ns[1..];
      Scan([ns[0]] + rest.accepted, rest.visited)
    else
      var rest := FeasibleNeighbours(lat, visited, ns[1..]);
      assert forall n :: n in ns ==> n == ns[0] || n in ns[1..];
      rest
  }

  /**
   * Index `i` holds a feasible neighbour whose key is not yet visited and is
   * not the key of any earlier feasible entry of the list.
   */
  ghost predicate FirstFresh<T, K, P>(lat: Lattice<T, K, P>, visited: set<K>, ns: seq<T>, i: int)
    requires 0 <= i < |ns|
  {
    && Feasible(lat, ns[i])
    && !Searched(lat, visited, ns[i])
    && forall j :: 0 <= j < i && Feasible(lat, ns[j]) ==> lat.id(ns[j]) != lat.id(ns[i])
  }

  /** Reference definition: the entries of `ns` that are first-fresh, in list order. */
  ghost function Picks<T, K, P>(lat: Lattice<T, K, P>, visited: set<K>, ns: seq<T>): seq<T>
    decreases |ns|
  {
    if |ns| == 0 then []
    else
      Picks(lat, visited, ns[..|ns| - 1])
      + (if FirstFresh(lat, visited, ns, |ns| - 1) then [ns[|ns| - 1]] else [])
  }

  /** Scanning one more entry at the end of the list. */
  lemma {:induction false} ScanSnoc<T, K, P>(lat: Lattice<T, K, P>, visited: set<K>, ns: seq<T>, x: T)
    ensures var r := FeasibleNeighbours(lat, visited, ns);
            FeasibleNeighbours(lat, visited, ns + [x])
            == if !Searched(lat, r.visited, x) && Feasible(lat, x)
               then Scan(r.accepted + [x], Mark(lat, r.visited, x))
               else r
    decreases |ns|
  {
    if |ns| == 0 {
      assert ns + [x] == [x];
      assert [x][1..] == [];
    } else {
      assert (ns + [x])[0] == ns[0];
      assert (ns + [x])[1..] == ns[1..] + [x];
      if !Searched(lat, visited, ns[0]) && Feasible(lat, ns[0]) {
        ScanSnoc(lat, Mark(lat, visited, ns[0]), ns[1..], x);
      } else {
        ScanSnoc(lat, visited, ns[1..], x);
      }
    }
  }

  /**
   * The sequential fold accepts exactly the first-fresh entries: the
   * interleaving of test and mark is what removes later duplicates.
   */
  lemma {:induction false} FoldIsPicks<T, K, P>(lat: Lattice<T, K, P>, visited: set<K>, ns: seq<T>)
    ensures FeasibleNeighbours(lat, visited, ns).accepted == Picks(lat, visited, ns)
    decreases |ns|
  {
    if |ns| > 0 {
      var n := |ns| - 1;
      var init, x := ns[..n], ns[n];
      assert ns == init + [x];
      FoldIsPicks(lat, visited, init);
      ScanSnoc(lat, visited, init, x);
      var r := FeasibleNeighbours(lat, visited, init);
      forall j | 0 <= j < n
        ensures FirstFresh(lat, visited, init, j) == FirstFresh(lat, visited, ns, j)
      {
      }
      if Feasible(lat, x) {
        if Searched(lat, r.visited, x) && !Searched(lat, visited, x) {
          // the key was added by an accepted entry of the prefix
          var i :| 0 <= i < |r.accepted| && lat.id(r.accepted[i]) == lat.id(x);
          var j :| 0 <= j < |init| && init[j] == r.accepted[i];
          assert !FirstFresh(lat, visited, ns, n) by {
            assert ns[j] == init[j];
          }
        }
        if !Searched(lat, r.visited, x) {
          forall j | 0 <= j < n && Feasible(lat, ns[j])
            ensures lat.id(ns[j]) != lat.id(x)
          {
            assert ns[j] == init[j] && init[j] in init;
          }
          assert FirstFresh(lat, visited, ns, n);
        }
      }
    }
  }

  /**
   * The neighbour list built from a closed ring repeats its first centre at
   * the end; that closing entry changes neither the accepted tiles nor the
   * visited set.
   */
  lemma ClosingRepeatAddsNothing<T, K, P>(lat: Lattice<T, K, P>, visited: set<K>, ns: seq<T>)
    requires |ns| >= 2 && ns[|ns| - 1] == ns[0]
    ensures FeasibleNeighbours(lat, visited, ns) == FeasibleNeighbours(lat, visited, ns[..|ns| - 1])
  {
    var init := ns[..|ns| - 1];
    assert ns == init + [ns[0]];
    assert ns[0] in init;
    ScanSnoc(lat, visited, init, ns[0]);
  }
}
