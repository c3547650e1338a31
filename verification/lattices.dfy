/** The lattice of tiles as the breadth-first fill sees it. */
module Lattices {
  import opened Clipping

  /**
   * The geometry the fill consumes, left abstract: the identity key of a tile
   * (its centroid printed to six decimals), the tiles listed as its neighbours,
   * and its intersection with the boundary.
   */
  datatype Lattice<!T, K, P> = Lattice(id: T -> K, neighbours: T -> seq<T>, clip: T -> Clip<P>)

  /** A tile is feasible when its boundary intersection is not empty. */
  predicate Feasible<T, K, P>(lat: Lattice<T, K, P>, t: T) {
    NonEmpty(lat.clip(t))
  }

  /**
   * `_is_searched`: the tile's key is already in the visited set, which is
   * exactly when marking the tile would change nothing.
   */
  predicate Searched<T, K, P>(lat: Lattice<T, K, P>, visited: set<K>, t: T): (b: bool)
    ensures b <==> Mark(lat, visited, t) == visited
  {
    lat.id(t) in visited
  }

  /** `_mark_as_searched`: the visited set with the tile's key added. */
  function Mark<T, K, P>(lat: Lattice<T, K, P>, visited: set<K>, t: T): (r: set<K>)
    ensures lat.id(t) in r
    ensures visited <= r && r - visited <= {lat.id(t)}
  {
    visited + {lat.id(t)}
  }

  /** The keys of a sequence of tiles. */
  ghost function Keys<T, K, P>(lat: Lattice<T, K, P>, ts: seq<T>): set<K> {
    set i | 0 <= i < |ts| :: lat.id(ts[i])
  }

  /** No two tiles of the sequence share a key. */
  ghost predicate DistinctKeys<T, K, P>(lat: Lattice<T, K, P>, ts: seq<T>) {
    forall i, j :: 0 <= i < j < |ts| ==> lat.id(ts[i]) != lat.id(ts[j])
  }

  /**
   * A walk through the lattice: every tile after the first is a feasible
   * neighbour of the tile before it.
   */
  ghost predicate Walk<T, K, P>(lat: Lattice<T, K, P>, p: seq<T>)
    decreases |p|
  {
    && |p| >= 1
    && (|p| == 1
        || (Walk(lat, p[..|p| - 1])
            && p[|p| - 1] in lat.neighbours(p[|p| - 2])
            && Feasible(lat, p[|p| - 1])))
  }

  /** Some walk leads from `start` to `t`. */
  ghost predicate Reached<T(!new), K, P>(lat: Lattice<T, K, P>, start: T, t: T) {
    exists p :: |p| >= 1 && Walk(lat, p) && p[0] == start && p[|p| - 1] == t
  }

  /**
   * Every tile a walk from `start` can reach has its key in `universe`: the
   * tiles the fill can ever enqueue carry finitely many keys.
   */
  ghost predicate ReachableKeysWithin<T(!new), K, P>(lat: Lattice<T, K, P>, start: T, universe: set<K>) {
    forall p :: |p| >= 1 && Walk(lat, p) && p[0] == start ==> lat.id(p[|p| - 1]) in universe
  }

  lemma ReachedStart<T(!new), K, P>(lat: Lattice<T, K, P>, start: T)
    ensures Reached(lat, start, start)
  {
    assert Walk(lat, [start]);
  }

  /** The feasible neighbours of a reached tile are reached too. */
  lemma ReachedNeighbours<T(!new), K, P>(lat: Lattice<T, K, P>, start: T, t: T, ns: seq<T>)
    requires Reached(lat, start, t)
    requires forall i :: 0 <= i < |ns| ==> ns[i] in lat.neighbours(t) && Feasible(lat, ns[i])
    ensures forall i :: 0 <= i < |ns| ==> Reached(lat, start, ns[i])
  {
    var p :| |p| >= 1 && Walk(lat, p) && p[0] == start && p[|p| - 1] == t;
    forall i | 0 <= i < |ns|
      ensures Reached(lat, start, ns[i])
    {
      var q := p + [ns[i]];
      assert q[..|q| - 1] == p;
      assert Walk(lat, q);
    }
  }

  /** Every feasible neighbour of `t` has its key in `visited`. */
  ghost predicate Covered<T, K, P>(lat: Lattice<T, K, P>, visited: set<K>, t: T) {
    forall n :: n in lat.neighbours(t) && Feasible(lat, n) ==> lat.id(n) in visited
  }

  /** A reached tile's key lies in `universe` when every reachable key does. */
  lemma ReachedWithin<T(!new), K, P>(lat: Lattice<T, K, P>, start: T, universe: set<K>, t: T)
    requires ReachableKeysWithin(lat, start, universe) && Reached(lat, start, t)
    ensures lat.id(t) in universe
  {
    var p :| |p| >= 1 && Walk(lat, p) && p[0] == start && p[|p| - 1] == t;
  }

  lemma KeysSingleton<T, K, P>(lat: Lattice<T, K, P>, t: T)
    ensures Keys(lat, [t]) == {lat.id(t)}
  {
    assert [t][0] == t;
  }

  lemma KeysAppend<T, K, P>(lat: Lattice<T, K, P>, a: seq<T>, b: seq<T>)
    ensures Keys(lat, a + b) == Keys(lat, a) + Keys(lat, b)
  {
    var ab := a + b;
    forall k | k in Keys(lat, a + b)
      ensures k in Keys(lat, a) + Keys(lat, b)
    {
      var i :| 0 <= i < |ab| && lat.id(ab[i]) == k;
      if i < |a| {
        assert ab[i] == a[i];
      } else {
        assert ab[i] == b[i - |a|];
      }
    }
    forall k | k in Keys(lat, a) + Keys(lat, b)
      ensures k in Keys(lat, a + b)
    {
      if k in Keys(lat, a) {
        var i :| 0 <= i < |a| && lat.id(a[i]) == k;
        assert ab[i] == a[i];
      } else {
        var i :| 0 <= i < |b| && lat.id(b[i]) == k;
        assert ab[|a| + i] == b[i];
      }
    }
  }
}
