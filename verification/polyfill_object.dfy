/**
 * The filler object of `polyfill.py`: `set_params` stores the tiling
 * parameters, `fill` fills from the anchor's tile and stores the vertex
 * lists of every collected piece, `get_result` reads them back.
 */
module PolyFillObject {
  import opened Outcomes
  import opened Clipping
  import opened Lattices
  import opened Tiling
  import Bfs

  /**
   * The object's attributes. The boundary and anchor live in the `Geometry`
   * passed to `Fill`; `resPolys` holds the collected pieces, `result` their
   * vertex lists as of the last fill, and `searched` the visited keys.
   */
  datatype Filler<P, K, V> = Filler(
    radius: Option<real>,
    k: Option<int>,
    theta: Option<real>,
    generator: Option<Generator>,
    resPolys: seq<P>,
    result: seq<V>,
    searched: set<K>)

  /** The stored vertex lists are those of the collected pieces, under `outline`. */
  ghost predicate Synced<P, K, V>(outline: P -> V, f: Filler<P, K, V>) {
    f.result == Outlines(outline, f.resPolys)
  }

  /** A freshly built object: nothing configured, collected or visited. */
  function New<P, K, V>(): (f: Filler<P, K, V>)
    ensures Guard(f.radius, f.generator) == Fail(NotConfigured)
    ensures |f.resPolys| == 0 && |GetResult(f)| == 0 && |f.searched| == 0
  {
    Filler(None, None, None, None, [], [], {})
  }

  /** `get_result`: the vertex lists stored by the last fill. */
  function GetResult<P, K, V>(f: Filler<P, K, V>): seq<V> {
    f.result
  }

  /**
   * Stores the three parameters, then checks them. A rejected call has
   * already overwritten radius, side count and rotation but keeps the old
   * generator; only an accepted call builds a new one.
   */
  function SetParams<P, K, V>(f: Filler<P, K, V>, radius: real, k: int, theta: real): (r: (Filler<P, K, V>, Outcome))
    ensures r.1.Pass? <==> ValidParams(radius, k)
    ensures r.1.Fail? ==> r.1.error == InvalidParameters
    ensures r.0.radius == Some(radius) && r.0.k == Some(k) && r.0.theta == Some(theta)
    ensures r.0.generator == if r.1.Pass? then Some(Generator(radius, k, theta)) else f.generator
    ensures r.0.resPolys == f.resPolys && r.0.result == f.result && r.0.searched == f.searched
    ensures r.1.Pass? ==> Guard(r.0.radius, r.0.generator) == Pass
  {
    var stored := f.(radius := Some(radius), k := Some(k), theta := Some(theta));
    if ValidParams(radius, k) then
      (stored.(generator := Some(Generator(radius, k, theta))), Pass)
    else
      (stored, Fail(InvalidParameters))
  }

  /**
   * A fresh object is in sync, and `set_params` keeps it so; `fill` puts it
   * in sync too. On an object in sync, `get_result` returns one vertex list
   * per collected piece, in collection order.
   */
  lemma SyncedGetResult<P, K, V>(outline: P -> V, f: Filler<P, K, V>, radius: real, k: int, theta: real)
    ensures Synced(outline, New<P, K, V>())
    ensures Synced(outline, f) ==> Synced(outline, SetParams(f, radius, k, theta).0)
    ensures Synced(outline, f) ==>
              && |GetResult(f)| == |f.resPolys|
              && forall i :: 0 <= i < |f.resPolys| ==> GetResult(f)[i] == outline(f.resPolys[i])
  {
  }

  /**
   * `fill`: fails without touching the object unless the guard passes;
   * otherwise fills from the anchor's tile, keeps earlier pieces and keys,
   * stores one vertex list per collected piece in collection order, and
   * returns the object itself. `order` names the breadth-first order of the
   * dequeued tiles.
   */
  method Fill<T(!new), K, P, V>(f: Filler<P, K, V>, geo: Geometry<T, K, P, V>, ghost universe: set<K>)
    returns (r: Result<Filler<P, K, V>>, ghost order: seq<T>)
    requires Bounded(geo, f.generator, universe)
    ensures r.Ok? <==> Guard(f.radius, f.generator) == Pass
    ensures r.Err? ==> r.error == Guard(f.radius, f.generator).error
    ensures r.Ok? ==> r.value.(resPolys := f.resPolys, result := f.result, searched := f.searched) == f
    ensures r.Ok? ==> |GetResult(r.value)| == |r.value.resPolys|
                      && forall i :: 0 <= i < |r.value.resPolys| ==>
                           GetResult(r.value)[i] == geo.outline(r.value.resPolys[i])
    ensures r.Ok? ==> Synced(geo.outline, r.value)
    ensures r.Ok? ==>
              Bfs.Filled(LatticeOf(geo, f.generator.value), f.searched, geo.tileAt(f.generator.value),
                         f.resPolys, order, r.value.searched, r.value.resPolys)
    ensures r.Ok? ==>
              var lat, start := LatticeOf(geo, f.generator.value), geo.tileAt(f.generator.value);
              && f.searched <= r.value.searched
              && Searched(lat, r.value.searched, start) && Covered(lat, r.value.searched, start)
              && |r.value.resPolys| >= |f.resPolys| + |Contribution(geo.clip(start))|
              && r.value.resPolys[..|f.resPolys| + |Contribution(geo.clip(start))|]
                 == f.resPolys + Contribution(geo.clip(start))
    ensures r.Ok? ==>
              var lat, start := LatticeOf(geo, f.generator.value), geo.tileAt(f.generator.value);
              Covered(lat, f.searched, start) ==>
                && r.value.resPolys == f.resPolys + Contribution(geo.clip(start))
                && r.value.searched == Mark(lat, f.searched, start)
  {
    var guard := Guard(f.radius, f.generator);
    if guard.Fail? {
      return Err(guard.error), [];
    }
    var searched, pieces;
    searched, pieces, order := FillFromAnchor(geo, f.generator.value, universe, f.searched, f.resPolys);
    r := Ok(f.(resPolys := pieces, result := Outlines(geo.outline, pieces), searched := searched));
  }

  /**
   * Filling twice on one object: the second fill keeps every earlier piece,
   * appends the anchor tile's pieces once more, and marks no new key.
   */
  method FillTwice<T(!new), K, P, V>(f: Filler<P, K, V>, geo: Geometry<T, K, P, V>, ghost universe: set<K>)
    returns (first: Result<Filler<P, K, V>>, second: Result<Filler<P, K, V>>)
    requires Bounded(geo, f.generator, universe)
    ensures first.Ok? <==> Guard(f.radius, f.generator) == Pass
    ensures first.Ok? <==> second.Ok?
    ensures first.Ok? ==>
              && second.value.resPolys == first.value.resPolys + Contribution(geo.clip(geo.tileAt(f.generator.value)))
              && second.value.searched == first.value.searched
              && |GetResult(second.value)| >= |GetResult(first.value)|
              && GetResult(second.value)[..|GetResult(first.value)|] == GetResult(first.value)
  {
    ghost var order1, order2;
    first, order1 := Fill(f, geo, universe);
    if first.Ok? {
      second, order2 := Fill(first.value, geo, universe);
      assert GetResult(second.value)[..|GetResult(first.value)|] == GetResult(first.value);
    } else {
      // a failed fill leaves the object as it was
      second, order2 := Fill(f, geo, universe);
    }
  }
}
