/**
 * The filler object of `poly_fill.py`: `set_params` stores the tiling
 * parameters, `run` fills from the anchor's tile and returns the vertex
 * lists of every piece the object has collected.
 */
module PolyFillRun {
  import opened Outcomes
  import opened Clipping
  import opened Lattices
  import opened Tiling
  import Bfs

  /**
   * The object's attributes. The boundary and anchor live in the `Geometry`
   * passed to `Run`; `result` holds the collected pieces and `searched` the
   * visited keys, both kept across runs.
   */
  datatype Filler<P, K> = Filler(
    radius: Option<real>,
    k: Option<int>,
    theta: Option<real>,
    generator: Option<Generator>,
    result: seq<P>,
    searched: set<K>)

  /** A freshly built object: nothing configured, collected or visited. */
  function New<P, K>(): (f: Filler<P, K>)
    ensures Guard(f.radius, f.generator) == Fail(NotConfigured)
    ensures |f.result| == 0 && |f.searched| == 0
  {
    Filler(None, None, None, None, [], {})
  }

  /**
   * Stores the three parameters, then checks them. A rejected call has
   * already overwritten radius, side count and rotation but keeps the old
   * generator; only an accepted call builds a new one.
   */
  function SetParams<P, K>(f: Filler<P, K>, radius: real, k: int, theta: real): (r: (Filler<P, K>, Outcome))
    ensures r.1.Pass? <==> ValidParams(radius, k)
    ensures r.1.Fail? ==> r.1.error == InvalidParameters
    ensures r.0.radius == Some(radius) && r.0.k == Some(k) && r.0.theta == Some(theta)
    ensures r.0.generator == if r.1.Pass? then Some(Generator(radius, k, theta)) else f.generator
    ensures r.0.result == f.result && r.0.searched == f.searched
    ensures r.1.Pass? ==> Guard(r.0.radius, r.0.generator) == Pass
  {
    var stored := f.(radius := Some(radius), k := Some(k), theta := Some(theta));
    if ValidParams(radius, k) then
      (stored.(generator := Some(Generator(radius, k, theta))), Pass)
    else
      (stored, Fail(InvalidParameters))
  }

  /**
   * A rejected `set_params` on an object that was configured before leaves
   * it passing the run guard with the earlier generator, while its radius,
   * side count and rotation hold the rejected values.
   */
  lemma RejectedResetKeepsGenerator<P, K>(f: Filler<P, K>, r1: real, k1: int, t1: real,
                                          r2: real, k2: int, t2: real)
    requires ValidParams(r1, k1) && !ValidParams(r2, k2) && r2 != 0.0
    ensures var g := SetParams(SetParams(f, r1, k1, t1).0, r2, k2, t2).0;
            && Guard(g.radius, g.generator) == Pass
            && g.generator == Some(Generator(r1, k1, t1))
            && g.radius == Some(r2) && g.k == Some(k2)
  {
  }

  /**
   * A rejected `set_params` on a fresh object: a zero radius fails the run
   * guard, any other radius passes it and fails on the missing generator.
   */
  lemma RejectedFirstSetParams<P, K>(radius: real, k: int, theta: real)
    requires !ValidParams(radius, k)
    ensures var g := SetParams(New<P, K>(), radius, k, theta).0;
            Guard(g.radius, g.generator) == if radius == 0.0 then Fail(NotConfigured) else Fail(MissingTileGenerator)
  {
  }

  /**
   * `run`: fails without touching the object unless the guard passes;
   * otherwise fills from the anchor's tile, keeps earlier pieces and keys,
   * and returns one vertex list per collected piece, in collection order.
   * `order` names the breadth-first order of the dequeued tiles.
   */
  method Run<T(!new), K, P, V>(f: Filler<P, K>, geo: Geometry<T, K, P, V>, ghost universe: set<K>)
    returns (f': Filler<P, K>, r: Result<seq<V>>, ghost order: seq<T>)
    requires Bounded(geo, f.generator, universe)
    ensures r.Ok? <==> Guard(f.radius, f.generator) == Pass
    ensures r.Err? ==> f' == f && r.error == Guard(f.radius, f.generator).error
    ensures r.Ok? ==> f'.(result := f.result, searched := f.searched) == f
    ensures r.Ok? ==> |r.value| == |f'.result|
                      && forall i :: 0 <= i < |f'.result| ==> r.value[i] == geo.outline(f'.result[i])
    ensures r.Ok? ==>
              Bfs.Filled(LatticeOf(geo, f.generator.value), f.searched, geo.tileAt(f.generator.value),
                         f.result, order, f'.searched, f'.result)
    ensures r.Ok? ==>
              var lat, start := LatticeOf(geo, f.generator.value), geo.tileAt(f.generator.value);
              && f.searched <= f'.searched
              && Searched(lat, f'.searched, start) && Covered(lat, f'.searched, start)
              && |f'.result| >= |f.result| + |Contribution(geo.clip(start))|
              && f'.result[..|f.result| + |Contribution(geo.clip(start))|] == f.result + Contribution(geo.clip(start))
    ensures r.Ok? ==>
              var lat, start := LatticeOf(geo, f.generator.value), geo.tileAt(f.generator.value);
              Covered(lat, f.searched, start) ==>
                f'.result == f.result + Contribution(geo.clip(start)) && f'.searched == Mark(lat, f.searched, start)
  {
    var guard := Guard(f.radius, f.generator);
    if guard.Fail? {
      return f, Err(guard.error), [];
    }
    var searched, pieces;
    searched, pieces, order := FillFromAnchor(geo, f.generator.value, universe, f.searched, f.result);
    f' := f.(result := pieces, searched := searched);
    r := Ok(Outlines(geo.outline, pieces));
  }

  /** Vertex lists of a longer piece sequence start with those of its prefix. */
  lemma OutlinesKeepPrefix<P, V>(outline: P -> V, ps: seq<P>, extra: seq<P>, vs: seq<V>, vs': seq<V>)
    requires |vs| == |ps| && forall i :: 0 <= i < |ps| ==> vs[i] == outline(ps[i])
    requires |vs'| == |ps + extra| && forall i :: 0 <= i < |ps + extra| ==> vs'[i] == outline((ps + extra)[i])
    ensures |vs'| == |vs| + |extra| && vs'[..|vs|] == vs
  {
    forall i | 0 <= i < |vs|
      ensures vs'[i] == vs[i]
    {
      assert (ps + extra)[i] == ps[i];
    }
  }

  /**
   * Running twice on one object: the second run keeps every earlier piece,
   * appends the anchor tile's pieces once more, and marks no new key.
   */
  method RunTwice<T(!new), K, P, V>(f: Filler<P, K>, geo: Geometry<T, K, P, V>, ghost universe: set<K>)
    returns (f1: Filler<P, K>, r1: Result<seq<V>>, f2: Filler<P, K>, r2: Result<seq<V>>)
    requires Bounded(geo, f.generator, universe)
    ensures r1.Ok? <==> r2.Ok?
    ensures r1.Ok? <==> Guard(f.radius, f.generator) == Pass
    ensures r1.Ok? ==>
              && f2.result == f1.result + Contribution(geo.clip(geo.tileAt(f.generator.value)))
              && f2.searched == f1.searched
              && |r2.value| == |r1.value| + |Contribution(geo.clip(geo.tileAt(f.generator.value)))|
              && r2.value[..|r1.value|] == r1.value
  {
    ghost var order1, order2;
    f1, r1, order1 := Run(f, geo, universe);
    if r1.Ok? {
      assert f1.generator == f.generator;
      f2, r2, order2 := Run(f1, geo, universe);
      OutlinesKeepPrefix(geo.outline, f1.result, Contribution(geo.clip(geo.tileAt(f.generator.value))),
                         r1.value, r2.value);
    } else {
      // a failed run leaves the object as it was
      f2, r2, order2 := Run(f1, geo, universe);
    }
  }
}
