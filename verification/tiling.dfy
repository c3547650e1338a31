/**
 * What both copies of the filler share around the worklist: the tiling
 * parameters, the run guard, the geometry the object is built with, and the
 * fill from the anchor's tile.
 */
module Tiling {
  import opened Outcomes
  import opened Clipping
  import opened Lattices
  import Bfs

  /** The tile generator built by a successful `set_params`. */
  datatype Generator = Generator(radius: real, k: int, theta: real)

  /** The assertion of `set_params`: a positive radius and a side count of 3, 4 or 6. */
  predicate ValidParams(radius: real, k: int) {
    radius > 0.0 && k in {3, 4, 6}
  }

  /** Python truthiness of the stored radius: neither `None` nor zero. */
  predicate Truthy(radius: Option<real>) {
    radius.Some? && radius.value != 0.0
  }

  /**
   * The guard at the head of `run` / `fill`. Only the radius is asserted; a
   * truthy radius with no generator fails on the generator's first use.
   */
  function Guard(radius: Option<real>, generator: Option<Generator>): (r: Outcome)
    ensures r.Pass? <==> Truthy(radius) && generator.Some?
    ensures r == Fail(NotConfigured) <==> !Truthy(radius)
    ensures r.Fail? ==> r.error != InvalidParameters
  {
    if !Truthy(radius) then Fail(NotConfigured)
    else if generator.None? then Fail(MissingTileGenerator)
    else Pass
  }

  /**
   * The geometry fixed when the object is built (boundary and anchor point),
   * left abstract: the tile a generator puts at the anchor, the neighbours a
   * generator lists for a tile, a tile's key, its boundary intersection, and
   * the vertex list of a collected piece.
   */
  datatype Geometry<!T, K, !P, V> = Geometry(
    tileAt: Generator -> T,
    neighboursOf: (Generator, T) -> seq<T>,
    id: T -> K,
    clip: T -> Clip<P>,
    outline: P -> V)

  /** The lattice a generator induces on the fixed geometry. */
  function LatticeOf<T, K, P, V>(geo: Geometry<T, K, P, V>, gen: Generator): Lattice<T, K, P> {
    Lattice(geo.id, t => geo.neighboursOf(gen, t), geo.clip)
  }

  /**
   * With a generator stored, the tiles a walk from its anchor tile can reach
   * carry keys from the finite set `universe`.
   */
  ghost predicate Bounded<T(!new), K, P, V>(geo: Geometry<T, K, P, V>, generator: Option<Generator>, universe: set<K>) {
    generator.Some? ==>
      ReachableKeysWithin(LatticeOf(geo, generator.value), geo.tileAt(generator.value), universe)
  }

  /** The vertex list of every collected piece, in collection order. */
  function Outlines<P, V>(outline: P -> V, ps: seq<P>): seq<V> {
    seq(|ps|, i requires 0 <= i < |ps| => outline(ps[i]))
  }

  /**
   * Builds the anchor's tile with the stored generator and runs the worklist
   * from it over the object's visited keys and collected pieces. `order`,
   * the dequeued tiles, names the breadth-first order the pieces follow.
   */
  method FillFromAnchor<T(!new), K, P, V>(geo: Geometry<T, K, P, V>, gen: Generator, ghost universe: set<K>,
                                         searched: set<K>, pieces: seq<P>)
    returns (searched': set<K>, pieces': seq<P>, ghost order: seq<T>)
    requires ReachableKeysWithin(LatticeOf(geo, gen), geo.tileAt(gen), universe)
    ensures Bfs.Filled(LatticeOf(geo, gen), searched, geo.tileAt(gen), pieces, order, searched', pieces')
    ensures searched <= searched'
    ensures Searched(LatticeOf(geo, gen), searched', geo.tileAt(gen))
    ensures Covered(LatticeOf(geo, gen), searched', geo.tileAt(gen))
    ensures |pieces'| >= |pieces| + |Contribution(geo.clip(geo.tileAt(gen)))|
    ensures pieces'[..|pieces| + |Contribution(geo.clip(geo.tileAt(gen)))|]
            == pieces + Contribution(geo.clip(geo.tileAt(gen)))
    ensures Covered(LatticeOf(geo, gen), searched, geo.tileAt(gen)) ==>
              && pieces' == pieces + Contribution(geo.clip(geo.tileAt(gen)))
              && searched' == Mark(LatticeOf(geo, gen), searched, geo.tileAt(gen))
  {
    var lat, start := LatticeOf(geo, gen), geo.tileAt(gen);
    searched', pieces', order := Bfs.FillByBfs(lat, universe, start, searched, pieces);
    Bfs.FilledAnchor(lat, searched, start, pieces, order, searched', pieces');
  }
}
