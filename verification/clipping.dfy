/** The boundary intersection of one tile, and what it adds to the collected pieces. */
module Clipping {

  /**
   * The kind of geometry the boundary intersection returns: nothing, one
   * polygon, a multi-polygon with its parts in order, or some other non-empty
   * geometry (a line or a point where a tile only touches the boundary).
   */
  datatype Clip<P> = Empty | Single(piece: P) | Multi(parts: seq<P>) | OtherNonEmpty

  /** The `is_empty` test, negated: the tile meets the boundary. */
  predicate NonEmpty<P>(c: Clip<P>) {
    !c.Empty?
  }

  /** The pieces a clip result contributes to the collection, in order. */
  function Contribution<P>(c: Clip<P>): seq<P> {
    match c
    case Empty => []
    case Single(p) => [p]
    case Multi(ps) => ps
    case OtherNonEmpty => []
  }

  /**
   * Appends the pieces of one clip result to the collection: a polygon is
   * appended as it is, a multi-polygon is flattened part by part, and an
   * empty or non-polygonal intersection appends nothing.
   */
  method AppendToResult<P>(collected: seq<P>, c: Clip<P>) returns (r: seq<P>)
    ensures c.Empty? ==> r == collected
    ensures c.Single? ==> r == collected + [c.piece]
    ensures c.Multi? ==> r == collected + c.parts
    ensures c.OtherNonEmpty? ==> r == collected
    ensures r == collected + Contribution(c)
    ensures |r| > |collected| ==> NonEmpty(c)
  {
    r := collected;
    if c.Empty? {
      return;
    }
    match c {
      case Single(p) =>
        r := r + [p];
      case Multi(ps) =>
        var i := 0;
        while i < |ps|
          invariant 0 <= i <= |ps|
          invariant r == collected + ps[..i]
        {
          r := r + [ps[i]];
          i := i + 1;
        }
      case OtherNonEmpty =>
    }
  }
}
