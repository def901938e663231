/**
 * Positions and rings shared by the polygon validator and the area controllers.
 * A position is a [longitude, latitude] pair (section 3.1.1 of RFC 7946); a linear
 * ring is closed when its first and last positions are equal (section 3.1.6).
 * Coordinates are only copied and compared, so `real` stands for the source's
 * `double` (NaN and signed zero are not modelled).
 */
module Geometry {

  datatype Position = Position(x: real, y: real)

  /** The SRID the server tags every polygon with: WGS84 longitude/latitude. */
  const Wgs84Srid: int := 4326

  datatype Polygon = Polygon(shell: seq<Position>, srid: int)

  predicate IsClosed(ring: seq<Position>) {
    |ring| > 0 && ring[0] == ring[|ring| - 1]
  }

  /**
   * Closes a ring the way both the validator and `CreateArea` do: when the first
   * position differs from the last, a copy of the first is appended.
   */
  function CloseRing(ps: seq<Position>): (ring: seq<Position>)
    requires |ps| > 0
    ensures IsClosed(ring)
    ensures |ring| == if IsClosed(ps) then |ps| else |ps| + 1
    ensures ring[..|ps|] == ps
  {
    if ps[0] != ps[|ps| - 1] then ps + [ps[0]] else ps
  }

  /** Closing is idempotent: a closed ring is left as it is. */
  lemma CloseRingIdempotent(ps: seq<Position>)
    requires |ps| > 0
    ensures CloseRing(CloseRing(ps)) == CloseRing(ps)
  {
  }

  /** Every position of a closed ring built from `ps` is a position of `ps`. */
  lemma CloseRingAddsNoNewPosition(ps: seq<Position>, i: nat)
    requires |ps| > 0 && i < |CloseRing(ps)|
    ensures CloseRing(ps)[i] in ps
  {
    if i >= |ps| {
      assert CloseRing(ps)[i] == ps[0];
    } else {
      assert CloseRing(ps)[i] == ps[i];
    }
  }

  /** The [x, y] pairs a response lists for a polygon, in ring order. */
  function CoordinatePairs(ring: seq<Position>): (pairs: seq<seq<real>>)
    ensures |pairs| == |ring|
    ensures forall i | 0 <= i < |ring| :: pairs[i] == [ring[i].x, ring[i].y]
  {
    if ring == [] then [] else [[ring[0].x, ring[0].y]] + CoordinatePairs(ring[1..])
  }
}
