/**
 * `PolygonValidator.FromLngLat`: guard checks, ring closing and the geometric
 * validity check that turn client coordinates into a WGS84 polygon.
 * Coordinates arrive as a possibly-null array of arrays of numbers; the NTS
 * validity check (`IsValidOp`) is passed in as `validityError`, which yields
 * the validation error it reports, if any.
 */
module PolygonValidator {
  import opened Wrappers
  import opened Geometry

  /** The error strings `FromLngLat` returns. */
  datatype Error =
    | TooFewPoints           // "Polygon must contain at least 4 points (including closure)."
    | NotLngLat              // "Each coordinate must be [lng, lat]."
    | RingNotClosed          // "LinearRing is not closed."
    | InvalidPolygon(detail: string)  // "Invalid polygon: <message> (at <x>,<y>)"

  function Message(e: Error): string {
    match e
    case TooFewPoints => "Polygon must contain at least 4 points (including closure)."
    case NotLngLat => "Each coordinate must be [lng, lat]."
    case RingNotClosed => "LinearRing is not closed."
    case InvalidPolygon(detail) => "Invalid polygon: " + detail
  }

  datatype Result = Result(isValid: bool, error: Option<Error>, polygon: Option<Polygon>)

  type Pairs = seq<seq<real>>

  /** The first and last pairs are checked to have exactly two components. */
  predicate EndsAreLngLat(coords: Pairs)
    requires |coords| > 0
  {
    |coords[0]| == 2 && |coords[|coords| - 1]| == 2
  }

  /**
   * The inputs on which `FromLngLat` does not throw: once the guards pass, every
   * pair is read as `c[0], c[1]`, and a middle pair with fewer than two
   * components raises an index exception.
   */
  predicate ReadableOnceGuarded(coords: Option<Pairs>) {
    coords.Some? && |coords.value| >= 4 && EndsAreLngLat(coords.value) ==>
      forall i | 0 < i < |coords.value| - 1 :: |coords.value[i]| >= 2
  }

  /** `new Coordinate(c[0], c[1])` for every pair; extra components are ignored. */
  function ToPositions(coords: Pairs): (ps: seq<Position>)
    requires forall i | 0 <= i < |coords| :: |coords[i]| >= 2
    ensures |ps| == |coords|
    ensures forall i | 0 <= i < |coords| :: ps[i] == Position(coords[i][0], coords[i][1])
  {
    if coords == [] then [] else [Position(coords[0][0], coords[0][1])] + ToPositions(coords[1..])
  }

  /** The ring `FromLngLat` builds from guarded input: the positions, closed. */
  function RingOf(coords: Pairs): (ring: seq<Position>)
    requires |coords| >= 4 && EndsAreLngLat(coords)
    requires forall i | 0 < i < |coords| - 1 :: |coords[i]| >= 2
    ensures IsClosed(ring) && |ring| >= 4
    ensures |ring| == |coords| || |ring| == |coords| + 1
    ensures forall i | 0 <= i < |coords| :: ring[i] == Position(coords[i][0], coords[i][1])
  {
    CloseRing(ToPositions(coords))
  }

  function FromLngLat(coords: Option<Pairs>, validityError: Polygon -> Option<string>): (r: Result)
    requires ReadableOnceGuarded(coords)
    // IsValid holds exactly when there is no error and there is a polygon
    ensures r.isValid <==> r.error.None? && r.polygon.Some?
    ensures !r.isValid ==> r.polygon.None? && r.error.Some?
    // null or fewer than 4 pairs
    ensures coords.None? || |coords.value| < 4 ==> r == Result(false, Some(TooFewPoints), None)
    // a first or last pair that is not [lng, lat]
    ensures coords.Some? && |coords.value| >= 4 && !EndsAreLngLat(coords.value) ==>
              r == Result(false, Some(NotLngLat), None)
    // the closing step makes the "not closed" error unreachable
    ensures r.error != Some(RingNotClosed)
    // once the guards pass, the verdict is the geometric check's, on the closed ring
    ensures coords.Some? && |coords.value| >= 4 && EndsAreLngLat(coords.value) ==>
              var p := Polygon(RingOf(coords.value), Wgs84Srid);
              match validityError(p)
              case None => r == Result(true, None, Some(p))
              case Some(detail) => r == Result(false, Some(InvalidPolygon(detail)), None)
  {
    if coords.None? || |coords.value| < 4 then
      Result(false, Some(TooFewPoints), None)
    else if !EndsAreLngLat(coords.value) then
      Result(false, Some(NotLngLat), None)
    else
      var ring := CloseRing(ToPositions(coords.value));
      if !IsClosed(ring) then
        Result(false, Some(RingNotClosed), None)
      else
        var polygon := Polygon(ring, Wgs84Srid);
        match validityError(polygon)
        case Some(detail) => Result(false, Some(InvalidPolygon(detail)), None)
        case None => Result(true, None, Some(polygon))
  }

  /**
   * The polygon of a valid result is a closed WGS84 ring of at least four
   * positions that starts with the input pairs in order; it has n+1 positions
   * when the input was open and n when it was already closed.
   */
  lemma ValidPolygonShape(coords: Option<Pairs>, validityError: Polygon -> Option<string>)
    requires ReadableOnceGuarded(coords)
    requires FromLngLat(coords, validityError).isValid
    // a valid result passed both guards
    ensures coords.Some? && |coords.value| >= 4 && EndsAreLngLat(coords.value)
    ensures var p := FromLngLat(coords, validityError).polygon.value;
            var n := |coords.value|;
            && p.srid == Wgs84Srid
            && IsClosed(p.shell)
            && |p.shell| >= 4
            && (forall i | 0 <= i < n :: p.shell[i] == Position(coords.value[i][0], coords.value[i][1]))
            && (coords.value[0] == coords.value[n - 1] ==> |p.shell| == n)
            && (coords.value[0] != coords.value[n - 1] ==> |p.shell| == n + 1 && p.shell[n] == p.shell[0])
  {
    var n := |coords.value|;
    var ps := ToPositions(coords.value);
    var p := FromLngLat(coords, validityError).polygon.value;
    assert p.shell == CloseRing(ps);
    forall i | 0 <= i < n
      ensures p.shell[i] == Position(coords.value[i][0], coords.value[i][1])
    {
      assert p.shell[..n][i] == ps[i];
    }
    // two-component pairs are equal exactly when their positions are
    assert coords.value[0] == [coords.value[0][0], coords.value[0][1]];
    assert coords.value[n - 1] == [coords.value[n - 1][0], coords.value[n - 1][1]];
  }

  /** Three pairs are rejected even when closing them would give four positions. */
  lemma OpenTriangleRejected(a: seq<real>, b: seq<real>, c: seq<real>, validityError: Polygon -> Option<string>)
    ensures !FromLngLat(Some([a, b, c]), validityError).isValid
    ensures FromLngLat(Some([a, b, c]), validityError).error == Some(TooFewPoints)
  {
  }

  /** The unclosed unit square of the test suite closes to five positions. */
  lemma UnclosedSquareGetsFivePoints(validityError: Polygon -> Option<string>)
    requires validityError(Polygon(
      [Position(0.0, 0.0), Position(0.0, 1.0), Position(1.0, 1.0), Position(1.0, 0.0), Position(0.0, 0.0)],
      Wgs84Srid)).None?
    ensures var r := FromLngLat(Some([[0.0, 0.0], [0.0, 1.0], [1.0, 1.0], [1.0, 0.0]]), validityError);
            r.isValid && |r.polygon.value.shell| == 5
  {
    var coords: Pairs := [[0.0, 0.0], [0.0, 1.0], [1.0, 1.0], [1.0, 0.0]];
    var ps := [Position(0.0, 0.0), Position(0.0, 1.0), Position(1.0, 1.0), Position(1.0, 0.0)];
    assert ToPositions(coords) == ps;
    var closed := [Position(0.0, 0.0), Position(0.0, 1.0), Position(1.0, 1.0), Position(1.0, 0.0), Position(0.0, 0.0)];
    assert ps + [Position(0.0, 0.0)] == closed;
    assert RingOf(coords) == closed;
  }
}
