/**
 * `AreasController` and `AreaVersionsController` over an in-memory store: the
 * `Areas` and `AreaVersions` sets of the database are `seq` fields that the
 * controllers append to. Fresh `Guid`s are parameters; PostGIS `Intersects`
 * and the NTS validity check are function parameters.
 */
module Areas {
  import opened Wrappers
  import opened Strings
  import opened Geometry
  import opened PolygonValidator
  import opened UserCache

  type AreaId = string
  type VersionId = string

  datatype Area = Area(id: AreaId, name: string, geometry: Polygon, createdByUserId: UserId, isDeleted: bool)

  datatype AreaVersion = AreaVersion(
    id: VersionId, areaId: AreaId, versionNumber: int, name: string, geometry: Polygon, editedByUserId: UserId)

  /** The store behind `AppDbContext.Areas` and `AppDbContext.AreaVersions`. */
  class AppDb {
    var areas: seq<Area>
    var areaVersions: seq<AreaVersion>

    constructor ()
      ensures areas == [] && areaVersions == []
    {
      areas, areaVersions := [], [];
    }
  }

  /** The request body of `CreateArea`, with the creator's id it is read for. */
  datatype AreaCreateDto = AreaCreateDto(name: Option<string>, coordinates: Option<Pairs>, userId: UserId)

  datatype AreaVersionCreateDto = AreaVersionCreateDto(name: Option<string>, coordinates: Option<Pairs>)

  /** `AreaResultDto` without the database-computed `AreaKm2`. */
  datatype AreaResult = AreaResult(id: AreaId, name: string, coordinates: seq<seq<real>>)

  /** `AreaVersionResultDto` without its `CreatedAt` time stamp. */
  datatype VersionResult = VersionResult(id: VersionId, versionNumber: int, name: string, coordinates: seq<seq<real>>)

  /** The controllers' responses: 200, 400 with a text, 400 with `{ error }`, 404. */
  datatype Reply<T> = Ok(value: T) | BadRequest(message: string) | BadRequestError(error: Error) | NotFound(message: string)

  // ---------------------------------------------------------------- CreateArea

  /** The guard of `CreateArea`: a non-blank name and at least four coordinates. */
  predicate CreateAreaAccepts(dto: AreaCreateDto) {
    !IsNullOrWhiteSpace(dto.name) && dto.coordinates.Some? && |dto.coordinates.value| >= 4
  }

  /** Once the guard passes every pair is read as `c[0], c[1]`; a shorter pair throws. */
  predicate CreateAreaReadable(dto: AreaCreateDto) {
    CreateAreaAccepts(dto) ==> forall i | 0 <= i < |dto.coordinates.value| :: |dto.coordinates.value[i]| >= 2
  }

  /** The polygon `CreateArea` stores: the positions, closed when first differs from last. */
  function ShellOf(dto: AreaCreateDto): (p: Polygon)
    requires CreateAreaAccepts(dto) && CreateAreaReadable(dto)
    ensures p.srid == Wgs84Srid && IsClosed(p.shell) && |p.shell| >= 4
  {
    Polygon(CloseRing(ToPositions(dto.coordinates.value)), Wgs84Srid)
  }

  /**
   * `CreateArea` keeps the input positions in order and appends a copy of the
   * first one exactly when the first and last differ.
   */
  lemma CreateAreaClosesRing(dto: AreaCreateDto)
    requires CreateAreaAccepts(dto) && CreateAreaReadable(dto)
    ensures var cs := dto.coordinates.value;
            var n := |cs|;
            var shell := ShellOf(dto).shell;
            && (forall i | 0 <= i < n :: shell[i] == Position(cs[i][0], cs[i][1]))
            && (Position(cs[0][0], cs[0][1]) != Position(cs[n - 1][0], cs[n - 1][1]) ==>
                  |shell| == n + 1 && shell[n] == shell[0])
            && (Position(cs[0][0], cs[0][1]) == Position(cs[n - 1][0], cs[n - 1][1]) ==> |shell| == n)
  {
    var ps := ToPositions(dto.coordinates.value);
    var shell := ShellOf(dto).shell;
    forall i | 0 <= i < |ps| ensures shell[i] == ps[i] {
      assert shell[..|ps|][i] == ps[i];
    }
  }

  function ToAreaResult(a: Area): (r: AreaResult)
    ensures r.id == a.id && r.name == a.name && |r.coordinates| == |a.geometry.shell|
  {
    AreaResult(a.id, a.name, CoordinatePairs(a.geometry.shell))
  }

  function AreaIds(areas: seq<Area>): set<AreaId> {
    set a | a in areas :: a.id
  }

  function VersionIds(versions: seq<AreaVersion>): set<VersionId> {
    set v | v in versions :: v.id
  }

  // ---------------------------------------------------------------- GetAreas

  /** The bounding-box polygon `GetAreas` builds, corner by corner, closed. */
  function EnvelopeRing(minLng: real, minLat: real, maxLng: real, maxLat: real): seq<Position> {
    [Position(minLng, minLat), Position(minLng, maxLat), Position(maxLng, maxLat),
     Position(maxLng, minLat), Position(minLng, minLat)]
  }

  /**
   * The envelope is a closed ring of five positions whose vertices are the box's
   * corners and whose consecutive vertices share a longitude or a latitude.
   */
  lemma EnvelopeIsBox(minLng: real, minLat: real, maxLng: real, maxLat: real)
    ensures var ring := EnvelopeRing(minLng, minLat, maxLng, maxLat);
      && |ring| == 5 && IsClosed(ring)
      && (forall i | 0 <= i < 5 :: (ring[i].x == minLng || ring[i].x == maxLng) && (ring[i].y == minLat || ring[i].y == maxLat))
      && (forall i | 0 <= i < 4 :: ring[i].x == ring[i + 1].x || ring[i].y == ring[i + 1].y)
      && Position(minLng, minLat) in ring && Position(minLng, maxLat) in ring
      && Position(maxLng, maxLat) in ring && Position(maxLng, minLat) in ring
  {
  }

  /** The areas `GetAreas` returns: not soft-deleted and intersecting the envelope, in store order. */
  function VisibleAreas(areas: seq<Area>, envelope: Polygon, intersects: (Polygon, Polygon) -> bool): (r: seq<Area>)
    ensures |r| <= |areas|
    ensures forall i | 0 <= i < |r| :: !r[i].isDeleted && intersects(r[i].geometry, envelope)
  {
    if areas == [] then []
    else if !areas[0].isDeleted && intersects(areas[0].geometry, envelope)
    then [areas[0]] + VisibleAreas(areas[1..], envelope, intersects)
    else VisibleAreas(areas[1..], envelope, intersects)
  }

  lemma {:induction false} VisibleAreasMembership(areas: seq<Area>, envelope: Polygon, intersects: (Polygon, Polygon) -> bool, a: Area)
    ensures a in VisibleAreas(areas, envelope, intersects) <==>
              a in areas && !a.isDeleted && intersects(a.geometry, envelope)
  {
    if areas != [] {
      VisibleAreasMembership(areas[1..], envelope, intersects, a);
      assert areas == [areas[0]] + areas[1..];
    }
  }

  function AreaResults(areas: seq<Area>): (rs: seq<AreaResult>)
    ensures |rs| == |areas|
    ensures forall i | 0 <= i < |areas| :: rs[i] == ToAreaResult(areas[i])
  {
    if areas == [] then [] else [ToAreaResult(areas[0])] + AreaResults(areas[1..])
  }

  // ---------------------------------------------------------------- versions

  /** The highest version number stored for `areaId`, if any. */
  function HighestVersion(versions: seq<AreaVersion>, areaId: AreaId): (h: Option<int>)
    ensures h.None? <==> forall v | v in versions :: v.areaId != areaId
    ensures h.Some? ==> exists v | v in versions :: v.areaId == areaId && v.versionNumber == h.value
    ensures h.Some? ==> forall v | v in versions && v.areaId == areaId :: v.versionNumber <= h.value
  {
    if versions == [] then None
    else
      var rest := HighestVersion(versions[1..], areaId);
      assert versions == [versions[0]] + versions[1..];
      if versions[0].areaId != areaId then rest
      else if rest.None? || rest.value < versions[0].versionNumber then Some(versions[0].versionNumber)
      else rest
  }

  /** The query at the heart of `CreateVersion`: the highest number plus one, or 0 + 1 when there is none. */
  function NextVersionNumber(versions: seq<AreaVersion>, areaId: AreaId): (n: int)
    ensures forall v | v in versions && v.areaId == areaId :: v.versionNumber < n
    ensures (forall v | v in versions :: v.areaId != areaId) ==> n == 1
    ensures (exists v | v in versions :: v.areaId == areaId) ==>
              exists v | v in versions :: v.areaId == areaId && v.versionNumber == n - 1
  {
    HighestVersion(versions, areaId).GetOr(0) + 1
  }

  /** The unique index on `(area_id, version_number)`. */
  predicate UniqueVersionKeys(versions: seq<AreaVersion>) {
    forall i, j | 0 <= i < j < |versions| ::
      versions[i].areaId != versions[j].areaId || versions[i].versionNumber != versions[j].versionNumber
  }

  /** Appending the next version number never breaks the unique index. */
  lemma NextVersionKeepsKeysUnique(versions: seq<AreaVersion>, v: AreaVersion)
    requires UniqueVersionKeys(versions)
    requires v.versionNumber == NextVersionNumber(versions, v.areaId)
    ensures UniqueVersionKeys(versions + [v])
  {
    var all := versions + [v];
    forall i, j | 0 <= i < j < |all|
      ensures all[i].areaId != all[j].areaId || all[i].versionNumber != all[j].versionNumber
    {
      if j == |versions| {
        assert all[i] in versions;
      }
    }
  }

  /** The versions stored for `areaId`, in store order. */
  function VersionsOf(versions: seq<AreaVersion>, areaId: AreaId): (r: seq<AreaVersion>)
    ensures |r| <= |versions|
    ensures forall i | 0 <= i < |r| :: r[i].areaId == areaId
  {
    if versions == [] then []
    else if versions[0].areaId == areaId then [versions[0]] + VersionsOf(versions[1..], areaId)
    else VersionsOf(versions[1..], areaId)
  }

  lemma {:induction false} VersionsOfMembership(versions: seq<AreaVersion>, areaId: AreaId, v: AreaVersion)
    ensures v in VersionsOf(versions, areaId) <==> v in versions && v.areaId == areaId
  {
    if versions != [] {
      VersionsOfMembership(versions[1..], areaId, v);
      assert versions == [versions[0]] + versions[1..];
    }
  }

  predicate Ascending(vs: seq<AreaVersion>) {
    forall i, j | 0 <= i < j < |vs| :: vs[i].versionNumber <= vs[j].versionNumber
  }

  /** Inserts `v` after every entry whose number is not greater (a stable insertion). */
  function InsertByVersion(v: AreaVersion, sorted: seq<AreaVersion>): seq<AreaVersion> {
    if sorted == [] || v.versionNumber < sorted[0].versionNumber then [v] + sorted
    else [sorted[0]] + InsertByVersion(v, sorted[1..])
  }

  /** `OrderBy(v => v.VersionNumber)`: a stable sort by version number. */
  function SortByVersion(vs: seq<AreaVersion>): seq<AreaVersion> {
    if vs == [] then [] else InsertByVersion(vs[0], SortByVersion(vs[1..]))
  }

  lemma {:induction false} InsertByVersionMultiset(v: AreaVersion, sorted: seq<AreaVersion>)
    ensures multiset(InsertByVersion(v, sorted)) == multiset(sorted) + multiset{v}
  {
    if sorted != [] && v.versionNumber >= sorted[0].versionNumber {
      InsertByVersionMultiset(v, sorted[1..]);
      assert sorted == [sorted[0]] + sorted[1..];
    }
  }

  /** Insertion keeps every version number at or above a common lower bound. */
  lemma {:induction false} InsertByVersionBounded(v: AreaVersion, sorted: seq<AreaVersion>, low: int)
    requires low <= v.versionNumber
    requires forall k | 0 <= k < |sorted| :: low <= sorted[k].versionNumber
    ensures forall k | 0 <= k < |InsertByVersion(v, sorted)| :: low <= InsertByVersion(v, sorted)[k].versionNumber
  {
    if sorted != [] && v.versionNumber >= sorted[0].versionNumber {
      InsertByVersionBounded(v, sorted[1..], low);
    }
  }

  lemma {:induction false} InsertByVersionSorted(v: AreaVersion, sorted: seq<AreaVersion>)
    requires Ascending(sorted)
    ensures Ascending(InsertByVersion(v, sorted))
  {
    if sorted != [] && v.versionNumber >= sorted[0].versionNumber {
      var rest := sorted[1..];
      InsertByVersionSorted(v, rest);
      InsertByVersionBounded(v, rest, sorted[0].versionNumber);
      var tail := InsertByVersion(v, rest);
      var all := [sorted[0]] + tail;
      forall i, j | 0 <= i < j < |all| ensures all[i].versionNumber <= all[j].versionNumber {
        assert all[j] == tail[j - 1];
        if i > 0 {
          assert all[i] == tail[i - 1];
        }
      }
    }
  }

  /** The listing is in ascending version order and holds exactly the input versions. */
  lemma {:induction false} SortByVersionCorrect(vs: seq<AreaVersion>)
    ensures Ascending(SortByVersion(vs))
    ensures multiset(SortByVersion(vs)) == multiset(vs)
  {
    if vs != [] {
      SortByVersionCorrect(vs[1..]);
      InsertByVersionSorted(vs[0], SortByVersion(vs[1..]));
      InsertByVersionMultiset(vs[0], SortByVersion(vs[1..]));
      assert vs == [vs[0]] + vs[1..];
    }
  }

  function VersionResults(vs: seq<AreaVersion>): (rs: seq<VersionResult>)
    ensures |rs| == |vs|
    ensures forall i | 0 <= i < |vs| ::
      rs[i] == VersionResult(vs[i].id, vs[i].versionNumber, vs[i].name, CoordinatePairs(vs[i].geometry.shell))
  {
    if vs == [] then []
    else [VersionResult(vs[0].id, vs[0].versionNumber, vs[0].name, CoordinatePairs(vs[0].geometry.shell))]
         + VersionResults(vs[1..])
  }

  // ---------------------------------------------------------------- controllers

  class AreasController {
    const db: AppDb

    constructor (db: AppDb)
      ensures this.db == db
    {
      this.db := db;
    }

    /**
     * `CreateArea`: reject before building any geometry, otherwise store the area
     * and its first version (number 1, same name and polygon, edited by the
     * creator) and answer with the stored polygon's coordinates.
     */
    method CreateArea(dto: AreaCreateDto, newAreaId: AreaId, newVersionId: VersionId) returns (reply: Reply<AreaResult>)
      requires CreateAreaReadable(dto)
      requires newAreaId !in AreaIds(db.areas) && newVersionId !in VersionIds(db.areaVersions)
      modifies db
      ensures !CreateAreaAccepts(dto) ==>
        reply == BadRequest("Invalid polygon") && db.areas == old(db.areas) && db.areaVersions == old(db.areaVersions)
      ensures CreateAreaAccepts(dto) ==>
        var area := Area(newAreaId, dto.name.value, ShellOf(dto), dto.userId, false);
        && db.areas == old(db.areas) + [area]
        && db.areaVersions == old(db.areaVersions) +
             [AreaVersion(newVersionId, newAreaId, 1, dto.name.value, ShellOf(dto), dto.userId)]
        && reply == Ok(ToAreaResult(area))
    {
      if IsNullOrWhiteSpace(dto.name) || dto.coordinates.None? || |dto.coordinates.value| < 4 {
        return BadRequest("Invalid polygon");
      }
      var shell := ToPositions(dto.coordinates.value);
      if shell[0] != shell[|shell| - 1] {
        shell := shell + [shell[0]];
      }
      var polygon := Polygon(shell, Wgs84Srid);
      var area := Area(newAreaId, dto.name.value, polygon, dto.userId, false);
      db.areas := db.areas + [area];
      var version := AreaVersion(newVersionId, area.id, 1, area.name, polygon, dto.userId);
      db.areaVersions := db.areaVersions + [version];
      reply := Ok(ToAreaResult(area));
    }

    /** `GetAreas`: the areas that are not soft-deleted and intersect the bounding box. */
    method GetAreas(minLng: real, minLat: real, maxLng: real, maxLat: real,
                    intersects: (Polygon, Polygon) -> bool) returns (results: seq<AreaResult>)
      ensures var envelope := Polygon(EnvelopeRing(minLng, minLat, maxLng, maxLat), Wgs84Srid);
        && (forall r | r in results :: exists a | a in db.areas ::
              !a.isDeleted && intersects(a.geometry, envelope) && r == ToAreaResult(a))
        && (forall a | a in db.areas && !a.isDeleted && intersects(a.geometry, envelope) ::
              ToAreaResult(a) in results)
    {
      var envelope := Polygon(EnvelopeRing(minLng, minLat, maxLng, maxLat), Wgs84Srid);
      var visible := VisibleAreas(db.areas, envelope, intersects);
      results := AreaResults(visible);
      forall r | r in results
        ensures exists a | a in db.areas :: !a.isDeleted && intersects(a.geometry, envelope) && r == ToAreaResult(a)
      {
        var i :| 0 <= i < |results| && results[i] == r;
        VisibleAreasMembership(db.areas, envelope, intersects, visible[i]);
      }
      forall a | a in db.areas && !a.isDeleted && intersects(a.geometry, envelope)
        ensures ToAreaResult(a) in results
      {
        VisibleAreasMembership(db.areas, envelope, intersects, a);
        var i :| 0 <= i < |visible| && visible[i] == a;
        assert results[i] == ToAreaResult(a);
      }
    }
  }

  class AreaVersionsController {
    const db: AppDb

    constructor (db: AppDb)
      ensures this.db == db
    {
      this.db := db;
    }

    /**
     * `CreateVersion` for the authenticated `userId`: 404 for a missing or
     * soft-deleted area, then 400 for a blank name, then 400 with the validator's
     * error; otherwise the validated polygon is stored under the next version number.
     */
    method CreateVersion(areaId: AreaId, dto: AreaVersionCreateDto, userId: UserId,
                         validityError: Polygon -> Option<string>, newVersionId: VersionId)
      returns (reply: Reply<VersionResult>)
      // the coordinates are read only once the area and the name have passed
      requires (exists a | a in db.areas :: a.id == areaId && !a.isDeleted) && !IsNullOrWhiteSpace(dto.name) ==>
                 ReadableOnceGuarded(dto.coordinates)
      requires newVersionId !in VersionIds(db.areaVersions)
      modifies db
      ensures db.areas == old(db.areas)
      ensures !(exists a | a in db.areas :: a.id == areaId && !a.isDeleted) ==>
        reply == NotFound("Area not found") && db.areaVersions == old(db.areaVersions)
      ensures (exists a | a in db.areas :: a.id == areaId && !a.isDeleted) && IsNullOrWhiteSpace(dto.name) ==>
        reply == BadRequest("Version name is required.") && db.areaVersions == old(db.areaVersions)
      ensures (exists a | a in db.areas :: a.id == areaId && !a.isDeleted) && !IsNullOrWhiteSpace(dto.name) ==>
        var check := FromLngLat(dto.coordinates, validityError);
        if !check.isValid then
          reply == BadRequestError(check.error.value) && db.areaVersions == old(db.areaVersions)
        else
          var n := NextVersionNumber(old(db.areaVersions), areaId);
          && db.areaVersions == old(db.areaVersions) +
               [AreaVersion(newVersionId, areaId, n, dto.name.value, check.polygon.value, userId)]
          && reply == Ok(VersionResult(newVersionId, n, dto.name.value, CoordinatePairs(check.polygon.value.shell)))
          && (forall v | v in old(db.areaVersions) && v.areaId == areaId :: v.versionNumber < n)
    {
      if !exists a | a in db.areas :: a.id == areaId && !a.isDeleted {
        return NotFound("Area not found");
      }
      if IsNullOrWhiteSpace(dto.name) {
        return BadRequest("Version name is required.");
      }
      var validation := FromLngLat(dto.coordinates, validityError);
      if !validation.isValid {
        return BadRequestError(validation.error.value);
      }
      var polygon := validation.polygon.value;
      var nextVersion := NextVersionNumber(db.areaVersions, areaId);
      var version := AreaVersion(newVersionId, areaId, nextVersion, dto.name.value, polygon, userId);
      db.areaVersions := db.areaVersions + [version];
      reply := Ok(VersionResult(version.id, version.versionNumber, version.name, CoordinatePairs(polygon.shell)));
    }

    /**
     * `GetVersions` for the authenticated `userId`: 404 unless the caller created
     * the area; otherwise every version of the area, in ascending version order.
     */
    method GetVersions(areaId: AreaId, userId: UserId) returns (reply: Reply<seq<VersionResult>>)
      ensures !(exists a | a in db.areas :: a.id == areaId && a.createdByUserId == userId) <==>
                reply == NotFound("Area not found or access denied.")
      ensures reply.Ok? ==>
        && reply.value == VersionResults(SortByVersion(VersionsOf(db.areaVersions, areaId)))
        && |reply.value| == |VersionsOf(db.areaVersions, areaId)|
        && (forall i, j | 0 <= i < j < |reply.value| :: reply.value[i].versionNumber <= reply.value[j].versionNumber)
      ensures reply.NotFound? || reply.Ok?
    {
      if !exists a | a in db.areas :: a.id == areaId && a.createdByUserId == userId {
        return NotFound("Area not found or access denied.");
      }
      var versions := SortByVersion(VersionsOf(db.areaVersions, areaId));
      SortByVersionCorrect(VersionsOf(db.areaVersions, areaId));
      assert |versions| == |multiset(versions)|;
      reply := Ok(VersionResults(versions));
    }
  }
}
