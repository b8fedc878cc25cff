/**
 * The route object (route.py, class `Route`): a raw line fixed at load time
 * and an optional smoothed line that every smoothing stage overwrites. A
 * stage reads the smoothed line when one is present and non-empty (a shapely
 * geometry is falsy when empty) and the raw line otherwise.
 */
module Routes {
  import opened Results
  import opened Polylines
  import opened Validation
  import Dedup
  import DistanceFilter
  import AngleFilter

  /**
   * The numeric collaborators the route calls into: the geodesic distance of
   * a two-point line, degrees(acos(x)), and shapely's simplify at a granular level.
   */
  datatype Geo = Geo(dist: Metric, acosDeg: real -> real, simplify: (Polyline, int) -> Polyline)

  /** A route: the raw line, and the smoothed line once a stage has run. */
  datatype Route = Route(raw: Polyline, smoothed: Option<Polyline>)

  /** Shapely refuses to build a line from exactly one coordinate. */
  datatype LoadError = SinglePointLine

  /** The result of `smoothen_route`: the route afterwards, and the field of the error raised, if any. */
  datatype Outcome = Outcome(route: Route, raised: Option<Field>)

  /** A line shapely accepts: no coordinates at all, or at least two. */
  predicate IsLineString(s: Polyline)
  {
    |s| != 1
  }

  /**
   * Route construction from the coordinates of the file's first line: the
   * duplicates are collapsed and no smoothed line exists yet. It fails exactly
   * when every coordinate is the same point.
   */
  function Load(coords: Polyline): (res: Result<Route, LoadError>)
    ensures res.Failure? <==> |coords| > 0 && forall j :: 0 <= j < |coords| ==> coords[j] == coords[0]
    ensures res.Success? ==>
      && res.value.smoothed == None
      && res.value.raw == Dedup.Collapse(coords)
      && IsLineString(res.value.raw)
      && NoAdjacentDuplicates(res.value.raw)
      && IsSubsequence(res.value.raw, coords)
      && (|coords| > 0 ==> |res.value.raw| > 0 && res.value.raw[0] == coords[0] && res.value.raw[|res.value.raw| - 1] == coords[|coords| - 1])
  {
    Dedup.SinglePointIffConstant(coords);
    LoadedLine(coords);
    if |Dedup.Collapse(coords)| == 1 then Failure(SinglePointLine) else Success(Route(Dedup.Collapse(coords), None))
  }

  /** What a successful load keeps of the coordinates it was given. */
  lemma LoadedLine(coords: Polyline)
    ensures var raw := Dedup.Collapse(coords);
      && NoAdjacentDuplicates(raw)
      && IsSubsequence(raw, coords)
      && (|coords| > 0 ==> raw[0] == coords[0] && raw[|raw| - 1] == coords[|coords| - 1])
  {
  }

  /** The line a stage reads (`__get_line_string`). */
  function Current(r: Route): (line: Polyline)
    ensures r.smoothed == None ==> line == r.raw
    ensures r.smoothed.Some? && r.smoothed.value != [] ==> line == r.smoothed.value
    ensures r.smoothed.Some? && r.smoothed.value == [] ==> line == r.raw
    ensures line == [] ==> r.raw == []
  {
    if r.smoothed.Some? && r.smoothed.value != [] then r.smoothed.value else r.raw
  }

  /** The distance stage: the next stage reads the filtered line, and the raw line is untouched. */
  function SmoothenByDistance(r: Route, cutoff: real, geo: Geo): (r': Route)
    ensures r'.raw == r.raw && r'.smoothed.Some?
    ensures Current(r') == DistanceFilter.Filter(Current(r), cutoff, geo.dist)
  {
    r.(smoothed := Some(DistanceFilter.Filter(Current(r), cutoff, geo.dist)))
  }

  /** The angle stage: the next stage reads the filtered line, and the raw line is untouched. */
  function SmoothenByAngle(r: Route, cutoff: real, geo: Geo): (r': Route)
    ensures r'.raw == r.raw && r'.smoothed.Some?
    ensures Current(r') == AngleFilter.Filter(Current(r), cutoff, geo.dist, geo.acosDeg)
  {
    r.(smoothed := Some(AngleFilter.Filter(Current(r), cutoff, geo.dist, geo.acosDeg)))
  }

  /**
   * The simplification stage, an opaque collaborator: the next stage reads the
   * simplified line (or the raw line if simplify returned an empty one), and
   * the raw line is untouched. A shape-keeping simplify thins the current line.
   */
  function SmoothenBySimplifying(r: Route, granular: int, geo: Geo): (r': Route)
    ensures r'.raw == r.raw && r'.smoothed.Some?
    ensures geo.simplify(Current(r), granular) != [] ==> Current(r') == geo.simplify(Current(r), granular)
    ensures geo.simplify(Current(r), granular) == [] ==> Current(r') == r.raw
    ensures SimplifyKeepsShape(geo.simplify) && |Current(r)| >= 2 ==> Thins(Current(r'), Current(r))
  {
    r.(smoothed := Some(geo.simplify(Current(r), granular)))
  }

  /**
   * `smoothen_route`: validation first; on an error nothing changes,
   * otherwise distance, angle and simplification run in that order, each on
   * the previous stage's output.
   */
  function SmoothenRoute(r: Route, granular: int, angle: int, distance: int, geo: Geo): (o: Outcome)
    ensures o.raised == Validate(granular, angle, distance)
    ensures o.raised.Some? <==> !(GranularOk(granular) && AngleOk(angle) && DistanceOk(distance))
    ensures o.raised.Some? ==> o.route == r
    ensures o.route.raw == r.raw
    ensures o.raised.None? ==> o.route.smoothed == Some(geo.simplify(
      AngleFilter.Filter(DistanceFilter.Filter(Current(r), distance as real, geo.dist),
                         angle as real, geo.dist, geo.acosDeg),
      granular))
  {
    match Validate(granular, angle, distance)
    case Some(field) => Outcome(r, Some(field))
    case None =>
      var afterDistance := SmoothenByDistance(r, distance as real, geo);
      var afterAngle := SmoothenByAngle(afterDistance, angle as real, geo);
      Outcome(SmoothenBySimplifying(afterAngle, granular, geo), None)
  }

  /**
   * `smoothen_route()` with its default arguments: granular level 5, cutoff
   * angle 45 and cutoff distance 500. The defaults pass validation, so the
   * three stages always run.
   */
  function SmoothenRouteDefaults(r: Route, geo: Geo): (o: Outcome)
    ensures o.raised == None
    ensures o.route.raw == r.raw
    ensures o.route.smoothed == Some(geo.simplify(
      AngleFilter.Filter(DistanceFilter.Filter(Current(r), 500.0, geo.dist), 45.0, geo.dist, geo.acosDeg),
      5))
  {
    SmoothenRoute(r, 5, 45, 500, geo)
  }

  /** `t` is obtained from the line `s` of two or more points by deleting interior points only. */
  ghost predicate Thins(t: Polyline, s: Polyline)
  {
    && |s| >= 2 && |t| >= 2
    && t[0] == s[0] && t[|t| - 1] == s[|s| - 1]
    && IsSubsequence(t, s)
  }

  lemma ThinsTransitive(r: Polyline, t: Polyline, s: Polyline)
    requires Thins(r, t) && Thins(t, s)
    ensures Thins(r, s)
  {
    SubsequenceTransitive(r, t, s);
  }

  /** Simplification keeps the first and last points and only deletes points. */
  ghost predicate SimplifyKeepsShape(simplify: (Polyline, int) -> Polyline)
  {
    forall s: Polyline, g: int :: |s| >= 2 ==> Thins(simplify(s, g), s)
  }

  /** Both filters thin every line of two or more points. */
  lemma FiltersThin(s: Polyline, distance: real, angle: real, geo: Geo)
    requires |s| >= 2
    ensures Thins(DistanceFilter.Filter(s, distance, geo.dist), s)
    ensures Thins(AngleFilter.Filter(s, angle, geo.dist, geo.acosDeg), s)
  {
  }

  /**
   * When simplification keeps its input's shape, an accepted `smoothen_route`
   * leaves a smoothed line that later stages read, that is obtained from the
   * line it started from by deleting interior points, and that therefore has
   * the same first and last points.
   */
  lemma SmoothenRouteKeepsShape(r: Route, granular: int, angle: int, distance: int, geo: Geo)
    requires SimplifyKeepsShape(geo.simplify)
    requires |Current(r)| >= 2
    requires Validate(granular, angle, distance) == None
    ensures var after := SmoothenRoute(r, granular, angle, distance, geo).route;
      after.smoothed.Some? && Current(after) == after.smoothed.value && Thins(Current(after), Current(r))
  {
    var before := Current(r);
    var d := DistanceFilter.Filter(before, distance as real, geo.dist);
    FiltersThin(before, distance as real, angle as real, geo);
    var a := AngleFilter.Filter(d, angle as real, geo.dist, geo.acosDeg);
    FiltersThin(d, distance as real, angle as real, geo);
    var t := geo.simplify(a, granular);
    assert Thins(t, a);
    ThinsTransitive(a, d, before);
    ThinsTransitive(t, a, before);
    assert SmoothenRoute(r, granular, angle, distance, geo).route.smoothed == Some(t);
  }
}
