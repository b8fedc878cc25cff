# Route smoothing, modelled in Dafny

The route smoother loads a single line string from a KML file. It
collapses runs of repeated coordinates, then smooths the route in three
stages:

1. a **distance filter** keeps an interior point only when it lies within
   the cutoff distance of the last point kept;
2. an **angle filter** drops an interior point when the angle it makes with
   the last kept point and the next input point is below the cutoff angle;
3. shapely's **simplify** runs at a granular level.

Before any stage runs, `smoothen_route` checks the three parameters against
fixed ranges. The raw line is never changed. Each stage reads the smoothed
line when there is a non-empty one, and the raw line otherwise.

The model is written over `seq<Point>`, with `Point(lon, lat, elevation)`
of reals. The geodesic distance, `degrees(acos(x))` and shapely's simplify
are function values supplied by the caller (`Routes.Geo`). Every property
that depends on them takes its assumption as a ghost predicate in a
`requires`:

- `Polylines.NonNegative` for the distance;
- `AngleFilter.IsAcosDegrees` for the result range [0, 180];
- `Routes.SimplifyKeepsShape` for simplify.

Both filters have the same shape. Each keeps the first and last point, and
decides every interior point `s[i]` from three things: the last point kept,
`s[i]` itself, and the ORIGINAL successor `s[i+1]`. `AnchoredScan` defines
that scan once, over the list of kept indices. `Pick(s, K)` turns the index
list into the output line, and an increasing index list is the witness that
the output is a subsequence of the input. `AnchoredScan.ScanIsGreedy`
characterizes the kept indices in both directions. The two filters
(`DistanceFilter`, `AngleFilter`) are instances of the scan. The duplicate
collapser (`Dedup`) is a similar scan, but it does not force the last index
to be kept.

Modules:

- `results.dfy`: `Option` and `Result`.
- `polylines.dfy`: points, index lists, `Pick`, the subsequence relation.
- `anchored_scan.dfy`: the generic filter, its greedy characterization and
  its loop form.
- `dedup.dfy`: `__remove_close_duplicate_coords`.
- `distance_filter.dfy`: `_smoothen_by_distance`.
- `angle_filter.dfy`: `_smoothen_by_angle` and `__get_point_angle`.
- `validation.dfy`: `__validate_smoothen_input`.
- `routes.dfy`: the `Route` object (`__init__`, `__get_line_string`, the
  three stages, `smoothen_route`).

The cutoff angle is the minimum angle allowed at a middle point
(route.py:195-198). The code drops an interior point when its angle is
below the cutoff (route.py:122-131), so sharp spikes go. A point on a
straight stretch has the law-of-cosines argument -1. When acos(-1) is 180
degrees, that point is kept for every cutoff up to 180
(`AngleFilter.StraightStretchKept`, `AngleFilter.KeptIffAngleAtLeastCutoff`).

## Model

| member | source | states |
|---|---|---|
| Dedup.Collapse | route.py:155-167 | The result starts and ends with the input's first and last points. It is a subsequence of the input (the witness is the kept index list), and has no two equal adjacent points. |
| Dedup.CollapseSamePoints | route.py:155-167 | A point occurs in the collapsed line if and only if it occurs in the input. |
| Dedup.CollapseIdempotent | route.py:155-167 | Collapsing an already collapsed line changes nothing. |
| Dedup.SinglePointIffConstant | route.py:155-167 | The collapsed line has exactly one point if and only if the input is non-empty and every point equals the first. |
| Dedup.CollapseLoop | route.py:159-167 | The single pass that compares each point with the last appended one computes exactly `Collapse`. |
| AnchoredScan.Scan | route.py:77-87 | A scan keeps both endpoints and keeps lines of at most two points unchanged. Its output is a subsequence of the input picked by the kept index list, and no longer than the input. |
| AnchoredScan.ScanIsGreedy | route.py:77-87 | An index list is the kept list if and only if it runs from 0 to the last index, is increasing, every kept interior index passed the rule against the previous kept index, and every skipped index failed it against the last kept index before it. |
| AnchoredScan.KeepAllIsIdentity | route.py:96-133 | A rule that keeps every point returns the input unchanged. |
| AnchoredScan.KeepNoneIsEndpoints | route.py:77-87 | A rule that keeps no point returns just the two endpoints. |
| AnchoredScan.ScanLoop | route.py:77-87 | The loop that appends to `filtered` and reads its last element as the anchor computes exactly `Scan`. |
| DistanceFilter.Filter | route.py:71-87 | Endpoints are kept. A two-point line is returned unchanged. The output is a subsequence of the input and no longer than it. |
| DistanceFilter.KeptIffNearLastKept | route.py:81-85 | A kept interior point is within the cutoff of the previous kept point. A dropped point is at or beyond the cutoff from the last point kept before it. |
| DistanceFilter.StepWithinCutoff | route.py:81-85 | Consecutive output points are closer than the cutoff, except for the final pair. |
| DistanceFilter.NonPositiveCutoffKeepsEndpoints | route.py:84-85 | With non-negative distances and a cutoff of 0 or below, only the two endpoints survive. |
| DistanceFilter.SmoothenByDistance | route.py:71-87 | The loop form computes `DistanceFilter.Filter` and keeps both endpoints. |
| AngleFilter.PointAngle | route.py:135-144 | A zero denominator gives 0, and a law-of-cosines argument outside [-1, 1] gives 0. Otherwise the result is acos-in-degrees of the argument. With a proper acos the angle lies in [0, 180]. |
| AngleFilter.Filter | route.py:89-133 | Endpoints are kept. A two-point line is returned unchanged. The output is a subsequence of the input and no longer than it. |
| AngleFilter.KeptIffAngleAtLeastCutoff | route.py:96-131 | The angle is taken between the last kept point, the point and its ORIGINAL successor. A kept interior point has an angle at or above the cutoff. A dropped point has an angle below it. |
| AngleFilter.NonPositiveCutoffKeepsAll | route.py:122-131 | A cutoff of 0 or below keeps every point. |
| AngleFilter.CutoffAbove180KeepsEndpoints | route.py:122-131 | A cutoff above 180 keeps only the two endpoints. |
| AngleFilter.EquilateralAngle | route.py:141-142 | The sides 2, 2, 2, the case tests/test_route.py:133-138 expects to be 60 degrees, give a cosine argument of exactly 1/2, so the angle is acos(1/2), which is 60 degrees. |
| AngleFilter.StraightStretchAngle | route.py:142 | A point on a straight stretch (B = A + C, both positive) gives the argument -1, so its angle is acos(-1). |
| AngleFilter.StraightStretchKept | route.py:122-131 | When acos(-1) is 180 degrees, a point whose distances from the last kept point and to its successor add up to the direct distance (both parts positive) passes the angle rule for every cutoff up to 180. |
| AngleFilter.RepeatedPointAngle | route.py:141-144 | A point at the same place as the last kept point (A = 0) takes the division-by-zero fallback 0. |
| AngleFilter.SmoothenByAngle | route.py:89-133 | The loop form computes `AngleFilter.Filter` and keeps both endpoints. |
| Validation.Validate | route.py:211-231 | Parameters are accepted if and only if 0 <= granular <= 10, 0 <= angle <= 60 and 0 <= distance <= 1000. The error names the first failing field, in the order granular level, cutoff angle, cutoff distance. |
| Validation.ValidationExamples | tests/test_route.py:59-91 | The defaults 5/45/500 are accepted. A distance of 100000, an angle of 90 and a granular level of 11 are each rejected with the right field. |
| Routes.Load | route.py:43-48 | Loading fails exactly when every coordinate is the same point, because a one-point line is refused. Otherwise the raw line is exactly `Dedup.Collapse` of the input, with the same endpoints and no adjacent duplicates, and there is no smoothed line. |
| Routes.Current | route.py:146-153 | Stages read the smoothed line when it is present and non-empty, and the raw line otherwise. A smoothed line that is present but empty is falsy, so the raw line is read. The result is empty only when the raw line is. |
| Routes.SmoothenByDistance | route.py:71-87 | After the stage, the line read next is the distance-filtered current line. The raw line is unchanged. |
| Routes.SmoothenByAngle | route.py:89-133 | After the stage, the line read next is the angle-filtered current line. The raw line is unchanged. |
| Routes.SmoothenBySimplifying | route.py:62-69 | After the stage, the line read next is the simplification of the current line, or the raw line when simplify returns an empty line. The raw line is unchanged. A simplify that keeps shape leaves a line that thins the current one. |
| Routes.SmoothenRoute | route.py:182-209 | An error is raised exactly when validation fails, and then the route is unchanged. Otherwise the smoothed line is simplify(angle(distance(current))). The raw line is never changed. |
| Routes.SmoothenRouteDefaults | route.py:182-209 | With the default arguments 5, 45 and 500, validation passes, so nothing is raised and the smoothed line is simplify(angle(distance(current))) at those values. The raw line is unchanged. |
| Routes.SmoothenRouteKeepsShape | route.py:204-209 | When simplify keeps shape, an accepted call leaves a smoothed line that later stages read. That line is obtained from the current line by deleting interior points, and it keeps the current line's endpoints. |

## Left out

- KML reading and writing (`gpd.read_file`, `to_file`) and the driver registration: file I/O. A route is built from its coordinate sequence.
- `get_total_distance` and its kilometre formatting: this is the geodesic length of the line, floating-point output only.
- pyproj's geodesic distance, `acos` and `degrees`: the caller supplies them as function values. Their assumed properties appear as `requires` only where a lemma needs them.
- Shapely's `simplify` and the tolerance `granular_level * 0.00003`: the caller supplies simplify, and it receives the granular level directly. The debug print of the tolerance is omitted.
- The `isinstance(..., int)` checks and string arguments: parameters are `int` in the model, so those checks can never fire. A string argument fails in Python already at the range comparison.
- The error message texts: only the failing field is modelled. The distance message says "10000" while the check is against 1000, and the model follows the check.
- Floating-point rounding, NaN and infinities: coordinates and distances are exact reals. `AngleFilter.PointAngle` therefore has no rounding at the ±1 boundary of acos's domain.
- AngleFilter.StraightStretchAngle: proves the argument -1 exactly. In floating point, a collinear point's argument can round just below -1, and then route.py:141-144 returns 0. `acos` is a parameter, so the lemma states acos(-1) and not 180; `AngleFilter.StraightStretchKept` assumes acos(-1) = 180.
- AngleFilter.EquilateralAngle: it proves the argument 1/2 exactly, but not that acos(1/2) is 60 degrees, because acos is a parameter.
- The sharp spike (B = 0, A = C, argument 1, angle 0) has no lemma of its own. It is covered by `AngleFilter.KeptIffAngleAtLeastCutoff` for whatever value the angle takes.
- The tests at tests/test_route.py:137 and :167 call methods that route.py does not define (`__get_coord_angle`, `__get_distance_between_coords`), so they are not modelled.
