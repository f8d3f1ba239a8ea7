# Weiler–Atherton polygon clipping, with an interactive polygon validator

This project models the core of a small interactive program written in Rust.
The user draws a main polygon and then a clipper polygon, path by path. Each
polygon is a list of closed paths. While the user draws, a validator rejects
every edge that would cross an edge already accepted. When both polygons are
finished, the program clips one against the other with the Weiler–Atherton
method:

- The **vertex table** is an arena of records threaded by index into two
  families of circular lists. `next1` runs along the main polygon and `next2`
  along the clipper polygon.
- The **splice loop** intersects every main edge with every clipper edge of a
  frozen copy of the table. It appends one record per hit and links it into
  both chains after a forward scan on the edge parameter.
- The **result pass** walks from every unvisited crossing. It switches chain by
  record kind and emits each closed overlap contour.
- The two **leftover passes** walk each chain from every unvisited original
  vertex. They cut the chain into runs of kept edges.

The modules follow the program's structure:

| module | file | what it holds |
|---|---|---|
| `Wrappers` | wrappers.dfy | `Option` |
| `Geometry` | geometry.dfy | points, segments, `Intersection`, the orientation test |
| `Validator` | validator.dfy | the class `Polygon` under construction and its edge test |
| `VertexTable` | table.dfy | table records, chain walks (`Step`, `Follow`), the table builder |
| `Splice` | splice.dfy | the intersection-insertion loop and its invariant |
| `Walks` | walks.dfy | the result pass and the leftover passes |
| `Clipping` | clipping.dfy | `clipping` from start to end |
| `Session` | session.dfy | the Main → Clipper → Result status machine of the editor |

Coordinates and parameters are `real`, so the arithmetic is exact. The table is
a local vector that the source grows and rewrites in place. It is owned by one
call and never aliased, so it is modelled as a `seq<Item>` that the methods
reassign record by record.

Two points about the walks:

- The result walk's inner loop (src/main.rs:422-437) stops only on returning to
  its seed, so its running time is not bounded by the input size. The model
  proves that a walk which has not come back within as many steps as there are
  records never comes back. It reports that case as `Diverged`, which stands for
  the source's non-termination.
- Every pass sets `is_result` on the records it visits, so the table is written
  while it is walked. The model proves that nothing else changes (`MarksGrow`).

`Clipping.Clip` returns, besides the three polygon sets, the spliced table and
the table after the passes, so that its contract can state what the contours
and runs are walks of. The source keeps both tables local. A ghost `Trace`
records the seed and length of every walk of each pass and the table between
the passes; `Clipping.PassesOutcome` ties every contour and run to its walk,
and every table to the marks of the walks before it.

The splice invariant (`Splice.Spliced`) is phrased with a ghost *run* per
original vertex `k`. A run is the list of inserted records that the chain of
`k` passes through before it reaches the original successor of `k`. A run is
linked in order and sorted by parameter, and of two records with the same
parameter the one inserted later comes first. It holds only hits found on the edge
out of `k`, and every hit's record lies in the runs of both edges it was found on.

## Model

| member | source | states |
|---|---|---|
| `Geometry.Intersection` | src/main.rs:311-328 | no hit when the determinant is zero; a hit has both parameters in [0, 1] and lies at parameter `s` on the first segment; it is `Out` exactly when the cross product (equal to the determinant) is positive and `In` exactly when it is negative, never an original kind |
| `Geometry.IntersectionOnBothSegments` | src/main.rs:318-326 | the reported point lies on the second segment too, at parameter `t` |
| `Geometry.IntersectionComplete` | src/main.rs:318-322 | every common point of two non-parallel segments is found, with its parameters |
| `Geometry.IntersectionSwap` | src/main.rs:311-328 | swapping the segments finds the same hit, with the parameters exchanged and the kind flipped |
| `Geometry.ConsecutiveEdgesCross` | src/main.rs:98-100 | two consecutive non-parallel edges always touch at their shared point, which is why the edge just before the new one is never tested |
| `Geometry.ClosingEdgeCrossesFirstEdge` | src/main.rs:98 | the closing edge always touches the first edge at the first point, which is why a closing test starts from edge 1 |
| `Geometry.IsPathAntiClockwise` | src/main.rs:116-122 | the loop's answer is exactly "the shoelace sum over the path is positive" |
| `Geometry.ShoelaceSumReverse` | src/main.rs:116-122 | reversing a path negates its shoelace sum |
| `Geometry.OrientationFlipsOnReverse` | src/main.rs:116-122 | reversing a path with a nonzero sum flips the orientation answer |
| `Validator.CheckLastEdge` | src/main.rs:81-108 | the loops answer exactly `LastEdgeValid`: the new last edge crosses no edge of an earlier path and none of the edges `start .. len - 4` of its own path (`start` is 1 when closing), and a path of under two points is valid |
| `Validator.AcceptedAfterAppend` | src/main.rs:110-128 | appending a point whose edge passed the test keeps every edge of the polygon accepted |
| `Validator.AcceptedEdgesDoNotCross` | src/main.rs:81-108 | in an accepted polygon no two edges cross, in either order, unless they are neighbours or the first and closing edges of one closed path |
| `Validator.DropLastPoint` | src/main.rs:112 | the pop leaves every earlier path and the number of paths unchanged |
| `Validator.Polygon.constructor` | src/main.rs:61-62 | a new polygon is one empty trailing path, and valid |
| `Validator.Polygon.Reset` | src/main.rs:248-249 | starting over leaves one empty trailing path |
| `Validator.Polygon.CheckLastEdgeValid` | src/main.rs:110-114 | answers the edge test, and on failure pops the last point and nothing else |
| `Validator.Polygon.AddPoint` | src/main.rs:124-128 | either the trailing path gains exactly the point and there is no error, or the polygon is exactly as before and the error is a crossing; validity is kept |
| `Validator.Polygon.ClosePath` | src/main.rs:130-143 | at most two points: the trailing path is cleared and the error is too few points; otherwise either the path gains a copy of its first point and a new empty path follows, or the polygon is unchanged and the error is a crossing |
| `Validator.Polygon.FinishPolygon` | src/main.rs:145-150 | succeeds exactly when closing succeeded or left the trailing path empty, and then removes exactly the trailing path, leaving only closed paths with every edge accepted; a trailing path of at most two points is dropped without error; a crossing leaves the polygon as closing left it |
| `VertexTable.GeneratePointTable` | src/main.rs:347-363 | appends exactly the records of the polygon, path after path |
| `VertexTable.PushPath` | src/main.rs:349-361 | one path of n + 1 points (closing copy included) appends n records, each linked to the next on its own chain, the last back to the path's head |
| `VertexTable.RingCycle` | src/main.rs:349-351 | walking a path's records once around along their chain returns to the start |
| `VertexTable.RecordRing` | src/main.rs:348-361 | every record built for a polygon lies on the ring of its own path |
| `VertexTable.EmbeddedRecords` | src/main.rs:347-367 | inside the full table, each built record links inside its polygon's range and lies on a cycle of its chain |
| `VertexTable.PolygonRecordsKinds` | src/main.rs:352-359 | built records are unvisited originals of the chain's polygon with both parameters 1.0 |
| `VertexTable.BuiltTableShape` | src/main.rs:364-367 | main records fill `[0, main_end)`, clipper records fill `[main_end, clipper_end)`, and every original vertex lies on a cycle of its chain |
| `VertexTable.FollowOnRoute` | src/main.rs:462-472 | a walk along a chain never leaves the table nor meets the other polygon's originals, so the `debug_assert!(false)` branches are never reached |
| `VertexTable.FollowSameLinks` | src/main.rs:424 | setting marks changes no walk |
| `Splice.ScanInsertPosition` | src/main.rs:381-384 | the scan stops within the edge's run, before the original successor, after exactly the records whose parameter is below the hit's |
| `Splice.SpliceHit` | src/main.rs:378-394 | both scans stop at their insertion positions, and only `next1` of the first stop record and `next2` of the second change, while the new record lands at the old table length |
| `Splice.RunReach` | src/main.rs:381-384 | walking a chain from an original vertex passes through its run in order and then reaches the original successor |
| `Splice.RunInsert` | src/main.rs:385-386 | relinking at the scan's stop inserts the new record into the run at that position, and the run stays linked and sorted |
| `Splice.InsertSorted` | src/main.rs:381-390 | records on one original edge stay in nondecreasing parameter order after the insertion, and a new record goes before every older one with the same parameter, since the scan stops at the first parameter not below the hit's |
| `Splice.ScanStopKind` | src/main.rs:381-384 | the scan stops at the edge's own start vertex or at a record inserted for a hit on that same edge |
| `Splice.RouteClosedSplice` | src/main.rs:385-394 | after relinking, every record on a chain still links to a record on that chain |
| `Splice.SplicedInit` | src/main.rs:368 | the frozen original table is spliced, with empty runs |
| `Splice.SpliceStep` | src/main.rs:378-394 | one splice keeps the whole invariant, with the hit's record in both runs at the scans' positions |
| `Splice.InsertPair` | src/main.rs:372-395 | one pair of original edges adds exactly its hit, if any, and keeps the invariant |
| `Splice.InsertRow` | src/main.rs:372-396 | one main edge against every clipper edge adds exactly that row's hits, in order |
| `Splice.InsertIntersections` | src/main.rs:370-398 | the final table is the original table with every hit of every pair spliced in, in loop order, each hit's record in the runs of both its edges; every run is ordered by parameter, equal parameters latest insertion first |
| `Splice.CoveredAfterSplice` | src/main.rs:385-394 | after a splice every earlier hit is still in the runs of both its edges, and the new hit's record is in both of its own |
| `Splice.SplicedReach` | src/main.rs:370-398 | what n original steps along a chain reach, the spliced table reaches in at least n steps |
| `Splice.SplicedCycles` | src/main.rs:370-398 | after the insertions every original vertex still lies on a cycle of its chain |
| `Splice.ReachedOnCycle` | src/main.rs:370-398 | every record a walk reaches from a vertex on a cycle lies on that cycle too |
| `Splice.HitOnCycle` | src/main.rs:381-394 | a record in the run of an original vertex on a cycle lies on that cycle |
| `Splice.SplicedHitsOnCycles` | src/main.rs:370-398 | after the insertions every inserted record lies on a cycle of the main chain and on one of the clipper chain, so the result walk can switch at it |
| `Walks.FirstReturnSimple` | src/main.rs:422-437 | before it first returns to its seed, a walk visits no record twice |
| `Walks.FirstReturnExists` | src/main.rs:422-437 | a walk that returns at all has a first return |
| `Walks.DistinctBelow` | src/main.rs:422-437 | distinct indices below m are at most m many |
| `Walks.ReturnWithin` | src/main.rs:422-437 | a walk that returns at all does so within as many steps as the table has records |
| `Walks.VisitedOnCycle` | src/main.rs:422-437 | every record visited by a walk that returns lies on a cycle itself |
| `Walks.CountSeedsDrop` | src/main.rs:402-418 | setting marks never adds a seed, and marking a seed removes one, so every pass terminates |
| `Walks.FindSeed` | src/main.rs:404-416 | returns the first unvisited record of the wanted kind in the range, or none when there is none |
| `Walks.WalkPoints` | src/main.rs:425-426 | the emitted points are the points of the visited records, in order |
| `Walks.Contour` | src/main.rs:432-435 | a contour of n steps has n + 1 points, ends on the seed's point and starts on it |
| `Walks.ResultWalk` | src/main.rs:420-437 | a walk that comes back has marked exactly the records it visited and emitted their points closed by the seed's point; otherwise the seed is on no cycle, so the source's loop never ends |
| `Walks.ContourClosed` | src/main.rs:432-435 | every result contour has at least two points and ends where it starts |
| `Walks.MarkSetUnion` | src/main.rs:424 | marking one set of records and then another marks exactly their union |
| `Walks.WalkedByOne` | src/main.rs:402-437 | a record visited by the walks of a pass is visited by one particular walk |
| `Walks.ResultOutcomeStep` | src/main.rs:402-437 | one more walk from an unvisited crossing appends its contour and marks exactly its visited records |
| `Walks.ResultPass` | src/main.rs:400-439 | on success the pass walked from unvisited crossings in order, the i-th contour is exactly the walk from the i-th seed, the final table is the input with exactly the walked records marked, and every crossing was walked; otherwise some crossing lies on no cycle |
| `Walks.CutWalkShape` | src/main.rs:474-485 | every run the cut has finished, and the open one, holds at least two points and follows the chain |
| `Walks.CutEndRuns` | src/main.rs:486-490 | every run a leftover walk emits holds at least two consecutive chain points |
| `Walks.LeftoverWalk` | src/main.rs:459-491 | the walk returns to its seed, marks exactly the records it visits and emits the runs of kept edges (unvisited own originals, `Out` on the main chain, `In` on the clipper chain) |
| `Walks.LeftoverOutcomeStep` | src/main.rs:443-491 | one more walk from an unvisited original appends exactly the runs it cuts and marks exactly its visited records |
| `Walks.LeftoverPass` | src/main.rs:441-492 | the pass walked from unvisited originals of the range in order, its runs are exactly the runs those walks cut, the final table is the input with exactly the walked records marked, every original of the range was walked, and every run is a stretch of at least two chain points (the same method serves the clipper pass, src/main.rs:494-546) |
| `Clipping.SwitchingClosed` | src/main.rs:424-431 | when both chains are closed the result walk never leaves the table |
| `Clipping.SplicedReady` | src/main.rs:368-398 | the spliced table is unvisited, every original vertex lies on a cycle of its chain, and every inserted record on a cycle of both |
| `Clipping.BuildTable` | src/main.rs:345-368 | builds the two polygons' records, main first, with the layout and cycles of `BuiltTableShape` |
| `Clipping.CrossingOnContour` | src/main.rs:400-439 | every unvisited crossing of the spliced table lies on the walk of one emitted result contour, so crossings always yield contours |
| `Clipping.Passes` | src/main.rs:400-546 | divergence exactly when a crossing lies on no cycle; otherwise the result pass runs on the spliced table, the main leftover pass on the table it left and the clipper pass on the table that one left; each output is exactly the contours or runs of its walks; every crossing is walked by the result pass, and every original of each polygon by that polygon's leftover pass |
| `Clipping.Clip` | src/main.rs:344-547 | the spliced table is the built table with every hit inserted into both chains, and the passes over it keep `PassesGuarantee` |
| `Session.Editor.constructor` | src/main.rs:61-66 | the session starts in Main with two empty polygons |
| `Session.Editor.OnReturn` | src/main.rs:235-254 | in Main or Clipper the polygon being drawn is finished as `finish_polygen` finishes it, with the same error, and the status advances exactly when that succeeds; the other polygon is untouched; from Result both polygons restart empty in Main |
| `Session.Editor.OnBackspace` | src/main.rs:255-274 | clears the polygon being drawn, or from the result clears both and returns to Main |
| `Session.Editor.OnRelease` | src/main.rs:196-222 | the left button changes the polygon being drawn exactly as `add_point` does, and the right button exactly as `close_path` does; the error is reported exactly when they fail; a successful close reports the shoelace orientation of the path just closed; nothing happens in Result or for other buttons |
| `Session.Editor.ResultView` | src/main.rs:175-180 | in Result the two finished polygons are clipped with the guarantees of `Clipping.ClipOutcome`; the result contours are closed and the leftover runs hold at least one edge |

## Left out

- Window, event loop and rendering (src/main.rs:50-80, 152-195, 276-302): the glutin/glium setup, `repaint`'s drawing, `paint_path`, the shaders and close requests. Cursor tracking (src/main.rs:224-229) is left out too. These are I/O over external libraries. `OnRelease` takes the released button and the cursor point as parameters. Button presses are ignored by the source and are not modelled.
- The window titles set by `set_title`, and the status and error strings. Errors are the `Error` datatype, and the orientation message is `Report.Closed` with its boolean.
- IEEE `f32` behaviour. Coordinates and parameters are `real`, so rounding and the sensitivity of the exact `D == 0.0` test are not reproduced.
- Geometric correctness of the clip, that is, whether the result contours bound the overlap. The model proves the structural guarantees only.
- Walks.ResultWalk: it gives up after as many steps as the table has records, where the source loops forever. `Walks.ReturnWithin` proves that it gives up exactly when the source would never stop.
- Walks.ResultPass: states which walk produced each contour, in walk order, but not that each seed is the lowest-indexed unvisited crossing at that point.
- Walks.LeftoverPass: states which walk cut each run, in walk order, but not that each seed is the lowest-indexed unvisited original at that point.
- Clipping.Clip: when the result walk diverges, the leftover passes are not run. The source never reaches them in that case.
- The placeholder `0` in the unused link of an original record (src/main.rs:357-358) is stored as the source stores it, but no proof relies on it.
- `generate_point_table` requires every path to have at least one point, since `path.len() - 1` would underflow otherwise. Paths from the validator always satisfy this.
