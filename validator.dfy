/**
  * The interactive validator: a polygon is built point by point as a list
  * of paths, the finished (closed) paths followed by one open trailing
  * path. Every new edge is tested against the edges already accepted, and
  * an edge that crosses one is rolled back.
  */
module Validator {
  import opened Wrappers
  import opened Geometry

  /** The two failures the validator reports. */
  datatype Error =
    | CrossesExistingEdge  // the new (or closing) edge crosses an accepted edge
    | TooFewPoints         // a path of two points or fewer cannot be closed

  /** Edge `j` of a path: from point `j` to point `j + 1`. */
  function Edge(path: seq<Point>, j: nat): Line
    requires j + 1 < |path|
  {
    Line(path[j], path[j + 1])
  }

  /** A finished path: at least three points, not necessarily distinct, plus the closing copy of the first. */
  predicate ClosedPath(path: seq<Point>) {
    |path| >= 4 && path[|path| - 1] == path[0]
  }

  /**
    * The new last edge of the trailing path crosses no edge of an earlier
    * path, and no edge of its own path except the one just before it (and,
    * when closing, the first edge, which shares the first point). A
    * trailing path of fewer than two points has no last edge and is valid.
    */
  predicate LastEdgeValid(paths: seq<seq<Point>>, closed: bool)
    requires |paths| >= 1
  {
    var last := paths[|paths| - 1];
    var n := |last|;
    n < 2 ||
    ((forall i, j :: 0 <= i < |paths| - 1 && 0 <= j < |paths[i]| - 1 ==>
        !Crosses(Edge(paths[i], j), Edge(last, n - 2))) &&
     (forall j :: (if closed then 1 else 0) <= j < n - 3 ==>
        !Crosses(Edge(last, j), Edge(last, n - 2))))
  }

  /**
    * The crossing test of the last edge, loop by loop as the source does
    * it: first every edge of every earlier path, then the edges
    * `start .. n - 4` of the trailing path.
    */
  method CheckLastEdge(paths: seq<seq<Point>>, closed: bool) returns (ok: bool)
    requires |paths| >= 1
    requires forall i :: 0 <= i < |paths| - 1 ==> |paths[i]| >= 1
    ensures ok == LastEdgeValid(paths, closed)
  {
    var last := paths[|paths| - 1];
    var n := |last|;
    if n < 2 {
      return true;
    }
    var lastEdge := Edge(last, n - 2);
    for i := 0 to |paths| - 1
      invariant forall i', j :: 0 <= i' < i && 0 <= j < |paths[i']| - 1 ==> !Crosses(Edge(paths[i'], j), lastEdge)
    {
      var path := paths[i];
      for j := 0 to |path| - 1
        invariant forall j' :: 0 <= j' < j ==> !Crosses(Edge(path, j'), lastEdge)
      {
        if Intersection(Edge(path, j), lastEdge).Some? {
          return false;
        }
      }
    }
    var start := if closed then 1 else 0;
    var end := n - 3;
    if end >= start {
      for j := start to end
        invariant forall j' :: start <= j' < j ==> !Crosses(Edge(last, j'), lastEdge)
      {
        if Intersection(Edge(last, j), lastEdge).Some? {
          return false;
        }
      }
    }
    return true;
  }

  /**
    * Edge `j` of path `k` passed the test it met when it was added: it
    * crosses no edge of an earlier path and no earlier edge of its own path
    * other than the one just before it; the closing edge of a closed path
    * (one of the first `closedCount` paths) was also excused from edge 0.
    */
  predicate EdgeAccepted(paths: seq<seq<Point>>, closedCount: nat, k: nat, j: nat)
    requires k < |paths| && j + 1 < |paths[k]|
  {
    var e := Edge(paths[k], j);
    var lo := if k < closedCount && j == |paths[k]| - 2 then 1 else 0;
    (forall k', j' :: 0 <= k' < k && 0 <= j' < |paths[k']| - 1 ==> !Crosses(Edge(paths[k'], j'), e)) &&
    (forall j' :: lo <= j' < j - 1 ==> !Crosses(Edge(paths[k], j'), e))
  }

  /** Every edge of the polygon was accepted. */
  predicate AcceptedEdges(paths: seq<seq<Point>>, closedCount: nat) {
    forall k, j :: 0 <= k < |paths| && 0 <= j < |paths[k]| - 1 ==> EdgeAccepted(paths, closedCount, k, j)
  }

  /** Appending an accepted edge to the trailing path keeps every edge accepted. */
  lemma AcceptedAfterAppend(paths: seq<seq<Point>>, point: Point, closed: bool)
    requires |paths| >= 1 && AcceptedEdges(paths, |paths| - 1)
    requires var ext := paths[..|paths| - 1] + [paths[|paths| - 1] + [point]];
      LastEdgeValid(ext, closed)
    ensures var ext := paths[..|paths| - 1] + [paths[|paths| - 1] + [point]];
      AcceptedEdges(ext, if closed then |paths| else |paths| - 1)
  {
    var ext := paths[..|paths| - 1] + [paths[|paths| - 1] + [point]];
    var cc := if closed then |paths| else |paths| - 1;
    var n := |paths| - 1;
    forall k, j | 0 <= k < |ext| && 0 <= j < |ext[k]| - 1
      ensures EdgeAccepted(ext, cc, k, j)
    {
      if k < n {
        assert ext[k] == paths[k];
        assert forall k' :: 0 <= k' <= k ==> ext[k'] == paths[k'];
        assert EdgeAccepted(paths, |paths| - 1, k, j);
      } else if j < |ext[k]| - 2 {
        assert forall k' :: 0 <= k' < k ==> ext[k'] == paths[k'];
        assert forall j' :: 0 <= j' <= j ==> Edge(ext[k], j') == Edge(paths[k], j');
        assert EdgeAccepted(paths, |paths| - 1, k, j);
      } else {
        assert forall k' :: 0 <= k' < k ==> ext[k'] == paths[k'];
      }
    }
  }

  /** Dropping trailing paths keeps every edge accepted. */
  lemma AcceptedPrefix(paths: seq<seq<Point>>, m: nat, closedCount: nat)
    requires m <= |paths| && AcceptedEdges(paths, closedCount)
    ensures AcceptedEdges(paths[..m], closedCount)
  {
    forall k, j | 0 <= k < m && 0 <= j < |paths[..m][k]| - 1
      ensures EdgeAccepted(paths[..m], closedCount, k, j)
    {
      assert forall k' :: 0 <= k' <= k ==> paths[..m][k'] == paths[k'];
      assert EdgeAccepted(paths, closedCount, k, j);
    }
  }

  /** Starting a new empty path keeps every edge accepted. */
  lemma AcceptedAddEmpty(paths: seq<seq<Point>>, closedCount: nat)
    requires AcceptedEdges(paths, closedCount)
    ensures AcceptedEdges(paths + [[]], closedCount)
  {
    var p := paths + [[]];
    forall k, j | 0 <= k < |p| && 0 <= j < |p[k]| - 1
      ensures EdgeAccepted(p, closedCount, k, j)
    {
      assert forall k' :: 0 <= k' <= k ==> p[k'] == paths[k'];
      assert EdgeAccepted(paths, closedCount, k, j);
    }
  }

  /**
    * What the validator guarantees: no two edges of the polygon cross, in
    * either order, unless they are neighbours in the same path or are the
    * first and the closing edge of a closed path (both touch its first point).
    */
  lemma AcceptedEdgesDoNotCross(paths: seq<seq<Point>>, closedCount: nat, k1: nat, j1: nat, k2: nat, j2: nat)
    requires AcceptedEdges(paths, closedCount)
    requires k1 < |paths| && j1 + 1 < |paths[k1]| && k2 < |paths| && j2 + 1 < |paths[k2]|
    requires k1 != k2 || (j1 + 1 < j2 && !(k2 < closedCount && j1 == 0 && j2 == |paths[k2]| - 2))
    ensures !Crosses(Edge(paths[k1], j1), Edge(paths[k2], j2))
    ensures !Crosses(Edge(paths[k2], j2), Edge(paths[k1], j1))
  {
    IntersectionSwap(Edge(paths[k1], j1), Edge(paths[k2], j2));
    if k1 < k2 || k1 == k2 {
      assert EdgeAccepted(paths, closedCount, k2, j2);
    } else {
      assert EdgeAccepted(paths, closedCount, k1, j1);
    }
  }

  /** A polygon whose earlier paths are closed and whose edges were all accepted, with its trailing path open. */
  ghost predicate ValidPaths(paths: seq<seq<Point>>) {
    |paths| >= 1 && (forall i :: 0 <= i < |paths| - 1 ==> ClosedPath(paths[i])) &&
    AcceptedEdges(paths, |paths| - 1)
  }

  /** Clearing the trailing path keeps the polygon valid. */
  lemma ClearedValid(paths: seq<seq<Point>>)
    requires ValidPaths(paths)
    ensures ValidPaths(paths[..|paths| - 1] + [[]])
  {
    var front := paths[..|paths| - 1];
    AcceptedPrefix(paths, |paths| - 1, |paths| - 1);
    AcceptedAddEmpty(front, |paths| - 1);
    assert forall i :: 0 <= i < |front| ==> (front + [[]])[i] == paths[i];
  }

  /** Closing a trailing path of more than two points with an accepted edge, then opening an empty one, keeps the polygon valid. */
  lemma ClosedValid(paths: seq<seq<Point>>)
    requires ValidPaths(paths) && |paths[|paths| - 1]| > 2
    requires var last := paths[|paths| - 1];
      LastEdgeValid(paths[..|paths| - 1] + [last + [last[0]]], true)
    ensures var last := paths[|paths| - 1];
      ValidPaths(paths[..|paths| - 1] + [last + [last[0]]] + [[]])
  {
    var last := paths[|paths| - 1];
    var closing := paths[..|paths| - 1] + [last + [last[0]]];
    AcceptedAfterAppend(paths, last[0], true);
    AcceptedAddEmpty(closing, |closing|);
    assert ClosedPath(last + [last[0]]);
    assert forall i :: 0 <= i < |paths| - 1 ==> (closing + [[]])[i] == paths[i];
    assert (closing + [[]])[|paths| - 1] == last + [last[0]];
  }

  /** Closed paths only, every edge accepted: a finished polygon. */
  ghost predicate FinishedPaths(paths: seq<seq<Point>>) {
    (forall i :: 0 <= i < |paths| ==> ClosedPath(paths[i])) &&
    AcceptedEdges(paths, |paths|)
  }

  /** Dropping an empty trailing path from a valid polygon leaves a finished one. */
  lemma FinishedAfterDrop(paths: seq<seq<Point>>)
    requires ValidPaths(paths) && paths[|paths| - 1] == []
    ensures FinishedPaths(paths[..|paths| - 1])
  {
    AcceptedPrefix(paths, |paths| - 1, |paths| - 1);
  }

  /** The trailing path without its last point (what `pop` leaves). */
  function DropLastPoint(paths: seq<seq<Point>>): (r: seq<seq<Point>>)
    requires |paths| >= 1
    ensures |r| == |paths| && r[..|r| - 1] == paths[..|paths| - 1]
  {
    var last := paths[|paths| - 1];
    paths[..|paths| - 1] + [if last == [] then [] else last[..|last| - 1]]
  }

  /**
    * `add_point` took `before` to `after` reporting `err`: the point goes on
    * the trailing path, and either its edge is accepted with no error or it
    * crosses an existing edge and the polygon is left as it was.
    */
  ghost predicate PointAdded(before: seq<seq<Point>>, point: Point, err: Option<Error>, after: seq<seq<Point>>)
    requires |before| >= 1
  {
    var extended := before[..|before| - 1] + [before[|before| - 1] + [point]];
    err == (if LastEdgeValid(extended, false) then None else Some(CrossesExistingEdge)) &&
    after == (if err.None? then extended else before)
  }

  /**
    * `close_path` took `before` to `after` reporting `err`: a trailing path
    * of two points or fewer is cleared with `TooFewPoints`; otherwise its
    * first point is appended and either the closing edge is accepted and an
    * empty trailing path started, or it crosses and nothing changes.
    */
  ghost predicate PathClosed(before: seq<seq<Point>>, err: Option<Error>, after: seq<seq<Point>>)
    requires |before| >= 1
  {
    var front, last := before[..|before| - 1], before[|before| - 1];
    if |last| <= 2 then
      err == Some(TooFewPoints) && after == front + [[]]
    else
      var closing := front + [last + [last[0]]];
      err == (if LastEdgeValid(closing, true) then None else Some(CrossesExistingEdge)) &&
      after == (if err.None? then closing + [[]] else before)
  }

  /**
    * `finish_polygen` took `before` to `after` reporting `err`: a trailing
    * path of two points or fewer is dropped without error; otherwise it is
    * closed as `close_path` would, and on success no empty path follows.
    */
  ghost predicate PolygonFinished(before: seq<seq<Point>>, err: Option<Error>, after: seq<seq<Point>>)
    requires |before| >= 1
  {
    var front, last := before[..|before| - 1], before[|before| - 1];
    if |last| <= 2 then
      err == None && after == front
    else
      var closing := front + [last + [last[0]]];
      err == (if LastEdgeValid(closing, true) then None else Some(CrossesExistingEdge)) &&
      after == (if err.None? then closing else before)
  }

  /** The polygon under construction. */
  class Polygon {
    var paths: seq<seq<Point>>

    /** There is a trailing path, and every earlier path is closed. */
    ghost predicate Valid()
      reads this
    {
      ValidPaths(paths)
    }

    /** After a successful finish: closed paths only, no trailing path. */
    ghost predicate Finished()
      reads this
    {
      FinishedPaths(paths)
    }

    /** A new polygon: one empty trailing path. */
    constructor ()
      ensures Valid() && paths == [[]]
    {
      paths := [[]];
    }

    /** Start over with one empty trailing path. */
    method Reset()
      modifies this
      ensures Valid() && paths == [[]]
    {
      paths := [[]];
    }

    /** The crossing test with roll-back: on failure the last point is popped again. */
    method CheckLastEdgeValid(closed: bool) returns (ok: bool)
      requires |paths| >= 1 && forall i :: 0 <= i < |paths| - 1 ==> |paths[i]| >= 1
      modifies this
      ensures ok == LastEdgeValid(old(paths), closed)
      ensures paths == if ok then old(paths) else DropLastPoint(old(paths))
    {
      ok := CheckLastEdge(paths, closed);
      if !ok {
        paths := DropLastPoint(paths);
      }
    }

    /**
      * Append `point` to the trailing path. Either the new edge is valid,
      * the path keeps the point and there is no error, or the point is
      * removed again and the polygon is exactly as it was.
      */
    method AddPoint(point: Point) returns (err: Option<Error>)
      requires Valid()
      modifies this
      ensures Valid()
      ensures PointAdded(old(paths), point, err, paths)
    {
      ghost var before := paths;
      paths := paths[..|paths| - 1] + [paths[|paths| - 1] + [point]];
      ghost var extended := paths;
      var ok := CheckLastEdgeValid(false);
      if ok {
        AcceptedAfterAppend(before, point, false);
      } else {
        assert extended[|extended| - 1][..|extended[|extended| - 1]| - 1] == before[|before| - 1];
        assert paths == before;
      }
      err := if ok then None else Some(CrossesExistingEdge);
    }

    /**
      * Close the trailing path. With two points or fewer the path is cleared
      * and the call fails. Otherwise a copy of the first point is appended
      * and the closing edge is checked: on success a new empty trailing path
      * is started, on failure the closing point is removed again.
      */
    method ClosePath() returns (err: Option<Error>)
      requires Valid()
      modifies this
      ensures Valid()
      ensures PathClosed(old(paths), err, paths)
    {
      var current := paths[|paths| - 1];
      if |current| > 2 {
        ghost var before := paths;
        paths := paths[..|paths| - 1] + [current + [current[0]]];
        ghost var closing := paths;
        var ok := CheckLastEdgeValid(true);
        if ok {
          ClosedValid(before);
          paths := paths + [[]];
          err := None;
        } else {
          assert closing[|closing| - 1][..|closing[|closing| - 1]| - 1] == current;
          assert paths == before;
          err := Some(CrossesExistingEdge);
        }
      } else {
        ClearedValid(paths);
        paths := paths[..|paths| - 1] + [[]];
        err := Some(TooFewPoints);
      }
    }

    /**
      * Finish the polygon: close the trailing path, and treat an empty
      * trailing path afterwards as success. On success the trailing path is
      * removed and only closed paths remain; so a trailing path of at most
      * two points is silently discarded. A crossing failure leaves the
      * polygon as ClosePath left it.
      */
    method FinishPolygon() returns (err: Option<Error>)
      requires Valid()
      modifies this
      ensures err.None? ==> Finished()
      ensures err.Some? ==> Valid()
      ensures PolygonFinished(old(paths), err, paths)
    {
      ghost var front, last := paths[..|paths| - 1], paths[|paths| - 1];
      err := ClosePath();
      if |paths[|paths| - 1]| == 0 {
        err := None;
      }
      if err.None? {
        FinishedAfterDrop(paths);
        paths := paths[..|paths| - 1];
      }
      if |last| <= 2 {
        assert (front + [[]])[..|front|] == front;
      } else if err.None? {
        ghost var closing := front + [last + [last[0]]];
        assert (closing + [[]])[..|closing|] == closing;
        assert ClosedPath(last + [last[0]]);
      }
    }
  }
}
