/**
  * Geometry primitives of the clipper: points, directed segments, the
  * segment-segment intersection used both by the validator and by the
  * Weiler-Atherton table, and the orientation sum of a closed path.
  * Coordinates and segment parameters are exact reals.
  */
module Geometry {
  import opened Wrappers

  /** A point of the scene (the source keeps two f32 coordinates). */
  datatype Point = Point(x: real, y: real)

  /** A directed segment `[from, to]`. */
  datatype Line = Line(from: Point, to: Point)

  /**
    * Kind of a vertex-table record: an original vertex of the main
    * (subject) polygon or of the clipper polygon, or an intersection at
    * which the main polygon enters (`In`) or leaves (`Out`) the clipper.
    */
  datatype PointType = OriginMain | OriginClipper | In | Out

  /** A hit: the crossing point, its parameter on each segment, its kind. */
  datatype Hit = Hit(point: Point, s: real, t: real, pointType: PointType)

  /** The point at parameter `u` along `l` (u = 0 is `from`, u = 1 is `to`). */
  function PointAt(l: Line, u: real): Point {
    Point(l.from.x + u * (l.to.x - l.from.x), l.from.y + u * (l.to.y - l.from.y))
  }

  /** The determinant `D` of the 2x2 system, in the form the source computes it. */
  function Determinant(l1: Line, l2: Line): real {
    var a, b, c, d := l1.from, l1.to, l2.from, l2.to;
    a.x * (d.y - c.y) - b.x * (d.y - c.y) - c.x * (b.y - a.y) + d.x * (b.y - a.y)
  }

  /** Parameter of the solution on the first segment (numerator as in the source). */
  function ParamS(l1: Line, l2: Line): real
    requires Determinant(l1, l2) != 0.0
  {
    var a, c, d := l1.from, l2.from, l2.to;
    (a.x * (d.y - c.y) + c.x * (a.y - d.y) + d.x * (c.y - a.y)) / Determinant(l1, l2)
  }

  /** Parameter of the solution on the second segment (numerator as in the source). */
  function ParamT(l1: Line, l2: Line): real
    requires Determinant(l1, l2) != 0.0
  {
    var a, b, c := l1.from, l1.to, l2.from;
    -(a.x * (c.y - b.y) + b.x * (a.y - c.y) + c.x * (b.y - a.y)) / Determinant(l1, l2)
  }

  /**
    * Intersection of two segments. Parallel (and collinear) segments never
    * intersect; otherwise there is a hit exactly when the solution lies on
    * both closed segments. The hit is `Out` when the cross product of the
    * two directions is positive and `In` otherwise.
    */
  function Intersection(l1: Line, l2: Line): (r: Option<Hit>)
    ensures Determinant(l1, l2) == 0.0 ==> r.None?
    ensures r.Some? ==> 0.0 <= r.value.s <= 1.0 && 0.0 <= r.value.t <= 1.0
    ensures r.Some? ==> r.value.point == PointAt(l1, r.value.s)
    ensures r.Some? ==> (r.value.pointType == Out <==> Determinant(l1, l2) > 0.0)
    ensures r.Some? ==> (r.value.pointType == In <==> Determinant(l1, l2) < 0.0)
  {
    var a, b := l1.from, l1.to;
    var dir1x, dir1y := b.x - a.x, b.y - a.y;
    var dir2x, dir2y := l2.to.x - l2.from.x, l2.to.y - l2.from.y;
    if Determinant(l1, l2) == 0.0 then None
    else
      var s, t := ParamS(l1, l2), ParamT(l1, l2);
      if 0.0 <= s <= 1.0 && 0.0 <= t <= 1.0 then
        var m := dir2x * dir1y - dir1x * dir2y;
        Some(Hit(Point(a.x + s * (b.x - a.x), a.y + s * (b.y - a.y)), s, t, if m > 0.0 then Out else In))
      else None
  }

  /** The two segments cross (the only use the validator makes of a hit). */
  predicate Crosses(l1: Line, l2: Line) {
    Intersection(l1, l2).Some?
  }

  lemma CancelFactor(x: real, y: real, d: real)
    requires d != 0.0 && x * d == y * d
    ensures x == y
  {
    assert (x - y) * d == 0.0;
  }

  /** The solution `S`, `T` of `s * u - t * p == e`, `s * v - t * q == f` by Cramer's rule (`D` is minus the determinant). */
  ghost predicate CramerRule(u: real, v: real, p: real, q: real, e: real, f: real, D: real, S: real, T: real) {
    D != 0.0 && D == -(u * q - v * p) && S == -(e * q - f * p) / D && T == -(e * v - f * u) / D
  }

  /** Any solution of the system is the one Cramer's rule gives. */
  lemma CramerSolves(u: real, v: real, p: real, q: real, e: real, f: real, D: real, S: real, T: real, s: real, t: real)
    requires CramerRule(u, v, p, q, e, f, D, S, T)
    requires s * u - t * p == e && s * v - t * q == f
    ensures s == S && t == T
  {
    var ns, nt := -(e * q - f * p), -(e * v - f * u);
    assert (s * u - t * p) * q - (s * v - t * q) * p == e * q - f * p;
    assert s * D == ns;
    assert (s * u - t * p) * v - (s * v - t * q) * u == e * v - f * u;
    assert t * D == nt;
    SolveFactor(s, ns, D);
    SolveFactor(t, nt, D);
  }

  /** Conversely, the values Cramer's rule gives solve the system. */
  lemma CramerSolution(u: real, v: real, p: real, q: real, e: real, f: real, D: real, S: real, T: real)
    requires CramerRule(u, v, p, q, e, f, D, S, T)
    ensures S * u - T * p == e && S * v - T * q == f
  {
    var ns, nt := -(e * q - f * p), -(e * v - f * u);
    assert S * D == ns && T * D == nt;
    assert (S * u - T * p) * D == ns * u - nt * p;
    assert ns * u - nt * p == e * D;
    CancelFactor(S * u - T * p, e, D);
    assert (S * v - T * q) * D == ns * v - nt * q;
    assert ns * v - nt * q == f * D;
    CancelFactor(S * v - T * q, f, D);
  }

  /** The determinant and both numerators of the source, in the form Cramer's rule gives them. */
  lemma CramerForms(a1: real, a2: real, b1: real, b2: real, c1: real, c2: real, d1: real, d2: real)
    ensures -((b1 - a1) * (d2 - c2) - (b2 - a2) * (d1 - c1)) == a1 * (d2 - c2) - b1 * (d2 - c2) - c1 * (b2 - a2) + d1 * (b2 - a2)
    ensures -((c1 - a1) * (d2 - c2) - (c2 - a2) * (d1 - c1)) == a1 * (d2 - c2) + c1 * (a2 - d2) + d1 * (c2 - a2)
    ensures -((c1 - a1) * (b2 - a2) - (c2 - a2) * (b1 - a1)) == -(a1 * (c2 - b2) + b1 * (a2 - c2) + c1 * (b2 - a2))
  {
  }

  /** A solution of `x * d == n` with `d` nonzero is the quotient `n / d`. */
  lemma SolveFactor(x: real, n: real, d: real)
    requires d != 0.0 && x * d == n
    ensures x == n / d
  {
    assert (n / d) * d == n;
    CancelFactor(x, n / d, d);
  }

  /** `s` and `t` solve the system: both parameters name the same point. */
  lemma SolutionOnBothLines(l1: Line, l2: Line)
    requires Determinant(l1, l2) != 0.0
    ensures PointAt(l1, ParamS(l1, l2)) == PointAt(l2, ParamT(l1, l2))
  {
    var a, b, c, d := l1.from, l1.to, l2.from, l2.to;
    var u, v, p, q, e, f := b.x - a.x, b.y - a.y, d.x - c.x, d.y - c.y, c.x - a.x, c.y - a.y;
    CramerTerms(l1, l2);
    CramerSolution(u, v, p, q, e, f, Determinant(l1, l2), ParamS(l1, l2), ParamT(l1, l2));
    SolutionSamePoint(l1, l2, ParamS(l1, l2), ParamT(l1, l2));
  }

  /** A hit lies on both segments: at parameter `s` on the first and `t` on the second. */
  lemma IntersectionOnBothSegments(l1: Line, l2: Line)
    requires Intersection(l1, l2).Some?
    ensures var h := Intersection(l1, l2).value;
      h.point == PointAt(l1, h.s) && h.point == PointAt(l2, h.t)
  {
    SolutionOnBothLines(l1, l2);
  }

  /** The coordinate equations that two parameters naming the same point solve. */
  ghost predicate CoordinateEquations(l1: Line, l2: Line, s: real, t: real) {
    var a, b, c, d := l1.from, l1.to, l2.from, l2.to;
    s * (b.x - a.x) - t * (d.x - c.x) == c.x - a.x && s * (b.y - a.y) - t * (d.y - c.y) == c.y - a.y
  }

  /** Two parameters naming the same point solve the coordinate equations. */
  lemma SamePointSolves(l1: Line, l2: Line, s: real, t: real)
    requires PointAt(l1, s) == PointAt(l2, t)
    ensures CoordinateEquations(l1, l2, s, t)
  {
    var a, b, c, d := l1.from, l1.to, l2.from, l2.to;
    var ds1, dt1, ds2, dt2 := s * (b.x - a.x), t * (d.x - c.x), s * (b.y - a.y), t * (d.y - c.y);
    assert a.x + ds1 == c.x + dt1 && a.y + ds2 == c.y + dt2;
  }

  /** A solution of the coordinate equations names the same point on both lines. */
  lemma SolutionSamePoint(l1: Line, l2: Line, s: real, t: real)
    requires CoordinateEquations(l1, l2, s, t)
    ensures PointAt(l1, s) == PointAt(l2, t)
  {
    var a, b, c, d := l1.from, l1.to, l2.from, l2.to;
    var ds1, dt1, ds2, dt2 := s * (b.x - a.x), t * (d.x - c.x), s * (b.y - a.y), t * (d.y - c.y);
    assert PointAt(l1, s) == Point(a.x + ds1, a.y + ds2) && PointAt(l2, t) == Point(c.x + dt1, c.y + dt2);
  }

  /** The source's determinant and parameters, written with the directions of both lines. */
  lemma CramerTerms(l1: Line, l2: Line)
    requires Determinant(l1, l2) != 0.0
    ensures var a, b, c, d := l1.from, l1.to, l2.from, l2.to;
      CramerRule(b.x - a.x, b.y - a.y, d.x - c.x, d.y - c.y, c.x - a.x, c.y - a.y, Determinant(l1, l2), ParamS(l1, l2), ParamT(l1, l2))
  {
    var a, b, c, d := l1.from, l1.to, l2.from, l2.to;
    CramerForms(a.x, a.y, b.x, b.y, c.x, c.y, d.x, d.y);
  }

  /** The parameters of a common point of two non-parallel lines are the source's `s` and `t`. */
  lemma CommonPointParams(l1: Line, l2: Line, s: real, t: real)
    requires Determinant(l1, l2) != 0.0
    requires PointAt(l1, s) == PointAt(l2, t)
    ensures ParamS(l1, l2) == s && ParamT(l1, l2) == t
  {
    var a, b, c, d := l1.from, l1.to, l2.from, l2.to;
    var u, v, p, q, e, f := b.x - a.x, b.y - a.y, d.x - c.x, d.y - c.y, c.x - a.x, c.y - a.y;
    // the two coordinate equations, solved by Cramer's rule
    SamePointSolves(l1, l2, s, t);
    CramerTerms(l1, l2);
    CramerSolves(u, v, p, q, e, f, Determinant(l1, l2), ParamS(l1, l2), ParamT(l1, l2), s, t);
  }

  /**
    * Conversely, a common point of two non-parallel segments is always
    * found, with exactly its parameters: hits are complete and unique.
    */
  lemma IntersectionComplete(l1: Line, l2: Line, s: real, t: real)
    requires Determinant(l1, l2) != 0.0
    requires 0.0 <= s <= 1.0 && 0.0 <= t <= 1.0
    requires PointAt(l1, s) == PointAt(l2, t)
    ensures Intersection(l1, l2).Some?
    ensures Intersection(l1, l2).value.s == s && Intersection(l1, l2).value.t == t
  {
    CommonPointParams(l1, l2, s, t);
  }

  function Flip(k: PointType): PointType {
    match k
    case In => Out
    case Out => In
    case other => other
  }

  /**
    * Testing the segments in the other order finds the same crossing with
    * the two parameters exchanged and the crossing kind flipped.
    */
  lemma IntersectionSwap(l1: Line, l2: Line)
    ensures Intersection(l2, l1).Some? <==> Intersection(l1, l2).Some?
    ensures Intersection(l1, l2).Some? ==>
      var h, h' := Intersection(l1, l2).value, Intersection(l2, l1).value;
      h'.s == h.t && h'.t == h.s && h'.point == h.point && h'.pointType == Flip(h.pointType)
  {
    assert Determinant(l2, l1) == -Determinant(l1, l2);
    if Intersection(l1, l2).Some? {
      var h := Intersection(l1, l2).value;
      IntersectionOnBothSegments(l1, l2);
      IntersectionComplete(l2, l1, h.t, h.s);
      IntersectionOnBothSegments(l2, l1);
    } else if Intersection(l2, l1).Some? {
      var h := Intersection(l2, l1).value;
      IntersectionOnBothSegments(l2, l1);
      IntersectionComplete(l1, l2, h.t, h.s);
    }
  }

  /**
    * Two non-parallel edges that share an endpoint always "cross" at it;
    * this is why the validator never tests the edge just before the new one.
    */
  lemma ConsecutiveEdgesCross(p: Point, q: Point, r: Point)
    requires Determinant(Line(p, q), Line(q, r)) != 0.0
    ensures Crosses(Line(p, q), Line(q, r))
  {
    IntersectionComplete(Line(p, q), Line(q, r), 1.0, 0.0);
  }

  /** An edge leaving `p` and an edge arriving at `p` (first and closing edge of a path). */
  lemma ClosingEdgeCrossesFirstEdge(p: Point, q: Point, r: Point)
    requires Determinant(Line(p, q), Line(r, p)) != 0.0
    ensures Crosses(Line(p, q), Line(r, p))
  {
    IntersectionComplete(Line(p, q), Line(r, p), 0.0, 1.0);
  }

  // ---------------------------------------------------------------------
  // Orientation of a path

  /** The term of edge p->q in the orientation sum. */
  function Term(p: Point, q: Point): real {
    (q.x - p.x) * (q.y + p.y)
  }

  /** Sum of the edge terms over the consecutive points of `path`. */
  function ShoelaceSum(path: seq<Point>): real {
    if |path| < 2 then 0.0
    else ShoelaceSum(path[..|path| - 1]) + Term(path[|path| - 2], path[|path| - 1])
  }

  /**
    * The orientation test shown to the user after a path is closed: the
    * sum accumulated edge by edge, anticlockwise when positive.
    */
  method IsPathAntiClockwise(path: seq<Point>) returns (r: bool)
    requires |path| >= 1
    ensures r <==> ShoelaceSum(path) > 0.0
  {
    var result := 0.0;
    for i := 0 to |path| - 1
      invariant result == ShoelaceSum(path[..i + 1])
    {
      assert path[..i + 2][..i + 1] == path[..i + 1];
      result := result + Term(path[i], path[i + 1]);
    }
    assert path[..|path|] == path;
    r := result > 0.0;
  }

  function Reverse(path: seq<Point>): (r: seq<Point>)
    ensures |r| == |path|
  {
    if path == [] then [] else Reverse(path[1..]) + [path[0]]
  }

  lemma {:induction false} ReverseAt(path: seq<Point>, k: nat)
    requires k < |path|
    ensures Reverse(path)[k] == path[|path| - 1 - k]
  {
    if k < |path| - 1 {
      ReverseAt(path[1..], k);
    }
  }

  /** The sum split off at its first edge. */
  lemma {:induction false} ShoelaceSumFront(path: seq<Point>)
    requires |path| >= 2
    ensures ShoelaceSum(path) == Term(path[0], path[1]) + ShoelaceSum(path[1..])
  {
    if |path| > 2 {
      var init := path[..|path| - 1];
      ShoelaceSumFront(init);
      assert init[1..] == path[1..][..|path| - 2];
    }
  }

  /** The sum split off at its last edge: the recursion of ShoelaceSum, stated for any prefix. */
  lemma ShoelaceSumAppend(path: seq<Point>, q: Point)
    requires |path| >= 1
    ensures ShoelaceSum(path + [q]) == ShoelaceSum(path) + Term(path[|path| - 1], q)
  {
    assert (path + [q])[..|path|] == path;
  }

  /** Walking a path backwards negates its orientation sum. */
  lemma {:induction false} ShoelaceSumReverse(path: seq<Point>)
    ensures ShoelaceSum(Reverse(path)) == -ShoelaceSum(path)
  {
    if |path| >= 2 {
      var tail := path[1..];
      ShoelaceSumReverse(tail);
      ReverseAt(tail, 0);
      ShoelaceSumAppend(Reverse(tail), path[0]);
      ShoelaceSumFront(path);
    } else if |path| == 1 {
      assert Reverse(path) == [path[0]];
    }
  }

  /** A path with a non-zero sum and its reverse have opposite orientations. */
  lemma OrientationFlipsOnReverse(path: seq<Point>)
    requires ShoelaceSum(path) != 0.0
    ensures (ShoelaceSum(Reverse(path)) > 0.0) != (ShoelaceSum(path) > 0.0)
  {
    ShoelaceSumReverse(path);
  }
}
