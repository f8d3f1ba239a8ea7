/**
  * The editing session around the validator and the clipper: the user first
  * draws the main polygon, then the clipper polygon, then sees the clip.
  * Return finishes the polygon being drawn (or starts over from the
  * result), Backspace clears it, and mouse releases add or close paths.
  */
module Session {
  import opened Wrappers
  import opened Geometry
  import opened VertexTable
  import opened Validator
  import opened Walks
  import opened Clipping

  /** Which polygon is being drawn, or the result being shown. */
  datatype Status = Main | Clipper | Result

  /** The mouse buttons the session reacts to; any other button is ignored. */
  datatype Button = Left | Right | OtherButton

  /** What a mouse release reports: a validator error, or the orientation of the path it closed. */
  datatype Report = Rejected(err: Error) | Closed(antiClockwise: bool)

  /** The error a release reported, if it reported one. */
  function ReportedError(report: Option<Report>): (e: Option<Error>)
    ensures e.Some? <==> report.Some? && report.value.Rejected?
    ensures e.Some? ==> report == Some(Rejected(e.value))
  {
    if report.Some? && report.value.Rejected? then Some(report.value.err) else None
  }

  class Editor {
    var status: Status
    var main: Polygon
    var clipper: Polygon

    /**
      * While a polygon is being drawn it is a valid polygon under
      * construction; a polygon already finished holds only closed paths.
      */
    ghost predicate Valid()
      reads this, main, clipper
    {
      main != clipper &&
      (status == Main ==> main.Valid() && clipper.Valid()) &&
      (status == Clipper ==> main.Finished() && clipper.Valid()) &&
      (status == Result ==> main.Finished() && clipper.Finished())
    }

    constructor ()
      ensures Valid() && status == Main && main.paths == [[]] && clipper.paths == [[]]
      ensures fresh(main) && fresh(clipper)
    {
      status := Main;
      main := new Polygon();
      clipper := new Polygon();
    }

    /**
      * Return: finish the main polygon and move on to the clipper, finish
      * the clipper and move on to the result, or from the result start
      * over with two empty polygons. A failed finish keeps the status.
      */
    method OnReturn() returns (err: Option<Error>)
      requires Valid()
      modifies this, main, clipper
      ensures Valid() && main == old(main) && clipper == old(clipper)
      ensures old(status) == Main ==>
        PolygonFinished(old(main.paths), err, main.paths) && clipper.paths == old(clipper.paths) &&
        status == (if err.None? then Clipper else Main)
      ensures old(status) == Clipper ==>
        PolygonFinished(old(clipper.paths), err, clipper.paths) && main.paths == old(main.paths) &&
        status == (if err.None? then Result else Clipper)
      ensures old(status) == Result ==>
        err.None? && main.paths == [[]] && clipper.paths == [[]] && status == Main
    {
      match status
      case Main =>
        err := main.FinishPolygon();
        status := if err.None? then Clipper else Main;
      case Clipper =>
        err := clipper.FinishPolygon();
        status := if err.None? then Result else Clipper;
      case Result =>
        err := None;
        main.Reset();
        clipper.Reset();
        status := Main;
    }

    /**
      * Backspace: clear the polygon being drawn, or from the result start
      * over with two empty polygons.
      */
    method OnBackspace()
      requires Valid()
      modifies this, main, clipper
      ensures Valid() && main == old(main) && clipper == old(clipper)
      ensures status == (if old(status) == Result then Main else old(status))
      ensures old(status) != Clipper ==> main.paths == [[]]
      ensures old(status) != Main ==> clipper.paths == [[]]
      ensures old(status) == Main ==> clipper.paths == old(clipper.paths)
      ensures old(status) == Clipper ==> main.paths == old(main.paths)
    {
      match status
      case Main =>
        main.Reset();
      case Clipper =>
        clipper.Reset();
      case Result =>
        main.Reset();
        clipper.Reset();
        status := Main;
    }

    /**
      * A mouse release at `point` while drawing: the left button adds the
      * point, the right button closes the trailing path and, on success,
      * reports the orientation of the path just closed. In the result, or
      * for another button, nothing happens.
      */
    method OnRelease(button: Button, point: Point) returns (report: Option<Report>)
      requires Valid()
      modifies main, clipper
      ensures Valid()
      ensures status == Result || button == OtherButton ==>
        report.None? && main.paths == old(main.paths) && clipper.paths == old(clipper.paths)
      ensures status == Main ==> clipper.paths == old(clipper.paths)
      ensures status == Clipper ==> main.paths == old(main.paths)
      ensures status != Result && button == Left ==>
        var p := if status == Main then main else clipper;
        |old(p.paths)| >= 1 && PointAdded(old(p.paths), point, ReportedError(report), p.paths) &&
        (report.None? || report.value.Rejected?)
      ensures status != Result && button == Right ==>
        var p := if status == Main then main else clipper;
        |old(p.paths)| >= 1 && PathClosed(old(p.paths), ReportedError(report), p.paths) && report.Some?
      ensures report.Some? && report.value.Closed? ==>
        var p := if status == Main then main else clipper;
        |p.paths| >= 2 && ClosedPath(p.paths[|p.paths| - 2]) &&
        (report.value.antiClockwise <==> ShoelaceSum(p.paths[|p.paths| - 2]) > 0.0)
    {
      if status == Result || button == OtherButton {
        return None;
      }
      var polygon := if status == Main then main else clipper;
      var err;
      if button == Left {
        err := polygon.AddPoint(point);
      } else {
        err := polygon.ClosePath();
        if err.None? {
          var antiClockwise := IsPathAntiClockwise(polygon.paths[|polygon.paths| - 2]);
          return Some(Closed(antiClockwise));
        }
      }
      report := if err.Some? then Some(Rejected(err.value)) else None;
    }

    /**
      * What the result view shows: the clip of the two finished polygons.
      * Every result contour is closed and every leftover run holds at
      * least one edge; `Diverged` stands for a clip that never finishes.
      */
    method ResultView() returns (out: Outcome, ghost table: seq<Item>, ghost runs: seq<seq<nat>>, ghost tr: Trace, ghost final: seq<Item>)
      requires Valid() && status == Result
      ensures NonEmptyPaths(main.paths) && NonEmptyPaths(clipper.paths)
      ensures ClipOutcome(main.paths, clipper.paths, out, table, runs, tr, final)
      ensures out.Clipped? ==>
        (forall r :: r in out.clip.result ==> |r| >= 2 && r[0] == r[|r| - 1]) &&
        (forall r :: r in out.clip.main ==> |r| >= 2) &&
        (forall r :: r in out.clip.clipper ==> |r| >= 2)
    {
      var t, f;
      out, t, runs, tr, f := Clip(main.paths, clipper.paths);
      table, final := t, f;
      if out.Clipped? {
        forall r | r in out.clip.result
          ensures |r| >= 2 && r[0] == r[|r| - 1]
        {
          ContourClosed(table, r);
        }
      }
    }
  }
}
