/**
  * The source's `clipping`: build the vertex table of both polygons, insert
  * every intersection, then run the result pass and the two leftover passes.
  */
module Clipping {
  import opened Geometry
  import opened VertexTable
  import opened Splice
  import opened Walks

  /** The source's `ClipResult`: the overlap contours and the leftover runs of either polygon. */
  datatype ClipResult = ClipResult(result: seq<seq<Point>>, main: seq<seq<Point>>, clipper: seq<seq<Point>>)

  /** `Diverged` stands for a result walk that never returns, where the source runs forever. */
  datatype Outcome = Clipped(clip: ClipResult) | Diverged

  /** Both chains of a spliced table close, so the result walk never leaves it. */
  lemma SwitchingClosed(t: seq<Item>)
    requires RouteClosed(t, Along(MainChain)) && RouteClosed(t, Along(ClipperChain))
    ensures RouteClosed(t, Switching)
  {
    forall k | 0 <= k < |t|
      ensures StaysOnRoute(t, Switching, k)
    {
      assert StaysOnRoute(t, Along(MainChain), k) && StaysOnRoute(t, Along(ClipperChain), k);
    }
  }

  /** The tables two polygons build, with the main records first. */
  function BuiltTable(polygon: seq<seq<Point>>, clipper: seq<seq<Point>>): seq<Item>
    requires NonEmptyPaths(polygon) && NonEmptyPaths(clipper)
  {
    PolygonRecords(polygon, MainChain, 0) + PolygonRecords(clipper, ClipperChain, RecordCount(polygon))
  }

  /**
    * A spliced table is unmarked, every original vertex lies on a cycle of
    * its chain, and every inserted record on a cycle of both chains.
    */
  lemma SplicedReady(table: seq<Item>, origin: seq<Item>, mainEnd: nat, runs: seq<seq<nat>>, hits: seq<Crossing>)
    requires Spliced(table, origin, mainEnd, runs, hits) && OriginCyclic(origin, mainEnd)
    ensures RouteClosed(table, Switching)
    ensures forall k :: 0 <= k < |table| ==> !table[k].isResult
    ensures forall k :: 0 <= k < mainEnd ==> OnCycle(table, Along(MainChain), k)
    ensures forall k :: mainEnd <= k < |origin| ==> OnCycle(table, Along(ClipperChain), k)
    ensures forall k :: |origin| <= k < |table| ==>
      OnCycle(table, Along(MainChain), k) && OnCycle(table, Along(ClipperChain), k)
  {
    SplicedCycles(table, origin, mainEnd, runs, hits);
    SplicedHitsOnCycles(table, origin, mainEnd, runs, hits);
    SwitchingClosed(table);
    forall k | 0 <= k < |table|
      ensures !table[k].isResult
    {
      if k >= |origin| {
        assert RecordOf(table, origin, hits, k);
      }
    }
    forall k | 0 <= k < mainEnd
      ensures OnCycle(table, Along(MainChain), k)
    {
      assert ChainAt(mainEnd, k) == MainChain;
    }
    forall k | mainEnd <= k < |origin|
      ensures OnCycle(table, Along(ClipperChain), k)
    {
      assert ChainAt(mainEnd, k) == ClipperChain;
    }
  }

  /** The source's table builder run on both polygons, the main polygon first. */
  method BuildTable(polygon: seq<seq<Point>>, clipper: seq<seq<Point>>) returns (origin: seq<Item>, mainEnd: nat)
    requires NonEmptyPaths(polygon) && NonEmptyPaths(clipper)
    ensures origin == BuiltTable(polygon, clipper) && mainEnd == RecordCount(polygon)
    ensures OriginLayout(origin, mainEnd) && OriginCyclic(origin, mainEnd)
  {
    var t := GeneratePointTable([], polygon, MainChain);
    mainEnd := |t|;
    assert t == PolygonRecords(polygon, MainChain, 0);
    origin := GeneratePointTable(t, clipper, ClipperChain);
    BuiltTableShape(polygon, clipper);
  }

  /** The walks of the three passes, and the table after each of the first two. */
  datatype Trace = Trace(resultSeeds: seq<nat>, resultLens: seq<nat>, afterResult: seq<Item>,
                         mainSeeds: seq<nat>, mainLens: seq<nat>, afterMain: seq<Item>,
                         clipperSeeds: seq<nat>, clipperLens: seq<nat>)

  /**
    * The three passes ran as `tr` records: the result pass over `table`,
    * the main leftover pass over the table it left, the clipper leftover
    * pass over the table that one left, ending with `final`; each emitted
    * exactly the contours or runs of its walks, and each walked from every
    * seed of its kind that was unvisited when it started, leaving none.
    */
  ghost predicate PassesOutcome(table: seq<Item>, mainEnd: nat, clipperEnd: nat, clip: ClipResult, tr: Trace, final: seq<Item>) {
    ResultOutcome(table, tr.resultSeeds, tr.resultLens, clip.result, tr.afterResult) &&
    (forall k :: 0 <= k < |table| && IsSeed(table[k], Crossings) ==>
      k in Walked(table, Switching, tr.resultSeeds, tr.resultLens)) &&
    (forall k :: 0 <= k < |tr.afterResult| ==> !IsSeed(tr.afterResult[k], Crossings)) &&
    LeftoverOutcome(tr.afterResult, MainChain, 0, mainEnd, tr.mainSeeds, tr.mainLens, clip.main, tr.afterMain) &&
    (forall k :: 0 <= k < mainEnd && k < |tr.afterResult| && IsSeed(tr.afterResult[k], Originals(MainChain)) ==>
      k in Walked(tr.afterResult, Along(MainChain), tr.mainSeeds, tr.mainLens)) &&
    (forall k :: 0 <= k < mainEnd && k < |tr.afterMain| ==> !IsSeed(tr.afterMain[k], Originals(MainChain))) &&
    LeftoverOutcome(tr.afterMain, ClipperChain, mainEnd, clipperEnd, tr.clipperSeeds, tr.clipperLens, clip.clipper, final) &&
    (forall k :: mainEnd <= k < clipperEnd && k < |tr.afterMain| && IsSeed(tr.afterMain[k], Originals(ClipperChain)) ==>
      k in Walked(tr.afterMain, Along(ClipperChain), tr.clipperSeeds, tr.clipperLens)) &&
    (forall k :: mainEnd <= k < clipperEnd && k < |final| ==> !IsSeed(final[k], Originals(ClipperChain)))
  }

  /**
    * Every unvisited crossing of the table lies on the walk of one of the
    * result contours: the result pass emits a contour through it.
    */
  lemma CrossingOnContour(table: seq<Item>, mainEnd: nat, clipperEnd: nat, clip: ClipResult, tr: Trace, final: seq<Item>, k: nat)
    returns (i: nat)
    requires PassesOutcome(table, mainEnd, clipperEnd, clip, tr, final)
    requires k < |table| && IsSeed(table[k], Crossings)
    ensures i < |clip.result| && i < |tr.resultSeeds|
    ensures k in Visited(table, Switching, tr.resultSeeds[i], tr.resultLens[i])
    ensures RouteClosed(table, Switching) && tr.resultSeeds[i] < |table|
    ensures clip.result[i] == Contour(table, tr.resultSeeds[i], tr.resultLens[i])
  {
    i := WalkedByOne(table, Switching, tr.resultSeeds, tr.resultLens, k);
    assert ResultWalkAt(table, tr.resultSeeds, tr.resultLens, clip.result, i);
  }

  /**
    * What the passes guarantee over a table whose chains close: they
    * diverge exactly when some crossing lies on no cycle of the result
    * walk; otherwise they ran as `tr` records, every contour is a closed
    * walk from a crossing, every run a stretch of a chain, only marks
    * changed, and no crossing and no original of either range is left
    * unvisited.
    */
  ghost predicate PassesGuarantee(table: seq<Item>, mainEnd: nat, clipperEnd: nat, out: Outcome, tr: Trace, final: seq<Item>)
    requires RouteClosed(table, Along(MainChain)) && RouteClosed(table, Along(ClipperChain)) && RouteClosed(table, Switching)
    requires mainEnd <= clipperEnd
  {
    (out.Diverged? <==> exists s: nat :: s < |table| && IsCrossing(table[s]) && !OnCycle(table, Switching, s)) &&
    (out.Clipped? ==>
      PassesOutcome(table, mainEnd, clipperEnd, out.clip, tr, final) &&
      (forall r :: r in out.clip.result ==> ContourOf(table, r)) &&
      (forall r :: r in out.clip.main ==> IsStretch(table, MainChain, r)) &&
      (forall r :: r in out.clip.clipper ==> IsStretch(table, ClipperChain, r)) &&
      MarksGrow(table, final) && |final| == |table| &&
      (forall k :: 0 <= k < |final| ==> !IsSeed(final[k], Crossings)) &&
      (forall k :: 0 <= k < mainEnd && k < |final| ==> !IsSeed(final[k], Originals(MainChain))) &&
      (forall k :: mainEnd <= k < clipperEnd && k < |final| ==> !IsSeed(final[k], Originals(ClipperChain))))
  }

  /**
    * The three passes over a spliced `table` whose originals of the main
    * polygon are `0 .. mainEnd - 1` and of the clipper `mainEnd .. clipperEnd - 1`.
    */
  method Passes(table: seq<Item>, mainEnd: nat, clipperEnd: nat) returns (out: Outcome, final: seq<Item>, ghost tr: Trace)
    requires mainEnd <= clipperEnd <= |table|
    requires RouteClosed(table, Along(MainChain)) && RouteClosed(table, Along(ClipperChain)) && RouteClosed(table, Switching)
    requires forall k :: 0 <= k < |table| ==> !table[k].isResult
    requires forall k :: 0 <= k < mainEnd ==> OnCycle(table, Along(MainChain), k)
    requires forall k :: mainEnd <= k < clipperEnd ==> OnCycle(table, Along(ClipperChain), k)
    ensures PassesGuarantee(table, mainEnd, clipperEnd, out, tr, final)
  {
    var t1, result, ok;
    ghost var rSeeds, rLens;
    t1, result, ok, rSeeds, rLens := ResultPass(table);
    if !ok {
      out, final, tr := Diverged, t1, Trace([], [], t1, [], [], t1, [], []);
      return;
    }

    RouteClosedSameLinks(table, t1, Along(MainChain));
    forall k | 0 <= k < mainEnd && t1[k].pointType == OriginMain
      ensures OnCycle(t1, Along(MainChain), k)
    {
      FirstReturnSameLinks(table, t1, Along(MainChain), k, 0);
    }
    var t2, mainRuns;
    ghost var mSeeds, mLens;
    t2, mainRuns, mSeeds, mLens := LeftoverPass(t1, MainChain, 0, mainEnd);
    MarksGrowTrans(table, t1, t2);

    RouteClosedSameLinks(table, t2, Along(ClipperChain));
    forall k | mainEnd <= k < clipperEnd && t2[k].pointType == OriginClipper
      ensures OnCycle(t2, Along(ClipperChain), k)
    {
      FirstReturnSameLinks(table, t2, Along(ClipperChain), k, 0);
    }
    var t3, clipperRuns;
    ghost var cSeeds, cLens;
    t3, clipperRuns, cSeeds, cLens := LeftoverPass(t2, ClipperChain, mainEnd, clipperEnd);

    forall r | r in mainRuns
      ensures IsStretch(table, MainChain, r)
    {
      IsStretchSameLinks(table, t1, MainChain, r);
    }
    forall r | r in clipperRuns
      ensures IsStretch(table, ClipperChain, r)
    {
      IsStretchSameLinks(table, t2, ClipperChain, r);
    }
    MarksGrowTrans(table, t2, t3);
    MarksGrowTrans(t1, t2, t3);
    final := t3;
    out := Clipped(ClipResult(result, mainRuns, clipperRuns));
    tr := Trace(rSeeds, rLens, t1, mSeeds, mLens, t2, cSeeds, cLens);
  }

  /**
    * What `clipping` guarantees for `polygon` and `clipper`: the built table
    * has its layout; `table` is it with every hit of every pair spliced in,
    * each inserted record on a cycle of both chains; and the passes over
    * `table`, which ran as `tr` records and left `final`, keep
    * `PassesGuarantee`.
    */
  ghost predicate ClipOutcome(polygon: seq<seq<Point>>, clipper: seq<seq<Point>>, out: Outcome,
                              table: seq<Item>, runs: seq<seq<nat>>, tr: Trace, final: seq<Item>)
    requires NonEmptyPaths(polygon) && NonEmptyPaths(clipper)
  {
    var origin, mainEnd := BuiltTable(polygon, clipper), RecordCount(polygon);
    OriginLayout(origin, mainEnd) &&
    Spliced(table, origin, mainEnd, runs, AllHits(origin, mainEnd, mainEnd)) &&
    (forall k :: |origin| <= k < |table| ==>
      OnCycle(table, Along(MainChain), k) && OnCycle(table, Along(ClipperChain), k)) &&
    RouteClosed(table, Switching) && RouteClosed(table, Along(MainChain)) && RouteClosed(table, Along(ClipperChain)) &&
    PassesGuarantee(table, mainEnd, |origin|, out, tr, final)
  }

  /**
    * The source's `clipping` of `polygon` by `clipper`: build the table,
    * splice in every hit, run the three passes. `table` is the table once
    * every hit is spliced in, `final` the table after the passes.
    */
  method Clip(polygon: seq<seq<Point>>, clipper: seq<seq<Point>>)
    returns (out: Outcome, table: seq<Item>, ghost runs: seq<seq<nat>>, ghost tr: Trace, final: seq<Item>)
    requires NonEmptyPaths(polygon) && NonEmptyPaths(clipper)
    ensures ClipOutcome(polygon, clipper, out, table, runs, tr, final)
  {
    var origin, mainEnd := BuildTable(polygon, clipper);
    table, runs := InsertIntersections(origin, mainEnd);
    SplicedReady(table, origin, mainEnd, runs, AllHits(origin, mainEnd, mainEnd));
    out, final, tr := Passes(table, mainEnd, |origin|);
  }
}
