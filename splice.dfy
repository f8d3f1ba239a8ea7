/**
  * Insertion of the intersection records into the vertex table. For every
  * pair (main edge, clipper edge) of the frozen original table, a hit is
  * appended as a new record and spliced into both chains right after the
  * last record of that edge whose parameter is smaller than the hit's.
  *
  * The invariant is phrased with a ghost "run" per original vertex `k`:
  * the indices of the inserted records that its chain passes through
  * between `k` and the original successor of `k`.
  */
module Splice {
  import opened Wrappers
  import opened Geometry
  import opened VertexTable

  /** The chain an original record `k` belongs to. */
  function ChainAt(mainEnd: nat, k: nat): Chain {
    if k < mainEnd then MainChain else ClipperChain
  }

  /** The record `p` steps after `i` on its run: `i` itself, then the run's records. */
  function RunNode(i: nat, run: seq<nat>, p: nat): nat
    requires p <= |run|
  {
    if p == 0 then i else run[p - 1]
  }

  /** The records of `run` are distinct, differ from `i` and lie in a table of `size` records. */
  predicate RunRecords(i: nat, run: seq<nat>, size: nat) {
    i < size &&
    (forall q :: 0 <= q < |run| ==> run[q] != i && run[q] < size) &&
    (forall q, q' :: 0 <= q < q' < |run| ==> run[q] != run[q'])
  }

  /** From `i`, chain `c` links the records of `run` one after the other, then `target`. */
  ghost predicate RunLinks(table: seq<Item>, c: Chain, i: nat, run: seq<nat>, target: nat)
    requires RunRecords(i, run, |table|)
  {
    forall p {:trigger RunNode(i, run, p)} :: 0 <= p <= |run| ==>
      Next(table[RunNode(i, run, p)], c) == if p < |run| then run[p] else target
  }

  /** Record `a` comes before record `b` on chain `c`: a smaller parameter, or an equal one and a later insertion. */
  ghost predicate Before(table: seq<Item>, c: Chain, a: nat, b: nat)
    requires a < |table| && b < |table|
  {
    Param(table[a], c) < Param(table[b], c) || (Param(table[a], c) == Param(table[b], c) && a > b)
  }

  /**
    * The parameters on chain `c` along `run` never decrease, and of two
    * records with equal parameters the one inserted later comes first.
    */
  ghost predicate RunSorted(table: seq<Item>, c: Chain, run: seq<nat>)
    requires forall q :: 0 <= q < |run| ==> run[q] < |table|
  {
    forall q, q' :: 0 <= q < q' < |run| ==> Before(table, c, run[q], run[q'])
  }

  /**
    * From original record `i`, chain `c` passes through exactly the records
    * of `run`, each once, in nondecreasing parameter order, and then reaches
    * `target`.
    */
  ghost predicate RunLinked(table: seq<Item>, c: Chain, i: nat, run: seq<nat>, target: nat) {
    RunRecords(i, run, |table|) && target < |table| &&
    RunLinks(table, c, i, run, target) && RunSorted(table, c, run)
  }

  /** Every record of `s` is in the table and has a parameter below `x` on chain `c`. */
  ghost predicate ParamsBelow(table: seq<Item>, c: Chain, s: seq<nat>, x: real) {
    |s| == 0 ||
    (ParamsBelow(table, c, s[..|s| - 1], x) && s[|s| - 1] < |table| && Param(table[s[|s| - 1]], c) < x)
  }

  lemma {:induction false} ParamsBelowAt(table: seq<Item>, c: Chain, s: seq<nat>, x: real, q: nat)
    requires ParamsBelow(table, c, s, x) && q < |s|
    ensures s[q] < |table| && Param(table[s[q]], c) < x
    decreases |s|
  {
    if q < |s| - 1 {
      ParamsBelowAt(table, c, s[..|s| - 1], x, q);
    }
  }

  /** The scan along `run` stopped after `p` records: those are below `x`, the next one is not. */
  ghost predicate ScanStopped(table: seq<Item>, c: Chain, run: seq<nat>, p: nat, x: real) {
    p <= |run| && ParamsBelow(table, c, run[..p], x) &&
    (p < |run| ==> run[p] < |table| && Param(table[run[p]], c) >= x)
  }

  /**
    * The forward scan of the source: from `i`, advance while the next
    * record's parameter is below `x`. It stops on the run, no later than
    * its last record (the next original vertex carries parameter 1.0), and
    * every record it passes has a smaller parameter than `x`.
    */
  method ScanInsertPosition(table: seq<Item>, c: Chain, i: nat, x: real, ghost run: seq<nat>, ghost target: nat)
    returns (cur: nat, ghost p: nat)
    requires RunLinked(table, c, i, run, target) && Param(table[target], c) >= x
    ensures p <= |run| && cur == RunNode(i, run, p)
    ensures ScanStopped(table, c, run, p, x)
  {
    cur, p := i, 0;
    while Param(table[Next(table[cur], c)], c) < x
      invariant p <= |run| && cur == RunNode(i, run, p) && cur < |table|
      invariant Next(table[cur], c) == if p < |run| then run[p] else target
      invariant ParamsBelow(table, c, run[..p], x)
      decreases |run| - p
    {
      assert run[..p + 1][..p] == run[..p];
      cur := Next(table[cur], c);
      p := p + 1;
    }
  }

  function Insert(run: seq<nat>, p: nat, n: nat): (r: seq<nat>)
    requires p <= |run|
  {
    run[..p] + [n] + run[p..]
  }

  lemma RunNodesDistinct(i: nat, run: seq<nat>, size: nat, a: nat, b: nat)
    requires RunRecords(i, run, size) && a < b <= |run|
    ensures RunNode(i, run, a) != RunNode(i, run, b)
  {
  }

  /** Following the run from `i` reaches its records one by one, then `target`. */
  lemma {:induction false} RunReach(table: seq<Item>, c: Chain, i: nat, run: seq<nat>, target: nat, p: nat)
    requires RunRecords(i, run, |table|) && RunLinks(table, c, i, run, target) && p <= |run| + 1
    ensures Follow(table, Along(c), i, p) == if p <= |run| then RunNode(i, run, p) else target
  {
    if p > 0 {
      RunReach(table, c, i, run, target, p - 1);
      FollowLast(table, Along(c), i, p - 1);
    }
  }

  /** A run is untouched by relinking a record outside it. */
  lemma RunLinkedFrame(t: seq<Item>, t': seq<Item>, c: Chain, i: nat, run: seq<nat>, target: nat, cur: nat)
    requires RunLinked(t, c, i, run, target) && |t| <= |t'|
    requires forall y :: 0 <= y < |t| && y != cur ==> Next(t'[y], c) == Next(t[y], c)
    requires forall y :: 0 <= y < |t| ==> Param(t'[y], c) == Param(t[y], c)
    requires cur != i && forall q :: 0 <= q < |run| ==> run[q] != cur
    ensures RunLinked(t', c, i, run, target)
  {
    forall p | 0 <= p <= |run|
      ensures Next(t'[RunNode(i, run, p)], c) == if p < |run| then run[p] else target
    {
      assert RunNode(i, run, p) != cur;
    }
  }

  lemma InsertRecords(i: nat, run: seq<nat>, size: nat, p: nat)
    requires RunRecords(i, run, size) && p <= |run|
    ensures RunRecords(i, Insert(run, p, size), size + 1)
  {
    var r' := Insert(run, p, size);
    assert forall q :: 0 <= q < |r'| ==> r'[q] == if q < p then run[q] else if q == p then size else run[q - 1];
  }

  /** The link out of the `a`-th record of the extended run. */
  lemma InsertLinkAt(t: seq<Item>, t': seq<Item>, c: Chain, i: nat, run: seq<nat>, target: nat, p: nat, a: nat)
    requires RunRecords(i, run, |t|) && RunLinks(t, c, i, run, target) && p <= |run|
    requires |t'| == |t| + 1 && RunRecords(i, Insert(run, p, |t|), |t'|) && a <= |run| + 1
    requires forall y :: 0 <= y < |t| && y != RunNode(i, run, p) ==> Next(t'[y], c) == Next(t[y], c)
    requires Next(t'[RunNode(i, run, p)], c) == |t|
    requires Next(t'[|t|], c) == Next(t[RunNode(i, run, p)], c)
    ensures var r' := Insert(run, p, |t|);
      Next(t'[RunNode(i, r', a)], c) == if a < |r'| then r'[a] else target
  {
    var r' := Insert(run, p, |t|);
    if a < p {
      assert RunNode(i, r', a) == RunNode(i, run, a) && r'[a] == run[a];
      RunNodesDistinct(i, run, |t|, a, p);
    } else if a == p {
      assert RunNode(i, r', a) == RunNode(i, run, p) && r'[a] == |t|;
    } else if a == p + 1 {
      assert RunNode(i, r', a) == |t|;
      assert a < |r'| ==> r'[a] == run[p];
    } else {
      assert RunNode(i, r', a) == RunNode(i, run, a - 1);
      assert a < |r'| ==> r'[a] == run[a - 1];
      RunNodesDistinct(i, run, |t|, p, a - 1);
    }
  }

  lemma InsertLinks(t: seq<Item>, t': seq<Item>, c: Chain, i: nat, run: seq<nat>, target: nat, p: nat)
    requires RunRecords(i, run, |t|) && RunLinks(t, c, i, run, target) && p <= |run|
    requires |t'| == |t| + 1 && RunRecords(i, Insert(run, p, |t|), |t'|)
    requires forall y :: 0 <= y < |t| && y != RunNode(i, run, p) ==> Next(t'[y], c) == Next(t[y], c)
    requires Next(t'[RunNode(i, run, p)], c) == |t|
    requires Next(t'[|t|], c) == Next(t[RunNode(i, run, p)], c)
    ensures RunLinks(t', c, i, Insert(run, p, |t|), target)
  {
    var r' := Insert(run, p, |t|);
    forall a | 0 <= a <= |r'|
      ensures Next(t'[RunNode(i, r', a)], c) == if a < |r'| then r'[a] else target
    {
      InsertLinkAt(t, t', c, i, run, target, p, a);
    }
  }

  lemma InsertSorted(t: seq<Item>, t': seq<Item>, c: Chain, run: seq<nat>, p: nat, x: real)
    requires p <= |run| && (forall q :: 0 <= q < |run| ==> run[q] < |t|) && RunSorted(t, c, run)
    requires ParamsBelow(t, c, run[..p], x)
    requires p < |run| ==> Param(t[run[p]], c) >= x
    requires |t'| == |t| + 1
    requires forall y :: 0 <= y < |t| ==> Param(t'[y], c) == Param(t[y], c)
    requires Param(t'[|t|], c) == x
    ensures var r' := Insert(run, p, |t|);
      (forall q :: 0 <= q < |r'| ==> r'[q] < |t'|) && RunSorted(t', c, r')
  {
    var r' := Insert(run, p, |t|);
    assert forall q :: 0 <= q < |r'| ==> r'[q] == if q < p then run[q] else if q == p then |t| else run[q - 1];
    forall q, q' | 0 <= q < q' < |r'|
      ensures Before(t', c, r'[q], r'[q'])
    {
      if q' == p {
        ParamsBelowAt(t, c, run[..p], x, q);
      } else if q == p {
        assert p < |run| && Param(t[run[p]], c) <= Param(t[run[q' - 1]], c) by {
          if p < q' - 1 {
            assert Before(t, c, run[p], run[q' - 1]);
          }
        }
        assert r'[q'] == run[q' - 1] < |t| == r'[q];
      } else {
        var a, b := if q < p then q else q - 1, if q' < p then q' else q' - 1;
        assert r'[q] == run[a] && r'[q'] == run[b] && a < b;
        assert Before(t, c, run[a], run[b]);
      }
    }
  }

  /**
    * Splicing the new record `|t|` after the record where the scan stopped
    * puts it into the run at the scan position, and the run stays sorted.
    */
  lemma RunInsert(t: seq<Item>, t': seq<Item>, c: Chain, i: nat, run: seq<nat>, target: nat,
                  p: nat, x: real)
    requires RunLinked(t, c, i, run, target) && ScanStopped(t, c, run, p, x)
    requires |t'| == |t| + 1
    requires forall y :: 0 <= y < |t| && y != RunNode(i, run, p) ==> Next(t'[y], c) == Next(t[y], c)
    requires Next(t'[RunNode(i, run, p)], c) == |t|
    requires Next(t'[|t|], c) == Next(t[RunNode(i, run, p)], c)
    requires forall y :: 0 <= y < |t| ==> Param(t'[y], c) == Param(t[y], c)
    requires Param(t'[|t|], c) == x
    ensures RunLinked(t', c, i, Insert(run, p, |t|), target)
  {
    InsertRecords(i, run, |t|, p);
    InsertLinks(t, t', c, i, run, target, p);
    InsertSorted(t, t', c, run, p, x);
  }

  // ---------------------------------------------------------------------
  // The hits, in the order the source finds them

  /** A hit found on main edge `i1` and clipper edge `i2`. */
  datatype Crossing = Crossing(i1: nat, i2: nat, hit: Hit)

  /** The original edge that starts at record `k` on chain `c`, read from the frozen table. */
  function OriginalEdge(origin: seq<Item>, c: Chain, k: nat): Line
    requires k < |origin| && Next(origin[k], c) < |origin|
  {
    Line(origin[k].point, origin[Next(origin[k], c)].point)
  }

  function PairHit(origin: seq<Item>, mainEnd: nat, i1: nat, i2: nat): Option<Hit>
    requires OriginLayout(origin, mainEnd) && i1 < mainEnd <= i2 < |origin|
  {
    Intersection(OriginalEdge(origin, MainChain, i1), OriginalEdge(origin, ClipperChain, i2))
  }

  /** The hits of main edge `i1` with the clipper edges before `i2`. */
  function RowHits(origin: seq<Item>, mainEnd: nat, i1: nat, i2: nat): seq<Crossing>
    requires OriginLayout(origin, mainEnd) && i1 < mainEnd <= i2 <= |origin|
    decreases i2
  {
    if i2 == mainEnd then []
    else
      RowHits(origin, mainEnd, i1, i2 - 1) +
      match PairHit(origin, mainEnd, i1, i2 - 1)
      case Some(h) => [Crossing(i1, i2 - 1, h)]
      case None => []
  }

  /** The hits of the main edges before `i1` with every clipper edge. */
  function AllHits(origin: seq<Item>, mainEnd: nat, i1: nat): seq<Crossing>
    requires OriginLayout(origin, mainEnd) && i1 <= mainEnd
  {
    if i1 == 0 then []
    else AllHits(origin, mainEnd, i1 - 1) + RowHits(origin, mainEnd, i1 - 1, |origin|)
  }

  /** The record made for a hit: its point, kind and both parameters, unmarked. */
  predicate Matches(it: Item, cr: Crossing) {
    it.point == cr.hit.point && it.pointType == cr.hit.pointType &&
    it.param1 == cr.hit.s && it.param2 == cr.hit.t && !it.isResult
  }

  /** The original edge, on chain `c`, a hit was found on. */
  function EdgeIndex(cr: Crossing, c: Chain): nat {
    if c == MainChain then cr.i1 else cr.i2
  }

  /** Original records keep everything but the link of their own chain. */
  ghost predicate KeepsOriginals(table: seq<Item>, origin: seq<Item>, mainEnd: nat) {
    |origin| <= |table| &&
    (forall k :: 0 <= k < mainEnd && k < |origin| ==> table[k] == origin[k].(next1 := table[k].next1)) &&
    (forall k :: mainEnd <= k < |origin| ==> table[k] == origin[k].(next2 := table[k].next2))
  }

  /** A hit found on a main edge and a clipper edge of `origin`, of kind `In` or `Out`. */
  ghost predicate OnOriginalEdges(cr: Crossing, origin: seq<Item>, mainEnd: nat) {
    cr.i1 < mainEnd <= cr.i2 < |origin| && (cr.hit.pointType == In || cr.hit.pointType == Out)
  }

  /** Record `k`, if it is an inserted one, is the record of its hit. */
  ghost predicate RecordOf(table: seq<Item>, origin: seq<Item>, hits: seq<Crossing>, k: nat) {
    |origin| <= k < |table| && k - |origin| < |hits| ==> Matches(table[k], hits[k - |origin|])
  }

  /** Every record of `run` was inserted for a hit of `hits` found on edge `k` of chain `c`. */
  ghost predicate Owned(run: seq<nat>, base: nat, hits: seq<Crossing>, c: Chain, k: nat) {
    forall y :: y in run ==> base <= y < base + |hits| && EdgeIndex(hits[y - base], c) == k
  }

  /** The record of hit `h` lies on the run of its main edge and on the run of its clipper edge. */
  ghost predicate Covered(origin: seq<Item>, runs: seq<seq<nat>>, hits: seq<Crossing>, h: nat) {
    h < |hits| ==>
      hits[h].i1 < |runs| && hits[h].i2 < |runs| &&
      |origin| + h in runs[hits[h].i1] && |origin| + h in runs[hits[h].i2]
  }

  /**
    * From original record `k`, its chain runs through the records of
    * `runs[k]`, all inserted for hits on the edge out of `k`, sorted by
    * parameter, to the original successor of `k`.
    */
  ghost predicate RunOf(table: seq<Item>, origin: seq<Item>, mainEnd: nat, runs: seq<seq<nat>>, hits: seq<Crossing>, k: nat) {
    k < |runs| && k < |origin| ==>
      RunLinked(table, ChainAt(mainEnd, k), k, runs[k], Next(origin[k], ChainAt(mainEnd, k))) &&
      Owned(runs[k], |origin|, hits, ChainAt(mainEnd, k), k)
  }

  /**
    * The table after the hits `hits` have been inserted into the original
    * table `origin`: originals are kept but for their own link, record
    * `|origin| + h` is the record of hit `h`, every original record's run
    * holds, and every chain link of a record on that chain leads to a
    * record on it.
    */
  ghost predicate Spliced(table: seq<Item>, origin: seq<Item>, mainEnd: nat, runs: seq<seq<nat>>, hits: seq<Crossing>) {
    OriginLayout(origin, mainEnd) &&
    |table| == |origin| + |hits| && |runs| == |origin| &&
    KeepsOriginals(table, origin, mainEnd) &&
    (forall h :: 0 <= h < |hits| ==> OnOriginalEdges(hits[h], origin, mainEnd)) &&
    (forall h: nat {:trigger Covered(origin, runs, hits, h)} :: Covered(origin, runs, hits, h)) &&
    (forall k: nat {:trigger RecordOf(table, origin, hits, k)} :: RecordOf(table, origin, hits, k)) &&
    (forall k: nat {:trigger RunOf(table, origin, mainEnd, runs, hits, k)} :: RunOf(table, origin, mainEnd, runs, hits, k)) &&
    RouteClosed(table, Along(MainChain)) && RouteClosed(table, Along(ClipperChain))
  }

  /** Before any insertion the original table is spliced, with empty runs. */
  lemma SplicedInit(origin: seq<Item>, mainEnd: nat)
    requires OriginLayout(origin, mainEnd)
    ensures Spliced(origin, origin, mainEnd, seq(|origin|, k => []), [])
  {
    var runs: seq<seq<nat>> := seq(|origin|, k => []);
    forall k: nat ensures RunOf(origin, origin, mainEnd, runs, [], k) {
      if k < |origin| {
        assert RunNode(k, runs[k], 0) == k;
      }
    }
    forall h: nat ensures Covered(origin, runs, [], h) { }
    forall c | c == MainChain || c == ClipperChain ensures RouteClosed(origin, Along(c)) {
      forall k | 0 <= k < |origin| ensures StaysOnRoute(origin, Along(c), k) { }
    }
  }

  /**
    * `t'` is `table` after hit `h` is spliced in: appended as a new record
    * that takes over the main link of `cur1` and the clipper link of `cur2`,
    * both of which now lead to it; nothing else changes.
    */
  ghost predicate SplicedAfter(table: seq<Item>, t': seq<Item>, cur1: nat, cur2: nat, h: Hit) {
    cur1 < |table| && cur2 < |table| && |t'| == |table| + 1 &&
    (forall y :: 0 <= y < |table| ==> t'[y] == table[y].(next1 := t'[y].next1, next2 := t'[y].next2)) &&
    (forall y :: 0 <= y < |table| && y != cur1 ==> t'[y].next1 == table[y].next1) &&
    (forall y :: 0 <= y < |table| && y != cur2 ==> t'[y].next2 == table[y].next2) &&
    t'[cur1].next1 == |table| && t'[cur2].next2 == |table| &&
    t'[|table|] == Item(h.point, h.pointType, h.s, h.t, table[cur1].next1, table[cur2].next2, false)
  }

  /** Where a scan along the run of original `k` can stop: `k` itself or a record inserted on its edge. */
  lemma ScanStopKind(table: seq<Item>, origin: seq<Item>, mainEnd: nat, runs: seq<seq<nat>>, hits: seq<Crossing>, k: nat, p: nat)
    requires Spliced(table, origin, mainEnd, runs, hits) && k < |origin| && p <= |runs[k]|
    ensures var cur := RunNode(k, runs[k], p);
      cur == k ||
      (cur in runs[k] && |origin| <= cur < |table| && EdgeIndex(hits[cur - |origin|], ChainAt(mainEnd, k)) == k)
  {
    assert RunOf(table, origin, mainEnd, runs, hits, k);
    if p > 0 {
      var cur := runs[k][p - 1];
      assert cur in runs[k];
      assert Owned(runs[k], |origin|, hits, ChainAt(mainEnd, k), k);
      assert |origin| <= cur < |table|;
    }
  }

  /** Splicing a crossing record after an on-chain record keeps the chain closed. */
  lemma RouteClosedSplice(t: seq<Item>, t': seq<Item>, c: Chain, cur: nat)
    requires RouteClosed(t, Along(c)) && cur < |t| && OnChain(t[cur], c)
    requires |t'| == |t| + 1 && IsCrossing(t'[|t|])
    requires forall y :: 0 <= y < |t| ==> t'[y].pointType == t[y].pointType
    requires forall y :: 0 <= y < |t| && y != cur ==> Next(t'[y], c) == Next(t[y], c)
    requires Next(t'[cur], c) == |t| && Next(t'[|t|], c) == Next(t[cur], c)
    ensures RouteClosed(t', Along(c))
  {
    forall y | 0 <= y < |t'| ensures StaysOnRoute(t', Along(c), y) {
      if y < |t| && y != cur {
        assert StaysOnRoute(t, Along(c), y);
        if OnChain(t'[y], c) {
          var n := Next(t[y], c);
          assert StepFrom(t'[y], Along(c)) == n < |t|;
          assert t'[n].pointType == t[n].pointType;
        }
      } else if y == |t| {
        assert StaysOnRoute(t, Along(c), cur);
        var n := Next(t[cur], c);
        assert StepFrom(t'[y], Along(c)) == n < |t|;
        assert t'[n].pointType == t[n].pointType;
      } else {
        assert StepFrom(t'[y], Along(c)) == |t|;
      }
    }
  }

  lemma {:induction false} ParamsBelowFrame(t: seq<Item>, t': seq<Item>, c: Chain, s: seq<nat>, x: real)
    requires ParamsBelow(t, c, s, x) && |t| <= |t'|
    requires forall y :: 0 <= y < |t| ==> Param(t'[y], c) == Param(t[y], c)
    ensures ParamsBelow(t', c, s, x)
    decreases |s|
  {
    if |s| > 0 {
      ParamsBelowFrame(t, t', c, s[..|s| - 1], x);
    }
  }

  lemma ScanStoppedFrame(t: seq<Item>, t': seq<Item>, c: Chain, run: seq<nat>, p: nat, x: real)
    requires ScanStopped(t, c, run, p, x) && |t| <= |t'|
    requires forall y :: 0 <= y < |t| ==> Param(t'[y], c) == Param(t[y], c)
    ensures ScanStopped(t', c, run, p, x)
  {
    ParamsBelowFrame(t, t', c, run[..p], x);
  }

  /**
    * One insertion of the source's loop keeps the table spliced: the new
    * record joins the run of main edge `i1` at the main scan position and
    * the run of clipper edge `i2` at the clipper scan position.
    */
  lemma SpliceStep(table: seq<Item>, t': seq<Item>, origin: seq<Item>, mainEnd: nat, runs: seq<seq<nat>>,
                   hits: seq<Crossing>, cr: Crossing, p1: nat, p2: nat)
    requires Spliced(table, origin, mainEnd, runs, hits) && OnOriginalEdges(cr, origin, mainEnd)
    requires ScanStopped(table, MainChain, runs[cr.i1], p1, cr.hit.s)
    requires ScanStopped(table, ClipperChain, runs[cr.i2], p2, cr.hit.t)
    requires SplicedAfter(table, t', RunNode(cr.i1, runs[cr.i1], p1), RunNode(cr.i2, runs[cr.i2], p2), cr.hit)
    ensures Spliced(t', origin, mainEnd,
                    runs[cr.i1 := Insert(runs[cr.i1], p1, |table|)][cr.i2 := Insert(runs[cr.i2], p2, |table|)],
                    hits + [cr])
  {
    var n := |table|;
    var i1, i2 := cr.i1, cr.i2;
    var cur1, cur2 := RunNode(i1, runs[i1], p1), RunNode(i2, runs[i2], p2);
    var runs' := runs[i1 := Insert(runs[i1], p1, n)][i2 := Insert(runs[i2], p2, n)];
    var hits' := hits + [cr];
    ScanStopKind(table, origin, mainEnd, runs, hits, i1, p1);
    ScanStopKind(table, origin, mainEnd, runs, hits, i2, p2);
    assert cur1 < |origin| ==> cur1 == i1;
    assert mainEnd <= cur2;
    assert OnChain(table[cur1], MainChain) && OnChain(table[cur2], ClipperChain) by {
      assert RecordOf(table, origin, hits, cur1) && RecordOf(table, origin, hits, cur2);
    }
    RouteClosedSplice(table, t', MainChain, cur1);
    RouteClosedSplice(table, t', ClipperChain, cur2);
    forall k: nat ensures RecordOf(t', origin, hits', k) {
      assert RecordOf(table, origin, hits, k);
      if |origin| <= k < n {
        assert hits'[k - |origin|] == hits[k - |origin|];
      }
    }
    forall k: nat ensures RunOf(t', origin, mainEnd, runs', hits', k) {
      if k < |origin| {
        assert RunOf(table, origin, mainEnd, runs, hits, k);
        RunAfterSplice(table, t', origin, mainEnd, runs, hits, cr, p1, p2, k);
      }
    }
    forall h: nat ensures Covered(origin, runs', hits', h) {
      CoveredAfterSplice(origin, runs, hits, cr, p1, p2, h);
    }
  }

  /** After a splice every hit, the new one included, is still on the runs of both its edges. */
  lemma CoveredAfterSplice(origin: seq<Item>, runs: seq<seq<nat>>, hits: seq<Crossing>, cr: Crossing, p1: nat, p2: nat, h: nat)
    requires |runs| == |origin| && cr.i1 < cr.i2 < |origin|
    requires p1 <= |runs[cr.i1]| && p2 <= |runs[cr.i2]|
    requires Covered(origin, runs, hits, h)
    ensures var n := |origin| + |hits|;
      Covered(origin, runs[cr.i1 := Insert(runs[cr.i1], p1, n)][cr.i2 := Insert(runs[cr.i2], p2, n)], hits + [cr], h)
  {
    var n := |origin| + |hits|;
    var runs' := runs[cr.i1 := Insert(runs[cr.i1], p1, n)][cr.i2 := Insert(runs[cr.i2], p2, n)];
    var hits' := hits + [cr];
    InInsert(runs[cr.i1], p1, n, n);
    InInsert(runs[cr.i2], p2, n, n);
    if h < |hits| {
      var y := |origin| + h;
      assert hits'[h] == hits[h];
      InInsert(runs[cr.i1], p1, n, y);
      InInsert(runs[cr.i2], p2, n, y);
    }
  }

  /** The run of one original record after a splice. */
  lemma RunAfterSplice(table: seq<Item>, t': seq<Item>, origin: seq<Item>, mainEnd: nat,
                       runs: seq<seq<nat>>, hits: seq<Crossing>, cr: Crossing, p1: nat, p2: nat, k: nat)
    requires |table| == |origin| + |hits| && |runs| == |origin| && k < |origin|
    requires OnOriginalEdges(cr, origin, mainEnd) && RunOf(table, origin, mainEnd, runs, hits, k)
    requires ScanStopped(table, MainChain, runs[cr.i1], p1, cr.hit.s)
    requires ScanStopped(table, ClipperChain, runs[cr.i2], p2, cr.hit.t)
    requires SplicedAfter(table, t', RunNode(cr.i1, runs[cr.i1], p1), RunNode(cr.i2, runs[cr.i2], p2), cr.hit)
    requires var cur := RunNode(cr.i1, runs[cr.i1], p1);
      cur == cr.i1 || (cur in runs[cr.i1] && |origin| <= cur < |table| && hits[cur - |origin|].i1 == cr.i1)
    requires var cur := RunNode(cr.i2, runs[cr.i2], p2);
      cur == cr.i2 || (cur in runs[cr.i2] && |origin| <= cur < |table| && hits[cur - |origin|].i2 == cr.i2)
    ensures var n := |table|; var runs' := runs[cr.i1 := Insert(runs[cr.i1], p1, n)][cr.i2 := Insert(runs[cr.i2], p2, n)];
      RunOf(t', origin, mainEnd, runs', hits + [cr], k)
  {
    var n := |table|;
    var i1, i2 := cr.i1, cr.i2;
    var runs' := runs[i1 := Insert(runs[i1], p1, n)][i2 := Insert(runs[i2], p2, n)];
    var c := ChainAt(mainEnd, k);
    var r := runs'[k];
    assert r == if k == i1 then Insert(runs[i1], p1, n) else if k == i2 then Insert(runs[i2], p2, n) else runs[k];
    assert RunLinked(t', c, k, r, Next(origin[k], c)) by {
      RunLinkedAfterSplice(table, t', origin, mainEnd, runs, hits, cr, p1, p2, k);
    }
    assert Owned(r, |origin|, hits + [cr], c, k) by {
      if k == i1 {
        OwnedInsert(runs[k], p1, n, |origin|, hits, cr, c, k);
      } else if k == i2 {
        OwnedInsert(runs[k], p2, n, |origin|, hits, cr, c, k);
      } else {
        OwnedKept(runs[k], |origin|, hits, cr, c, k);
      }
    }
  }

  lemma InInsert(run: seq<nat>, p: nat, n: nat, y: nat)
    requires p <= |run|
    ensures y in Insert(run, p, n) <==> y == n || y in run
  {
    assert run == run[..p] + run[p..];
  }

  /** The records of a run stay owned by its edge when the hit list grows. */
  lemma OwnedKept(run: seq<nat>, base: nat, hits: seq<Crossing>, cr: Crossing, c: Chain, k: nat)
    requires Owned(run, base, hits, c, k)
    ensures Owned(run, base, hits + [cr], c, k)
  {
    forall y | y in run ensures (hits + [cr])[y - base] == hits[y - base] { }
  }

  /** A record joining a run for a hit on that run's edge keeps the run owned by the edge. */
  lemma OwnedInsert(run: seq<nat>, p: nat, n: nat, base: nat, hits: seq<Crossing>, cr: Crossing, c: Chain, k: nat)
    requires p <= |run| && n == base + |hits| && Owned(run, base, hits, c, k) && EdgeIndex(cr, c) == k
    ensures Owned(Insert(run, p, n), base, hits + [cr], c, k)
  {
    var r := Insert(run, p, n);
    forall y | y in r
      ensures base <= y < base + |hits + [cr]| && EdgeIndex((hits + [cr])[y - base], c) == k
    {
      InInsert(run, p, n, y);
      if y != n {
        assert (hits + [cr])[y - base] == hits[y - base];
      }
    }
  }

  /** The linking part of a run after a splice. */
  lemma RunLinkedAfterSplice(table: seq<Item>, t': seq<Item>, origin: seq<Item>, mainEnd: nat,
                             runs: seq<seq<nat>>, hits: seq<Crossing>, cr: Crossing, p1: nat, p2: nat, k: nat)
    requires |table| == |origin| + |hits| && |runs| == |origin| && k < |origin|
    requires OnOriginalEdges(cr, origin, mainEnd) && RunOf(table, origin, mainEnd, runs, hits, k)
    requires ScanStopped(table, MainChain, runs[cr.i1], p1, cr.hit.s)
    requires ScanStopped(table, ClipperChain, runs[cr.i2], p2, cr.hit.t)
    requires SplicedAfter(table, t', RunNode(cr.i1, runs[cr.i1], p1), RunNode(cr.i2, runs[cr.i2], p2), cr.hit)
    requires var cur := RunNode(cr.i1, runs[cr.i1], p1);
      cur == cr.i1 || (cur in runs[cr.i1] && |origin| <= cur < |table| && hits[cur - |origin|].i1 == cr.i1)
    requires var cur := RunNode(cr.i2, runs[cr.i2], p2);
      cur == cr.i2 || (cur in runs[cr.i2] && |origin| <= cur < |table| && hits[cur - |origin|].i2 == cr.i2)
    ensures var c := ChainAt(mainEnd, k);
      var r := if k == cr.i1 then Insert(runs[cr.i1], p1, |table|)
               else if k == cr.i2 then Insert(runs[cr.i2], p2, |table|) else runs[k];
      RunLinked(t', c, k, r, Next(origin[k], c))
  {
    var i1, i2 := cr.i1, cr.i2;
    var c := ChainAt(mainEnd, k);
    var target := Next(origin[k], c);
    if k == i1 {
      RunInsert(table, t', MainChain, i1, runs[i1], target, p1, cr.hit.s);
    } else if k == i2 {
      RunInsert(table, t', ClipperChain, i2, runs[i2], target, p2, cr.hit.t);
    } else {
      var cur := if c == MainChain then RunNode(i1, runs[i1], p1) else RunNode(i2, runs[i2], p2);
      assert cur !in runs[k];
      RunLinkedFrame(table, t', c, k, runs[k], target, cur);
    }
  }

  // ---------------------------------------------------------------------
  // The insertion loop

  /**
    * The source's insertion loop: every main edge against every clipper
    * edge of the frozen original table `origin`, in that order; each hit is
    * appended as a new record and spliced into both chains after the scan
    * positions. Afterwards the table holds exactly the hits of all pairs.
    */
  method InsertIntersections(origin: seq<Item>, mainEnd: nat) returns (table: seq<Item>, ghost runs: seq<seq<nat>>)
    requires OriginLayout(origin, mainEnd)
    ensures Spliced(table, origin, mainEnd, runs, AllHits(origin, mainEnd, mainEnd))
  {
    table := origin;
    runs := seq(|origin|, k => []);
    ghost var hits: seq<Crossing> := [];
    SplicedInit(origin, mainEnd);
    for i1 := 0 to mainEnd
      invariant hits == AllHits(origin, mainEnd, i1)
      invariant Spliced(table, origin, mainEnd, runs, hits)
    {
      ghost var row;
      table, runs, row := InsertRow(table, origin, mainEnd, runs, hits, i1);
      hits := hits + row;
    }
  }

  /** The inner loop of the insertion: main edge `i1` against every clipper edge, in order. */
  method InsertRow(table: seq<Item>, origin: seq<Item>, mainEnd: nat, ghost runs: seq<seq<nat>>, ghost hits: seq<Crossing>,
                   i1: nat)
    returns (table': seq<Item>, ghost runs': seq<seq<nat>>, ghost row: seq<Crossing>)
    requires Spliced(table, origin, mainEnd, runs, hits) && i1 < mainEnd
    ensures row == RowHits(origin, mainEnd, i1, |origin|)
    ensures Spliced(table', origin, mainEnd, runs', hits + row)
  {
    table', runs', row := table, runs, [];
    assert hits + row == hits;
    for i2 := mainEnd to |origin|
      invariant row == RowHits(origin, mainEnd, i1, i2)
      invariant Spliced(table', origin, mainEnd, runs', hits + row)
    {
      ghost var found;
      table', runs', found := InsertPair(table', origin, mainEnd, runs', hits + row, i1, i2);
      AppendAssociates(hits, row, found);
      row := row + found;
    }
  }

  /** The body of the insertion loop for main edge `i1` and clipper edge `i2`. */
  method InsertPair(table: seq<Item>, origin: seq<Item>, mainEnd: nat, ghost runs: seq<seq<nat>>, ghost hits: seq<Crossing>,
                    i1: nat, i2: nat)
    returns (table': seq<Item>, ghost runs': seq<seq<nat>>, ghost found: seq<Crossing>)
    requires Spliced(table, origin, mainEnd, runs, hits) && i1 < mainEnd <= i2 < |origin|
    ensures RowHits(origin, mainEnd, i1, i2 + 1) == RowHits(origin, mainEnd, i1, i2) + found
    ensures Spliced(table', origin, mainEnd, runs', hits + found)
  {
    var item1, item2 := origin[i1], origin[i2];
    var l1 := Line(item1.point, origin[item1.next1].point);
    var l2 := Line(item2.point, origin[item2.next2].point);
    var inter := Intersection(l1, l2);
    assert inter == PairHit(origin, mainEnd, i1, i2);
    if inter.Some? {
      var h := inter.value;
      var cr := Crossing(i1, i2, h);
      ghost var target1, target2 := origin[i1].next1, origin[i2].next2;
      assert RunLinked(table, MainChain, i1, runs[i1], target1) && Param(table[target1], MainChain) >= h.s &&
             RunLinked(table, ClipperChain, i2, runs[i2], target2) && Param(table[target2], ClipperChain) >= h.t by {
        assert RunOf(table, origin, mainEnd, runs, hits, i1) && RunOf(table, origin, mainEnd, runs, hits, i2);
      }
      ghost var p1, p2;
      table', p1, p2 := SpliceHit(table, i1, i2, h, runs[i1], target1, runs[i2], target2);
      SpliceStep(table, table', origin, mainEnd, runs, hits, cr, p1, p2);
      runs' := runs[i1 := Insert(runs[i1], p1, |table|)][i2 := Insert(runs[i2], p2, |table|)];
      found := [cr];
    } else {
      table', runs', found := table, runs, [];
      assert hits + found == hits;
    }
    assert RowHits(origin, mainEnd, i1, i2 + 1) == RowHits(origin, mainEnd, i1, i2) + found;
  }

  /**
    * One hit of the loop: scan the main chain from `i1` and splice in a
    * new record there, then scan the clipper chain from `i2` and splice it
    * in there too, then append it.
    */
  method SpliceHit(table: seq<Item>, i1: nat, i2: nat, h: Hit,
                   ghost run1: seq<nat>, ghost target1: nat, ghost run2: seq<nat>, ghost target2: nat)
    returns (table': seq<Item>, ghost p1: nat, ghost p2: nat)
    requires RunLinked(table, MainChain, i1, run1, target1) && Param(table[target1], MainChain) >= h.s
    requires RunLinked(table, ClipperChain, i2, run2, target2) && Param(table[target2], ClipperChain) >= h.t
    ensures p1 <= |run1| && ScanStopped(table, MainChain, run1, p1, h.s)
    ensures p2 <= |run2| && ScanStopped(table, ClipperChain, run2, p2, h.t)
    ensures SplicedAfter(table, table', RunNode(i1, run1, p1), RunNode(i2, run2, p2), h)
  {
    var newItem := Item(h.point, h.pointType, h.s, h.t, 0, 0, false);
    var cur1;
    cur1, p1 := ScanInsertPosition(table, MainChain, i1, h.s, run1, target1);
    newItem := newItem.(next1 := table[cur1].next1);
    var table1 := table[cur1 := table[cur1].(next1 := |table|)];
    RunLinkedFrame(table, table1, ClipperChain, i2, run2, target2, |table|);
    var cur2;
    cur2, p2 := ScanInsertPosition(table1, ClipperChain, i2, h.t, run2, target2);
    newItem := newItem.(next2 := table1[cur2].next2);
    table' := table1[cur2 := table1[cur2].(next2 := |table|)] + [newItem];
    ScanStoppedFrame(table1, table, ClipperChain, run2, p2, h.t);
  }

  // ---------------------------------------------------------------------
  // Cycles survive the insertion

  /** Walking the original table along a chain stays in that chain's range. */
  lemma {:induction false} OriginFollowInRange(origin: seq<Item>, mainEnd: nat, k: nat, n: nat)
    requires OriginLayout(origin, mainEnd) && k < |origin|
    ensures var x := Follow(origin, Along(ChainAt(mainEnd, k)), k, n);
      x < |origin| && ChainAt(mainEnd, x) == ChainAt(mainEnd, k)
    decreases n
  {
    if n > 0 {
      OriginFollowInRange(origin, mainEnd, Step(origin, Along(ChainAt(mainEnd, k)), k), n - 1);
    }
  }

  /**
    * What `n` original steps reach from `k`, the spliced table reaches in
    * at least `n` steps: each original edge is now its run plus one step.
    */
  lemma {:induction false} SplicedReach(table: seq<Item>, origin: seq<Item>, mainEnd: nat, runs: seq<seq<nat>>,
                                        hits: seq<Crossing>, k: nat, n: nat) returns (m: nat)
    requires Spliced(table, origin, mainEnd, runs, hits) && k < |origin|
    ensures var c := ChainAt(mainEnd, k);
      m >= n && Follow(table, Along(c), k, m) == Follow(origin, Along(c), k, n)
    decreases n
  {
    var c := ChainAt(mainEnd, k);
    if n == 0 {
      m := 0;
    } else {
      var m' := SplicedReach(table, origin, mainEnd, runs, hits, k, n - 1);
      var x := Follow(origin, Along(c), k, n - 1);
      OriginFollowInRange(origin, mainEnd, k, n - 1);
      assert RunOf(table, origin, mainEnd, runs, hits, x);
      RunReach(table, c, x, runs[x], Next(origin[x], c), |runs[x]| + 1);
      FollowAdd(table, Along(c), k, m', |runs[x]| + 1);
      FollowLast(origin, Along(c), k, n - 1);
      m := m' + |runs[x]| + 1;
    }
  }

  /** After the insertion every original vertex still lies on a cycle of its own chain. */
  lemma SplicedCycles(table: seq<Item>, origin: seq<Item>, mainEnd: nat, runs: seq<seq<nat>>, hits: seq<Crossing>)
    requires Spliced(table, origin, mainEnd, runs, hits) && OriginCyclic(origin, mainEnd)
    ensures forall k :: 0 <= k < |origin| ==> OnCycle(table, Along(ChainAt(mainEnd, k)), k)
  {
    forall k | 0 <= k < |origin|
      ensures OnCycle(table, Along(ChainAt(mainEnd, k)), k)
    {
      var c := ChainAt(mainEnd, k);
      assert OnCycle(origin, Along(c), k);
      var n :| n >= 1 && Follow(origin, Along(c), k, n) == k;
      var m := SplicedReach(table, origin, mainEnd, runs, hits, k, n);
    }
  }

  /** A record that the walk from a cycle's record reaches lies on a cycle too. */
  lemma ReachedOnCycle(table: seq<Item>, c: Chain, k: nat, m: nat, q: nat)
    requires m >= 1 && Follow(table, Along(c), k, m) == k
    ensures OnCycle(table, Along(c), Follow(table, Along(c), k, q))
  {
    var y := Follow(table, Along(c), k, q);
    FollowAdd(table, Along(c), k, m, q);
    FollowAdd(table, Along(c), k, q, m);
    assert m + q == q + m;
    assert Follow(table, Along(c), y, m) == y;
  }

  /**
    * After the insertion every inserted record lies on a cycle of the main
    * chain and on a cycle of the clipper chain: it was spliced into both.
    */
  lemma SplicedHitsOnCycles(table: seq<Item>, origin: seq<Item>, mainEnd: nat, runs: seq<seq<nat>>, hits: seq<Crossing>)
    requires Spliced(table, origin, mainEnd, runs, hits) && OriginCyclic(origin, mainEnd)
    ensures forall y :: |origin| <= y < |table| ==>
      OnCycle(table, Along(MainChain), y) && OnCycle(table, Along(ClipperChain), y)
  {
    SplicedCycles(table, origin, mainEnd, runs, hits);
    forall y | |origin| <= y < |table|
      ensures OnCycle(table, Along(MainChain), y) && OnCycle(table, Along(ClipperChain), y)
    {
      var h := y - |origin|;
      assert Covered(origin, runs, hits, h);
      assert OnOriginalEdges(hits[h], origin, mainEnd);
      HitOnCycle(table, origin, mainEnd, runs, hits, hits[h].i1, y);
      HitOnCycle(table, origin, mainEnd, runs, hits, hits[h].i2, y);
    }
  }

  /** A record on the run of original `k` lies on the cycle of `k`'s chain. */
  lemma HitOnCycle(table: seq<Item>, origin: seq<Item>, mainEnd: nat, runs: seq<seq<nat>>, hits: seq<Crossing>, k: nat, y: nat)
    requires Spliced(table, origin, mainEnd, runs, hits) && k < |origin| && y in runs[k]
    requires OnCycle(table, Along(ChainAt(mainEnd, k)), k)
    ensures OnCycle(table, Along(ChainAt(mainEnd, k)), y)
  {
    var c := ChainAt(mainEnd, k);
    assert RunOf(table, origin, mainEnd, runs, hits, k);
    var q :| 0 <= q < |runs[k]| && runs[k][q] == y;
    RunReach(table, c, k, runs[k], Next(origin[k], c), q + 1);
    var m :| m >= 1 && Follow(table, Along(c), k, m) == k;
    ReachedOnCycle(table, c, k, m, q + 1);
  }
}
