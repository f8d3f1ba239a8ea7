/**
  * The vertex table of the Weiler-Atherton clipper: an arena of records
  * linked by index into two families of circular lists, `next1` along the
  * main polygon and `next2` along the clipper polygon.
  */
module VertexTable {
  import opened Geometry

  /** The two chains threaded through the table. */
  datatype Chain = MainChain | ClipperChain

  /** One record of the table (the source's `PointTableItem`). */
  datatype Item = Item(point: Point, pointType: PointType, param1: real, param2: real,
                       next1: nat, next2: nat, isResult: bool)

  function Other(c: Chain): Chain {
    if c == MainChain then ClipperChain else MainChain
  }

  /** The kind of the original vertices of a chain's polygon. */
  function OriginType(c: Chain): PointType {
    if c == MainChain then OriginMain else OriginClipper
  }

  /** The link a record has on chain `c`. */
  function Next(it: Item, c: Chain): nat {
    if c == MainChain then it.next1 else it.next2
  }

  /** The parameter a record has on chain `c`. */
  function Param(it: Item, c: Chain): real {
    if c == MainChain then it.param1 else it.param2
  }

  /** The record relinked on chain `c`. */
  function SetNext(it: Item, c: Chain, n: nat): (r: Item)
    ensures Next(r, c) == n && Next(r, Other(c)) == Next(it, Other(c))
    ensures r.point == it.point && r.pointType == it.pointType && r.isResult == it.isResult
    ensures r.param1 == it.param1 && r.param2 == it.param2
  {
    if c == MainChain then it.(next1 := n) else it.(next2 := n)
  }

  predicate IsCrossing(it: Item) {
    it.pointType == In || it.pointType == Out
  }

  /** Chain `c` passes through everything but the other polygon's original vertices. */
  predicate OnChain(it: Item, c: Chain) {
    it.pointType != OriginType(Other(c))
  }

  /**
    * How a walk moves: along one chain, or switching chains by record kind
    * as the result walk does (main originals and `In` records follow
    * `next1`, clipper originals and `Out` records follow `next2`).
    */
  datatype Route = Along(chain: Chain) | Switching

  function StepFrom(it: Item, route: Route): nat {
    match route
    case Along(c) => Next(it, c)
    case Switching =>
      match it.pointType
      case OriginMain => it.next1
      case In => it.next1
      case OriginClipper => it.next2
      case Out => it.next2
  }

  predicate OnRoute(it: Item, route: Route) {
    route.Switching? || OnChain(it, route.chain)
  }

  /** If record `k` is on the route, it links to a record of the table that is on the route again. */
  predicate StaysOnRoute(table: seq<Item>, route: Route, k: nat) {
    k < |table| && OnRoute(table[k], route) ==>
      StepFrom(table[k], route) < |table| && OnRoute(table[StepFrom(table[k], route)], route)
  }

  /** Every record on the route links to a record of the table that is on the route again. */
  predicate RouteClosed(table: seq<Item>, route: Route) {
    forall k {:trigger StaysOnRoute(table, route, k)} :: 0 <= k < |table| ==> StaysOnRoute(table, route, k)
  }

  function Step(table: seq<Item>, route: Route, k: nat): nat {
    if k < |table| then StepFrom(table[k], route) else k
  }

  /** The record reached from `k` after `n` steps. */
  function Follow(table: seq<Item>, route: Route, k: nat, n: nat): nat
    decreases n
  {
    if n == 0 then k else Follow(table, route, Step(table, route, k), n - 1)
  }

  lemma {:induction false} FollowAdd(table: seq<Item>, route: Route, k: nat, a: nat, b: nat)
    ensures Follow(table, route, k, a + b) == Follow(table, route, Follow(table, route, k, a), b)
    decreases a
  {
    if a > 0 {
      FollowAdd(table, route, Step(table, route, k), a - 1, b);
    }
  }

  lemma FollowLast(table: seq<Item>, route: Route, k: nat, n: nat)
    ensures Follow(table, route, k, n + 1) == Step(table, route, Follow(table, route, k, n))
  {
    FollowAdd(table, route, k, n, 1);
  }

  /** A walk that starts on a closed route stays in the table and on the route. */
  lemma {:induction false} FollowOnRoute(table: seq<Item>, route: Route, k: nat, n: nat)
    requires RouteClosed(table, route) && k < |table| && OnRoute(table[k], route)
    ensures Follow(table, route, k, n) < |table| && OnRoute(table[Follow(table, route, k, n)], route)
    decreases n
  {
    if n > 0 {
      assert StaysOnRoute(table, route, k);
      FollowOnRoute(table, route, Step(table, route, k), n - 1);
    }
  }

  /** Two tables that differ at most in the `isResult` marks. */
  predicate SameLinks(t: seq<Item>, t': seq<Item>) {
    |t| == |t'| && forall k :: 0 <= k < |t| ==> t'[k] == t[k].(isResult := t'[k].isResult)
  }

  /** Marks do not influence any walk. */
  lemma {:induction false} FollowSameLinks(t: seq<Item>, t': seq<Item>, route: Route, k: nat, n: nat)
    requires SameLinks(t, t')
    ensures Follow(t', route, k, n) == Follow(t, route, k, n)
    decreases n
  {
    if n > 0 {
      assert Step(t', route, k) == Step(t, route, k);
      FollowSameLinks(t, t', route, Step(t, route, k), n - 1);
    }
  }

  // ---------------------------------------------------------------------
  // Building the table

  /** A record for an original vertex; the link of the other chain holds the placeholder 0. */
  function Original(p: Point, c: Chain, next: nat): Item {
    Item(p, OriginType(c), 1.0, 1.0,
         if c == MainChain then next else 0, if c == ClipperChain then next else 0, false)
  }

  predicate NonEmptyPaths(paths: seq<seq<Point>>) {
    forall i :: 0 <= i < |paths| ==> |paths[i]| >= 1
  }

  /**
    * The records of one closed path of n + 1 points (closing copy included),
    * placed from index `head` on: one per point but the last, each linked
    * to the following one and the last back to `head`.
    */
  function PathRecords(path: seq<Point>, c: Chain, head: nat): seq<Item>
    requires |path| >= 1
  {
    seq(|path| - 1, i requires 0 <= i < |path| - 1 =>
      Original(path[i], c, if i < |path| - 2 then head + i + 1 else head))
  }

  /** How many records a polygon contributes. */
  function RecordCount(paths: seq<seq<Point>>): nat
    requires NonEmptyPaths(paths)
  {
    if |paths| == 0 then 0
    else RecordCount(paths[..|paths| - 1]) + |paths[|paths| - 1]| - 1
  }

  /** The records of a whole polygon placed from index `base` on, path after path. */
  function PolygonRecords(paths: seq<seq<Point>>, c: Chain, base: nat): (r: seq<Item>)
    requires NonEmptyPaths(paths)
    ensures |r| == RecordCount(paths)
  {
    if |paths| == 0 then []
    else
      var front := paths[..|paths| - 1];
      PolygonRecords(front, c, base) + PathRecords(paths[|paths| - 1], c, base + RecordCount(front))
  }

  /** The source's `generate_point_table`: append the records of `polygon` to `table`. */
  method GeneratePointTable(table: seq<Item>, polygon: seq<seq<Point>>, c: Chain) returns (r: seq<Item>)
    requires NonEmptyPaths(polygon)
    ensures r == table + PolygonRecords(polygon, c, |table|)
  {
    r := table;
    for pi := 0 to |polygon|
      invariant r == table + PolygonRecords(polygon[..pi], c, |table|)
    {
      GenerateStep(table, polygon, c, pi);
      r := PushPath(r, polygon[pi], c);
    }
    assert polygon[..|polygon|] == polygon;
  }

  /** One path of the source's `generate_point_table` loop: push a record per point but the closing copy. */
  method PushPath(table: seq<Item>, path: seq<Point>, c: Chain) returns (r: seq<Item>)
    requires |path| >= 1
    ensures r == table + PathRecords(path, c, |table|)
  {
    r := table;
    var head := |table|;
    for i := 0 to |path| - 1
      invariant r == table + PathRecords(path, c, head)[..i]
    {
      var next := if i < |path| - 2 then |r| + 1 else head;
      PathRecordsPrefix(path, c, head, i);
      r := r + [Original(path[i], c, next)];
    }
    assert PathRecords(path, c, head)[..|path| - 1] == PathRecords(path, c, head);
  }

  lemma PathRecordsPrefix(path: seq<Point>, c: Chain, head: nat, i: nat)
    requires i < |path| - 1
    ensures PathRecords(path, c, head)[..i + 1] ==
      PathRecords(path, c, head)[..i] + [Original(path[i], c, if i < |path| - 2 then head + i + 1 else head)]
  {
  }

  /** One turn of the `generate_point_table` loop keeps its invariant: the next path's records follow the earlier ones. */
  lemma GenerateStep(table: seq<Item>, polygon: seq<seq<Point>>, c: Chain, pi: nat)
    requires NonEmptyPaths(polygon) && pi < |polygon|
    ensures var done := table + PolygonRecords(polygon[..pi], c, |table|);
      table + PolygonRecords(polygon[..pi + 1], c, |table|) == done + PathRecords(polygon[pi], c, |done|)
  {
    var front := PolygonRecords(polygon[..pi], c, |table|);
    var path := PathRecords(polygon[pi], c, |table| + RecordCount(polygon[..pi]));
    PolygonRecordsPrefix(polygon, c, |table|, pi);
    assert PolygonRecords(polygon[..pi + 1], c, |table|) == front + path;
    AppendAssociates(table, front, path);
  }

  lemma AppendAssociates<T>(a: seq<T>, b: seq<T>, d: seq<T>)
    ensures (a + b) + d == a + (b + d)
  {
  }

  lemma PolygonRecordsPrefix(polygon: seq<seq<Point>>, c: Chain, base: nat, pi: nat)
    requires NonEmptyPaths(polygon) && pi < |polygon|
    ensures PolygonRecords(polygon[..pi + 1], c, base) ==
      PolygonRecords(polygon[..pi], c, base) + PathRecords(polygon[pi], c, base + RecordCount(polygon[..pi]))
  {
    assert polygon[..pi + 1][..pi] == polygon[..pi];
  }

  // ---------------------------------------------------------------------
  // Shape of the built table

  /**
    * The records `h .. h + m - 1` of `recs`, a block placed at index `base`
    * of the table, form one ring on chain `c`.
    */
  predicate Ring(recs: seq<Item>, base: nat, c: Chain, h: nat, m: nat) {
    base <= h && h + m <= base + |recs| &&
    forall j :: 0 <= j < |recs| && h <= base + j < h + m ==>
      Next(recs[j], c) == if base + j + 1 < h + m then base + j + 1 else h
  }

  lemma {:induction false} FollowRing(table: seq<Item>, c: Chain, h: nat, m: nat, k: nat, q: nat)
    requires Ring(table, 0, c, h, m) && h <= k && k + q < h + m
    ensures Follow(table, Along(c), k, q) == k + q
    decreases q
  {
    if q > 0 {
      FollowRing(table, c, h, m, k + 1, q - 1);
    }
  }

  /** Walking a ring once around returns to the start. */
  lemma RingCycle(table: seq<Item>, c: Chain, h: nat, m: nat, k: nat)
    requires Ring(table, 0, c, h, m) && h <= k < h + m
    ensures Follow(table, Along(c), k, m) == k
  {
    var route, last, toLast, fromHead := Along(c), h + m - 1, h + m - 1 - k, k - h;
    FollowRing(table, c, h, m, k, toLast);
    assert Step(table, route, last) == h;
    assert Follow(table, route, last, 1) == h;
    FollowAdd(table, route, k, toLast, 1);
    var wrapped := toLast + 1;
    assert Follow(table, route, k, wrapped) == h;
    FollowRing(table, c, h, m, h, fromHead);
    FollowAdd(table, route, k, wrapped, fromHead);
    assert wrapped + fromHead == m;
  }

  /** Every record of a built polygon lies on one ring: the records of its path. */
  lemma {:induction false} RecordRing(paths: seq<seq<Point>>, c: Chain, base: nat, k: nat) returns (h: nat, m: nat)
    requires NonEmptyPaths(paths) && base <= k < base + RecordCount(paths)
    ensures h <= k < h + m && Ring(PolygonRecords(paths, c, base), base, c, h, m)
  {
    var front := paths[..|paths| - 1];
    var r := PolygonRecords(paths, c, base);
    var split := RecordCount(front);
    assert forall j :: 0 <= j < split ==> r[j] == PolygonRecords(front, c, base)[j];
    if k >= base + split {
      h, m := base + split, |paths[|paths| - 1]| - 1;
      assert forall j :: split <= j < |r| ==> r[j] == PathRecords(paths[|paths| - 1], c, h)[j - split];
    } else {
      h, m := RecordRing(front, c, base, k);
    }
  }

  /** Layout of the table right after building, before any intersection is inserted. */
  ghost predicate OriginLayout(origin: seq<Item>, mainEnd: nat) {
    mainEnd <= |origin| &&
    (forall k :: 0 <= k < |origin| ==>
      origin[k].param1 == 1.0 && origin[k].param2 == 1.0 && !origin[k].isResult &&
      origin[k].pointType == if k < mainEnd then OriginMain else OriginClipper) &&
    (forall k :: 0 <= k < mainEnd ==> origin[k].next1 < mainEnd) &&
    (forall k :: mainEnd <= k < |origin| ==> mainEnd <= origin[k].next2 < |origin|)
  }

  /** Record `k` returns to itself after some steps along `route`. */
  ghost predicate OnCycle(table: seq<Item>, route: Route, k: nat) {
    exists n :: n >= 1 && Follow(table, route, k, n) == k
  }

  /** Every original vertex lies on a cycle of its own chain. */
  ghost predicate OriginCyclic(origin: seq<Item>, mainEnd: nat) {
    (forall k :: 0 <= k < mainEnd ==> OnCycle(origin, Along(MainChain), k)) &&
    (forall k :: mainEnd <= k < |origin| ==> OnCycle(origin, Along(ClipperChain), k))
  }

  /** Records of a polygon placed inside a larger table keep their rings there. */
  lemma EmbeddedRecords(table: seq<Item>, paths: seq<seq<Point>>, c: Chain, base: nat)
    requires NonEmptyPaths(paths) && base + RecordCount(paths) <= |table|
    requires table[base..base + RecordCount(paths)] == PolygonRecords(paths, c, base)
    ensures forall k :: base <= k < base + RecordCount(paths) ==> OnCycle(table, Along(c), k)
  {
    var r := PolygonRecords(paths, c, base);
    forall k | base <= k < base + RecordCount(paths)
      ensures OnCycle(table, Along(c), k)
    {
      var h, m := RecordRing(paths, c, base, k);
      assert Ring(table, 0, c, h, m) by {
        forall j | h <= j < h + m ensures table[j] == r[j - base] {
          assert table[j] == table[base..base + RecordCount(paths)][j - base];
        }
      }
      RingCycle(table, c, h, m, k);
    }
  }

  /**
    * The table built from two polygons: main records fill [0, mainEnd),
    * clipper records fill [mainEnd, clipperEnd), all with parameters 1.0
    * and unmarked, each chain link staying inside its polygon's range, and
    * every original vertex on a cycle of its chain.
    */
  lemma BuiltTableShape(main: seq<seq<Point>>, clipper: seq<seq<Point>>)
    requires NonEmptyPaths(main) && NonEmptyPaths(clipper)
    ensures var origin := PolygonRecords(main, MainChain, 0) + PolygonRecords(clipper, ClipperChain, RecordCount(main));
      OriginLayout(origin, RecordCount(main)) && OriginCyclic(origin, RecordCount(main))
  {
    BuiltTableLayout(main, clipper);
    BuiltTableCycles(main, clipper);
  }

  /** The layout half of `BuiltTableShape`. */
  lemma BuiltTableLayout(main: seq<seq<Point>>, clipper: seq<seq<Point>>)
    requires NonEmptyPaths(main) && NonEmptyPaths(clipper)
    ensures var origin := PolygonRecords(main, MainChain, 0) + PolygonRecords(clipper, ClipperChain, RecordCount(main));
      OriginLayout(origin, RecordCount(main))
  {
    var rm := PolygonRecords(main, MainChain, 0);
    var rc := PolygonRecords(clipper, ClipperChain, RecordCount(main));
    PolygonBlockShape(main, MainChain, 0);
    PolygonBlockShape(clipper, ClipperChain, |rm|);
    BlockLayout(rm, rc, MainChain, true);
    BlockLayout(rm, rc, ClipperChain, false);
  }

  /** A block of unmarked originals of chain `c` with parameters 1.0, placed at `base` and linked inside itself. */
  ghost predicate BlockShape(block: seq<Item>, c: Chain, base: nat) {
    forall j :: 0 <= j < |block| ==>
      block[j].param1 == 1.0 && block[j].param2 == 1.0 && !block[j].isResult &&
      block[j].pointType == OriginType(c) && base <= Next(block[j], c) < base + |block|
  }

  /** The records of a polygon form such a block. */
  lemma PolygonBlockShape(paths: seq<seq<Point>>, c: Chain, base: nat)
    requires NonEmptyPaths(paths)
    ensures BlockShape(PolygonRecords(paths, c, base), c, base)
  {
    forall j | 0 <= j < RecordCount(paths) {
      RecordShape(paths, c, base, j);
    }
  }

  /** Block `rm` (when `first`) or block `rc` keeps its shape inside `rm + rc`. */
  lemma BlockLayout(rm: seq<Item>, rc: seq<Item>, c: Chain, first: bool)
    requires if first then BlockShape(rm, c, 0) else BlockShape(rc, c, |rm|)
    ensures var origin, base, end := rm + rc, if first then 0 else |rm|, if first then |rm| else |rm| + |rc|;
      forall k :: base <= k < end ==>
        origin[k].param1 == 1.0 && origin[k].param2 == 1.0 && !origin[k].isResult &&
        origin[k].pointType == OriginType(c) && base <= Next(origin[k], c) < end
  {
    var origin := rm + rc;
    if first {
      forall k | 0 <= k < |rm| ensures origin[k] == rm[k] { }
    } else {
      forall k | |rm| <= k < |origin| ensures origin[k] == rc[k - |rm|] { }
    }
  }

  /** One built record: an unmarked original with parameters 1.0, linked inside its polygon's block. */
  lemma RecordShape(paths: seq<seq<Point>>, c: Chain, base: nat, k: nat)
    requires NonEmptyPaths(paths) && k < RecordCount(paths)
    ensures var it := PolygonRecords(paths, c, base)[k];
      it.param1 == 1.0 && it.param2 == 1.0 && !it.isResult && it.pointType == OriginType(c) &&
      base <= Next(it, c) < base + RecordCount(paths)
  {
    PolygonRecordsKinds(paths, c, base);
    var h, m := RecordRing(paths, c, base, base + k);
  }

  /** The cycle half of `BuiltTableShape`. */
  lemma BuiltTableCycles(main: seq<seq<Point>>, clipper: seq<seq<Point>>)
    requires NonEmptyPaths(main) && NonEmptyPaths(clipper)
    ensures var origin := PolygonRecords(main, MainChain, 0) + PolygonRecords(clipper, ClipperChain, RecordCount(main));
      OriginCyclic(origin, RecordCount(main))
  {
    var mainEnd := RecordCount(main);
    var rm := PolygonRecords(main, MainChain, 0);
    var rc := PolygonRecords(clipper, ClipperChain, mainEnd);
    var origin := rm + rc;
    assert origin[0..mainEnd] == rm;
    assert origin[mainEnd..mainEnd + RecordCount(clipper)] == rc;
    EmbeddedRecords(origin, main, MainChain, 0);
    EmbeddedRecords(origin, clipper, ClipperChain, mainEnd);
  }

  /** Built records are unmarked originals of the chain's polygon with parameters 1.0. */
  lemma {:induction false} PolygonRecordsKinds(paths: seq<seq<Point>>, c: Chain, base: nat)
    requires NonEmptyPaths(paths)
    ensures forall k :: 0 <= k < RecordCount(paths) ==>
      var it := PolygonRecords(paths, c, base)[k];
      it.param1 == 1.0 && it.param2 == 1.0 && !it.isResult && it.pointType == OriginType(c)
  {
    if |paths| > 0 {
      PolygonRecordsKinds(paths[..|paths| - 1], c, base);
    }
  }
}
