/**
  * The three seed-and-walk passes that read the spliced vertex table: the
  * result pass, which walks from every unvisited crossing switching chains
  * by record kind, and the two leftover passes, which walk each chain from
  * every unvisited original vertex and cut it into runs of kept edges.
  * Every pass only sets `isResult` marks; links and points never change.
  */
module Walks {
  import opened Wrappers
  import opened Geometry
  import opened VertexTable

  // ---------------------------------------------------------------------
  // Returning to the start of a walk

  /** `n` is the first positive number of steps after which a walk from `k` is back at `k`. */
  ghost predicate IsFirstReturn(t: seq<Item>, route: Route, k: nat, n: nat) {
    n >= 1 && Follow(t, route, k, n) == k &&
    forall i {:trigger Follow(t, route, k, i)} :: 1 <= i < n ==> Follow(t, route, k, i) != k
  }

  /** Before its first return a walk visits no record twice. */
  lemma FirstReturnSimple(t: seq<Item>, route: Route, k: nat, n: nat, i: nat, j: nat)
    requires IsFirstReturn(t, route, k, n) && i < j < n
    ensures Follow(t, route, k, i) != Follow(t, route, k, j)
  {
    var rest := n - j;
    FollowAdd(t, route, k, j, rest);
    FollowAdd(t, route, k, i, rest);
    assert 1 <= i + rest < n;
  }

  /** A walk that comes back at all has a first return, no later than any return. */
  lemma {:induction false} FirstReturnExists(t: seq<Item>, route: Route, k: nat, n: nat) returns (f: nat)
    requires n >= 1 && Follow(t, route, k, n) == k
    ensures IsFirstReturn(t, route, k, f) && f <= n
    decreases n
  {
    if i :| 1 <= i < n && Follow(t, route, k, i) == k {
      f := FirstReturnExists(t, route, k, i);
    } else {
      f := n;
    }
  }

  /** Distinct numbers below `m` are at most `m` many. */
  lemma {:induction false} DistinctBelow(s: seq<nat>, m: nat)
    requires forall i :: 0 <= i < |s| ==> s[i] < m
    requires forall i, j :: 0 <= i < j < |s| ==> s[i] != s[j]
    ensures |s| <= m
    decreases m
  {
    if |s| > 0 {
      var x := s[|s| - 1];
      var s' := seq(|s| - 1, i requires 0 <= i < |s| - 1 => if s[i] == m - 1 then x else s[i]);
      forall i | 0 <= i < |s'|
        ensures s'[i] < m - 1
      {
        assert s[i] != x;
      }
      forall i, j | 0 <= i < j < |s'|
        ensures s'[i] != s'[j]
      {
        assert s[i] != s[j] && s[i] != x && s[j] != x;
      }
      DistinctBelow(s', m - 1);
    }
  }

  /** On a closed route a walk that returns at all does so within as many steps as there are records. */
  lemma ReturnWithin(t: seq<Item>, route: Route, k: nat, n: nat)
    requires RouteClosed(t, route) && k < |t| && OnRoute(t[k], route) && IsFirstReturn(t, route, k, n)
    ensures n <= |t|
  {
    var s := seq(n, i requires 0 <= i < n => Follow(t, route, k, i));
    forall i | 0 <= i < n
      ensures s[i] < |t|
    {
      FollowOnRoute(t, route, k, i);
    }
    forall i, j | 0 <= i < j < n
      ensures s[i] != s[j]
    {
      FirstReturnSimple(t, route, k, n, i, j);
    }
    DistinctBelow(s, |t|);
  }

  /** Every record a returning walk visits lies on a cycle itself. */
  lemma VisitedOnCycle(t: seq<Item>, route: Route, k: nat, n: nat, x: nat)
    requires IsFirstReturn(t, route, k, n) && x in Visited(t, route, k, n)
    ensures OnCycle(t, route, x)
  {
    var i :| 0 <= i < n && Follow(t, route, k, i) == x;
    FollowAdd(t, route, k, i, n);
    FollowAdd(t, route, k, n, i);
    assert i + n == n + i;
    assert Follow(t, route, x, n) == x;
  }

  // ---------------------------------------------------------------------
  // Marks

  /** The records a walk of `n` steps from `k` visits. */
  function Visited(t: seq<Item>, route: Route, k: nat, n: nat): set<nat> {
    set i | 0 <= i < n :: Follow(t, route, k, i)
  }

  /** `t` with the records of `s` marked as visited. */
  function MarkSet(t: seq<Item>, s: set<nat>): seq<Item> {
    seq(|t|, k requires 0 <= k < |t| => t[k].(isResult := t[k].isResult || k in s))
  }

  /** `t'` differs from `t` only in marks, and marks are only ever set. */
  ghost predicate MarksGrow(t: seq<Item>, t': seq<Item>) {
    SameLinks(t, t') && forall k :: 0 <= k < |t| && t[k].isResult ==> t'[k].isResult
  }

  lemma MarkSetGrows(t: seq<Item>, s: set<nat>)
    ensures MarksGrow(t, MarkSet(t, s))
    ensures forall k :: 0 <= k < |t| ==> (MarkSet(t, s)[k].isResult <==> t[k].isResult || k in s)
  {
  }

  lemma MarksGrowTrans(t: seq<Item>, t': seq<Item>, t'': seq<Item>)
    requires MarksGrow(t, t') && MarksGrow(t', t'')
    ensures MarksGrow(t, t'')
  {
  }

  /** Marking one more record of a walk. */
  lemma MarkStep(t: seq<Item>, route: Route, k: nat, n: nat)
    requires Follow(t, route, k, n) < |t|
    ensures var cur := Follow(t, route, k, n);
      var m := MarkSet(t, Visited(t, route, k, n));
      m[cur := m[cur].(isResult := true)] == MarkSet(t, Visited(t, route, k, n + 1))
  {
    var cur := Follow(t, route, k, n);
    assert Visited(t, route, k, n + 1) == Visited(t, route, k, n) + {cur};
  }

  /** Marking two sets one after the other marks their union. */
  lemma MarkSetUnion(t: seq<Item>, a: set<nat>, b: set<nat>)
    ensures MarkSet(MarkSet(t, a), b) == MarkSet(t, a + b)
  {
    var l, r := MarkSet(MarkSet(t, a), b), MarkSet(t, a + b);
    forall k | 0 <= k < |t| ensures l[k] == r[k] { }
  }

  /** The records the walks from `seeds`, of `lens` steps each, visit together. */
  function Walked(t: seq<Item>, route: Route, seeds: seq<nat>, lens: seq<nat>): set<nat>
    requires |seeds| == |lens|
    decreases |seeds|
  {
    if |seeds| == 0 then {}
    else Walked(t, route, seeds[..|seeds| - 1], lens[..|lens| - 1]) + Visited(t, route, seeds[|seeds| - 1], lens[|lens| - 1])
  }

  lemma WalkedAppend(t: seq<Item>, route: Route, seeds: seq<nat>, lens: seq<nat>, s: nat, n: nat)
    requires |seeds| == |lens|
    ensures Walked(t, route, seeds + [s], lens + [n]) == Walked(t, route, seeds, lens) + Visited(t, route, s, n)
  {
    assert (seeds + [s])[..|seeds|] == seeds && (lens + [n])[..|lens|] == lens;
  }

  /** A record the walks visit together is visited by one of them. */
  lemma {:induction false} WalkedByOne(t: seq<Item>, route: Route, seeds: seq<nat>, lens: seq<nat>, k: nat) returns (i: nat)
    requires |seeds| == |lens| && k in Walked(t, route, seeds, lens)
    ensures i < |seeds| && k in Visited(t, route, seeds[i], lens[i])
    decreases |seeds|
  {
    var j := |seeds| - 1;
    if k in Visited(t, route, seeds[j], lens[j]) {
      i := j;
    } else {
      i := WalkedByOne(t, route, seeds[..j], lens[..j], k);
    }
  }

  // ---------------------------------------------------------------------
  // Walks over tables that differ only in marks

  lemma RouteClosedSameLinks(t: seq<Item>, t': seq<Item>, route: Route)
    requires SameLinks(t, t') && RouteClosed(t, route)
    ensures RouteClosed(t', route)
  {
    forall k | 0 <= k < |t'|
      ensures StaysOnRoute(t', route, k)
    {
      assert StaysOnRoute(t, route, k);
    }
  }

  lemma VisitedSameLinks(t: seq<Item>, t': seq<Item>, route: Route, k: nat, n: nat)
    requires SameLinks(t, t')
    ensures Visited(t', route, k, n) == Visited(t, route, k, n)
  {
    forall i
      ensures Follow(t', route, k, i) == Follow(t, route, k, i)
    {
      FollowSameLinks(t, t', route, k, i);
    }
  }

  lemma FirstReturnSameLinks(t: seq<Item>, t': seq<Item>, route: Route, k: nat, n: nat)
    requires SameLinks(t, t')
    ensures IsFirstReturn(t', route, k, n) <==> IsFirstReturn(t, route, k, n)
    ensures OnCycle(t', route, k) <==> OnCycle(t, route, k)
  {
    forall i
      ensures Follow(t', route, k, i) == Follow(t, route, k, i)
    {
      FollowSameLinks(t, t', route, k, i);
    }
  }

  // ---------------------------------------------------------------------
  // Seeds

  /** What a pass starts its walks from: an unvisited crossing, or an unvisited original of a chain. */
  datatype Seed = Crossings | Originals(chain: Chain)

  predicate IsSeed(it: Item, w: Seed) {
    !it.isResult &&
    match w
    case Crossings => IsCrossing(it)
    case Originals(c) => it.pointType == OriginType(c)
  }

  /** How many seeds the records `lo .. hi - 1` hold. */
  function CountSeeds(t: seq<Item>, w: Seed, lo: nat, hi: nat): nat
    requires lo <= hi <= |t|
    decreases hi - lo
  {
    if lo == hi then 0 else CountSeeds(t, w, lo, hi - 1) + if IsSeed(t[hi - 1], w) then 1 else 0
  }

  /** Setting marks never adds a seed, and marking a seed removes it. */
  lemma {:induction false} CountSeedsDrop(t: seq<Item>, t': seq<Item>, w: Seed, lo: nat, hi: nat, s: nat)
    requires MarksGrow(t, t') && lo <= hi <= |t|
    ensures CountSeeds(t', w, lo, hi) <= CountSeeds(t, w, lo, hi)
    ensures lo <= s < hi && IsSeed(t[s], w) && t'[s].isResult ==> CountSeeds(t', w, lo, hi) < CountSeeds(t, w, lo, hi)
    decreases hi - lo
  {
    if lo < hi {
      CountSeedsDrop(t, t', w, lo, hi - 1, s);
      assert IsSeed(t'[hi - 1], w) ==> IsSeed(t[hi - 1], w);
    }
  }

  /** The source's seed search: the first seed among the records `lo .. hi - 1`, if any. */
  method FindSeed(t: seq<Item>, w: Seed, lo: nat, hi: nat) returns (r: Option<nat>)
    requires lo <= hi <= |t|
    ensures r.None? ==> forall k :: lo <= k < hi ==> !IsSeed(t[k], w)
    ensures r.Some? ==> lo <= r.value < hi && IsSeed(t[r.value], w) &&
                        forall k :: lo <= k < r.value ==> !IsSeed(t[k], w)
  {
    for i := lo to hi
      invariant forall k :: lo <= k < i ==> !IsSeed(t[k], w)
    {
      if IsSeed(t[i], w) {
        return Some(i);
      }
    }
    return None;
  }

  // ---------------------------------------------------------------------
  // Points along a walk

  /** The points of the records a walk of `n` steps from `k` visits, in order. */
  function WalkPoints(t: seq<Item>, route: Route, k: nat, n: nat): (r: seq<Point>)
    requires RouteClosed(t, route) && k < |t| && OnRoute(t[k], route)
    ensures |r| == n
    ensures forall i :: 0 <= i < n ==> Follow(t, route, k, i) < |t| && r[i] == t[Follow(t, route, k, i)].point
  {
    if n == 0 then []
    else
      FollowOnRoute(t, route, k, n - 1);
      WalkPoints(t, route, k, n - 1) + [t[Follow(t, route, k, n - 1)].point]
  }

  lemma {:induction false} WalkPointsSameLinks(t: seq<Item>, t': seq<Item>, route: Route, k: nat, n: nat)
    requires SameLinks(t, t') && RouteClosed(t, route) && RouteClosed(t', route)
    requires k < |t| && OnRoute(t[k], route) && OnRoute(t'[k], route)
    ensures WalkPoints(t', route, k, n) == WalkPoints(t, route, k, n)
  {
    forall i | 0 <= i < n
      ensures WalkPoints(t', route, k, n)[i] == WalkPoints(t, route, k, n)[i]
    {
      FollowSameLinks(t, t', route, k, i);
    }
  }

  /** The contour a result walk emits: the points it visits, closed by the seed's point again. */
  function Contour(t: seq<Item>, k: nat, n: nat): (r: seq<Point>)
    requires RouteClosed(t, Switching) && k < |t|
    ensures |r| == n + 1 && r[n] == t[k].point
    ensures n >= 1 ==> r[0] == r[n]
  {
    WalkPoints(t, Switching, k, n) + [t[k].point]
  }

  // ---------------------------------------------------------------------
  // The result pass

  /**
    * One result walk from `start`: mark each record, emit its point, step
    * by `next1` from main originals and `In` records and by `next2` from
    * clipper originals and `Out` records, and stop on coming back to
    * `start`. The source loops forever when the walk never comes back;
    * here the walk gives up after as many steps as there are records,
    * which happens exactly when it would never come back.
    */
  method ResultWalk(t: seq<Item>, start: nat) returns (t': seq<Item>, contour: seq<Point>, closed: bool, ghost n: nat)
    requires RouteClosed(t, Switching) && start < |t|
    ensures closed ==> IsFirstReturn(t, Switching, start, n) &&
                       t' == MarkSet(t, Visited(t, Switching, start, n)) &&
                       contour == Contour(t, start, n)
    ensures !closed ==> !OnCycle(t, Switching, start)
  {
    t', contour, closed := t, [], false;
    var cur, steps := start, 0;
    while steps < |t|
      invariant steps <= |t| && cur == Follow(t, Switching, start, steps) && cur < |t|
      invariant forall i :: 1 <= i <= steps ==> Follow(t, Switching, start, i) != start
      invariant t' == MarkSet(t, Visited(t, Switching, start, steps))
      invariant contour == WalkPoints(t, Switching, start, steps)
    {
      MarkStep(t, Switching, start, steps);
      FollowLast(t, Switching, start, steps);
      assert StaysOnRoute(t, Switching, cur);
      t' := t'[cur := t'[cur].(isResult := true)];
      contour := contour + [t'[cur].point];
      cur := StepFrom(t'[cur], Switching);
      steps := steps + 1;
      if cur == start {
        contour := contour + [t'[start].point];
        closed := true;
        break;
      }
    }
    n := steps;
    if !closed && OnCycle(t, Switching, start) {
      var w :| w >= 1 && Follow(t, Switching, start, w) == start;
      var f := FirstReturnExists(t, Switching, start, w);
      ReturnWithin(t, Switching, start, f);
      assert false;
    }
  }

  /** Result contour `r` is what the result walk emits from some crossing that it returns to. */
  ghost predicate ContourOf(t: seq<Item>, r: seq<Point>)
    requires RouteClosed(t, Switching)
  {
    exists s: nat, n: nat :: s < |t| && IsCrossing(t[s]) && IsFirstReturn(t, Switching, s, n) && r == Contour(t, s, n)
  }

  /** Every result contour is closed: at least two points, the last one repeating the first. */
  lemma ContourClosed(t: seq<Item>, r: seq<Point>)
    requires RouteClosed(t, Switching) && ContourOf(t, r)
    ensures |r| >= 2 && r[0] == r[|r| - 1]
  {
    var s: nat, n: nat :| s < |t| && IsCrossing(t[s]) && IsFirstReturn(t, Switching, s, n) && r == Contour(t, s, n);
  }

  /**
    * Walk `i` of a result pass starts at `seeds[i]`, a crossing unmarked in
    * `t` and not visited by the walks before it, comes back to it after
    * `lens[i]` steps, and emits contour `result[i]`.
    */
  ghost predicate ResultWalkAt(t: seq<Item>, seeds: seq<nat>, lens: seq<nat>, result: seq<seq<Point>>, i: nat)
    requires RouteClosed(t, Switching) && |seeds| == |lens| == |result|
  {
    i < |seeds| ==>
      seeds[i] < |t| && IsSeed(t[seeds[i]], Crossings) &&
      seeds[i] !in Walked(t, Switching, seeds[..i], lens[..i]) &&
      IsFirstReturn(t, Switching, seeds[i], lens[i]) && result[i] == Contour(t, seeds[i], lens[i])
  }

  /**
    * A result pass over `t` that walked from `seeds` in order, emitted one
    * contour per walk, and left `t'`: `t` with exactly the visited records marked.
    */
  ghost predicate ResultOutcome(t: seq<Item>, seeds: seq<nat>, lens: seq<nat>, result: seq<seq<Point>>, t': seq<Item>) {
    RouteClosed(t, Switching) && |seeds| == |lens| == |result| &&
    (forall i: nat {:trigger ResultWalkAt(t, seeds, lens, result, i)} :: ResultWalkAt(t, seeds, lens, result, i)) &&
    t' == MarkSet(t, Walked(t, Switching, seeds, lens))
  }

  /** One more result walk from a seed of the current table extends the outcome. */
  lemma ResultOutcomeStep(t: seq<Item>, t': seq<Item>, seeds: seq<nat>, lens: seq<nat>, result: seq<seq<Point>>,
                          s: nat, n: nat, contour: seq<Point>, t1: seq<Item>)
    requires ResultOutcome(t, seeds, lens, result, t') && RouteClosed(t', Switching)
    requires s < |t'| && IsSeed(t'[s], Crossings)
    requires IsFirstReturn(t', Switching, s, n) && t1 == MarkSet(t', Visited(t', Switching, s, n))
    requires contour == Contour(t', s, n)
    ensures ResultOutcome(t, seeds + [s], lens + [n], result + [contour], t1)
  {
    var w := Walked(t, Switching, seeds, lens);
    MarkSetGrows(t, w);
    FirstReturnSameLinks(t, t', Switching, s, n);
    VisitedSameLinks(t, t', Switching, s, n);
    WalkPointsSameLinks(t, t', Switching, s, n);
    assert Contour(t, s, n) == contour;
    WalkedAppend(t, Switching, seeds, lens, s, n);
    MarkSetUnion(t, w, Visited(t, Switching, s, n));
    var seeds', lens', result' := seeds + [s], lens + [n], result + [contour];
    forall i: nat ensures ResultWalkAt(t, seeds', lens', result', i) {
      if i < |seeds| {
        assert ResultWalkAt(t, seeds, lens, result, i);
        assert seeds'[..i] == seeds[..i] && lens'[..i] == lens[..i];
      } else if i == |seeds| {
        assert seeds'[..i] == seeds && lens'[..i] == lens;
      }
    }
  }

  /**
    * The source's result pass: while some crossing is unvisited, walk from
    * the first one and collect the contour. `ok` is false when a walk
    * never returns, where the source does not terminate.
    */
  method ResultPass(t: seq<Item>) returns (t': seq<Item>, result: seq<seq<Point>>, ok: bool, ghost seeds: seq<nat>, ghost lens: seq<nat>)
    requires RouteClosed(t, Switching)
    ensures MarksGrow(t, t')
    ensures ok ==> ResultOutcome(t, seeds, lens, result, t')
    ensures ok ==> forall k :: 0 <= k < |t'| ==> !IsSeed(t'[k], Crossings)
    ensures ok ==> forall k :: 0 <= k < |t| && IsSeed(t[k], Crossings) ==> k in Walked(t, Switching, seeds, lens)
    ensures ok ==> forall r :: r in result ==> ContourOf(t, r)
    ensures ok ==> forall k :: 0 <= k < |t| && IsCrossing(t[k]) && !t[k].isResult ==> OnCycle(t, Switching, k)
    ensures !ok ==> exists s: nat :: s < |t| && IsCrossing(t[s]) && !OnCycle(t, Switching, s)
  {
    t', result, ok := t, [], true;
    seeds, lens := [], [];
    MarkSetUnion(t, {}, {});
    assert MarkSet(t, {}) == t;
    while true
      invariant MarksGrow(t, t') && RouteClosed(t', Switching)
      invariant ResultOutcome(t, seeds, lens, result, t')
      invariant forall r :: r in result ==> ContourOf(t, r)
      invariant forall k :: 0 <= k < |t| && t'[k].isResult && !t[k].isResult ==> OnCycle(t, Switching, k)
      decreases CountSeeds(t', Crossings, 0, |t'|)
    {
      var seed := FindSeed(t', Crossings, 0, |t'|);
      if seed.None? {
        break;
      }
      var s := seed.value;
      var t1, contour, closed, n := ResultWalk(t', s);
      FirstReturnSameLinks(t, t', Switching, s, n);
      if !closed {
        ok := false;
        break;
      }
      MarkSetGrows(t', Visited(t', Switching, s, n));
      assert s == Follow(t', Switching, s, 0);
      CountSeedsDrop(t', t1, Crossings, 0, |t'|, s);
      forall k | k in Visited(t', Switching, s, n)
        ensures OnCycle(t, Switching, k)
      {
        VisitedOnCycle(t', Switching, s, n, k);
        FirstReturnSameLinks(t, t', Switching, k, 0);
      }
      WalkPointsSameLinks(t, t', Switching, s, n);
      assert ContourOf(t, contour);
      ResultOutcomeStep(t, t', seeds, lens, result, s, n, contour, t1);
      MarksGrowTrans(t, t', t1);
      RouteClosedSameLinks(t', t1, Switching);
      t' := t1;
      result := result + [contour];
      seeds, lens := seeds + [s], lens + [n];
    }
    if ok {
      MarkSetGrows(t, Walked(t, Switching, seeds, lens));
    }
  }

  // ---------------------------------------------------------------------
  // The leftover passes

  /**
    * Whether the leftover walk along `c` keeps the edge out of a record:
    * an unvisited original of its own polygon, or the crossing kind that
    * leaves the other polygon along `c` (`Out` on the main chain, `In` on
    * the clipper chain). The other polygon's originals never lie on `c`.
    */
  function IsEdge(it: Item, c: Chain): bool {
    match it.pointType
    case OriginMain => c == MainChain && !it.isResult
    case OriginClipper => c == ClipperChain && !it.isResult
    case In => c == ClipperChain
    case Out => c == MainChain
  }

  /** The runs a leftover walk has finished, and the run it is extending. */
  datatype Cut = Cut(done: seq<seq<Point>>, open: seq<Point>)

  /** A kept edge from `here` to `there` extends the open run (starting it at `here`); any other edge ends it. */
  function CutStep(cut: Cut, edge: bool, here: Point, there: Point): Cut {
    if edge then Cut(cut.done, (if |cut.open| == 0 then [here] else cut.open) + [there])
    else if |cut.open| > 0 then Cut(cut.done + [cut.open], [])
    else cut
  }

  /** All runs once the walk is back at its seed. */
  function CutEnd(cut: Cut): seq<seq<Point>> {
    if |cut.open| > 0 then cut.done + [cut.open] else cut.done
  }

  /** The cut after the first `n` steps of the walk along `c` from `k`, on table `t`. */
  function CutWalk(t: seq<Item>, c: Chain, k: nat, n: nat): Cut
    requires RouteClosed(t, Along(c)) && k < |t| && OnChain(t[k], c)
  {
    if n == 0 then Cut([], [])
    else
      FollowOnRoute(t, Along(c), k, n - 1);
      var x := Follow(t, Along(c), k, n - 1);
      assert StaysOnRoute(t, Along(c), x);
      CutStep(CutWalk(t, c, k, n - 1), IsEdge(t[x], c), t[x].point, t[Next(t[x], c)].point)
  }

  /** `r` is the points of the records a walk along `c` from `y` visits. */
  ghost predicate StretchFrom(t: seq<Item>, c: Chain, y: nat, r: seq<Point>)
    requires RouteClosed(t, Along(c))
  {
    y < |t| && OnChain(t[y], c) && r == WalkPoints(t, Along(c), y, |r|)
  }

  /** `r` is the points of a stretch of at least one edge along chain `c`. */
  ghost predicate IsStretch(t: seq<Item>, c: Chain, r: seq<Point>)
    requires RouteClosed(t, Along(c))
  {
    |r| >= 2 && exists y: nat :: StretchFrom(t, c, y, r)
  }

  /** A stretch extended by the point one step further along the chain. */
  lemma StretchExtend(t: seq<Item>, c: Chain, y: nat, r: seq<Point>)
    requires RouteClosed(t, Along(c)) && StretchFrom(t, c, y, r)
    ensures Follow(t, Along(c), y, |r|) < |t|
    ensures StretchFrom(t, c, y, r + [t[Follow(t, Along(c), y, |r|)].point])
  {
    FollowOnRoute(t, Along(c), y, |r|);
  }

  /** `open` is the points of the stretch of the walk from `k` that ends after step `n`. */
  ghost predicate OnStretch(t: seq<Item>, c: Chain, k: nat, n: nat, open: seq<Point>)
    requires RouteClosed(t, Along(c)) && k < |t| && OnChain(t[k], c) && |open| <= n + 1
  {
    StretchFrom(t, c, Follow(t, Along(c), k, n + 1 - |open|), open)
  }

  /**
    * Every finished run holds at least two points and follows the chain,
    * and so does the open run, which ends at the record the walk stands on.
    */
  lemma {:induction false} CutWalkShape(t: seq<Item>, c: Chain, k: nat, n: nat)
    requires RouteClosed(t, Along(c)) && k < |t| && OnChain(t[k], c)
    ensures var cut := CutWalk(t, c, k, n);
      (forall r :: r in cut.done ==> IsStretch(t, c, r)) &&
      (|cut.open| == 0 || (2 <= |cut.open| <= n + 1 && OnStretch(t, c, k, n, cut.open)))
  {
    if n > 0 {
      CutWalkShape(t, c, k, n - 1);
      CutShapeStep(t, c, k, n);
    }
  }

  /** One step of `CutWalkShape`. */
  lemma CutShapeStep(t: seq<Item>, c: Chain, k: nat, n: nat)
    requires RouteClosed(t, Along(c)) && k < |t| && OnChain(t[k], c) && n >= 1
    requires var cut := CutWalk(t, c, k, n - 1);
      (forall r :: r in cut.done ==> IsStretch(t, c, r)) &&
      (|cut.open| == 0 || (2 <= |cut.open| <= n && OnStretch(t, c, k, n - 1, cut.open)))
    ensures var cut := CutWalk(t, c, k, n);
      (forall r :: r in cut.done ==> IsStretch(t, c, r)) &&
      (|cut.open| == 0 || (2 <= |cut.open| <= n + 1 && OnStretch(t, c, k, n, cut.open)))
  {
    var route := Along(c);
    var cut := CutWalk(t, c, k, n - 1);
    FollowOnRoute(t, route, k, n - 1);
    var x := Follow(t, route, k, n - 1);
    assert StaysOnRoute(t, route, x);
    var there := Next(t[x], c);
    FollowLast(t, route, k, n - 1);
    assert there == Follow(t, route, k, n);
    var L := |cut.open|;
    if IsEdge(t[x], c) {
      if L == 0 {
        assert WalkPoints(t, route, x, 1) == [t[x].point];
        StretchExtend(t, c, x, [t[x].point]);
        assert StretchFrom(t, c, x, [t[x].point, t[there].point]);
      } else {
        var y := Follow(t, route, k, n - L);
        FollowAdd(t, route, k, n - L, L);
        assert Follow(t, route, y, L) == there;
        StretchExtend(t, c, y, cut.open);
      }
    } else if L > 0 {
      assert StretchFrom(t, c, Follow(t, route, k, n - L), cut.open);
    }
  }

  /** Every run a leftover walk emits holds at least two points and follows the chain. */
  lemma CutEndRuns(t: seq<Item>, c: Chain, k: nat, n: nat)
    requires RouteClosed(t, Along(c)) && k < |t| && OnChain(t[k], c)
    ensures forall r :: r in CutEnd(CutWalk(t, c, k, n)) ==> IsStretch(t, c, r)
  {
    CutWalkShape(t, c, k, n);
    var cut := CutWalk(t, c, k, n);
    if |cut.open| > 0 {
      assert StretchFrom(t, c, Follow(t, Along(c), k, n + 1 - |cut.open|), cut.open);
    }
  }

  lemma IsStretchSameLinks(t: seq<Item>, t': seq<Item>, c: Chain, r: seq<Point>)
    requires SameLinks(t, t') && RouteClosed(t, Along(c)) && RouteClosed(t', Along(c)) && IsStretch(t', c, r)
    ensures IsStretch(t, c, r)
  {
    var y: nat :| StretchFrom(t', c, y, r);
    WalkPointsSameLinks(t, t', Along(c), y, |r|);
    assert StretchFrom(t, c, y, r);
  }

  /**
    * One leftover walk along chain `c` from the original `start`: mark each
    * record, cut the chain into runs of kept edges, and stop on coming back
    * to `start`, which a record on a cycle always does.
    */
  method LeftoverWalk(t: seq<Item>, c: Chain, start: nat, runs: seq<seq<Point>>)
    returns (t': seq<Item>, runs': seq<seq<Point>>, ghost n: nat)
    requires RouteClosed(t, Along(c)) && start < |t| && OnChain(t[start], c) && OnCycle(t, Along(c), start)
    ensures IsFirstReturn(t, Along(c), start, n)
    ensures t' == MarkSet(t, Visited(t, Along(c), start, n))
    ensures runs' == runs + CutEnd(CutWalk(t, c, start, n))
  {
    var route := Along(c);
    ghost var w :| w >= 1 && Follow(t, route, start, w) == start;
    n := FirstReturnExists(t, route, start, w);
    t', runs' := t, runs;
    var res: seq<Point> := [];
    var cur := start;
    ghost var steps := 0;
    while true
      invariant steps < n && cur == Follow(t, route, start, steps) && cur < |t| && OnChain(t[cur], c)
      invariant t' == MarkSet(t, Visited(t, route, start, steps))
      invariant runs' == runs + CutWalk(t, c, start, steps).done && res == CutWalk(t, c, start, steps).open
      decreases n - steps
    {
      forall i | 0 <= i < steps
        ensures Follow(t, route, start, i) != cur
      {
        FirstReturnSimple(t, route, start, n, i, steps);
      }
      MarkStep(t, route, start, steps);
      FollowLast(t, route, start, steps);
      assert StaysOnRoute(t, route, cur);
      var item := t'[cur];
      assert item == t[cur];
      var isEdge := IsEdge(item, c);
      t' := t'[cur := item.(isResult := true)];
      var next := Next(item, c);
      if isEdge {
        if |res| == 0 {
          res := [item.point];
        }
        res := res + [t'[next].point];
      } else if |res| > 0 {
        runs' := runs' + [res];
        res := [];
      }
      cur := next;
      steps := steps + 1;
      if cur == start {
        if |res| > 0 {
          runs' := runs' + [res];
        }
        break;
      }
    }
  }

  /** Every seed is a record of `t` on chain `c`. */
  ghost predicate SeedsOnChain(t: seq<Item>, c: Chain, seeds: seq<nat>) {
    forall i :: 0 <= i < |seeds| ==> seeds[i] < |t| && OnChain(t[seeds[i]], c)
  }

  /**
    * The runs the leftover walks along `c` from `seeds`, of `lens` steps
    * each, cut in order, each walk reading the marks the walks before it
    * left.
    */
  ghost function Cuts(t: seq<Item>, c: Chain, seeds: seq<nat>, lens: seq<nat>): seq<seq<Point>>
    requires RouteClosed(t, Along(c)) && |seeds| == |lens| && SeedsOnChain(t, c, seeds)
    decreases |seeds|
  {
    if |seeds| == 0 then []
    else
      var i := |seeds| - 1;
      var w := Walked(t, Along(c), seeds[..i], lens[..i]);
      MarkSetGrows(t, w);
      RouteClosedSameLinks(t, MarkSet(t, w), Along(c));
      Cuts(t, c, seeds[..i], lens[..i]) + CutEnd(CutWalk(MarkSet(t, w), c, seeds[i], lens[i]))
  }

  /**
    * Walk `i` of a leftover pass along `c` starts at `seeds[i]`, an
    * original of the range `lo .. hi - 1` unmarked in `t` and not visited by
    * the walks before it, and comes back to it after `lens[i]` steps.
    */
  ghost predicate LeftoverWalkAt(t: seq<Item>, c: Chain, lo: nat, hi: nat, seeds: seq<nat>, lens: seq<nat>, i: nat)
    requires |seeds| == |lens|
  {
    i < |seeds| ==>
      lo <= seeds[i] < hi && seeds[i] < |t| && IsSeed(t[seeds[i]], Originals(c)) &&
      seeds[i] !in Walked(t, Along(c), seeds[..i], lens[..i]) &&
      IsFirstReturn(t, Along(c), seeds[i], lens[i])
  }

  /**
    * A leftover pass along `c` over `t` that walked from `seeds` in order,
    * emitted the runs those walks cut, and left `t'`: `t` with exactly the
    * visited records marked.
    */
  ghost predicate LeftoverOutcome(t: seq<Item>, c: Chain, lo: nat, hi: nat, seeds: seq<nat>, lens: seq<nat>,
                                  runs: seq<seq<Point>>, t': seq<Item>) {
    RouteClosed(t, Along(c)) && |seeds| == |lens| && SeedsOnChain(t, c, seeds) &&
    (forall i: nat {:trigger LeftoverWalkAt(t, c, lo, hi, seeds, lens, i)} :: LeftoverWalkAt(t, c, lo, hi, seeds, lens, i)) &&
    runs == Cuts(t, c, seeds, lens) &&
    t' == MarkSet(t, Walked(t, Along(c), seeds, lens))
  }

  /** One more leftover walk from a seed of the current table extends the outcome. */
  lemma LeftoverOutcomeStep(t: seq<Item>, t': seq<Item>, c: Chain, lo: nat, hi: nat, seeds: seq<nat>, lens: seq<nat>,
                            runs: seq<seq<Point>>, s: nat, n: nat, runs': seq<seq<Point>>, t1: seq<Item>)
    requires LeftoverOutcome(t, c, lo, hi, seeds, lens, runs, t') && RouteClosed(t', Along(c))
    requires lo <= s < hi && s < |t'| && IsSeed(t'[s], Originals(c))
    requires IsFirstReturn(t', Along(c), s, n) && t1 == MarkSet(t', Visited(t', Along(c), s, n))
    requires runs' == runs + CutEnd(CutWalk(t', c, s, n))
    ensures LeftoverOutcome(t, c, lo, hi, seeds + [s], lens + [n], runs', t1)
  {
    var route := Along(c);
    var w := Walked(t, route, seeds, lens);
    MarkSetGrows(t, w);
    FirstReturnSameLinks(t, t', route, s, n);
    VisitedSameLinks(t, t', route, s, n);
    WalkedAppend(t, route, seeds, lens, s, n);
    MarkSetUnion(t, w, Visited(t, route, s, n));
    var seeds', lens' := seeds + [s], lens + [n];
    assert seeds'[..|seeds|] == seeds && lens'[..|lens|] == lens;
    assert SeedsOnChain(t, c, seeds');
    assert Cuts(t, c, seeds', lens') == runs';
    forall i: nat ensures LeftoverWalkAt(t, c, lo, hi, seeds', lens', i) {
      if i < |seeds| {
        assert LeftoverWalkAt(t, c, lo, hi, seeds, lens, i);
        assert seeds'[..i] == seeds[..i] && lens'[..i] == lens[..i];
      }
    }
  }

  /**
    * The source's leftover pass along chain `c` over the originals
    * `lo .. hi - 1`: while one of them is unvisited, walk from the first
    * and collect the runs it cuts.
    */
  method LeftoverPass(t: seq<Item>, c: Chain, lo: nat, hi: nat)
    returns (t': seq<Item>, runs: seq<seq<Point>>, ghost seeds: seq<nat>, ghost lens: seq<nat>)
    requires lo <= hi <= |t| && RouteClosed(t, Along(c))
    requires forall k :: lo <= k < hi && t[k].pointType == OriginType(c) ==> OnCycle(t, Along(c), k)
    ensures MarksGrow(t, t')
    ensures LeftoverOutcome(t, c, lo, hi, seeds, lens, runs, t')
    ensures forall k :: lo <= k < hi ==> !IsSeed(t'[k], Originals(c))
    ensures forall k :: lo <= k < hi && IsSeed(t[k], Originals(c)) ==> k in Walked(t, Along(c), seeds, lens)
    ensures forall r :: r in runs ==> IsStretch(t, c, r)
  {
    t', runs := t, [];
    seeds, lens := [], [];
    MarkSetUnion(t, {}, {});
    assert MarkSet(t, {}) == t;
    while true
      invariant MarksGrow(t, t') && RouteClosed(t', Along(c))
      invariant LeftoverOutcome(t, c, lo, hi, seeds, lens, runs, t')
      invariant forall r :: r in runs ==> IsStretch(t, c, r)
      decreases CountSeeds(t', Originals(c), lo, hi)
    {
      var seed := FindSeed(t', Originals(c), lo, hi);
      if seed.None? {
        break;
      }
      var s := seed.value;
      FirstReturnSameLinks(t, t', Along(c), s, 0);
      ghost var before := runs;
      var t1;
      ghost var n;
      t1, runs, n := LeftoverWalk(t', c, s, runs);
      LeftoverOutcomeStep(t, t', c, lo, hi, seeds, lens, before, s, n, runs, t1);
      seeds, lens := seeds + [s], lens + [n];
      CutEndRuns(t', c, s, n);
      forall r | r in CutEnd(CutWalk(t', c, s, n))
        ensures IsStretch(t, c, r)
      {
        IsStretchSameLinks(t, t', c, r);
      }
      MarkSetGrows(t', Visited(t', Along(c), s, n));
      assert s == Follow(t', Along(c), s, 0);
      CountSeedsDrop(t', t1, Originals(c), lo, hi, s);
      MarksGrowTrans(t, t', t1);
      RouteClosedSameLinks(t', t1, Along(c));
      t' := t1;
    }
    MarkSetGrows(t, Walked(t, Along(c), seeds, lens));
  }
}
