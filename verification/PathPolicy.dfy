/** Deterministic pathfinding on the hex map: A* over arrays, proved to return a cheapest route
    exactly when one exists. */
module PathPolicy {
  import opened CArithmetic
  import opened Options
  import opened HexGrid
  import opened StepRules
  import B = BestFirst

  // ---- Requests and routes -----------------------------------------------------------------

  datatype Request = Request(
    width: int, height: int, hexes: Option<seq<Hex>>,
    start: Point, goal: Point, mobility: Mobility, waterproof: bool)

  predicate PointIsValid(r: Request, p: Point) {
    p.x >= 0 && p.y >= 0 && p.x < r.width && p.y < r.height
  }

  /** The hex buffer of a well-shaped request holds one hex for each point of the map. */
  predicate BufferHolds(r: Request) {
    r.hexes.Some? && r.width > 0 && r.height > 0 ==> |r.hexes.value| == r.width * r.height
  }

  predicate IsValid(request: Option<Request>) {
    request.Some? &&
    var r := request.value;
    r.hexes.Some? && r.width > 0 && r.height > 0 && PointIsValid(r, r.start) && PointIsValid(r, r.goal)
  }

  /** A valid request together with its buffer, the domain of everything below. */
  predicate Usable(r: Request) {
    IsValid(Some(r)) && BufferHolds(r)
  }

  function Offset(r: Request, p: Point): (offset: nat)
    requires PointIsValid(r, p)
    ensures offset < r.width * r.height
  {
    OffsetInRange(r, p);
    p.x * r.height + p.y
  }

  lemma OffsetInRange(r: Request, p: Point)
    requires PointIsValid(r, p)
    ensures 0 <= p.x * r.height + p.y < r.width * r.height
  {
    RowsFit(p.x, r.width, r.height);
  }

  lemma RowsFit(x: int, width: int, height: int)
    requires 0 <= x < width && height > 0
    ensures 0 <= x * height <= width * height - height
  {
    ProductIsNatural(x, height);
    ProductIsNatural(width - 1 - x, height);
    assert (width - 1 - x) * height == width * height - height - x * height;
  }

  function PointAt(r: Request, offset: nat): Point
    requires r.height > 0
  {
    Point(offset / r.height, offset % r.height)
  }

  lemma DivisionRecovers(x: nat, y: nat, height: nat)
    requires y < height
    ensures (x * height + y) / height == x && (x * height + y) % height == y
  {
    var q, m := (x * height + y) / height, (x * height + y) % height;
    assert (x - q) * height == m - y;
    assert x - q >= 1 ==> (x - q) * height >= height;
    assert q - x >= 1 ==> (q - x) * height >= height;
  }

  lemma PointOfOffset(r: Request, p: Point)
    requires PointIsValid(r, p)
    ensures PointAt(r, Offset(r, p)) == p
  {
    DivisionRecovers(p.x, p.y, r.height);
  }

  lemma OffsetOfPoint(r: Request, offset: nat)
    requires r.width > 0 && r.height > 0 && offset < r.width * r.height
    ensures PointIsValid(r, PointAt(r, offset)) && Offset(r, PointAt(r, offset)) == offset
  {
    var x := offset / r.height;
    assert offset == x * r.height + offset % r.height;
    assert x >= r.width ==> x * r.height >= r.width * r.height;
  }

  function HexAt(r: Request, p: Point): Hex
    requires Usable(r) && PointIsValid(r, p)
  {
    r.hexes.value[Offset(r, p)]
  }

  function Step(r: Request, p: Point, q: Point): StepResult
    requires Usable(r) && PointIsValid(r, p) && PointIsValid(r, q)
  {
    StepEvaluate(StepRequest(r.mobility, r.waterproof, HexAt(r, p), HexAt(r, q)))
  }

  ghost predicate LegalStep(r: Request, p: Point, q: Point)
    requires Usable(r)
  {
    && PointIsValid(r, p) && PointIsValid(r, q)
    && (exists d: nat :: d < DIRECTIONS && Neighbor(p, d) == q)
    && Step(r, p, q).traversable
  }

  /** A route visits valid points from start to goal by legal steps; it may repeat points. */
  ghost predicate IsRoute(r: Request, route: seq<Point>)
    requires Usable(r)
  {
    && |route| > 0 && route[0] == r.start && route[|route| - 1] == r.goal
    && forall i, j :: 0 <= i < j < |route| && j == i + 1 ==> LegalStep(r, route[i], route[j])
  }

  ghost function RouteCost(r: Request, route: seq<Point>): int
    requires Usable(r)
    requires forall i :: 0 <= i < |route| ==> PointIsValid(r, route[i])
  {
    if |route| <= 1 then 0
    else RouteCost(r, route[..|route| - 1]) + Step(r, route[|route| - 2], route[|route| - 1]).cost
  }

  /** The hexes a route enters, one for each of its steps. */
  ghost function Entered(r: Request, route: seq<Point>): seq<Hex>
    requires Usable(r) && |route| > 0
    requires forall i :: 0 <= i < |route| ==> PointIsValid(r, route[i])
  {
    seq(|route| - 1, i requires 0 <= i < |route| - 1 => HexAt(r, route[i + 1]))
  }

  /** A route costs what the hexes it enters cost. */
  lemma {:induction false} RouteCostCounts(r: Request, route: seq<Point>)
    requires Usable(r) && |route| > 0
    requires forall i :: 0 <= i < |route| ==> PointIsValid(r, route[i])
    requires forall i, j :: 0 <= i < j < |route| && j == i + 1 ==> LegalStep(r, route[i], route[j])
    ensures RouteCost(r, route) == TerrainCost(Entered(r, route))
  {
    if |route| == 1 {
      assert Entered(r, route) == [];
    } else {
      var before, p, q := route[..|route| - 1], route[|route| - 2], route[|route| - 1];
      RouteCostCounts(r, before);
      assert LegalStep(r, p, q);
      assert Entered(r, route) == Entered(r, before) + [HexAt(r, q)];
      StepAddsTerrain(Entered(r, before), StepRequest(r.mobility, r.waterproof, HexAt(r, p), HexAt(r, q)));
    }
  }

  lemma RoutePointsAreValid(r: Request, route: seq<Point>)
    requires Usable(r) && IsRoute(r, route)
    ensures forall i :: 0 <= i < |route| ==> PointIsValid(r, route[i])
  {
    forall i | 0 <= i < |route| ensures PointIsValid(r, route[i]) {
      if i + 1 < |route| { assert LegalStep(r, route[i], route[i + 1]); }
    }
  }

  /** The bound under which no score or estimate leaves the range of a 32-bit int. */
  predicate Fits(r: Request) {
    MOST_STEP * (r.width * r.height) + 100 * (r.width + r.height) <= B.INFINITE
  }

  lemma EveryBattleMapFits(r: Request)
    requires 0 < r.width <= MAPX && 0 < r.height <= MAPY
    ensures Fits(r)
  {
    assert r.width * r.height <= MAPX * r.height <= MAPX * MAPY;
  }

  // ---- The map as a graph ------------------------------------------------------------------

  function NextOffset(r: Request, u: nat, d: nat): int
    requires Usable(r)
  {
    var q := Neighbor(PointAt(r, u), d);
    if PointIsValid(r, q) then Offset(r, q) else B.NONE
  }

  function OffsetStep(r: Request, u: nat, v: nat): StepResult
    requires Usable(r)
  {
    if u < r.width * r.height && v < r.width * r.height then
      OffsetOfPoint(r, u);
      OffsetOfPoint(r, v);
      Step(r, PointAt(r, u), PointAt(r, v))
    else BLOCKED
  }

  function Estimate(r: Request, u: nat): int
    requires Usable(r)
  {
    100 * Distance(PointAt(r, u), r.goal)
  }

  function GraphOf(r: Request): B.Graph
    requires Usable(r)
  {
    B.Graph(
      r.width * r.height,
      (u: nat, d: nat) => NextOffset(r, u, d),
      (u: nat, v: nat) => OffsetStep(r, u, v).traversable,
      (u: nat, v: nat) => OffsetStep(r, u, v).cost,
      (u: nat) => Estimate(r, u))
  }

  /** The hex estimate is consistent with the step costs, which is what A* needs. */
  lemma GraphIsConsistent(r: Request)
    requires Usable(r)
    ensures B.Consistent(GraphOf(r))
  {
    var g := GraphOf(r);
    forall u: nat, v: nat | u < g.count && v < g.count && B.Linked(g, u, v)
      ensures 1 <= g.cost(u, v) && g.estimate(u) <= g.cost(u, v) + g.estimate(v)
    {
      var d: nat :| d < DIRECTIONS && g.next(u, d) == v && g.passable(u, v);
      PointOfOffset(r, Neighbor(PointAt(r, u), d));
      HopChangesDistanceByAtMostOne(PointAt(r, u), d, r.goal);
    }
    forall u: nat | u < g.count ensures 0 <= g.estimate(u) {
      DistanceIsHalfL1(PointAt(r, u), r.goal);
    }
  }

  /** Neighbour links of the graph are exactly the legal steps of the map. */
  lemma LinkedIsLegal(r: Request, p: Point, q: Point)
    requires Usable(r) && PointIsValid(r, p) && PointIsValid(r, q)
    ensures B.Linked(GraphOf(r), Offset(r, p), Offset(r, q)) <==> LegalStep(r, p, q)
  {
    var g, u, v := GraphOf(r), Offset(r, p), Offset(r, q);
    PointOfOffset(r, p);
    PointOfOffset(r, q);
    assert OffsetStep(r, u, v) == Step(r, p, q);
    if LegalStep(r, p, q) {
      var d: nat :| d < DIRECTIONS && Neighbor(p, d) == q;
      assert g.next(u, d) == v;
    }
    if B.Linked(g, u, v) {
      var d: nat :| d < DIRECTIONS && g.next(u, d) == v && g.passable(u, v);
      PointOfOffset(r, Neighbor(p, d));
    }
  }

  ghost function OffsetsOf(r: Request, route: seq<Point>): seq<nat>
    requires forall i :: 0 <= i < |route| ==> PointIsValid(r, route[i])
  {
    seq(|route|, i requires 0 <= i < |route| => Offset(r, route[i]))
  }

  lemma {:induction false} RouteCostIsWalkCost(r: Request, route: seq<Point>)
    requires Usable(r) && forall i :: 0 <= i < |route| ==> PointIsValid(r, route[i])
    ensures B.WalkCost(GraphOf(r), OffsetsOf(r, route)) == RouteCost(r, route)
  {
    if |route| > 1 {
      var before := route[..|route| - 1];
      RouteCostIsWalkCost(r, before);
      assert OffsetsOf(r, route)[..|route| - 1] == OffsetsOf(r, before);
      PointOfOffset(r, route[|route| - 2]);
      PointOfOffset(r, route[|route| - 1]);
    }
  }

  lemma RouteIsWalk(r: Request, route: seq<Point>)
    requires Usable(r) && |route| > 0 && forall i :: 0 <= i < |route| ==> PointIsValid(r, route[i])
    ensures IsRoute(r, route)
       <==> B.WalkTo(GraphOf(r), Offset(r, r.start), Offset(r, r.goal), OffsetsOf(r, route))
  {
    var walk := OffsetsOf(r, route);
    forall i, j | 0 <= i < j < |route| && j == i + 1
      ensures B.Linked(GraphOf(r), walk[i], walk[j]) <==> LegalStep(r, route[i], route[j])
    {
      LinkedIsLegal(r, route[i], route[j]);
    }
    PointOfOffset(r, r.start);
    PointOfOffset(r, r.goal);
    PointOfOffset(r, route[0]);
    PointOfOffset(r, route[|route| - 1]);
  }

  // ---- The search --------------------------------------------------------------------------

  datatype Status = Found | Unreachable | Invalid | NoMemory

  datatype PathResult = PathResult(status: Status, points: seq<Point>, totalCost: int)

  /** Which of the two allocations of a search succeed: its work arrays, and the result points. */
  datatype Memory = Memory(arrays: bool, points: bool)

  ghost function Snapshot(scores: array<int>, parents: array<int>, open: array<bool>, closed: array<bool>): B.Search
    reads scores, parents, open, closed
  {
    B.Search(scores[..], parents[..], open[..], closed[..])
  }

  /** The scan of the open flags: the least estimate wins and ties go to the lowest offset. A node
      whose estimate exceeds INT_MAX is never picked. */
  method SelectOpen(r: Request, scores: array<int>, open: array<bool>) returns (current: int)
    requires Usable(r) && scores.Length == open.Length == r.width * r.height
    ensures B.NONE <= current < scores.Length
    ensures current == B.NONE ==>
              forall u: nat :: u < open.Length && open[u] ==> B.INFINITE < scores[u] + Estimate(r, u)
    ensures current != B.NONE ==> open[current]
    ensures current != B.NONE ==>
              forall u: nat :: u < open.Length && open[u] ==>
                scores[current] + Estimate(r, current) < scores[u] + Estimate(r, u) ||
                (scores[current] + Estimate(r, current) == scores[u] + Estimate(r, u) && current <= u)
  {
    current := B.NONE;
    var best := B.INFINITE;
    for index := 0 to scores.Length
      invariant B.NONE <= current < index
      invariant current == B.NONE ==> best == B.INFINITE
      invariant current == B.NONE ==>
                  forall u: nat :: u < index && open[u] ==> B.INFINITE < scores[u] + Estimate(r, u)
      invariant current != B.NONE ==> open[current] && best == scores[current] + Estimate(r, current)
      invariant current != B.NONE ==>
                  forall u: nat :: u < index && open[u] ==>
                    best < scores[u] + Estimate(r, u) || (best == scores[u] + Estimate(r, u) && current <= u)
    {
      if !open[index] { continue; }
      var estimate := scores[index] + 100 * Distance(PointAt(r, index), r.goal);
      if estimate < best || (estimate == best && (current == B.NONE || index < current)) {
        best := estimate;
        current := index;
      }
    }
  }

  lemma PickedIsBest(r: Request, s: B.Search, current: nat)
    requires Usable(r) && B.Sized(GraphOf(r), s) && current < r.width * r.height && s.open[current]
    requires forall u: nat :: u < |s.open| && s.open[u] ==>
               s.score[current] + Estimate(r, current) <= s.score[u] + Estimate(r, u)
    ensures B.IsBest(GraphOf(r), s, current)
  {
  }

  /** The body of the direction loop: offer the score of `current` to one neighbour. */
  method Offer(r: Request, current: nat, direction: nat, scores: array<int>, parents: array<int>,
               open: array<bool>, closed: array<bool>, ghost g: B.Graph)
    requires Usable(r) && current < r.width * r.height && direction < 6
    requires scores.Length == parents.Length == open.Length == closed.Length == r.width * r.height
    requires scores != parents && open != closed
    requires g == GraphOf(r) && B.NextInRange(g)
    modifies scores, parents, open
    ensures Snapshot(scores, parents, open, closed)
         == B.Relax(g, old(Snapshot(scores, parents, open, closed)), current, direction)
  {
    var here := PointAt(r, current);
    var next := Neighbor(here, direction);
    if !PointIsValid(r, next) { return; }
    var nextOffset := Offset(r, next);
    if closed[nextOffset] { return; }
    OffsetOfPoint(r, current);
    PointOfOffset(r, next);
    var step := StepEvaluate(StepRequest(r.mobility, r.waterproof,
                                         r.hexes.value[current], r.hexes.value[nextOffset]));
    assert step == OffsetStep(r, current, nextOffset);
    if !step.traversable || scores[current] > B.INFINITE - step.cost { return; }
    var candidate := scores[current] + step.cost;
    if candidate < scores[nextOffset] {
      scores[nextOffset] := candidate;
      parents[nextOffset] := current;
      open[nextOffset] := true;
    }
  }

  /** Moves `current` to the closed set and offers its score to its six neighbours. */
  method Expand(r: Request, current: nat, scores: array<int>, parents: array<int>,
                open: array<bool>, closed: array<bool>, ghost g: B.Graph)
    requires Usable(r) && current < r.width * r.height
    requires scores.Length == parents.Length == open.Length == closed.Length == r.width * r.height
    requires scores != parents && open != closed
    requires g == GraphOf(r) && B.NextInRange(g)
    modifies scores, parents, open, closed
    ensures Snapshot(scores, parents, open, closed)
         == B.Expanded(g, old(Snapshot(scores, parents, open, closed)), current, DIRECTIONS)
  {
    ghost var before := Snapshot(scores, parents, open, closed);
    open[current] := false;
    closed[current] := true;
    assert Snapshot(scores, parents, open, closed) == B.Close(before, current);
    for direction := 0 to 6
      invariant Snapshot(scores, parents, open, closed) == B.Expanded(g, before, current, direction)
    {
      Offer(r, current, direction, scores, parents, open, closed, g);
    }
  }

  /** The loop of the search: runs until the goal is the best open node or no node is picked. */
  method Run(r: Request, start: nat, goal: nat, scores: array<int>, parents: array<int>,
             open: array<bool>, closed: array<bool>)
      returns (reached: bool)
    requires Usable(r) && start < r.width * r.height && goal < r.width * r.height
    requires scores.Length == parents.Length == open.Length == closed.Length == r.width * r.height
    requires scores != parents && open != closed
    requires Snapshot(scores, parents, open, closed) == B.Initial(GraphOf(r), start)
    modifies scores, parents, open, closed
    ensures B.Consistent(GraphOf(r))
    ensures B.Searching(GraphOf(r), Snapshot(scores, parents, open, closed), start, MOST_STEP)
    ensures !closed[goal]
    ensures reached ==> B.IsBest(GraphOf(r), Snapshot(scores, parents, open, closed), goal)
    ensures !reached ==>
              forall u: nat :: u < open.Length && open[u] ==> B.INFINITE < scores[u] + Estimate(r, u)
  {
    ghost var g := GraphOf(r);
    GraphIsConsistent(r);
    B.InitialInv(g, start);
    while true
      invariant B.Searching(g, Snapshot(scores, parents, open, closed), start, MOST_STEP)
      invariant !closed[goal]
      decreases scores.Length - B.Count(closed[..])
    {
      ghost var s := Snapshot(scores, parents, open, closed);
      var current := SelectOpen(r, scores, open);
      if current == B.NONE { return false; }
      PickedIsBest(r, s, current);
      if current == goal { return true; }
      B.RoundKeepsSearching(g, s, start, current, MOST_STEP);
      Expand(r, current, scores, parents, open, closed, g);
    }
  }

  /** Within the bound nothing overflows: in every state of the loop the guard against a sum past
      INT_MAX rejects no step, and no estimate exceeds INT_MAX. */
  lemma FittingSearchNeverSaturates(r: Request, s: B.Search, start: nat, u: nat, v: nat)
    requires Usable(r) && Fits(r) && B.Inv(GraphOf(r), s, start, r.width * r.height, 0)
    requires B.Bounded(s, MOST_STEP) && u < r.width * r.height && s.open[u]
    ensures s.score[u] + Estimate(r, u) <= B.INFINITE
    ensures OffsetStep(r, u, v).traversable ==> s.score[u] <= B.INFINITE - OffsetStep(r, u, v).cost
  {
    B.CountAfterSet(s.closed, u);
    OffsetOfPoint(r, u);
    DistanceInRectangle(PointAt(r, u), r.goal, r.width, r.height);
    var closed, count := B.Count(s.closed), r.width * r.height;
    assert closed + 1 <= count;
    assert MOST_STEP * (closed + 1) <= MOST_STEP * count;
  }

  // ---- Rebuilding the route ----------------------------------------------------------------

  /** The first backtrack counts the steps from the goal to the start along the parents. */
  method TrailLength(parents: array<int>, start: nat, goal: nat, ghost g: B.Graph, ghost s: B.Search)
      returns (length: nat)
    requires B.Rooted(g, s, start) && parents[..] == s.parent && goal < g.count && s.score[goal] < B.INFINITE
    ensures length + 1 == |B.Trail(g, s, start, goal)|
  {
    length := 0;
    var cursor: int := goal;
    while cursor != start
      invariant 0 <= cursor < g.count && s.score[cursor] < B.INFINITE
      invariant length + |B.Trail(g, s, start, cursor)| == |B.Trail(g, s, start, goal)|
      decreases s.score[cursor]
    {
      assert B.ParentOk(g, s, start, cursor);
      cursor := parents[cursor];
      length := length + 1;
    }
  }

  ghost function TrailPoints(r: Request, trail: seq<nat>): seq<Point>
    requires r.height > 0
  {
    seq(|trail|, i requires 0 <= i < |trail| => PointAt(r, trail[i]))
  }

  /** Each node of the trail is the parent of the next. */
  ghost predicate FollowsParents(trail: seq<nat>, parents: seq<int>) {
    forall i :: 0 < i < |trail| ==> trail[i] < |parents| && parents[trail[i]] == trail[i - 1]
  }

  lemma TrailFollowsParents(g: B.Graph, s: B.Search, start: nat, goal: nat)
    requires B.Rooted(g, s, start) && goal < g.count && s.score[goal] < B.INFINITE
    ensures var trail := B.Trail(g, s, start, goal); FollowsParents(trail, s.parent) && trail[0] == start
  {
    var trail := B.Trail(g, s, start, goal);
    B.TrailPrefix(g, s, start, goal, 0);
    forall i | 0 < i < |trail| ensures trail[i] < |s.parent| && s.parent[trail[i]] == trail[i - 1] {
      B.TrailPrefix(g, s, start, goal, i);
    }
  }

  /** The second backtrack writes the points from the last one back to the first. */
  method FillPoints(r: Request, parents: array<int>, goal: nat, length: nat, ghost trail: seq<nat>)
      returns (points: array<Point>)
    requires r.height > 0 && |trail| == length + 1 && trail[length] == goal && FollowsParents(trail, parents[..])
    ensures [PointAt(r, trail[0])] + points[..] == TrailPoints(r, trail)
  {
    hide PointAt;
    points := new Point[length];
    var cursor: int := goal;
    var index := length;
    while index > 0
      invariant index <= length && cursor == trail[index]
      invariant forall k :: index < k <= length ==> points[k - 1] == PointAt(r, trail[k])
    {
      points[index - 1] := PointAt(r, cursor);
      assert parents[..][trail[index]] == trail[index - 1];
      cursor := parents[cursor];
      index := index - 1;
    }
    forall k | 0 < k <= length ensures ([PointAt(r, trail[0])] + points[..])[k] == PointAt(r, trail[k]) {
      assert points[k - 1] == PointAt(r, trail[k]);
    }
  }

  // ---- The result --------------------------------------------------------------------------

  ghost predicate Reachable(r: Request)
    requires Usable(r)
  {
    exists route :: IsRoute(r, route)
  }

  /** A simple route that enters hexes of cost `totalCost`, no more than those any other route enters. */
  ghost predicate IsCheapestRoute(r: Request, route: seq<Point>, totalCost: int)
    requires Usable(r)
  {
    && IsRoute(r, route)
    && (RoutePointsAreValid(r, route); TerrainCost(Entered(r, route)) == totalCost)
    && (forall i, j :: 0 <= i < j < |route| ==> route[i] != route[j])
    && (forall other :: IsRoute(r, other) ==>
          (RoutePointsAreValid(r, other); totalCost <= TerrainCost(Entered(r, other))))
  }

  /** The trail of the goal, read as points, is a cheapest route. */
  lemma TrailIsCheapestRoute(r: Request, s: B.Search, route: seq<Point>)
    requires Usable(r) && B.Consistent(GraphOf(r))
    requires B.Inv(GraphOf(r), s, Offset(r, r.start), r.width * r.height, 0)
    requires B.IsBest(GraphOf(r), s, Offset(r, r.goal))
    requires route == TrailPoints(r, B.Trail(GraphOf(r), s, Offset(r, r.start), Offset(r, r.goal)))
    ensures IsCheapestRoute(r, route, s.score[Offset(r, r.goal)])
  {
    var g, start, goal := GraphOf(r), Offset(r, r.start), Offset(r, r.goal);
    var trail := B.Trail(g, s, start, goal);
    B.TrailIsCheapestWitness(g, s, start, goal);
    forall i | 0 <= i < |route| ensures PointIsValid(r, route[i]) && Offset(r, route[i]) == trail[i] {
      OffsetOfPoint(r, trail[i]);
    }
    assert OffsetsOf(r, route) == trail;
    RouteIsWalk(r, route);
    RouteCostIsWalkCost(r, route);
    RouteCostCounts(r, route);
    forall i, j | 0 <= i < j < |route| ensures route[i] != route[j] {
      B.TrailScoresRise(g, s, start, goal, i, j);
    }
    forall other | IsRoute(r, other)
      ensures (RoutePointsAreValid(r, other); s.score[goal] <= TerrainCost(Entered(r, other)))
    {
      RoutePointsAreValid(r, other);
      RouteCostCounts(r, other);
      RouteIsWalk(r, other);
      RouteCostIsWalkCost(r, other);
      B.BestIsOptimal(g, s, start, goal, OffsetsOf(r, other));
    }
  }

  /** A search that ran out of nodes without meeting the goal proves there is no route. */
  lemma ExhaustedMeansUnreachable(r: Request, s: B.Search)
    requires Usable(r) && Fits(r) && B.Consistent(GraphOf(r))
    requires B.Inv(GraphOf(r), s, Offset(r, r.start), r.width * r.height, 0) && B.Bounded(s, MOST_STEP)
    requires forall u: nat :: u < r.width * r.height && s.open[u] ==> B.INFINITE < s.score[u] + Estimate(r, u)
    requires !s.closed[Offset(r, r.goal)]
    ensures !Reachable(r)
  {
    var g := GraphOf(r);
    forall u: nat | u < g.count ensures !s.open[u] {
      if s.open[u] { FittingSearchNeverSaturates(r, s, Offset(r, r.start), u, u); }
    }
    forall route | IsRoute(r, route) ensures false {
      RoutePointsAreValid(r, route);
      RouteIsWalk(r, route);
      B.ExhaustedSearchClosedAll(g, s, Offset(r, r.start), OffsetsOf(r, route), MOST_STEP);
    }
  }

  lemma StayingPutIsCheapest(r: Request)
    requires Usable(r) && r.start == r.goal
    ensures IsCheapestRoute(r, [r.start] + [], 0)
  {
    GraphIsConsistent(r);
    assert [r.start] + [] == [r.start];
    assert Entered(r, [r.start]) == [];
    forall other | IsRoute(r, other) ensures (RoutePointsAreValid(r, other); 0 <= TerrainCost(Entered(r, other))) {
      RoutePointsAreValid(r, other);
      RouteIsWalk(r, other);
      RouteCostIsWalkCost(r, other);
      B.WalkCostIsNonNegative(GraphOf(r), Offset(r, r.start), OffsetsOf(r, other));
    }
  }

  // ---- Better units ------------------------------------------------------------------------

  /** Every route of a unit is a route of one of no worse mobility, at the same cost. */
  lemma {:induction false} BetterUnitsKeepRoutes(r: Request, other: Mobility, route: seq<Point>)
    requires Usable(r) && IsRoute(r, route) && NoWorse(other, r.mobility)
    ensures var better := r.(mobility := other);
            && Usable(better) && IsRoute(better, route)
            && (RoutePointsAreValid(r, route); RoutePointsAreValid(better, route);
                RouteCost(better, route) == RouteCost(r, route))
  {
    var better := r.(mobility := other);
    RoutePointsAreValid(r, route);
    forall i, j | 0 <= i < j < |route| && j == i + 1 ensures LegalStep(better, route[i], route[j]) {
      BetterUnitsStepAlike(r, other, route[i], route[j]);
    }
    SameStepsSameCost(r, better, route);
  }

  lemma BetterUnitsStepAlike(r: Request, other: Mobility, p: Point, q: Point)
    requires Usable(r) && LegalStep(r, p, q) && NoWorse(other, r.mobility)
    ensures var better := r.(mobility := other);
            LegalStep(better, p, q) && Step(better, p, q) == Step(r, p, q)
  {
    var step := StepRequest(r.mobility, r.waterproof, HexAt(r, p), HexAt(r, q));
    CapableUnitsGoFurther(step, other);
    CostIsOfTheHexEntered(step, step.(mobility := other));
  }

  lemma {:induction false} SameStepsSameCost(r: Request, better: Request, route: seq<Point>)
    requires Usable(r) && better == r.(mobility := better.mobility) && NoWorse(better.mobility, r.mobility)
    requires forall i :: 0 <= i < |route| ==> PointIsValid(r, route[i]) && PointIsValid(better, route[i])
    requires forall i, j :: 0 <= i < j < |route| && j == i + 1 ==> LegalStep(r, route[i], route[j])
    ensures RouteCost(better, route) == RouteCost(r, route)
  {
    if |route| > 1 {
      SameStepsSameCost(r, better, route[..|route| - 1]);
      BetterUnitsStepAlike(r, better.mobility, route[|route| - 2], route[|route| - 1]);
    }
  }

  /** So a unit of no worse mobility reaches whatever the other does, and a cheapest route of its own
      costs no more. */
  lemma BetterUnitsPayNoMore(r: Request, other: Mobility, route: seq<Point>, cost: int, own: seq<Point>, ownCost: int)
    requires Usable(r) && NoWorse(other, r.mobility) && IsCheapestRoute(r, route, cost)
    ensures var better := r.(mobility := other);
            Reachable(better) && (IsCheapestRoute(better, own, ownCost) ==> ownCost <= cost)
  {
    BetterUnitsKeepRoutes(r, other, route);
    RoutePointsAreValid(r, route);
    assert Entered(r.(mobility := other), route) == Entered(r, route);
  }

  /** The work arrays, the loop and the backtrack of a search between two different points. */
  method FindBetween(r: Request, pointsAvailable: bool) returns (result: PathResult)
    requires Usable(r) && r.start != r.goal
    ensures !result.status.Invalid?
    ensures result.status.Found? ==> pointsAvailable
    ensures result.status.NoMemory? ==> Reachable(r) && !pointsAvailable
    ensures !result.status.Found? ==> result.points == [] && result.totalCost == 0
    ensures result.status.Found? ==> IsCheapestRoute(r, [r.start] + result.points, result.totalCost)
    ensures Fits(r) && result.status.Unreachable? ==> !Reachable(r)
  {
    hide IsCheapestRoute, Reachable, Fits;
    var start, goal := Offset(r, r.start), Offset(r, r.goal);
    PointOfOffset(r, r.start);
    PointOfOffset(r, r.goal);
    var count := r.width * r.height;
    var scores := new int[count](i => B.INFINITE);
    var parents := new int[count](i => B.NONE);
    var open := new bool[count](i => false);
    var closed := new bool[count](i => false);
    scores[start] := 0;
    open[start] := true;
    assert Snapshot(scores, parents, open, closed) == B.Initial(GraphOf(r), start);
    var reached := Run(r, start, goal, scores, parents, open, closed);
    ghost var s := Snapshot(scores, parents, open, closed);
    assert B.ParentOk(GraphOf(r), s, start, goal);
    if parents[goal] == B.NONE {
      if Fits(r) { ExhaustedMeansUnreachable(r, s); }
      return PathResult(Unreachable, [], 0);
    }
    result := Rebuild(r, start, goal, parents, scores[goal], pointsAvailable, s);
  }

  method Rebuild(r: Request, start: nat, goal: nat, parents: array<int>, score: int, pointsAvailable: bool,
                 ghost s: B.Search)
      returns (result: PathResult)
    requires Usable(r) && r.start != r.goal && start == Offset(r, r.start) && goal == Offset(r, r.goal)
    requires B.Consistent(GraphOf(r)) && B.Inv(GraphOf(r), s, start, r.width * r.height, 0)
    requires B.IsBest(GraphOf(r), s, goal) && parents[..] == s.parent && score == s.score[goal]
    ensures result.status == (if pointsAvailable then Found else NoMemory) && Reachable(r)
    ensures !pointsAvailable ==> result.points == [] && result.totalCost == 0
    ensures pointsAvailable ==> IsCheapestRoute(r, [r.start] + result.points, result.totalCost)
  {
    ghost var g := GraphOf(r);
    TrailIsCheapestRoute(r, s, TrailPoints(r, B.Trail(g, s, start, goal)));
    var length := TrailLength(parents, start, goal, g, s);
    if !pointsAvailable { return PathResult(NoMemory, [], 0); }
    TrailFollowsParents(g, s, start, goal);
    var points := FillPoints(r, parents, goal, length, B.Trail(g, s, start, goal));
    PointOfOffset(r, r.start);
    return PathResult(Found, points[..], score);
  }

  /** autopilot_path_find. A found path is always a cheapest simple route, excluding the start; on
      every map that fits the 32-bit range it is found exactly when a route exists. */
  method Find(request: Option<Request>, memory: Memory) returns (result: PathResult)
    requires request.Some? ==> BufferHolds(request.value)
    ensures result.status.Invalid? <==> !IsValid(request)
    ensures IsValid(request) <==> request.Some? && request.value.hexes.Some?
                                  && PointIsValid(request.value, request.value.start)
                                  && PointIsValid(request.value, request.value.goal)
    ensures !result.status.Found? ==> result.points == [] && result.totalCost == 0
    ensures IsValid(request) && result.status.Found? ==>
              IsCheapestRoute(request.value, [request.value.start] + result.points, result.totalCost)
    ensures IsValid(request) && Fits(request.value) && memory.arrays && memory.points ==>
              result.status == if Reachable(request.value) then Found else Unreachable
    ensures IsValid(request) && Fits(request.value) && result.status.Unreachable? ==>
              !Reachable(request.value)
    ensures IsValid(request) && request.value.start == request.value.goal ==> result.status.Found?
    ensures IsValid(request) && request.value.start != request.value.goal && memory.arrays && Fits(request.value) ==>
              (result.status.NoMemory? <==> Reachable(request.value) && !memory.points)
    ensures result.status.NoMemory? ==> !memory.arrays || !memory.points
    ensures IsValid(request) && request.value.start != request.value.goal && !memory.arrays ==>
              result.status.NoMemory?
    ensures IsValid(request) && request.value.start != request.value.goal && result.status.Found? ==> memory.points
  {
    if !IsValid(request) { return PathResult(Invalid, [], 0); }
    var r := request.value;
    if r.start == r.goal {
      StayingPutIsCheapest(r);
      return PathResult(Found, [], 0);
    }
    if !memory.arrays { return PathResult(NoMemory, [], 0); }
    result := FindBetween(r, memory.points);
  }
}
