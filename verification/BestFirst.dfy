/** A* without reopening over an abstract graph: the state kept by the path policy's loop, its
    steps as functions, and the proof that a consistent estimate makes every closed node optimal. */
module BestFirst {
  import opened CArithmetic
  import opened HexGrid

  /** INT_MAX, which doubles as "no score yet". */
  const INFINITE: int := INT_MAX

  /** What SIZE_MAX means in the parent array. */
  const NONE: int := -1

  /** `next(u, d)` is the node in direction d of u, or NONE off the grid. */
  datatype Graph = Graph(
    count: nat,
    next: (nat, nat) -> int,
    passable: (nat, nat) -> bool,
    cost: (nat, nat) -> int,
    estimate: nat -> int)

  ghost predicate NextInRange(g: Graph) {
    forall u: nat, d: nat :: u < g.count && d < DIRECTIONS ==> NONE <= g.next(u, d) < g.count
  }

  /** The estimate is consistent: it never falls by more than a step costs. */
  ghost predicate Consistent(g: Graph) {
    && NextInRange(g)
    && (forall u: nat, v: nat :: u < g.count && v < g.count && Linked(g, u, v) ==>
          1 <= g.cost(u, v) && g.estimate(u) <= g.cost(u, v) + g.estimate(v))
    && (forall u: nat :: u < g.count ==> 0 <= g.estimate(u))
  }

  ghost predicate Linked(g: Graph, u: nat, v: nat) {
    exists d: nat :: d < DIRECTIONS && g.next(u, d) == v && g.passable(u, v)
  }

  // ---- Walks -------------------------------------------------------------------------------

  ghost predicate IsWalk(g: Graph, start: nat, walk: seq<nat>) {
    && |walk| > 0 && walk[0] == start
    && (forall i :: 0 <= i < |walk| ==> walk[i] < g.count)
    && (forall i, j :: 0 <= i < j < |walk| && j == i + 1 ==> Linked(g, walk[i], walk[j]))
  }

  function WalkCost(g: Graph, walk: seq<nat>): int {
    if |walk| <= 1 then 0
    else WalkCost(g, walk[..|walk| - 1]) + g.cost(walk[|walk| - 2], walk[|walk| - 1])
  }

  ghost predicate WalkTo(g: Graph, start: nat, goal: nat, walk: seq<nat>) {
    IsWalk(g, start, walk) && walk[|walk| - 1] == goal
  }

  lemma {:induction false} WalkCostIsNonNegative(g: Graph, start: nat, walk: seq<nat>)
    requires Consistent(g) && IsWalk(g, start, walk)
    ensures 0 <= WalkCost(g, walk)
  {
    if |walk| > 1 {
      WalkCostIsNonNegative(g, start, walk[..|walk| - 1]);
    }
  }

  // ---- Search state and its steps ----------------------------------------------------------

  datatype Search = Search(score: seq<int>, parent: seq<int>, open: seq<bool>, closed: seq<bool>)

  predicate Sized(g: Graph, s: Search) {
    |s.score| == |s.parent| == |s.open| == |s.closed| == g.count
  }

  function Initial(g: Graph, start: nat): Search
    requires start < g.count
  {
    Search(
      seq(g.count, i => if i == start then 0 else INFINITE),
      seq(g.count, i => NONE),
      seq(g.count, i => i == start),
      seq(g.count, i => false))
  }

  function Priority(g: Graph, s: Search, u: nat): int
    requires u < |s.score|
  {
    s.score[u] + g.estimate(u)
  }

  function Close(s: Search, u: nat): Search
    requires u < |s.open| && u < |s.closed|
  {
    s.(open := s.open[u := false], closed := s.closed[u := true])
  }

  /** One direction of the expansion loop for the node u. */
  function Relax(g: Graph, s: Search, u: nat, d: nat): (r: Search)
    requires Sized(g, s) && u < g.count && NONE <= g.next(u, d) < g.count
    ensures Sized(g, r)
  {
    if g.next(u, d) == NONE then s
    else
      var v := g.next(u, d);
      if s.closed[v] || !g.passable(u, v) || s.score[u] > INFINITE - g.cost(u, v) then s
      else if s.score[u] + g.cost(u, v) < s.score[v] then
        s.(score := s.score[v := s.score[u] + g.cost(u, v)],
           parent := s.parent[v := u],
           open := s.open[v := true])
      else s
  }

  /** A step into an open-ended neighbour is taken up exactly when it can be made, its score fits an int
      and it is the cheaper of two; nothing else changes. */
  lemma RelaxTakesTheCheaper(g: Graph, s: Search, u: nat, d: nat)
    requires Sized(g, s) && u < g.count && 0 <= g.next(u, d) < g.count
    ensures var v := g.next(u, d);
            var r, offer := Relax(g, s, u, d), s.score[u] + g.cost(u, v);
            if !s.closed[v] && g.passable(u, v) && offer <= INFINITE && offer < s.score[v] then
              && r.score[v] == offer && r.parent[v] == u && r.open[v] && r.closed == s.closed
              && forall k :: 0 <= k < g.count && k != v ==>
                   r.score[k] == s.score[k] && r.parent[k] == s.parent[k] && r.open[k] == s.open[k]
            else r == s
  {
  }

  /** u's estimate is least among the open nodes. */
  predicate IsBest(g: Graph, s: Search, u: nat)
    requires Sized(g, s)
  {
    u < g.count && s.open[u] &&
    forall o: nat :: o < g.count && s.open[o] ==> Priority(g, s, u) <= Priority(g, s, o)
  }

  // ---- The invariant -----------------------------------------------------------------------

  /** Node v of direction d has been offered the route through u. */
  ghost predicate Offered(g: Graph, s: Search, u: nat, d: nat)
    requires Sized(g, s) && u < g.count
  {
    var v := g.next(u, d);
    0 <= v < g.count && g.passable(u, v) ==>
      s.score[v] <= s.score[u] + g.cost(u, v) || INFINITE <= s.score[u] + g.cost(u, v)
  }

  ghost predicate ParentOk(g: Graph, s: Search, start: nat, n: nat)
    requires Sized(g, s) && n < g.count
  {
    var p := s.parent[n];
    if n == start || s.score[n] == INFINITE then p == NONE
    else
      && 0 <= p < g.count && s.closed[p] && Linked(g, p, n)
      && s.score[n] == s.score[p] + g.cost(p, n)
  }

  /** The loop invariant; `busy` is the node being expanded, of which `upto` directions are done
      (no node is busy when it equals g.count). */
  ghost predicate Inv(g: Graph, s: Search, start: nat, busy: nat, upto: nat) {
    && Sized(g, s) && start < g.count && s.score[start] == 0
    && (forall n: nat :: n < g.count ==> 0 <= s.score[n] <= INFINITE)
    && (forall n: nat :: n < g.count ==> (s.open[n] <==> s.score[n] < INFINITE && !s.closed[n]))
    && (forall n: nat :: n < g.count && s.closed[n] ==> s.score[n] < INFINITE)
    && (forall n: nat :: n < g.count ==> ParentOk(g, s, start, n))
    && (forall c: nat, o: nat :: c < g.count && o < g.count && s.closed[c] && s.open[o] ==>
          Priority(g, s, c) <= Priority(g, s, o))
    && (forall u: nat, d: nat ::
          u < g.count && d < DIRECTIONS && s.closed[u] && (u != busy || d < upto) ==> Offered(g, s, u, d))
  }

  lemma InitialInv(g: Graph, start: nat)
    requires start < g.count
    ensures Inv(g, Initial(g, start), start, g.count, 0)
  {
  }

  /** Moving the best open node to the closed set. No direction of it has been processed yet. */
  lemma CloseKeepsInv(g: Graph, s: Search, start: nat, u: nat)
    requires Consistent(g) && Inv(g, s, start, g.count, 0) && IsBest(g, s, u)
    ensures Inv(g, Close(s, u), start, u, 0)
  {
    var t := Close(s, u);
    forall n: nat | n < g.count ensures ParentOk(g, t, start, n) {
      assert ParentOk(g, s, start, n);
    }
    forall v: nat, d: nat | v < g.count && d < DIRECTIONS && t.closed[v] && (v != u || d < 0)
      ensures Offered(g, t, v, d)
    {
      assert Offered(g, s, v, d);
    }
  }

  /** A node that is already closed needs no offer: its priority was no larger. */
  lemma ClosedNeedsNoOffer(g: Graph, s: Search, start: nat, u: nat, d: nat)
    requires Consistent(g) && Sized(g, s) && u < g.count && d < DIRECTIONS
    requires forall c: nat :: c < g.count && s.closed[c] ==> Priority(g, s, c) <= Priority(g, s, u)
    requires 0 <= g.next(u, d) && s.closed[g.next(u, d)]
    ensures Offered(g, s, u, d)
  {
    var v := g.next(u, d);
    if g.passable(u, v) {
      assert Linked(g, u, v);
      assert Priority(g, s, v) <= Priority(g, s, u);
    }
  }

  /** u has the greatest priority of all closed nodes, which holds while u is being expanded. */
  ghost predicate Frontier(g: Graph, s: Search, u: nat)
    requires Sized(g, s)
  {
    u < g.count && s.closed[u] &&
    forall c: nat :: c < g.count && s.closed[c] ==> Priority(g, s, c) <= Priority(g, s, u)
  }

  lemma RelaxKeepsInv(g: Graph, s: Search, start: nat, u: nat, d: nat)
    requires Consistent(g) && u < g.count && d < DIRECTIONS
    requires Inv(g, s, start, u, d) && Frontier(g, s, u)
    ensures Inv(g, Relax(g, s, u, d), start, u, d + 1) && Frontier(g, Relax(g, s, u, d), u)
    ensures Relax(g, s, u, d).closed == s.closed
  {
    var t := Relax(g, s, u, d);
    var v := g.next(u, d);
    if v != NONE && s.closed[v] {
      ClosedNeedsNoOffer(g, s, start, u, d);
    }
    if t != s {
      assert Linked(g, u, v);
      assert v != u && v != start;
      RelaxKeepsParents(g, s, start, u, d);
      forall w: nat, e: nat | w < g.count && e < DIRECTIONS && t.closed[w] && (w != u || e < d + 1)
        ensures Offered(g, t, w, e)
      {
        if w != u || e < d { assert Offered(g, s, w, e); }
      }
      forall c: nat, o: nat | c < g.count && o < g.count && t.closed[c] && t.open[o]
        ensures Priority(g, t, c) <= Priority(g, t, o)
      {
        assert Priority(g, s, c) <= Priority(g, s, u);
      }
    } else {
      assert Offered(g, s, u, d);
    }
  }

  lemma RelaxKeepsParents(g: Graph, s: Search, start: nat, u: nat, d: nat)
    requires Consistent(g) && u < g.count && d < DIRECTIONS
    requires Inv(g, s, start, u, d) && s.closed[u]
    ensures forall n: nat :: n < g.count ==> ParentOk(g, Relax(g, s, u, d), start, n)
  {
    var t := Relax(g, s, u, d);
    if t != s {
      var v := g.next(u, d);
      assert Linked(g, u, v);
      assert v != start;
      forall n: nat | n < g.count ensures ParentOk(g, t, start, n) {
        assert ParentOk(g, s, start, n);
      }
    }
  }

  // ---- Optimality --------------------------------------------------------------------------

  /** Along any walk from the start the search is never ahead: either the walk is closed up to its
      last node, which then scores no more than the walk costs, or an open node o lies on the walk
      whose priority is at most the walk's cost plus the estimate at its end. */
  lemma {:induction false} WalkIsDominated(g: Graph, s: Search, start: nat, walk: seq<nat>)
      returns (o: nat)
    requires Consistent(g) && Inv(g, s, start, g.count, 0)
    requires IsWalk(g, start, walk) && WalkCost(g, walk) < INFINITE
    ensures o < g.count
    ensures var last := walk[|walk| - 1];
            || (s.score[last] <= WalkCost(g, walk) && o == last)
            || (s.open[o] && Priority(g, s, o) <= WalkCost(g, walk) + g.estimate(last))
  {
    var last := walk[|walk| - 1];
    if |walk| == 1 {
      return last;
    }
    var before := walk[..|walk| - 1];
    var u := before[|before| - 1];
    assert Linked(g, u, last);
    o := WalkIsDominated(g, s, start, before);
    if s.score[u] <= WalkCost(g, before) {
      if s.closed[u] {
        var d: nat :| d < DIRECTIONS && g.next(u, d) == last && g.passable(u, last);
        assert Offered(g, s, u, d);
        return last;
      }
      return u;
    }
  }

  /** The priority of a node bounds every walk to it, for the best open node and every closed one. */
  lemma BestIsOptimal(g: Graph, s: Search, start: nat, u: nat, walk: seq<nat>)
    requires Consistent(g) && Inv(g, s, start, g.count, 0)
    requires u < g.count && (s.closed[u] || IsBest(g, s, u))
    requires WalkTo(g, start, u, walk)
    ensures s.score[u] <= WalkCost(g, walk)
  {
    if WalkCost(g, walk) < INFINITE {
      var o := WalkIsDominated(g, s, start, walk);
      assert s.open[o] ==> Priority(g, s, u) <= Priority(g, s, o);
    }
  }

  // ---- The range of the scores -------------------------------------------------------------

  function Count(flags: seq<bool>): (n: nat)
    ensures n <= |flags|
  {
    if flags == [] then 0
    else Count(flags[..|flags| - 1]) + if flags[|flags| - 1] then 1 else 0
  }

  lemma {:induction false} CountAfterSet(flags: seq<bool>, i: nat)
    requires i < |flags| && !flags[i]
    ensures Count(flags[i := true]) == Count(flags) + 1
  {
    var last := |flags| - 1;
    if i < last {
      assert flags[i := true][..last] == flags[..last][i := true];
      CountAfterSet(flags[..last], i);
    } else {
      assert flags[i := true][..last] == flags[..last];
    }
  }

  /** Every score so far is at most `step` times the number of closed nodes. */
  ghost predicate Bounded(s: Search, step: nat) {
    forall n :: 0 <= n < |s.score| && s.score[n] < INFINITE ==> s.score[n] <= step * Count(s.closed)
  }

  // ---- Expanding a node --------------------------------------------------------------------

  /** The search after closing u and offering it in its first `upto` directions. */
  function Expanded(g: Graph, s: Search, u: nat, upto: nat): (r: Search)
    requires Sized(g, s) && u < g.count && upto <= DIRECTIONS
    requires forall d: nat :: d < DIRECTIONS ==> NONE <= g.next(u, d) < g.count
    ensures Sized(g, r)
  {
    if upto == 0 then Close(s, u) else Relax(g, Expanded(g, s, u, upto - 1), u, upto - 1)
  }

  /** What holds after u has been closed and offered in `upto` directions. */
  ghost predicate Expanding(g: Graph, s: Search, start: nat, u: nat, upto: nat, t: Search) {
    && Sized(g, s) && u < g.count
    && Inv(g, t, start, u, upto) && Frontier(g, t, u) && t.closed == s.closed[u := true]
  }

  lemma CloseStartsExpanding(g: Graph, s: Search, start: nat, u: nat)
    requires Consistent(g) && Inv(g, s, start, g.count, 0) && IsBest(g, s, u)
    ensures Expanding(g, s, start, u, 0, Close(s, u))
  {
    CloseKeepsInv(g, s, start, u);
  }

  lemma RelaxContinuesExpanding(g: Graph, s: Search, start: nat, u: nat, upto: nat, e: Search)
    requires Consistent(g) && upto < DIRECTIONS && Expanding(g, s, start, u, upto, e)
    ensures Expanding(g, s, start, u, upto + 1, Relax(g, e, u, upto))
  {
    RelaxKeepsInv(g, e, start, u, upto);
  }

  lemma {:induction false} ExpandKeepsInv(g: Graph, s: Search, start: nat, u: nat, upto: nat)
    requires Consistent(g) && Inv(g, s, start, g.count, 0) && IsBest(g, s, u) && upto <= DIRECTIONS
    ensures Expanding(g, s, start, u, upto, Expanded(g, s, u, upto))
  {
    assert Sized(g, s) && NextInRange(g);
    hide Inv, Frontier, Relax, Close, Consistent, IsBest, Expanding, Sized;
    if upto == 0 {
      CloseStartsExpanding(g, s, start, u);
    } else {
      ExpandKeepsInv(g, s, start, u, upto - 1);
      RelaxContinuesExpanding(g, s, start, u, upto - 1, Expanded(g, s, u, upto - 1));
    }
  }

  /** One round of the search loop keeps the invariant and closes exactly one more node. */
  lemma RoundKeepsInv(g: Graph, s: Search, start: nat, u: nat)
    requires Consistent(g) && Inv(g, s, start, g.count, 0) && IsBest(g, s, u)
    ensures Inv(g, Expanded(g, s, u, DIRECTIONS), start, g.count, 0)
    ensures Expanded(g, s, u, DIRECTIONS).closed == s.closed[u := true]
    ensures Count(s.closed[u := true]) == Count(s.closed) + 1
  {
    ExpandKeepsInv(g, s, start, u, DIRECTIONS);
    var t := Expanded(g, s, u, DIRECTIONS);
    CountAfterSet(s.closed, u);
    forall v: nat, d: nat | v < g.count && d < DIRECTIONS && t.closed[v] ensures Offered(g, t, v, d) {
    }
  }

  /** u's score leaves room for one more step under the bound of its search. */
  ghost predicate Roomy(s: Search, u: nat, step: nat) {
    Bounded(s, step) && u < |s.score| && s.score[u] + step <= step * Count(s.closed)
  }

  lemma RelaxKeepsRoom(g: Graph, s: Search, u: nat, d: nat, step: nat)
    requires Sized(g, s) && u < g.count && NONE <= g.next(u, d) < g.count && s.closed[u]
    requires Roomy(s, u, step)
    requires forall v: nat :: v < g.count && g.passable(u, v) ==> g.cost(u, v) <= step
    ensures Roomy(Relax(g, s, u, d), u, step) && Relax(g, s, u, d).closed == s.closed
  {
  }

  lemma {:induction false} RoundKeepsBound(g: Graph, s: Search, u: nat, upto: nat, step: nat)
    requires Sized(g, s) && u < g.count && upto <= DIRECTIONS
    requires forall d: nat :: d < DIRECTIONS ==> NONE <= g.next(u, d) < g.count
    requires forall v: nat :: v < g.count && g.passable(u, v) ==> g.cost(u, v) <= step
    requires s.score[u] < INFINITE && !s.closed[u] && Bounded(s, step)
    ensures var t := Expanded(g, s, u, upto);
            Roomy(t, u, step) && t.closed == s.closed[u := true]
  {
    CountAfterSet(s.closed, u);
    if upto == 0 {
      assert step * (Count(s.closed) + 1) == step * Count(s.closed) + step;
    } else {
      RoundKeepsBound(g, s, u, upto - 1, step);
      var e := Expanded(g, s, u, upto - 1);
      RelaxKeepsRoom(g, e, u, upto - 1, step);
      assert Expanded(g, s, u, upto) == Relax(g, e, u, upto - 1);
    }
  }

  lemma NextMultiple(step: nat, n: nat, count: nat)
    requires n < count
    ensures step * n + step <= step * count
  {
    assert step * n + step == step * (n + 1) <= step * count;
  }

  /** The state of the search at the head of its loop. */
  ghost predicate Searching(g: Graph, s: Search, start: nat, step: nat) {
    Inv(g, s, start, g.count, 0) && Bounded(s, step)
  }

  lemma RoundKeepsSearching(g: Graph, s: Search, start: nat, u: nat, step: nat)
    requires Consistent(g) && Searching(g, s, start, step) && IsBest(g, s, u)
    requires forall v: nat :: v < g.count && g.passable(u, v) ==> g.cost(u, v) <= step
    ensures Searching(g, Expanded(g, s, u, DIRECTIONS), start, step)
    ensures Expanded(g, s, u, DIRECTIONS).closed == s.closed[u := true]
    ensures Count(s.closed[u := true]) == Count(s.closed) + 1
  {
    RoundKeepsInv(g, s, start, u);
    RoundKeepsBound(g, s, u, DIRECTIONS, step);
  }

  /** With nothing left open, and room for one more step below INFINITE, the closed nodes are
      closed under links, so every node any walk reaches has been closed. */
  lemma ExhaustedSearchIsClosedUnderLinks(g: Graph, s: Search, start: nat, u: nat, v: nat, step: nat)
    requires Inv(g, s, start, g.count, 0) && Bounded(s, step)
    requires forall n: nat :: n < g.count ==> !s.open[n]
    requires u < g.count && v < g.count && Linked(g, u, v) && s.closed[u]
    requires g.cost(u, v) <= step && step * g.count < INFINITE
    ensures s.closed[v]
  {
    var d: nat :| d < DIRECTIONS && g.next(u, d) == v && g.passable(u, v);
    assert Offered(g, s, u, d);
    if !s.closed[v] {
      CountAfterSet(s.closed, v);
      NextMultiple(step, Count(s.closed), g.count);
    }
  }

  lemma {:induction false} ExhaustedSearchClosedAll(g: Graph, s: Search, start: nat, walk: seq<nat>, step: nat)
    requires Inv(g, s, start, g.count, 0) && Bounded(s, step)
    requires forall n: nat :: n < g.count ==> !s.open[n]
    requires forall u: nat, v: nat :: u < g.count && v < g.count && g.passable(u, v) ==> g.cost(u, v) <= step
    requires step * g.count < INFINITE
    requires IsWalk(g, start, walk)
    ensures s.closed[walk[|walk| - 1]]
  {
    if |walk| > 1 {
      var u, v := walk[|walk| - 2], walk[|walk| - 1];
      ExhaustedSearchClosedAll(g, s, start, walk[..|walk| - 1], step);
      ExhaustedSearchIsClosedUnderLinks(g, s, start, u, v, step);
    }
  }

  // ---- The parent trail --------------------------------------------------------------------

  /** What the backtrack needs of the parent array. */
  ghost predicate Rooted(g: Graph, s: Search, start: nat) {
    && Consistent(g) && Sized(g, s) && start < g.count && s.score[start] == 0
    && (forall n: nat :: n < g.count ==> 0 <= s.score[n] <= INFINITE && ParentOk(g, s, start, n))
    && (forall n: nat :: n < g.count && s.closed[n] ==> s.score[n] < INFINITE)
  }

  /** The nodes from the start to n along the parents; scores fall towards the start. */
  ghost function Trail(g: Graph, s: Search, start: nat, n: nat): (t: seq<nat>)
    requires Rooted(g, s, start) && n < g.count && s.score[n] < INFINITE
    ensures |t| > 0 && t[|t| - 1] == n
    decreases s.score[n]
  {
    if n == start then [n]
    else
      assert ParentOk(g, s, start, n);
      Trail(g, s, start, s.parent[n]) + [n]
  }

  lemma {:induction false} TrailIsCheapestWitness(g: Graph, s: Search, start: nat, n: nat)
    requires Rooted(g, s, start) && n < g.count && s.score[n] < INFINITE
    ensures WalkTo(g, start, n, Trail(g, s, start, n))
    ensures WalkCost(g, Trail(g, s, start, n)) == s.score[n]
    decreases s.score[n]
  {
    if n != start {
      assert ParentOk(g, s, start, n);
      var p := s.parent[n];
      var t, before := Trail(g, s, start, n), Trail(g, s, start, p);
      TrailIsCheapestWitness(g, s, start, p);
      assert t[..|t| - 1] == before;
      forall i, j | 0 <= i < j < |t| && j == i + 1 ensures Linked(g, t[i], t[j]) {
        if j < |before| { assert Linked(g, before[i], before[j]); }
      }
    }
  }

  /** Scores strictly rise along a trail, so it never repeats a node. */
  lemma {:induction false} TrailScoresRise(g: Graph, s: Search, start: nat, n: nat, i: nat, j: nat)
    requires Rooted(g, s, start) && n < g.count && s.score[n] < INFINITE
    requires i < j < |Trail(g, s, start, n)|
    ensures var t := Trail(g, s, start, n);
            t[i] < g.count && t[j] < g.count && s.score[t[i]] < s.score[t[j]] <= s.score[n]
    decreases s.score[n]
  {
    assert ParentOk(g, s, start, n);
    var p := s.parent[n];
    var before := Trail(g, s, start, p);
    assert Trail(g, s, start, n) == before + [n];
    if j < |before| {
      TrailScoresRise(g, s, start, p, i, j);
    } else if i < |before| - 1 {
      TrailScoresRise(g, s, start, p, i, |before| - 1);
    }
  }

  /** Position i of a trail carries the trail of its node, and its predecessor is its parent. */
  lemma {:induction false} TrailPrefix(g: Graph, s: Search, start: nat, n: nat, i: nat)
    requires Rooted(g, s, start) && n < g.count && s.score[n] < INFINITE
    requires i < |Trail(g, s, start, n)|
    ensures var t := Trail(g, s, start, n);
            && t[i] < g.count && s.score[t[i]] < INFINITE && Trail(g, s, start, t[i]) == t[..i + 1]
            && (t[i] == start <==> i == 0) && (i > 0 ==> s.parent[t[i]] == t[i - 1])
    decreases s.score[n]
  {
    var t := Trail(g, s, start, n);
    if n != start {
      assert ParentOk(g, s, start, n);
      var p := s.parent[n];
      var before := Trail(g, s, start, p);
      assert t == before + [n];
      if i == |t| - 1 {
        assert t[..i + 1] == t;
      } else {
        TrailPrefix(g, s, start, p, i);
        assert t[..i + 1] == before[..i + 1];
      }
    }
  }
}
