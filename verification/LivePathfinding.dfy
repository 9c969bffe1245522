/** The live A* of the autopilot, updating its trees, bits and nodes in place. Nodes live in a store
    indexed by address; freeing one removes it, so nothing can be freed twice. */
module LivePathfinding {
  import opened Collections
  import opened HexBits
  import opened HexGrid
  import opened StepRules
  import opened LiveLists

  ghost predicate Injective(tree: map<int, Address>) {
    forall k, j :: k in tree && j in tree && tree[k] == tree[j] ==> k == j
  }

  ghost predicate Holds(tree: map<int, Address>, a: Address) {
    exists k :: k in tree && tree[k] == a
  }

  class LiveSearch {
    var nodes: map<Address, Node>
    var nextAddress: Address
    var byScore: map<int, Address>
    var byXy: map<int, Address>
    var openBits: HexBitSet
    var closed: map<int, Address>
    var closedBits: HexBitSet
    var path: seq<Address>
    /** The closed keys, in the order the search closed them. */
    ghost var order: seq<int>

    constructor ()
      ensures Resting() && ListsEmpty() && path == []
    {
      nodes, nextAddress, path, order := map[], 0, [], [];
      byScore, byXy, closed := map[], map[], map[];
      openBits := new HexBitSet();
      closedBits := new HexBitSet();
    }

    /** The two bit arrays are two, and as large as the grid. */
    ghost predicate BitsOk()
      reads this
    {
      openBits.Valid() && closedBits.Valid() && openBits.bytes != closedBits.bytes
    }

    ghost function View(): Lists
      reads this, openBits.bytes, closedBits.bytes
    {
      Lists(nodes, byScore, byXy, openBits.View(), closed, closedBits.View())
    }

    predicate AddressesBounded()
      reads this
    {
      forall a :: a in nodes ==> a < nextAddress
    }

    /** Between searches exactly the nodes of the stored path are allocated, each listed once. */
    ghost predicate Resting()
      reads this
    {
      && AddressesBounded()
      && (forall a :: a in nodes <==> a in path)
      && (forall i, j :: 0 <= i < j < |path| ==> path[i] != path[j])
    }

    // ---- Allocation ------------------------------------------------------------------------

    method Allocate(node: Node) returns (a: Address)
      requires AddressesBounded()
      modifies this`nodes, this`nextAddress
      ensures AddressesBounded() && a == old(nextAddress) && a !in old(nodes) && nodes == old(nodes)[a := node]
    {
      a := nextAddress;
      nodes := nodes[a := node];
      nextAddress := nextAddress + 1;
    }

    method Free(a: Address)
      requires a in nodes
      modifies this`nodes
      ensures nodes == old(nodes) - {a}
    {
      nodes := nodes - {a};
    }

    /** Frees every node a tree holds, each once. */
    method ReleaseTree(tree: map<int, Address>)
      requires forall k :: k in tree ==> tree[k] in nodes
      requires Injective(tree)
      modifies this`nodes
      ensures forall a :: a in nodes <==> a in old(nodes) && !Holds(tree, a)
      ensures forall a :: a in nodes ==> nodes[a] == old(nodes)[a]
    {
      var rest := tree;
      while rest != map[]
        invariant forall k :: k in rest ==> k in tree && rest[k] == tree[k] && rest[k] in nodes
        invariant forall a :: a in nodes <==> a in old(nodes) && (Holds(tree, a) ==> Holds(rest, a))
        invariant forall a :: a in nodes ==> nodes[a] == old(nodes)[a]
        decreases rest.Keys
      {
        ghost var any := Member(rest.Keys);
        var k :| k in rest;
        ghost var before := rest;
        Free(rest[k]);
        rest := rest - {k};
        forall a | Holds(before, a) && a != tree[k] ensures Holds(rest, a) {
          var j :| j in before && before[j] == a;
          assert j in rest && rest[j] == a;
        }
        assert Holds(tree, tree[k]) && !Holds(rest, tree[k]);
      }
    }

    /** auto_destroy_astar_path: frees the nodes of the stored path from the front. */
    method DestroyPath()
      requires Resting()
      modifies this`nodes, this`path
      ensures Resting() && path == [] && nodes == map[]
    {
      while |path| > 0
        invariant Resting()
        decreases |path|
      {
        var a := path[0];
        path := path[1..];
        Free(a);
      }
      assert nodes.Keys == {};
    }

    // ---- The open list ---------------------------------------------------------------------

    method DetachOpen(a: Address)
      requires BitsOk() && a in nodes && InGrid(nodes[a].hexoffset)
      modifies this`byScore, this`byXy, openBits.bytes
      ensures View() == Detach(old(View()), a)
    {
      hide Members;
      byScore := byScore - {nodes[a].f};
      byXy := byXy - {nodes[a].hexoffset};
      openBits.Set(nodes[a].hexoffset, false);
    }

    /** Bumps the score until it is unused, then files the node under it. */
    method InsertOpen(a: Address)
      requires BitsOk() && a in nodes && InGrid(nodes[a].hexoffset) && AddressesBounded()
      modifies this`nodes, this`byScore, this`byXy, openBits.bytes
      ensures View() == Insert(old(View()), a) && AddressesBounded()
    {
      hide Members;
      while nodes[a].f in byScore
        invariant a in nodes && nodes == old(nodes)[a := old(nodes)[a].(f := nodes[a].f)]
        invariant UnusedScore(byScore.Keys, nodes[a].f) == UnusedScore(byScore.Keys, old(nodes)[a].f)
        modifies this`nodes
        decreases AtOrAbove(byScore.Keys, nodes[a].f)
      {
        ghost var f := nodes[a].f;
        assert f in AtOrAbove(byScore.Keys, f) && AtOrAbove(byScore.Keys, f + 1) <= AtOrAbove(byScore.Keys, f);
        nodes := nodes[a := nodes[a].(f := nodes[a].f + 1)];
      }
      assert nodes[a].f == UnusedScore(byScore.Keys, old(nodes)[a].f);
      byScore := byScore[nodes[a].f := a];
      byXy := byXy[nodes[a].hexoffset := a];
      openBits.Set(nodes[a].hexoffset, true);
    }

    /** Takes the node of least score off the open list and closes it. */
    method CloseLowest() returns (a: Address)
      requires BitsOk() && Agrees(View(), {}) && byScore != map[]
      modifies this`byScore, this`byXy, openBits.bytes, this`closed, closedBits.bytes
      ensures Filed(old(View()), old(byXy), a) && forall k :: k in old(byScore) ==> nodes[a].f <= k
      ensures View() == CloseNode(old(View()), a)
    {
      hide Members;
      assert byScore.Keys != {};
      ghost var least := LeastOf(byScore.Keys);
      var score :| score in byScore && forall k :: k in byScore ==> score <= k;
      a := byScore[score];
      assert EntryOk(View(), score, {}) && EntryOk(View(), nodes[a].hexoffset, {});
      DetachOpen(a);
      closed := closed[nodes[a].hexoffset := a];
      closedBits.Set(nodes[a].hexoffset, true);
    }

    /** Re-adds an open node under a better path score. */
    method ImproveOpen(a: Address, g: int, parent: Point)
      requires BitsOk() && a in nodes && InGrid(nodes[a].hexoffset) && AddressesBounded()
      modifies this`nodes, this`byScore, this`byXy, openBits.bytes
      ensures View() == Improve(old(View()), a, g, parent) && AddressesBounded()
    {
      hide Members, Insert, UnusedScore;
      DetachOpen(a);
      nodes := nodes[a := nodes[a].(g := g, f := g + nodes[a].h, parent := parent)];
      InsertOpen(a);
    }

    /** Creates a node and adds it. */
    method AddOpen(node: Node)
      requires BitsOk() && InGrid(node.hexoffset) && AddressesBounded()
      modifies this`nodes, this`nextAddress, this`byScore, this`byXy, openBits.bytes
      ensures View() == Add(old(View()), old(nextAddress), node) && AddressesBounded()
    {
      hide Members, Insert, UnusedScore;
      var a := Allocate(node);
      InsertOpen(a);
    }

    /** One bearing out of the closed node `parent`. */
    method VisitBearing(w: World, parent: Address, d: nat)
      requires BitsOk() && WorldOk(w) && Agrees(View(), {}) && AddressesBounded() && parent in nodes && d < BEARINGS
      modifies this`nodes, this`nextAddress, this`byScore, this`byXy, openBits.bytes
      ensures View() == Visit(w, old(View()), parent, d, old(nextAddress)) && AddressesBounded()
    {
      hide Members;
      var here := nodes[parent];
      var q := w.project(here.pos, d);
      if !OnMap(w, q) { return; }
      var hexoffset := HexOffset(q);
      OpenBitsNameNodes(View(), hexoffset);
      hide Agrees, StepEvaluate, UnusedScore, Improve, Add;
      var isClosed := closedBits.IsSet(hexoffset);
      if isClosed { return; }
      var step := StepEvaluate(w.request(here.pos, q));
      if !step.traversable { return; }
      var childScore := step.cost + here.g;
      var isOpen := openBits.IsSet(hexoffset);
      if isOpen {
        if childScore >= nodes[byXy[hexoffset]].g { return; }
        ImproveOpen(byXy[hexoffset], childScore, here.pos);
      } else {
        AddOpen(NewNode(q, here.pos, childScore, w.heuristic(here.pos, d)));
      }
    }

    // ---- The search ------------------------------------------------------------------------

    ghost predicate ListsEmpty()
      reads this
    {
      byScore == map[] && byXy == map[] && closed == map[]
    }

    ghost predicate Looping(w: World, start: Point, first: Address)
      reads this, openBits.bytes, closedBits.bytes
    {
      && BitsOk() && WorldOk(w) && OnGrid(start) && AddressesBounded() && Agrees(View(), {})
      && (Parented(w, View(), start) || View() == StartLists(start, first))
      && ClosedInOrder(w, View(), start, order)
    }

    /** Closes open nodes by score until the end is closed or nothing is open. */
    method Search(w: World, start: Point, end: Point, ghost first: Address) returns (found: bool)
      requires BitsOk() && WorldOk(w) && OnGrid(start) && OnGrid(end) && AddressesBounded()
      requires View() == StartLists(start, first)
      modifies this`nodes, this`nextAddress, this`byScore, this`byXy, openBits.bytes, this`closed, closedBits.bytes
      modifies this`order
      ensures Kept(w, View(), start) && AddressesBounded() && ClosedInOrder(w, View(), start, order)
      ensures found <==> HexOffset(end) in closedBits.View()
      ensures !found ==> forall walk :: !IsWalk(w, start, end, walk)
    {
      StartListsAgree(start, first);
      NothingExplored(w, start, first);
      order := [];
      assert ClosedInOrder(w, View(), start, order);
      hide Members, Parented, Explored, StartLists, Agrees, GridKeys, CloseNode, WorldOk, ClosedInOrder;
      while true
        invariant Looping(w, start, first) && Explored(w, View(), -1, 0) && HexOffset(end) !in closedBits.View()
        decreases GridKeys() - closedBits.View()
      {
        if |byScore| == 0 {
          NothingOpen(w, View(), start, end, first);
          return false;
        }
        var parent := CloseNext(w, start, first);
        var endClosed := closedBits.IsSet(HexOffset(end));
        if endClosed { return true; }
        Expand(w, start, parent);
      }
    }

    /** The head of a round: the node of least score is closed, and none of its bearings visited yet.
        No node closed before it has a legal move that would undercut its path score. */
    method CloseNext(w: World, start: Point, ghost first: Address) returns (parent: Address)
      requires Looping(w, start, first) && Explored(w, View(), -1, 0) && byScore != map[]
      modifies this`byScore, this`byXy, openBits.bytes, this`closed, closedBits.bytes, this`order
      ensures Kept(w, View(), start) && Filed(View(), closed, parent)
      ensures forall k :: k in old(closed) && LegalMove(w, nodes[old(closed)[k]].pos, nodes[parent].pos) ==>
                nodes[parent].g <= nodes[old(closed)[k]].g + MoveCost(w, nodes[old(closed)[k]].pos, nodes[parent].pos)
      ensures order == old(order) + [nodes[parent].hexoffset] && ClosedInOrder(w, View(), start, order)
      ensures Explored(w, View(), nodes[parent].hexoffset, 0)
      ensures GridKeys() - closedBits.View() < GridKeys() - old(closedBits.View())
    {
      hide Members, Parented, Explored, StartLists, GridKeys, WorldOk;
      ghost var l := View();
      parent := CloseLowest();
      hide Agrees, CloseNode;
      StartIsFirst(l, start, first, parent);
      CloseFacts(l, parent);
      ClosingKeeps(w, l, start, parent);
      ClosingKeepsExplored(w, l, parent);
      ClosingTakesAKey(l, parent);
      ClosingKeepsOrder(w, l, start, parent, order);
      forall k | k in l.closed ensures l.closed[k] in l.nodes && NotUndercut(w, l.nodes[l.closed[k]], l.nodes[parent]) {
        OpenIsNotUndercut(w, l, parent, k);
      }
      order := order + [nodes[parent].hexoffset];
    }

    method Expand(w: World, start: Point, parent: Address)
      requires BitsOk() && Kept(w, View(), start) && AddressesBounded() && Filed(View(), closed, parent)
      requires Explored(w, View(), nodes[parent].hexoffset, 0) && ClosedInOrder(w, View(), start, order)
      modifies this`nodes, this`nextAddress, this`byScore, this`byXy, openBits.bytes
      ensures Kept(w, View(), start) && AddressesBounded() && Explored(w, View(), -1, 0)
      ensures ClosedInOrder(w, View(), start, order)
      ensures closed == old(closed) && closedBits.View() == old(closedBits.View())
    {
      hide Members, Parented, ParentOk, Explored, Visit, ClosedInOrder;
      ghost var off := nodes[parent].hexoffset;
      for bearing := 0 to BEARINGS
        invariant Kept(w, View(), start) && AddressesBounded() && Filed(View(), closed, parent)
        invariant nodes[parent].hexoffset == off && Explored(w, View(), off, bearing)
        invariant ClosedInOrder(w, View(), start, order)
      {
        ghost var l, spare := View(), nextAddress;
        VisitBearing(w, parent, bearing);
        VisitKeeps(w, l, start, parent, bearing, spare);
        VisitKeepsExplored(w, l, View(), off, bearing);
        VisitKeepsOrder(w, l, View(), start, order);
      }
      FullyExploredIsIdle(w, View(), off);
    }

    // ---- The backtrack and the cleanup -----------------------------------------------------

    /** Moves the nodes from the end back to the start's child out of the closed tree, onto the front
        of the path. Every parent lookup finds its node. */
    method Backtrack(w: World, start: Point, end: Point, ghost l: Lists)
      requires l == View() && Kept(w, l, start) && OnGrid(end) && HexOffset(end) in closedBits.View() && path == []
      modifies this`path, this`closed
      ensures PathTo(w, l, start, end, path)
      ensures forall k :: k in closed <==> k in l.closed && l.closed[k] !in path
      ensures forall k :: k in closed ==> closed[k] == l.closed[k]
    {
      assert EntryOk(l, HexOffset(end), {});
      var cursor := closed[HexOffset(end)];
      HexOffsetIsInjective(end, nodes[cursor].pos);
      EachNodeHasItsKey(l);
      path := [cursor];
      closed := closed - {nodes[cursor].hexoffset};
      if nodes[cursor].pos != start {
        while true
          invariant Tracking(l, start, end, path, closed) && cursor == path[0]
          decreases l.nodes[cursor].g
        {
          ParentIsWaiting(w, l, start, end, path, closed);
          var parentNode := closed[HexOffset(nodes[cursor].parent)];
          if nodes[parentNode].pos == start { break; }
          TakingTheParentKeepsTrack(l, start, end, path, closed, parentNode);
          path := [parentNode] + path;
          closed := closed - {nodes[parentNode].hexoffset};
          cursor := parentNode;
        }
      }
    }

    /** Frees every node still in the open or the closed tree. */
    method ReleaseTrees(ghost l: Lists)
      requires Agrees(l, {}) && nodes == l.nodes && byScore == l.byScore && AddressesBounded()
      requires forall k :: k in closed <==> k in l.closed && l.closed[k] !in path
      requires forall k :: k in closed ==> closed[k] == l.closed[k]
      requires forall i :: 0 <= i < |path| ==> Filed(l, l.closed, path[i])
      modifies this`nodes
      ensures AddressesBounded()
      ensures forall a :: a in nodes <==> a in path
      ensures forall a :: a in nodes ==> a in l.nodes && nodes[a] == l.nodes[a]
    {
      EachNodeHasItsKey(l);
      TreesPartitionTheNodes(l);
      assert Injective(byScore) && Injective(closed);
      assert forall k :: k in closed ==> closed[k] in nodes && !Holds(byScore, closed[k]);
      forall a ensures a in path <==> a in l.nodes && !Holds(byScore, a) && !Holds(closed, a) {
        WhatRemains(l, path, closed, a);
      }
      hide Agrees, EntryOk, KeyOk, Holds, Injective;
      ReleaseTree(byScore);
      ReleaseTree(closed);
    }

    /** The end of a search: what is not on the path is freed and the lists are dropped. */
    method Cleanup(ghost l: Lists)
      requires Agrees(l, {}) && nodes == l.nodes && byScore == l.byScore && AddressesBounded()
      requires forall k :: k in closed <==> k in l.closed && l.closed[k] !in path
      requires forall k :: k in closed ==> closed[k] == l.closed[k]
      requires forall i :: 0 <= i < |path| ==> Filed(l, l.closed, path[i])
      modifies this`nodes, this`byScore, this`byXy, openBits.bytes, this`closed, closedBits.bytes
      ensures ListsEmpty() && AddressesBounded() && path == old(path)
      ensures forall a :: a in nodes <==> a in path
      ensures forall i :: 0 <= i < |path| ==>
                path[i] in l.nodes && path[i] in nodes && l.nodes[path[i]] == nodes[path[i]]
    {
      hide Agrees;
      ReleaseTrees(l);
      byScore, byXy, closed := map[], map[], map[];
      assert forall i :: 0 <= i < |path| ==> path[i] in nodes;
    }

    /** auto_astar_generate_path. A path is stored exactly when the end can be reached; it lists the
        legal moves from the start to the end without repeating a hex and without a shortcut, and its
        last path score is the cost of those moves. Every node allocated on the way is freed or on the stored path. */
    method GeneratePath(w: World, start: Point, end: Point) returns (found: bool)
      requires WorldOk(w) && OnGrid(start) && OnGrid(end) && Resting() && ListsEmpty()
      modifies this
      ensures Resting() && ListsEmpty()
      ensures found <==> exists walk :: IsWalk(w, start, end, walk)
      ensures if found then PathStored(w, nodes, start, end, path) else path == []
    {
      openBits := new HexBitSet();
      closedBits := new HexBitSet();
      hide Members, IsWalk, PathStored, Agrees, WorldOk;
      DestroyPath();
      ghost var l;
      found, l := SearchAndStore(w, start, end);
      Cleanup(l);
      PathStaysStored(w, l.nodes, nodes, start, end, path);
    }

    /** The search and, when it closed the end, the backtrack; `l` is the lists between the two. */
    method SearchAndStore(w: World, start: Point, end: Point) returns (found: bool, ghost l: Lists)
      requires BitsOk() && WorldOk(w) && OnGrid(start) && OnGrid(end) && AddressesBounded()
      requires View() == NO_LISTS && path == []
      modifies this, openBits.bytes, closedBits.bytes
      ensures Agrees(l, {}) && nodes == l.nodes && byScore == l.byScore && AddressesBounded() && BitsOk()
      ensures openBits == old(openBits) && closedBits == old(closedBits)
      ensures forall k :: k in closed <==> k in l.closed && l.closed[k] !in path
      ensures forall k :: k in closed ==> closed[k] == l.closed[k]
      ensures NoRepeats(path) && forall i :: 0 <= i < |path| ==> Filed(l, l.closed, path[i])
      ensures found <==> exists walk :: IsWalk(w, start, end, walk)
      ensures if found then PathStored(w, l.nodes, start, end, path) else path == []
    {
      hide Members, IsWalk, PathStored, Agrees, WorldOk, Parented, ClosedInOrder, Filed;
      found := SearchFromStart(w, start, end);
      l := View();
      if found { StorePath(w, start, end, l); }
    }

    method StorePath(w: World, start: Point, end: Point, ghost l: Lists)
      requires l == View() && Kept(w, l, start) && OnGrid(end) && HexOffset(end) in closedBits.View() && path == []
      requires ClosedInOrder(w, l, start, order)
      modifies this`path, this`closed
      ensures forall i :: 0 <= i < |path| ==> Filed(l, l.closed, path[i])
      ensures PathStored(w, l.nodes, start, end, path) && NoRepeats(path)
      ensures exists walk :: IsWalk(w, start, end, walk)
      ensures forall k :: k in closed <==> k in l.closed && l.closed[k] !in path
      ensures forall k :: k in closed ==> closed[k] == l.closed[k]
    {
      Backtrack(w, start, end, l);
      StoredPathIsWalk(w, l, start, end, path, order);
      WalkExists(w, start, end, [start] + Positions(l.nodes, path));
    }

    method SearchFromStart(w: World, start: Point, end: Point) returns (found: bool)
      requires BitsOk() && WorldOk(w) && OnGrid(start) && OnGrid(end) && AddressesBounded()
      requires View() == NO_LISTS
      modifies this`nodes, this`nextAddress, this`byScore, this`byXy, openBits.bytes, this`closed, closedBits.bytes
      modifies this`order
      ensures Kept(w, View(), start) && AddressesBounded() && ClosedInOrder(w, View(), start, order)
      ensures found <==> HexOffset(end) in closedBits.View()
      ensures !found ==> forall walk :: !IsWalk(w, start, end, walk)
    {
      hide Members;
      var first := Allocate(NewNode(start, Point(-1, -1), 0, 0));
      InsertOpen(first);
      found := Search(w, start, end, first);
    }
  }

  lemma WalkExists(w: World, start: Point, end: Point, walk: seq<Point>)
    requires start == end || IsWalk(w, start, end, walk)
    ensures exists any :: IsWalk(w, start, end, any)
  {
    assert start == end ==> IsWalk(w, start, end, [start]);
  }

  ghost predicate NoRepeats<T>(s: seq<T>) {
    forall i, j :: 0 <= i < j < |s| ==> s[i] != s[j]
  }

  /** The stored path of a search that closed the end: the end alone when it is the start, otherwise
      the points after the start of a walk to the end that repeats no hex and has no shortcut, whose
      last node's path score is what the walk costs. */
  ghost predicate PathStored(w: World, nodes: map<Address, Node>, start: Point, end: Point, path: seq<Address>) {
    && |path| > 0 && (forall i :: 0 <= i < |path| ==> path[i] in nodes)
    && nodes[path[|path| - 1]].pos == end
    && if start == end then |path| == 1
       else
         var walk := [start] + Positions(nodes, path);
         && IsWalk(w, start, end, walk) && NoRepeats(walk) && NoShortcut(w, walk)
         && WalkCost(w, walk) == nodes[path[|path| - 1]].g
  }

  /** Freeing other nodes leaves the stored path as it is. */
  lemma PathStaysStored(w: World, before: map<Address, Node>, after: map<Address, Node>, start: Point, end: Point,
                        path: seq<Address>)
    requires forall i :: 0 <= i < |path| ==> path[i] in before && path[i] in after && before[path[i]] == after[path[i]]
    ensures PathStored(w, before, start, end, path) ==> PathStored(w, after, start, end, path)
  {
    assert Positions(after, path) == Positions(before, path);
  }

  lemma StoredPathIsWalk(w: World, l: Lists, start: Point, end: Point, path: seq<Address>, order: seq<int>)
    requires Kept(w, l, start) && PathTo(w, l, start, end, path) && ClosedInOrder(w, l, start, order)
    ensures NoRepeats(path) && PathStored(w, l.nodes, start, end, path)
  {
    if start != end {
      ChainIsWalk(w, l, start, path);
      ChainHasNoShortcut(w, l, start, path, order);
      forall i, j | 0 <= i < j < |path|
        ensures path[i] != path[j] && l.nodes[path[i]].pos != l.nodes[path[j]].pos
      {
        ChainRises(w, l, start, path, i, j);
      }
    }
  }

  /** The state of the backtrack: a chain ending at the goal, and the closed nodes not on it. */
  ghost predicate Tracking(l: Lists, start: Point, end: Point, path: seq<Address>, rest: map<int, Address>) {
    && |path| > 0 && Chain(l, start, path) && l.nodes[path[|path| - 1]].pos == end
    && (forall i :: 0 <= i < |path| ==> l.nodes[path[0]].g <= l.nodes[path[i]].g)
    && (forall k :: k in rest <==> k in l.closed && l.closed[k] !in path)
    && (forall k :: k in rest ==> rest[k] == l.closed[k])
  }

  /** The parent of the chain's first node has not been taken yet: it is closer to the start than
      every node on the chain. */
  lemma ParentIsWaiting(w: World, l: Lists, start: Point, end: Point, path: seq<Address>, rest: map<int, Address>)
    requires Kept(w, l, start) && Tracking(l, start, end, path, rest)
    ensures var n := l.nodes[path[0]];
            && HexOffset(n.parent) in rest
            && var p := rest[HexOffset(n.parent)];
            && p !in path && Filed(l, l.closed, p)
            && l.nodes[p].pos == n.parent && 0 <= l.nodes[p].g < n.g
  {
    ParentIsCloser(w, l, start, path[0]);
  }

  lemma TakingTheParentKeepsTrack(l: Lists, start: Point, end: Point, path: seq<Address>, rest: map<int, Address>,
                                  p: Address)
    requires Agrees(l, {}) && Tracking(l, start, end, path, rest)
    requires p !in path && Filed(l, l.closed, p) && l.nodes[p].pos != start
    requires l.nodes[p].pos == l.nodes[path[0]].parent && l.nodes[p].g < l.nodes[path[0]].g
    ensures Tracking(l, start, end, [p] + path, rest - {l.nodes[p].hexoffset})
  {
    EachNodeHasItsKey(l);
  }

  /** A node's own key is the only key any tree of its kind holds it under. */
  lemma EachNodeHasItsKey(l: Lists)
    requires Agrees(l, {})
    ensures forall k :: k in l.closed ==> l.closed[k] in l.nodes && l.nodes[l.closed[k]].hexoffset == k
    ensures forall k :: k in l.byScore ==> l.byScore[k] in l.nodes && l.nodes[l.byScore[k]].f == k
  {
    forall k | k in l.closed ensures l.closed[k] in l.nodes && l.nodes[l.closed[k]].hexoffset == k {
      assert EntryOk(l, k, {});
    }
    forall k | k in l.byScore ensures l.byScore[k] in l.nodes && l.nodes[l.byScore[k]].f == k {
      assert EntryOk(l, k, {});
    }
  }

  /** Of all nodes, exactly the path's are in neither tree once the path has left the closed one. */
  lemma WhatRemains(l: Lists, path: seq<Address>, rest: map<int, Address>, a: Address)
    requires Agrees(l, {})
    requires forall k :: k in rest <==> k in l.closed && l.closed[k] !in path
    requires forall k :: k in rest ==> rest[k] == l.closed[k]
    requires forall i :: 0 <= i < |path| ==> Filed(l, l.closed, path[i])
    ensures a in path <==> a in l.nodes && !Holds(l.byScore, a) && !Holds(rest, a)
  {
    EachNodeHasItsKey(l);
    TreesPartitionTheNodes(l);
    hide Agrees, EntryOk, KeyOk;
    if a in l.nodes && Filed(l, l.closed, a) && a !in path {
      assert rest[l.nodes[a].hexoffset] == a;
    }
  }

  /** Every allocated node is in the score tree or in the closed tree, and none is in both. */
  lemma TreesPartitionTheNodes(l: Lists)
    requires Agrees(l, {})
    ensures forall a :: a in l.nodes ==> Holds(l.byScore, a) || Filed(l, l.closed, a)
    ensures forall a :: a in l.nodes ==> !(Holds(l.byScore, a) && Filed(l, l.closed, a))
  {
    forall a | a in l.nodes
      ensures Holds(l.byScore, a) || Filed(l, l.closed, a)
      ensures !(Holds(l.byScore, a) && Filed(l, l.closed, a))
    {
      assert HeldOrLoose(l, a, {}) && EntryOk(l, l.nodes[a].hexoffset, {}) && EntryOk(l, l.nodes[a].f, {});
      if Holds(l.byScore, a) {
        var k :| k in l.byScore && l.byScore[k] == a;
        assert EntryOk(l, k, {});
      }
    }
  }

  /** The stored path: just the start's own node when the search ends where it began; otherwise a
      chain of closed nodes from a child of the start to the end. */
  ghost predicate PathTo(w: World, l: Lists, start: Point, end: Point, path: seq<Address>) {
    && |path| > 0
    && (forall i :: 0 <= i < |path| ==> Filed(l, l.closed, path[i]))
    && l.nodes[path[|path| - 1]].pos == end
    && if start == end then |path| == 1
       else Chain(l, start, path) && l.nodes[path[0]].parent == start
  }

  ghost function GridKeys(): set<int> {
    set k: int {:trigger InGrid(k)} | 0 <= k < MAPX * MAPY && InGrid(k)
  }

  ghost predicate InGrid(k: int) {
    0 <= k < MAPX * MAPY
  }

  lemma OpenBitsNameNodes(l: Lists, k: int)
    requires Agrees(l, {})
    ensures k in l.openBits ==> k in l.byXy && l.byXy[k] in l.nodes && l.nodes[l.byXy[k]].hexoffset == k
  {
    assert EntryOk(l, k, {});
  }

  lemma NothingExplored(w: World, start: Point, first: Address)
    requires OnGrid(start)
    ensures Explored(w, StartLists(start, first), -1, 0)
  {
    StartListsAgree(start, first);
  }

  /** Every closing marks a hex of the grid that was not marked. */
  lemma ClosingTakesAKey(l: Lists, a: Address)
    requires Agrees(l, {}) && Filed(l, l.byXy, a)
    ensures GridKeys() - CloseNode(l, a).closedBits < GridKeys() - l.closedBits
  {
    var k := l.nodes[a].hexoffset;
    assert EntryOk(l, k, {}) && InGrid(k);
    assert k in GridKeys() - l.closedBits && k !in GridKeys() - CloseNode(l, a).closedBits;
  }

  lemma StartIsFirst(l: Lists, start: Point, first: Address, a: Address)
    requires OnGrid(start) && Agrees(l, {}) && Filed(l, l.byXy, a)
    ensures l == StartLists(start, first) ==> a == first
  {
    StartListsAgree(start, first);
  }

  lemma NothingOpen(w: World, l: Lists, start: Point, end: Point, first: Address)
    requires WorldOk(w) && OnGrid(start) && Agrees(l, {}) && Explored(w, l, -1, 0)
    requires Parented(w, l, start) || l == StartLists(start, first)
    requires l.byScore == map[] && HexOffset(end) !in l.closedBits
    ensures Kept(w, l, start) && forall walk :: !IsWalk(w, start, end, walk)
  {
    StartListsAgree(start, first);
    assert EntryOk(l, HexOffset(start), {});
    forall k: int ensures k !in l.openBits { assert EntryOk(l, k, {}); }
    forall walk | IsWalk(w, start, end, walk) ensures false {
      ExhaustedSearchClosedAll(w, l, start, end, walk);
    }
  }
}
