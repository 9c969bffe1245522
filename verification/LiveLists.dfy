/** The lists of the live A*: open nodes indexed by score and by hex, closed nodes by hex, bits for
    both, and the store of allocated nodes the trees point into. Each step is a function of the
    lists; the lemmas say what every step keeps. */
module LiveLists {
  import opened HexGrid
  import opened StepRules

  function HexOffset(p: Point): int {
    p.x * MAPY + p.y
  }

  predicate OnGrid(p: Point) {
    0 <= p.x < MAPX && 0 <= p.y < MAPY
  }

  lemma HexOffsetIsInjective(p: Point, q: Point)
    requires OnGrid(p) && OnGrid(q) && HexOffset(p) == HexOffset(q)
    ensures p == q
  {
  }

  /** What the search reads of the map and its unit. The neighbouring hex comes from floating-point
      projection and the estimate from real distance; nothing is assumed of either. */
  datatype World = World(
    width: int, height: int,
    project: (Point, nat) -> Point,
    request: (Point, Point) -> StepRequest,
    heuristic: (Point, nat) -> int)

  const BEARINGS: nat := 6

  predicate OnMap(w: World, p: Point) {
    0 <= p.x < w.width && 0 <= p.y < w.height
  }

  /** Whether the search may step from p in direction d. */
  predicate HasChild(w: World, p: Point, d: nat) {
    OnMap(w, w.project(p, d)) && StepEvaluate(w.request(p, w.project(p, d))).traversable
  }

  ghost predicate LegalMove(w: World, p: Point, q: Point) {
    && 0 <= q.x < w.width && 0 <= q.y < w.height && StepEvaluate(w.request(p, q)).traversable
    && exists d: nat :: d < BEARINGS && w.project(p, d) == q
  }

  function MoveCost(w: World, p: Point, q: Point): int {
    StepEvaluate(w.request(p, q)).cost
  }

  // ---- Nodes, trees and bits ---------------------------------------------------------------

  datatype Node = Node(pos: Point, parent: Point, g: int, h: int, f: int, hexoffset: int)

  function NewNode(pos: Point, parent: Point, g: int, h: int): Node {
    Node(pos, parent, g, h, g + h, HexOffset(pos))
  }

  /** An allocated node is named by its address; the trees map integer keys to addresses. */
  type Address = nat

  datatype Lists = Lists(
    nodes: map<Address, Node>,
    byScore: map<int, Address>, byXy: map<int, Address>, openBits: set<int>,
    closed: map<int, Address>, closedBits: set<int>)

  const NO_LISTS := Lists(map[], map[], map[], {}, map[], {})

  predicate Filed(l: Lists, tree: map<int, Address>, a: Address) {
    a in l.nodes && l.nodes[a].hexoffset in tree && tree[l.nodes[a].hexoffset] == a
  }

  predicate KeyOk(l: Lists, k: int, a: Address) {
    a in l.nodes && l.nodes[a].hexoffset == k && OnGrid(l.nodes[a].pos) && HexOffset(l.nodes[a].pos) == k
  }

  /** What the lists say about the key k: a score names an open node of that score, an offset names
      an open or a closed node of that hex but not both, and the bits say the same. */
  ghost predicate EntryOk(l: Lists, k: int, loose: set<Address>) {
    && (k in l.byScore ==> l.byScore[k] !in loose && Filed(l, l.byXy, l.byScore[k]) && l.nodes[l.byScore[k]].f == k)
    && (k in l.byXy ==>
          && l.byXy[k] !in loose && KeyOk(l, k, l.byXy[k]) && k !in l.closed
          && l.nodes[l.byXy[k]].f in l.byScore && l.byScore[l.nodes[l.byXy[k]].f] == l.byXy[k])
    && (k in l.closed ==> l.closed[k] !in loose && KeyOk(l, k, l.closed[k]))
    && (k in l.openBits <==> k in l.byXy) && (k in l.closedBits <==> k in l.closed)
  }

  /** An allocated node is held by one of the lists, unless it is loose. */
  ghost predicate HeldOrLoose(l: Lists, a: Address, loose: set<Address>) {
    if a in loose then a in l.nodes
    else a in l.nodes ==> Filed(l, l.byXy, a) || Filed(l, l.closed, a)
  }

  /** Both open trees and the open bits hold the same nodes under their current keys, the closed
      tree and the closed bits agree, no hex is both, and no allocated node is lost. */
  ghost predicate Agrees(l: Lists, loose: set<Address>) {
    && (forall k: int :: EntryOk(l, k, loose))
    && (forall a: Address :: HeldOrLoose(l, a, loose))
  }

  // ---- Steps -------------------------------------------------------------------------------

  /** Deletes a node from both open trees and clears its bit, by the node's own keys. */
  function Detach(l: Lists, a: Address): Lists
    requires a in l.nodes
  {
    var n := l.nodes[a];
    l.(byScore := l.byScore - {n.f}, byXy := l.byXy - {n.hexoffset}, openBits := l.openBits - {n.hexoffset})
  }

  function File(l: Lists, a: Address): Lists
    requires a in l.nodes
  {
    var k := l.nodes[a].hexoffset;
    l.(closed := l.closed[k := a], closedBits := l.closedBits + {k})
  }

  /** The first score at or above f that no open node uses. */
  function UnusedScore(used: set<int>, f: int): (r: int)
    ensures r >= f && r !in used && forall k :: f <= k < r ==> k in used
    decreases AtOrAbove(used, f)
  {
    if f in used then
      assert f in AtOrAbove(used, f) && AtOrAbove(used, f + 1) <= AtOrAbove(used, f);
      UnusedScore(used, f + 1)
    else f
  }

  ghost function AtOrAbove(used: set<int>, f: int): set<int> {
    set k | k in used && f <= k
  }

  /** Adds or re-adds a node to the open list under an unused score. */
  function Insert(l: Lists, a: Address): Lists
    requires a in l.nodes
  {
    var n := l.nodes[a];
    var f := UnusedScore(l.byScore.Keys, n.f);
    l.(nodes := l.nodes[a := n.(f := f)],
       byScore := l.byScore[f := a], byXy := l.byXy[n.hexoffset := a],
       openBits := l.openBits + {n.hexoffset})
  }

  lemma DetachKeepsAgreement(l: Lists, a: Address)
    requires Agrees(l, {}) && Filed(l, l.byXy, a)
    ensures Agrees(Detach(l, a), {a})
  {
    var m := Detach(l, a);
    assert EntryOk(l, l.nodes[a].hexoffset, {}) && EntryOk(l, l.nodes[a].f, {});
    forall k: int ensures EntryOk(m, k, {a}) {
      assert EntryOk(l, k, {});
      if k in m.byScore { assert EntryOk(l, l.nodes[l.byScore[k]].hexoffset, {}); }
    }
    forall b: Address ensures HeldOrLoose(m, b, {a}) {
      assert HeldOrLoose(l, b, {});
    }
  }

  lemma FileKeepsAgreement(l: Lists, a: Address)
    requires Agrees(l, {a}) && a in l.nodes && KeyOk(l, l.nodes[a].hexoffset, a)
    requires l.nodes[a].hexoffset !in l.byXy && l.nodes[a].hexoffset !in l.closed
    ensures Agrees(File(l, a), {})
  {
    var m := File(l, a);
    forall k: int ensures EntryOk(m, k, {}) {
      assert EntryOk(l, k, {a});
    }
    forall b: Address ensures HeldOrLoose(m, b, {}) {
      assert HeldOrLoose(l, b, {a});
    }
  }

  lemma InsertKeepsAgreement(l: Lists, a: Address)
    requires Agrees(l, {a}) && a in l.nodes && KeyOk(l, l.nodes[a].hexoffset, a)
    requires l.nodes[a].hexoffset !in l.byXy && l.nodes[a].hexoffset !in l.closed
    ensures Agrees(Insert(l, a), {})
  {
    var m := Insert(l, a);
    forall k: int ensures EntryOk(m, k, {}) {
      assert EntryOk(l, k, {a});
    }
    forall b: Address ensures HeldOrLoose(m, b, {}) {
      assert HeldOrLoose(l, b, {a});
    }
  }

  /** Changing or creating a node no list holds disturbs no list. */
  lemma LooseNodeMayChange(l: Lists, a: Address, n: Node, loose: set<Address>)
    requires Agrees(l, loose) && loose <= {a} && (a in l.nodes ==> a in loose)
    ensures Agrees(l.(nodes := l.nodes[a := n]), {a})
  {
    var m := l.(nodes := l.nodes[a := n]);
    forall k: int ensures EntryOk(m, k, {a}) {
      assert EntryOk(l, k, loose);
    }
    forall b: Address ensures HeldOrLoose(m, b, {a}) {
      assert HeldOrLoose(l, b, loose);
    }
  }

  // ---- One round of the loop ---------------------------------------------------------------

  /** Closes the open node at `a`. */
  function CloseNode(l: Lists, a: Address): Lists
    requires a in l.nodes
  {
    File(Detach(l, a), a)
  }

  /** Re-files an open node under a better path score and its new parent. */
  function Improve(l: Lists, a: Address, g: int, parent: Point): Lists
    requires a in l.nodes
  {
    var m := Detach(l, a);
    Insert(m.(nodes := m.nodes[a := l.nodes[a].(g := g, f := g + l.nodes[a].h, parent := parent)]), a)
  }

  /** Allocates a node at `spare` and opens it. */
  function Add(l: Lists, spare: Address, n: Node): Lists {
    Insert(l.(nodes := l.nodes[spare := n]), spare)
  }

  /** The loop body for one bearing out of the closed node `parent`; `spare` is the address the
      allocator would hand out. */
  ghost function Visit(w: World, l: Lists, parent: Address, d: nat, spare: Address): Lists
    requires parent in l.nodes
    requires Agrees(l, {})
  {
    var here := l.nodes[parent];
    var q := w.project(here.pos, d);
    if !OnMap(w, q) || HexOffset(q) in l.closedBits then l
    else
      var step := StepEvaluate(w.request(here.pos, q));
      if !step.traversable then l
      else
        var g := step.cost + here.g;
        assert EntryOk(l, HexOffset(q), {});
        if HexOffset(q) in l.openBits then
          var a := l.byXy[HexOffset(q)];
          if g < l.nodes[a].g then Improve(l, a, g, here.pos) else l
        else Add(l, spare, NewNode(q, here.pos, g, w.heuristic(here.pos, d)))
  }

  /** The map is no larger than the grid the bitsets cover. */
  predicate WorldOk(w: World) {
    w.width <= MAPX && w.height <= MAPY
  }

  /** What a visit leaves alone: closed nodes and open hexes stay as they are, and only the node at
      `a` changes, whose path score does not rise. */
  ghost predicate ChangesOnly(l: Lists, m: Lists, a: Address) {
    && m.closed == l.closed && m.closedBits == l.closedBits
    && a in m.nodes && m.nodes == l.nodes[a := m.nodes[a]] && (a in l.nodes ==> m.nodes[a].g <= l.nodes[a].g)
    && (forall k :: k in l.byXy ==> k in m.byXy && m.byXy[k] == l.byXy[k])
    && forall k :: k in l.closed ==> l.closed[k] in l.nodes && l.closed[k] != a
  }

  /** The open node of key k has a path score of at most g. */
  predicate OpenAtMost(l: Lists, k: int, g: int) {
    k in l.byXy && l.byXy[k] in l.nodes && l.nodes[l.byXy[k]].g <= g
  }

  /** The move of bearing d out of n has been offered: its hex is closed, or open at a path score no
      greater than the one the move gives. */
  ghost predicate Offered(w: World, l: Lists, n: Node, d: nat) {
    var q := w.project(n.pos, d);
    HexOffset(q) in l.closedBits || OpenAtMost(l, HexOffset(q), n.g + MoveCost(w, n.pos, q))
  }

  /** The node at `a` is filed under the first score from its path score plus its estimate on that no
      other open node uses. */
  ghost predicate FiledByScore(l: Lists, a: Address) {
    && a in l.nodes && var n := l.nodes[a];
    && n.g + n.h <= n.f && n.f in l.byScore && l.byScore[n.f] == a
    && forall s :: n.g + n.h <= s < n.f ==> s in l.byScore && l.byScore[s] != a
  }

  lemma InsertFiles(l: Lists, a: Address)
    requires Agrees(l, {a}) && a in l.nodes && l.nodes[a].f == l.nodes[a].g + l.nodes[a].h
    ensures FiledByScore(Insert(l, a), a)
  {
    var m := Insert(l, a);
    forall s | l.nodes[a].f <= s < m.nodes[a].f ensures s in m.byScore && m.byScore[s] != a {
      assert s in l.byScore.Keys && EntryOk(l, s, {a});
    }
  }

  lemma ImproveKeepsAgreement(l: Lists, a: Address, g: int, parent: Point)
    requires Agrees(l, {}) && Filed(l, l.byXy, a)
    ensures Agrees(Improve(l, a, g, parent), {}) && FiledByScore(Improve(l, a, g, parent), a)
  {
    var n := l.nodes[a].(g := g, f := g + l.nodes[a].h, parent := parent);
    assert EntryOk(l, n.hexoffset, {});
    var m := Detach(l, a);
    DetachKeepsAgreement(l, a);
    LooseNodeMayChange(m, a, n, {a});
    InsertKeepsAgreement(m.(nodes := m.nodes[a := n]), a);
    InsertFiles(m.(nodes := m.nodes[a := n]), a);
  }

  lemma ImproveChanges(l: Lists, a: Address, g: int, parent: Point)
    requires Agrees(l, {}) && Filed(l, l.byXy, a) && g <= l.nodes[a].g
    ensures var m := Improve(l, a, g, parent);
            ChangesOnly(l, m, a) && m.byXy == l.byXy
            && m.nodes[a] == l.nodes[a].(g := g, f := m.nodes[a].f, parent := parent)
  {
    assert EntryOk(l, l.nodes[a].hexoffset, {});
    forall k | k in l.closed ensures l.closed[k] in l.nodes && l.closed[k] != a { assert EntryOk(l, k, {}); }
  }

  lemma AddFacts(l: Lists, a: Address, n: Node)
    requires Agrees(l, {}) && a !in l.nodes && OnGrid(n.pos) && n.hexoffset == HexOffset(n.pos)
    requires n.hexoffset !in l.openBits && n.hexoffset !in l.closedBits
    ensures var m := Add(l, a, n);
            Agrees(m, {}) && ChangesOnly(l, m, a) && m.byXy == l.byXy[n.hexoffset := a]
            && m.nodes[a] == n.(f := m.nodes[a].f) && (n.f == n.g + n.h ==> FiledByScore(m, a))
  {
    assert EntryOk(l, n.hexoffset, {});
    LooseNodeMayChange(l, a, n, {});
    InsertKeepsAgreement(l.(nodes := l.nodes[a := n]), a);
    if n.f == n.g + n.h { InsertFiles(l.(nodes := l.nodes[a := n]), a); }
    forall k | k in l.closed ensures l.closed[k] in l.nodes && l.closed[k] != a { assert EntryOk(l, k, {}); }
  }

  // ---- Parents -----------------------------------------------------------------------------

  /** A node other than the start's was reached from a closed parent by one legal move, whose cost
      is the difference of their path scores. */
  ghost predicate ParentOk(w: World, l: Lists, start: Point, n: Node) {
    if n.pos == start then n.g == 0
    else
      && OnGrid(n.parent) && HexOffset(n.parent) in l.closed && l.closed[HexOffset(n.parent)] in l.nodes
      && LegalMove(w, n.parent, n.pos)
      && n.g == l.nodes[l.closed[HexOffset(n.parent)]].g + MoveCost(w, n.parent, n.pos)
  }

  ghost predicate Parented(w: World, l: Lists, start: Point) {
    && (forall a :: a in l.nodes ==> ParentOk(w, l, start, l.nodes[a]) && 0 <= l.nodes[a].g)
    && HexOffset(start) in l.closed
  }

  /** Everything a visit keeps, in one place. */
  ghost predicate Kept(w: World, l: Lists, start: Point) {
    Agrees(l, {}) && Parented(w, l, start) && WorldOk(w) && OnGrid(start)
  }

  lemma ChangeKeepsParents(w: World, l: Lists, m: Lists, start: Point, a: Address)
    requires Parented(w, l, start) && ChangesOnly(l, m, a)
    requires ParentOk(w, l, start, m.nodes[a]) && 0 <= m.nodes[a].g
    ensures Parented(w, m, start)
  {
    forall b | b in m.nodes ensures ParentOk(w, m, start, m.nodes[b]) {
      assert ParentOk(w, l, start, m.nodes[b]);
    }
  }

  /** The node a visit files has the visited closed node as a sound parent. */
  lemma ChildHasParent(w: World, l: Lists, start: Point, parent: Address, d: nat, n: Node)
    requires Kept(w, l, start) && parent in l.nodes && Filed(l, l.closed, parent) && d < BEARINGS
    requires var here := l.nodes[parent].pos;
             && HasChild(w, here, d) && n.pos == w.project(here, d) && HexOffset(n.pos) !in l.closedBits
             && n.parent == here && n.g == l.nodes[parent].g + MoveCost(w, here, n.pos)
    ensures ParentOk(w, l, start, n) && 0 <= n.g
  {
    assert EntryOk(l, l.nodes[parent].hexoffset, {}) && EntryOk(l, HexOffset(start), {});
    assert LegalMove(w, n.parent, n.pos);
  }

  lemma ImprovingKeeps(w: World, l: Lists, start: Point, parent: Address, d: nat, a: Address)
    requires Kept(w, l, start) && parent in l.nodes && d < BEARINGS && Filed(l, l.closed, parent)
    requires var q := w.project(l.nodes[parent].pos, d);
             && HasChild(w, l.nodes[parent].pos, d) && HexOffset(q) !in l.closedBits
             && Filed(l, l.byXy, a) && l.nodes[a].hexoffset == HexOffset(q)
             && l.nodes[parent].g + MoveCost(w, l.nodes[parent].pos, q) <= l.nodes[a].g
    ensures var here := l.nodes[parent];
            var m := Improve(l, a, here.g + MoveCost(w, here.pos, w.project(here.pos, d)), here.pos);
            Kept(w, m, start) && ChangesOnly(l, m, a) && Offered(w, m, here, d)
  {
    hide Improve, Parented;
    var here := l.nodes[parent];
    var q := w.project(here.pos, d);
    var g := here.g + MoveCost(w, here.pos, q);
    assert EntryOk(l, HexOffset(q), {});
    HexOffsetIsInjective(q, l.nodes[a].pos);
    var m := Improve(l, a, g, here.pos);
    ImproveKeepsAgreement(l, a, g, here.pos);
    ImproveChanges(l, a, g, here.pos);
    ChildHasParent(w, l, start, parent, d, m.nodes[a]);
    ChangeKeepsParents(w, l, m, start, a);
  }

  lemma AddingKeeps(w: World, l: Lists, start: Point, parent: Address, d: nat, spare: Address, n: Node)
    requires Kept(w, l, start) && parent in l.nodes && d < BEARINGS && Filed(l, l.closed, parent)
    requires spare !in l.nodes
    requires var here := l.nodes[parent];
             var q := w.project(here.pos, d);
             && HasChild(w, here.pos, d) && HexOffset(q) !in l.closedBits && HexOffset(q) !in l.openBits
             && n == NewNode(q, here.pos, here.g + MoveCost(w, here.pos, q), w.heuristic(here.pos, d))
    ensures var m := Add(l, spare, n);
            Kept(w, m, start) && ChangesOnly(l, m, spare) && Offered(w, m, l.nodes[parent], d)
  {
    var m := Add(l, spare, n);
    AddFacts(l, spare, n);
    ChildHasParent(w, l, start, parent, d, m.nodes[spare]);
    ChangeKeepsParents(w, l, m, start, spare);
  }

  /** One bearing of the expansion loop keeps the lists in agreement and every parent sound, leaves
      closed nodes alone, and leaves the child it may step to at the cheaper of two path scores. */
  lemma VisitKeeps(w: World, l: Lists, start: Point, parent: Address, d: nat, spare: Address)
    requires Kept(w, l, start) && parent in l.nodes && spare !in l.nodes && d < BEARINGS
    requires Filed(l, l.closed, parent)
    ensures var m := Visit(w, l, parent, d, spare);
            && Kept(w, m, start) && (m == l || exists a :: ChangesOnly(l, m, a))
            && (HasChild(w, l.nodes[parent].pos, d) ==> Offered(w, m, l.nodes[parent], d))
  {
    hide Improve, Add, Parented, WorldOk, OnGrid, Insert, Detach;
    var here := l.nodes[parent];
    var q := w.project(here.pos, d);
    var g := here.g + MoveCost(w, here.pos, q);
    assert EntryOk(l, HexOffset(q), {});
    if HasChild(w, here.pos, d) && HexOffset(q) !in l.closedBits {
      if HexOffset(q) !in l.openBits {
        AddingKeeps(w, l, start, parent, d, spare, NewNode(q, here.pos, g, w.heuristic(here.pos, d)));
      } else if g < l.nodes[l.byXy[HexOffset(q)]].g {
        ImprovingKeeps(w, l, start, parent, d, l.byXy[HexOffset(q)]);
      }
    }
  }

  /** The node of a child that is not closed, after a visit: a hex seen for the first time is opened
      at the offered path score, an open one keeps the cheaper of two and the parent it is owed to,
      and whatever changed is filed by its score. */
  lemma ChildAfterVisit(w: World, l: Lists, start: Point, parent: Address, d: nat, spare: Address)
    requires Kept(w, l, start) && parent in l.nodes && spare !in l.nodes && HasChild(w, l.nodes[parent].pos, d)
    requires HexOffset(w.project(l.nodes[parent].pos, d)) !in l.closed
    ensures var here := l.nodes[parent];
            var q := w.project(here.pos, d);
            var offer, k, m := here.g + MoveCost(w, here.pos, q), HexOffset(q), Visit(w, l, parent, d, spare);
            && k in m.byXy && m.byXy[k] in m.nodes
            && var n := m.nodes[m.byXy[k]];
            && n.pos == q
            && if k !in l.byXy then
                 n.g == offer && n.h == w.heuristic(here.pos, d) && n.parent == here.pos && FiledByScore(m, m.byXy[k])
               else
                 && l.byXy[k] in l.nodes && var o := l.nodes[l.byXy[k]];
                 if offer < o.g then
                   n.g == offer && n.h == o.h && n.parent == here.pos && FiledByScore(m, m.byXy[k])
                 else n == o
  {
    hide Improve, Add, Parented, Insert, Detach, FiledByScore;
    var here := l.nodes[parent];
    var q := w.project(here.pos, d);
    var g := here.g + MoveCost(w, here.pos, q);
    assert EntryOk(l, HexOffset(q), {});
    if HexOffset(q) !in l.byXy {
      AddFacts(l, spare, NewNode(q, here.pos, g, w.heuristic(here.pos, d)));
    } else {
      var a := l.byXy[HexOffset(q)];
      HexOffsetIsInjective(q, l.nodes[a].pos);
      if g < l.nodes[a].g {
        ImproveKeepsAgreement(l, a, g, here.pos);
        ImproveChanges(l, a, g, here.pos);
      }
    }
  }

  // ---- The whole loop ----------------------------------------------------------------------

  /** The lists before the first round: the start is the only node and it is open. */
  function StartLists(start: Point, a: Address): Lists {
    Add(NO_LISTS, a, NewNode(start, Point(-1, -1), 0, 0))
  }

  lemma StartListsAgree(start: Point, a: Address)
    requires OnGrid(start)
    ensures var l := StartLists(start, a);
            Agrees(l, {}) && l.nodes == map[a := Node(start, Point(-1, -1), 0, 0, 0, HexOffset(start))]
            && l.byXy == map[HexOffset(start) := a] && l.closed == map[] && l.closedBits == {}
  {
    AddFacts(NO_LISTS, a, NewNode(start, Point(-1, -1), 0, 0));
  }

  lemma CloseFacts(l: Lists, a: Address)
    requires Agrees(l, {}) && Filed(l, l.byXy, a)
    ensures var m := CloseNode(l, a);
            Agrees(m, {}) && m.nodes == l.nodes && m.closed == l.closed[l.nodes[a].hexoffset := a]
            && Filed(m, m.closed, a) && l.nodes[a].hexoffset !in l.closed
            && m.byXy == l.byXy - {l.nodes[a].hexoffset} && m.closedBits == l.closedBits + {l.nodes[a].hexoffset}
  {
    assert EntryOk(l, l.nodes[a].hexoffset, {});
    DetachKeepsAgreement(l, a);
    FileKeepsAgreement(Detach(l, a), a);
  }

  /** Closing an open node keeps every parent: parents are closed and stay closed. */
  lemma ClosingKeeps(w: World, l: Lists, start: Point, a: Address)
    requires WorldOk(w) && OnGrid(start) && Filed(l, l.byXy, a) && Agrees(l, {})
    requires Parented(w, l, start) || l == StartLists(start, a)
    ensures Kept(w, CloseNode(l, a), start)
  {
    CloseFacts(l, a);
    var m := CloseNode(l, a);
    if l == StartLists(start, a) { StartListsAgree(start, a); }
    forall b | b in m.nodes ensures ParentOk(w, m, start, m.nodes[b]) && 0 <= m.nodes[b].g {
      if l != StartLists(start, a) {
        assert ParentOk(w, l, start, l.nodes[b]);
        if l.nodes[b].pos != start {
          assert EntryOk(l, HexOffset(l.nodes[b].parent), {});
        }
      }
    }
  }

  /** The closed node of key k has offered its moves: all of them, or those of the first `upto`
      bearings when it is the busy node. */
  ghost predicate ExploredAt(w: World, l: Lists, k: int, busy: int, upto: nat) {
    k in l.closed && l.closed[k] in l.nodes ==>
      forall d: nat :: d < BEARINGS && (k != busy || d < upto) && HasChild(w, l.nodes[l.closed[k]].pos, d) ==>
        Offered(w, l, l.nodes[l.closed[k]], d)
  }

  ghost predicate Explored(w: World, l: Lists, busy: int, upto: nat) {
    forall k: int :: ExploredAt(w, l, k, busy, upto)
  }

  lemma ClosingKeepsExplored(w: World, l: Lists, a: Address)
    requires Agrees(l, {}) && Filed(l, l.byXy, a) && Explored(w, l, -1, 0)
    ensures Explored(w, CloseNode(l, a), l.nodes[a].hexoffset, 0)
  {
    CloseFacts(l, a);
    var m := CloseNode(l, a);
    var off := l.nodes[a].hexoffset;
    assert EntryOk(l, off, {});
    forall k: int ensures ExploredAt(w, m, k, off, 0) {
      assert ExploredAt(w, l, k, -1, 0);
      assert EntryOk(l, k, {});
    }
  }

  lemma VisitKeepsExplored(w: World, l: Lists, m: Lists, busy: int, d: nat)
    requires m == l || exists a :: ChangesOnly(l, m, a)
    requires Explored(w, l, busy, d) && d < BEARINGS
    requires busy in l.closed && l.closed[busy] in l.nodes
    requires HasChild(w, l.nodes[l.closed[busy]].pos, d) ==> Offered(w, m, l.nodes[l.closed[busy]], d)
    ensures Explored(w, m, busy, d + 1)
  {
    var done := d + 1;
    forall k: int ensures ExploredAt(w, m, k, busy, done) {
      assert ExploredAt(w, l, k, busy, d);
    }
  }

  lemma FullyExploredIsIdle(w: World, l: Lists, busy: int)
    requires Agrees(l, {}) && Explored(w, l, busy, BEARINGS)
    ensures Explored(w, l, -1, 0)
  {
    forall k: int ensures ExploredAt(w, l, k, -1, 0) {
      assert ExploredAt(w, l, k, busy, BEARINGS);
      assert EntryOk(l, k, {});
    }
  }

  // ---- The order of closing ----------------------------------------------------------------

  /** A legal move from n would not undercut the path score of m. */
  ghost predicate NotUndercut(w: World, n: Node, m: Node) {
    LegalMove(w, n.pos, m.pos) ==> m.g <= n.g + MoveCost(w, n.pos, m.pos)
  }

  /** When nothing is left to offer, no closed node undercuts an open one. */
  lemma OpenIsNotUndercut(w: World, l: Lists, a: Address, k: int)
    requires Agrees(l, {}) && Explored(w, l, -1, 0) && Filed(l, l.byXy, a) && k in l.closed
    ensures l.closed[k] in l.nodes && NotUndercut(w, l.nodes[l.closed[k]], l.nodes[a])
  {
    assert EntryOk(l, k, {}) && EntryOk(l, l.nodes[a].hexoffset, {}) && ExploredAt(w, l, k, -1, 0);
    var n := l.nodes[l.closed[k]];
    if LegalMove(w, n.pos, l.nodes[a].pos) {
      var d: nat :| d < BEARINGS && w.project(n.pos, d) == l.nodes[a].pos;
      assert HasChild(w, n.pos, d);
    }
  }

  /** The node of key k was closed after those of the keys `before`: its parent is one of them, and
      none of them undercuts its path score. */
  ghost predicate ClosedAfter(w: World, l: Lists, start: Point, before: seq<int>, k: int) {
    && k !in before && k in l.closed && l.closed[k] in l.nodes
    && var n := l.nodes[l.closed[k]];
    && (n.pos != start ==> HexOffset(n.parent) in before)
    && forall b :: b in before ==>
         b in l.closed && l.closed[b] in l.nodes && NotUndercut(w, l.nodes[l.closed[b]], n)
  }

  /** The closed keys in the order of their closing. */
  ghost predicate ClosedInOrder(w: World, l: Lists, start: Point, order: seq<int>) {
    && (forall k :: k in order <==> k in l.closed)
    && forall j :: 0 <= j < |order| ==> ClosedAfter(w, l, start, order[..j], order[j])
  }

  lemma VisitKeepsOrder(w: World, l: Lists, m: Lists, start: Point, order: seq<int>)
    requires ClosedInOrder(w, l, start, order) && (m == l || exists a :: ChangesOnly(l, m, a))
    ensures ClosedInOrder(w, m, start, order)
  {
    hide NotUndercut;
    forall j | 0 <= j < |order| ensures ClosedAfter(w, m, start, order[..j], order[j]) {
      assert ClosedAfter(w, l, start, order[..j], order[j]);
    }
  }

  /** The node being closed comes last: its parent is closed and no closed node undercuts it. */
  lemma ClosingKeepsOrder(w: World, l: Lists, start: Point, a: Address, order: seq<int>)
    requires OnGrid(start) && Agrees(l, {}) && Filed(l, l.byXy, a) && Explored(w, l, -1, 0)
    requires Parented(w, l, start) || l == StartLists(start, a)
    requires ClosedInOrder(w, l, start, order)
    ensures ClosedInOrder(w, CloseNode(l, a), start, order + [l.nodes[a].hexoffset])
  {
    CloseFacts(l, a);
    StartListsAgree(start, a);
    assert ParentOk(w, l, start, l.nodes[a]);
    var m, k := CloseNode(l, a), l.nodes[a].hexoffset;
    var longer := order + [k];
    forall b | b in l.closed ensures l.closed[b] in l.nodes && NotUndercut(w, l.nodes[l.closed[b]], l.nodes[a]) {
      OpenIsNotUndercut(w, l, a, b);
    }
    hide NotUndercut, Explored, Agrees, CloseNode, LegalMove, MoveCost;
    forall j | 0 <= j < |longer| ensures ClosedAfter(w, m, start, longer[..j], longer[j]) {
      if j < |order| {
        assert ClosedAfter(w, l, start, order[..j], order[j]) && longer[..j] == order[..j];
      } else {
        assert longer[..j] == order;
      }
    }
  }

  // ---- Walks -------------------------------------------------------------------------------

  ghost predicate IsWalk(w: World, start: Point, end: Point, walk: seq<Point>) {
    && |walk| > 0 && walk[0] == start && walk[|walk| - 1] == end
    && forall i, j :: 0 <= i < j < |walk| && j == i + 1 ==> LegalMove(w, walk[i], walk[j])
  }

  ghost function WalkCost(w: World, walk: seq<Point>): int {
    if |walk| <= 1 then 0 else WalkCost(w, walk[..|walk| - 1]) + MoveCost(w, walk[|walk| - 2], walk[|walk| - 1])
  }

  /** When nothing is open, every hex a walk from the start reaches has been closed. */
  lemma {:induction false} ExhaustedSearchClosedAll(w: World, l: Lists, start: Point, end: Point, walk: seq<Point>)
    requires Kept(w, l, start) && Explored(w, l, -1, 0) && l.openBits == {}
    requires IsWalk(w, start, end, walk)
    ensures OnGrid(end) && HexOffset(end) in l.closedBits
    decreases |walk|
  {
    assert EntryOk(l, HexOffset(start), {});
    if |walk| > 1 {
      var p := walk[|walk| - 2];
      ExhaustedSearchClosedAll(w, l, start, p, walk[..|walk| - 1]);
      assert LegalMove(w, p, end);
      var d: nat :| d < BEARINGS && HasChild(w, p, d) && w.project(p, d) == end;
      assert EntryOk(l, HexOffset(p), {});
      HexOffsetIsInjective(p, l.nodes[l.closed[HexOffset(p)]].pos);
      assert ExploredAt(w, l, HexOffset(p), -1, 0) && EntryOk(l, HexOffset(end), {});
    }
  }

  /** What a walk costs up to its hex number i. */
  ghost function CostTo(w: World, walk: seq<Point>, i: nat): int
    requires i < |walk|
  {
    WalkCost(w, walk[..i + 1])
  }

  /** A legal move from a hex of the walk to a later one reaches it no cheaper than the walk does. */
  ghost predicate NoShortcut(w: World, walk: seq<Point>) {
    forall i, j :: 0 <= i < j < |walk| && LegalMove(w, walk[i], walk[j]) ==>
      CostTo(w, walk, j) <= CostTo(w, walk, i) + MoveCost(w, walk[i], walk[j])
  }

  // ---- The backtrack -----------------------------------------------------------------------

  /** Closed nodes, none at the start, each the parent of the next. */
  ghost predicate Chain(l: Lists, start: Point, path: seq<Address>) {
    && (forall i :: 0 <= i < |path| ==> Filed(l, l.closed, path[i]) && l.nodes[path[i]].pos != start)
    && (forall i, j :: 0 <= i < j < |path| && j == i + 1 ==> l.nodes[path[j]].parent == l.nodes[path[i]].pos)
  }

  ghost function Positions(nodes: map<Address, Node>, path: seq<Address>): seq<Point>
    requires forall i :: 0 <= i < |path| ==> path[i] in nodes
  {
    seq(|path|, i requires 0 <= i < |path| => nodes[path[i]].pos)
  }

  /** The parent of a closed node off the start is itself closed, and its path score is smaller. */
  lemma ParentIsCloser(w: World, l: Lists, start: Point, a: Address)
    requires Kept(w, l, start) && Filed(l, l.closed, a) && l.nodes[a].pos != start
    ensures var n := l.nodes[a];
            && HexOffset(n.parent) in l.closed && l.closed[HexOffset(n.parent)] in l.nodes
            && Filed(l, l.closed, l.closed[HexOffset(n.parent)])
            && l.nodes[l.closed[HexOffset(n.parent)]].pos == n.parent
            && LegalMove(w, n.parent, n.pos)
            && n.g == l.nodes[l.closed[HexOffset(n.parent)]].g + MoveCost(w, n.parent, n.pos)
            && 0 <= l.nodes[l.closed[HexOffset(n.parent)]].g < n.g
  {
    var n := l.nodes[a];
    assert ParentOk(w, l, start, n);
    var k := HexOffset(n.parent);
    assert EntryOk(l, k, {});
    var p := l.nodes[l.closed[k]];
    HexOffsetIsInjective(n.parent, p.pos);
    assert ParentOk(w, l, start, p);
  }

  lemma StandingIsAWalk(w: World, start: Point)
    ensures IsWalk(w, start, start, [start]) && WalkCost(w, [start]) == 0
  {
  }

  lemma WalkExtends(w: World, start: Point, walk: seq<Point>, p: Point, q: Point)
    requires IsWalk(w, start, p, walk) && LegalMove(w, p, q)
    ensures IsWalk(w, start, q, walk + [q]) && WalkCost(w, walk + [q]) == WalkCost(w, walk) + MoveCost(w, p, q)
  {
    assert (walk + [q])[..|walk|] == walk;
  }

  /** The parent of the last node of a chain is the node before it, or the start, whose score is 0. */
  lemma ChainEndsAtParent(w: World, l: Lists, start: Point, path: seq<Address>)
    requires Kept(w, l, start) && |path| > 0 && Chain(l, start, path) && l.nodes[path[0]].parent == start
    requires HexOffset(l.nodes[path[|path| - 1]].parent) in l.closed
    ensures var n, p := l.nodes[path[|path| - 1]], l.closed[HexOffset(l.nodes[path[|path| - 1]].parent)];
            && p in l.nodes
            && if |path| == 1 then n.parent == start && l.nodes[p].g == 0 else p == path[|path| - 2]
  {
    var n := l.nodes[path[|path| - 1]];
    var p := l.closed[HexOffset(n.parent)];
    assert EntryOk(l, HexOffset(n.parent), {});
    assert ParentOk(w, l, start, l.nodes[p]);
    if |path| > 1 {
      assert EntryOk(l, l.nodes[path[|path| - 2]].hexoffset, {}) && n.parent == l.nodes[path[|path| - 2]].pos;
    }
  }

  /** A chain from a child of the start is a walk whose cost is the last node's path score. */
  lemma {:induction false} ChainIsWalk(w: World, l: Lists, start: Point, path: seq<Address>)
    requires Kept(w, l, start) && |path| > 0 && Chain(l, start, path) && l.nodes[path[0]].parent == start
    ensures var route := [start] + Positions(l.nodes, path);
            && IsWalk(w, start, l.nodes[path[|path| - 1]].pos, route)
            && WalkCost(w, route) == l.nodes[path[|path| - 1]].g
  {
    var before := path[..|path| - 1];
    var a := path[|path| - 1];
    var q := l.nodes[a].pos;
    ParentIsCloser(w, l, start, a);
    ChainEndsAtParent(w, l, start, path);
    hide IsWalk, WalkCost, LegalMove, EntryOk, Parented, MoveCost;
    assert [start] + Positions(l.nodes, path) == [start] + Positions(l.nodes, before) + [q];
    if before == [] {
      StandingIsAWalk(w, start);
      assert [start] + Positions(l.nodes, before) == [start];
    } else {
      ChainIsWalk(w, l, start, before);
    }
    WalkExtends(w, start, [start] + Positions(l.nodes, before), l.nodes[a].parent, q);
  }

  /** Path scores strictly rise along a chain, so no hex and no node occurs twice. */
  lemma {:induction false} ChainRises(w: World, l: Lists, start: Point, path: seq<Address>, i: nat, j: nat)
    requires Kept(w, l, start) && Chain(l, start, path) && i < j < |path|
    ensures l.nodes[path[i]].g < l.nodes[path[j]].g && l.nodes[path[i]].pos != l.nodes[path[j]].pos
    decreases j
  {
    ParentIsCloser(w, l, start, path[j]);
    var b := path[j - 1];
    assert EntryOk(l, l.nodes[b].hexoffset, {}) && l.nodes[path[j]].parent == l.nodes[b].pos;
    assert EntryOk(l, l.nodes[path[i]].hexoffset, {}) && EntryOk(l, l.nodes[path[j]].hexoffset, {});
    if i < j - 1 { ChainRises(w, l, start, path, i, j - 1); }
  }

  /** The start and the nodes of a chain from one of its children. */
  ghost predicate StartsWalk(w: World, l: Lists, start: Point, path: seq<Address>) {
    Kept(w, l, start) && |path| > 0 && Chain(l, start, path) && l.nodes[path[0]].parent == start
  }

  /** The closed node of hex number i on the walk of a chain, whose path score is the cost so far. */
  lemma ScoreIsCostSoFar(w: World, l: Lists, start: Point, path: seq<Address>, i: nat)
    requires StartsWalk(w, l, start, path) && i <= |path|
    ensures var walk, k := [start] + Positions(l.nodes, path), HexOffset(([start] + Positions(l.nodes, path))[i]);
            && k in l.closed && l.closed[k] in l.nodes && l.nodes[l.closed[k]].pos == walk[i]
            && CostTo(w, walk, i) == l.nodes[l.closed[k]].g
  {
    var walk := [start] + Positions(l.nodes, path);
    assert EntryOk(l, HexOffset(start), {});
    if i == 0 {
      HexOffsetIsInjective(start, l.nodes[l.closed[HexOffset(start)]].pos);
      assert ParentOk(w, l, start, l.nodes[l.closed[HexOffset(start)]]);
      assert walk[..1] == [start];
    } else {
      assert EntryOk(l, l.nodes[path[i - 1]].hexoffset, {});
      ChainIsWalk(w, l, start, path[..i]);
      assert walk[..i + 1] == [start] + Positions(l.nodes, path[..i]);
    }
  }

  /** Along a chain every hex was closed before the later ones. */
  lemma {:induction false} ChainFollowsOrder(w: World, l: Lists, start: Point, path: seq<Address>, order: seq<int>,
                                             i: nat, j: nat, y: nat)
    requires StartsWalk(w, l, start, path) && ClosedInOrder(w, l, start, order)
    requires i < j <= |path| && y < |order|
    requires order[y] == HexOffset(([start] + Positions(l.nodes, path))[j])
    ensures HexOffset(([start] + Positions(l.nodes, path))[i]) in order[..y]
    decreases j
  {
    var walk := [start] + Positions(l.nodes, path);
    assert ClosedAfter(w, l, start, order[..y], order[y]);
    assert EntryOk(l, l.nodes[path[j - 1]].hexoffset, {});
    assert l.nodes[path[j - 1]].parent == walk[j - 1];
    if i < j - 1 {
      var x :| 0 <= x < y && order[x] == HexOffset(walk[j - 1]);
      ChainFollowsOrder(w, l, start, path, order, i, j - 1, x);
    }
  }

  /** The walk of a chain has no shortcut. */
  lemma ChainHasNoShortcut(w: World, l: Lists, start: Point, path: seq<Address>, order: seq<int>)
    requires StartsWalk(w, l, start, path) && ClosedInOrder(w, l, start, order)
    ensures NoShortcut(w, [start] + Positions(l.nodes, path))
  {
    var walk := [start] + Positions(l.nodes, path);
    hide CostTo, WalkCost, LegalMove, MoveCost, Kept, Chain;
    forall i, j | 0 <= i < j < |walk| && LegalMove(w, walk[i], walk[j])
      ensures CostTo(w, walk, j) <= CostTo(w, walk, i) + MoveCost(w, walk[i], walk[j])
    {
      ScoreIsCostSoFar(w, l, start, path, i);
      ScoreIsCostSoFar(w, l, start, path, j);
      var y :| 0 <= y < |order| && order[y] == HexOffset(walk[j]);
      ChainFollowsOrder(w, l, start, path, order, i, j, y);
      assert ClosedAfter(w, l, start, order[..y], order[y]);
    }
  }
}
