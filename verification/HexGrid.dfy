/** The offset hex grid of the path policy: neighbours, hex distance, and the proof that the
    distance formula is exactly the least number of neighbour hops. */
module HexGrid {
  import opened CArithmetic

  datatype Point = Point(x: int, y: int)

  /** The largest map the server allocates is 1000 by 1000 hexes. */
  const MAPX: nat := 1000
  const MAPY: nat := 1000

  /** `x & 1` of a two's-complement integer: 1 for every odd x, negative ones included. */
  function Parity(x: int): int {
    x % 2
  }

  /** The three cube coordinates of an offset point; they always sum to zero. */
  function CubeZ(p: Point): int {
    p.y - (p.x - Parity(p.x)) / 2
  }

  function CubeY(p: Point): int {
    -p.x - CubeZ(p)
  }

  function Distance(left: Point, right: Point): int {
    (Abs(left.x - right.x) + Abs(CubeY(left) - CubeY(right)) + Abs(CubeZ(left) - CubeZ(right))) / 2
  }

  const DIRECTIONS: nat := 6

  function Neighbor(p: Point, direction: int): Point {
    var odd := Parity(p.x) != 0;
    match direction
    case 0 => Point(p.x + 1, p.y + if odd then 1 else 0)
    case 1 => Point(p.x, p.y + 1)
    case 2 => Point(p.x - 1, p.y + if odd then 1 else 0)
    case 3 => Point(p.x - 1, p.y - if odd then 0 else 1)
    case 4 => Point(p.x, p.y - 1)
    case _ => Point(p.x + 1, p.y - if odd then 0 else 1)
  }

  /** The unit vector of a direction in cube coordinates (x and z). */
  function UnitX(direction: int): int {
    match direction case 0 => 1 case 1 => 0 case 2 => -1 case 3 => -1 case 4 => 0 case _ => 1
  }

  function UnitZ(direction: int): int {
    match direction case 0 => 0 case 1 => 1 case 2 => 1 case 3 => 0 case 4 => -1 case _ => -1
  }

  /** In cube coordinates a hop adds the same vector in every column, whatever its parity. */
  lemma NeighborIsUnitStep(p: Point, direction: int)
    ensures Neighbor(p, direction).x == p.x + UnitX(direction)
    ensures CubeZ(Neighbor(p, direction)) == CubeZ(p) + UnitZ(direction)
  {
  }

  /** Twice the distance is the cube L1 distance: the division in `Distance` is exact. */
  lemma DistanceIsHalfL1(p: Point, q: Point)
    ensures 2 * Distance(p, q)
         == Abs(p.x - q.x) + Abs(CubeY(p) - CubeY(q)) + Abs(CubeZ(p) - CubeZ(q))
    ensures Distance(p, q) >= 0
    ensures Distance(p, q) == 0 <==> p == q
  {
    var a, b := p.x - q.x, CubeZ(p) - CubeZ(q);
    assert CubeY(p) - CubeY(q) == -(a + b);
  }

  lemma TriangleInequality(p: Point, q: Point, r: Point)
    ensures Distance(p, r) <= Distance(p, q) + Distance(q, r)
  {
    DistanceIsHalfL1(p, q);
    DistanceIsHalfL1(q, r);
    DistanceIsHalfL1(p, r);
    assert Abs(p.x - r.x) <= Abs(p.x - q.x) + Abs(q.x - r.x);
    assert Abs(CubeY(p) - CubeY(r)) <= Abs(CubeY(p) - CubeY(q)) + Abs(CubeY(q) - CubeY(r));
    assert Abs(CubeZ(p) - CubeZ(r)) <= Abs(CubeZ(p) - CubeZ(q)) + Abs(CubeZ(q) - CubeZ(r));
  }

  /** Every hop has a hop back, so the neighbour relation is symmetric. */
  lemma NeighborIsSymmetric(p: Point, direction: nat)
    requires direction < DIRECTIONS
    ensures Neighbor(Neighbor(p, direction), (direction + 3) % 6) == p
  {
    var q := Neighbor(p, direction);
    var back := (direction + 3) % 6;
    NeighborIsUnitStep(p, direction);
    NeighborIsUnitStep(q, back);
    assert Neighbor(q, back).x == p.x && CubeZ(Neighbor(q, back)) == CubeZ(p);
  }

  /** One hop changes the distance to any point by at most one. */
  lemma HopChangesDistanceByAtMostOne(p: Point, direction: int, goal: Point)
    ensures Distance(p, goal) - 1 <= Distance(Neighbor(p, direction), goal) <= Distance(p, goal) + 1
  {
    NeighborIsUnitStep(p, direction);
    DistanceIsHalfL1(p, goal);
    DistanceIsHalfL1(Neighbor(p, direction), goal);
  }

  /** q is exactly n neighbour hops away from p along some hop sequence. */
  ghost predicate Hops(p: Point, q: Point, n: nat)
    decreases n
  {
    if n == 0 then p == q
    else exists direction: nat :: direction < DIRECTIONS && Hops(Neighbor(p, direction), q, n - 1)
  }

  /** The direction of a hop that brings p nearer to q. */
  function Towards(p: Point, q: Point): (direction: nat)
    requires p != q
    ensures direction < DIRECTIONS
    ensures Distance(Neighbor(p, direction), q) == Distance(p, q) - 1
  {
    var x, y, z := q.x - p.x, CubeY(q) - CubeY(p), CubeZ(q) - CubeZ(p);
    var direction :=
      if x > 0 && y < 0 then 0
      else if z > 0 && y < 0 then 1
      else if x < 0 && z > 0 then 2
      else if x < 0 && y > 0 then 3
      else if z < 0 && y > 0 then 4
      else 5;
    NeighborIsUnitStep(p, direction);
    DistanceIsHalfL1(p, q);
    DistanceIsHalfL1(Neighbor(p, direction), q);
    direction
  }

  lemma {:induction false} DistanceIsReached(p: Point, q: Point)
    ensures Distance(p, q) >= 0 && Hops(p, q, Distance(p, q))
    decreases Distance(p, q)
  {
    DistanceIsHalfL1(p, q);
    if p != q {
      DistanceIsReached(Neighbor(p, Towards(p, q)), q);
    }
  }

  lemma {:induction false} HopsAreAtLeastDistance(p: Point, q: Point, n: nat)
    requires Hops(p, q, n)
    ensures Distance(p, q) <= n
    decreases n
  {
    DistanceIsHalfL1(p, q);
    if n > 0 {
      var direction: nat :| direction < DIRECTIONS && Hops(Neighbor(p, direction), q, n - 1);
      HopsAreAtLeastDistance(Neighbor(p, direction), q, n - 1);
      HopChangesDistanceByAtMostOne(p, direction, q);
    }
  }

  /** The distance formula is the graph metric of the unbounded grid. */
  lemma DistanceIsLeastHopCount(p: Point, q: Point)
    ensures Distance(p, q) >= 0 && Hops(p, q, Distance(p, q))
    ensures forall n: nat :: Hops(p, q, n) ==> Distance(p, q) <= n
  {
    DistanceIsReached(p, q);
    forall n: nat | Hops(p, q, n) ensures Distance(p, q) <= n {
      HopsAreAtLeastDistance(p, q, n);
    }
  }

  /** Inside a width by height rectangle no two points are further apart than width + height. */
  lemma DistanceInRectangle(p: Point, q: Point, width: nat, height: nat)
    requires 0 <= p.x < width && 0 <= q.x < width && 0 <= p.y < height && 0 <= q.y < height
    ensures 0 <= Distance(p, q) <= width + height
  {
    DistanceIsHalfL1(p, q);
  }
}
