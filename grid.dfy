/** The `int32` grid the pathfinder reads (row-major, `height * width`
    cells), the four moves it tries, and the notion of a route the search
    results are measured against. */
module Grids {
  import opened CellTypes
  import opened Positions

  /** The directions of `calculateShortestSubpath`, in the order tried. */
  datatype Direction = Up | Right | Down | Left

  /** `std::optional<Direction>` on a queue entry: a position reached on
      ice carries the direction it was entered in. */
  datatype Lock = Free | Locked(dir: Direction)

  function Step(p: Position, d: Direction): Position {
    match d
    case Up => Position(p.row - 1, p.col)
    case Right => Position(p.row, p.col + 1)
    case Down => Position(p.row + 1, p.col)
    case Left => Position(p.row, p.col - 1)
  }

  /** `q` is one of the four neighbours of `p`. */
  predicate Adjacent(p: Position, q: Position) {
    q == Step(p, Up) || q == Step(p, Right) || q == Step(p, Down) || q == Step(p, Left)
  }

  /** The direction of the move from `p` to its neighbour `q`. */
  function DirectionOf(p: Position, q: Position): (d: Direction)
    requires Adjacent(p, q)
    ensures Step(p, d) == q
  {
    if q == Step(p, Up) then Up
    else if q == Step(p, Right) then Right
    else if q == Step(p, Down) then Down
    else Left
  }

  /** `q` continues the straight line from `before` through `p`. */
  predicate Continues(before: Position, p: Position, q: Position) {
    q.row - p.row == p.row - before.row && q.col - p.col == p.col - before.col
  }

  lemma {:induction false} LinearIndexInRange(height: int, width: int, row: int, col: int)
    requires 0 <= row < height && 0 <= col < width
    ensures 0 <= row * width + col < height * width
  {
    assert row * width <= (height - 1) * width by {
      assert (height - 1) * width - row * width == (height - 1 - row) * width;
    }
    assert (height - 1) * width + width == height * width;
  }

  /** The grid buffer, with its dimensions. */
  datatype Grid = Grid(cells: seq<int>, height: int, width: int) {

    predicate Valid() {
      0 <= height && 0 <= width && |cells| == height * width
    }

    predicate InBounds(p: Position) {
      0 <= p.row < height && 0 <= p.col < width
    }

    /** `grid_[posToLinear(row, col)]`, row-major. */
    function At(p: Position): int
      requires Valid() && InBounds(p)
    {
      LinearIndexInRange(height, width, p.row, p.col);
      cells[p.row * width + p.col]
    }

    /** In bounds and neither `kRock` nor `kWall`: a cell the search may enter. */
    predicate Walkable(p: Position)
      requires Valid()
    {
      InBounds(p) && At(p) != kRock && At(p) != kWall
    }

    ghost predicate NoIce()
      requires Valid()
    {
      forall p :: InBounds(p) ==> At(p) != kIce
    }

    /** The in-bounds positions, as a set a path can be checked against. */
    ghost function Region(): (cells: iset<Position>)
      ensures forall p :: p in cells <==> InBounds(p)
    {
      iset p | InBounds(p)
    }

    /** Every in-bounds position. */
    ghost function AllCells(): (all: set<Position>)
      ensures forall p :: p in all <==> InBounds(p)
    {
      set r, c | 0 <= r < height && 0 <= c < width :: Position(r, c)
    }
  }

  /** A walk that leaves `start` and moves one neighbour at a time through
      cells the search may enter (the start cell itself is not part of it). */
  ghost predicate IsRoute(g: Grid, start: Position, rt: seq<Position>)
    requires g.Valid()
  {
    && |rt| > 0
    && Adjacent(start, rt[0])
    && (forall j :: 0 <= j < |rt| ==> g.Walkable(rt[j]))
    && (forall j :: 0 < j < |rt| ==> Adjacent(rt[j - 1], rt[j]))
  }

  /** A route from `start` that ends on a `destinationType` cell. */
  ghost predicate Reaches(g: Grid, destinationType: int, start: Position, rt: seq<Position>)
    requires g.Valid()
  {
    IsRoute(g, start, rt) && g.At(rt[|rt| - 1]) == destinationType
  }

  /** The walk ends on a `destinationType` cell and meets none before. */
  ghost predicate ArrivesFirst(g: Grid, destinationType: int, rt: seq<Position>)
    requires g.Valid() && forall j :: 0 <= j < |rt| ==> g.InBounds(rt[j])
  {
    && |rt| > 0
    && g.At(rt[|rt| - 1]) == destinationType
    && (forall j :: 0 <= j < |rt| - 1 ==> g.At(rt[j]) != destinationType)
  }

  /** The cell of the walk just before index `j`. */
  function Before(start: Position, rt: seq<Position>, j: int): Position
    requires 0 <= j < |rt|
  {
    if j == 0 then start else rt[j - 1]
  }

  /** A route without its last cell is a route again, when it is not empty. */
  lemma RouteFront(g: Grid, start: Position, rt: seq<Position>)
    requires g.Valid() && IsRoute(g, start, rt)
    ensures rt == rt[..|rt| - 1] + [rt[|rt| - 1]]
    ensures |rt| > 1 ==> IsRoute(g, start, rt[..|rt| - 1])
  {
  }

  /** Ice lock: from every ice cell of the walk (except the last), the walk
      goes on in the direction it entered that cell. */
  ghost predicate IceSlides(g: Grid, start: Position, rt: seq<Position>)
    requires g.Valid() && forall j :: 0 <= j < |rt| ==> g.InBounds(rt[j])
  {
    forall j :: 0 <= j < |rt| - 1 && g.At(rt[j]) == kIce ==> Continues(Before(start, rt, j), rt[j], rt[j + 1])
  }
}
