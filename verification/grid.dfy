/** The navigation grid: 4-pixel cells over a 550 x 600 pixel chart, and the
    eight moves a vessel may make from a cell. */
module Grid {

  datatype Cell = Cell(x: int, y: int)

  datatype Offset = Offset(dx: int, dy: int)

  const GridSize: int := 4
  const GridWidth: int := 550
  const GridHeight: int := 600

  /** Number of columns and rows (`GRID_WIDTH // GRID_SIZE`, `GRID_HEIGHT // GRID_SIZE`). */
  const MaxX: int := GridWidth / GridSize
  const MaxY: int := GridHeight / GridSize

  /** The neighbour directions, in the order the neighbour generator tries them:
      the four axis moves, then the four diagonals. */
  const Directions: seq<Offset> :=
    [Offset(0, 1), Offset(1, 0), Offset(0, -1), Offset(-1, 0),
     Offset(1, 1), Offset(-1, -1), Offset(1, -1), Offset(-1, 1)]

  function Move(c: Cell, d: Offset): Cell {
    Cell(c.x + d.dx, c.y + d.dy)
  }

  /** The offset that leads from `a` to `b`. */
  function OffsetBetween(a: Cell, b: Cell): (d: Offset)
    ensures Move(a, d) == b
  {
    Offset(b.x - a.x, b.y - a.y)
  }

  predicate InBounds(c: Cell) {
    0 <= c.x < MaxX && 0 <= c.y < MaxY
  }

  /** The finite set of cells on the chart. */
  function CellsInBounds(): (cells: set<Cell>)
    ensures forall c :: c in cells <==> InBounds(c)
  {
    var cells := set x: int, y: int | 0 <= x < MaxX && 0 <= y < MaxY :: Cell(x, y);
    assert forall c :: InBounds(c) ==> c in cells by {
      forall c | InBounds(c) ensures c in cells {
        assert c == Cell(c.x, c.y);
      }
    }
    cells
  }

  /** The directions are exactly the king moves: one step along either axis
      or both, never standing still. */
  lemma DirectionsAreKingMoves(d: Offset)
    ensures d in Directions <==> -1 <= d.dx <= 1 && -1 <= d.dy <= 1 && d != Offset(0, 0)
  {
  }

  /** No direction is tried twice. */
  lemma DirectionsDistinct()
    ensures |Directions| == 8
    ensures forall i, j :: 0 <= i < j < |Directions| ==> Directions[i] != Directions[j]
  {
  }
}
