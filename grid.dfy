/**
  Geometry of the 10 x 10 board shared by the environment, its observation
  encoding and its reward rules: cells, bounds, and the two distances the
  environment uses (Manhattan, and squared Euclidean in place of a norm).
*/
module Grid {

  /** Side of the square board (`grid_size`). */
  const GridSize: int := 10

  /** Number of monsters placed by every reset. */
  const MonsterCount: int := 3

  /** A cell of the board, `[row, col]`. */
  datatype Pos = Pos(row: int, col: int)

  predicate InBounds(p: Pos) {
    0 <= p.row < GridSize && 0 <= p.col < GridSize
  }

  predicate AllInBounds(cells: seq<Pos>) {
    forall i :: 0 <= i < |cells| ==> InBounds(cells[i])
  }

  function Abs(x: int): (r: nat)
    ensures r == x || r == -x
  {
    if x < 0 then -x else x
  }

  /** L1 distance, `np.linalg.norm(a - b, ord=1)` on integer cells. */
  function Manhattan(a: Pos, b: Pos): (d: nat)
    ensures d == 0 <==> a == b
  {
    Abs(a.row - b.row) + Abs(a.col - b.col)
  }

  /**
    Square of the Euclidean distance.  Comparing these integers orders the
    cells exactly as comparing `np.linalg.norm(a - b)` does, without a
    square root.
  */
  function SqDist(a: Pos, b: Pos): (d: nat)
    ensures d == 0 <==> a == b
  {
    var dr, dc := a.row - b.row, a.col - b.col;
    dr * dr + dc * dc
  }

  function Max(a: int, b: int): (r: int)
    ensures r >= a && r >= b && (r == a || r == b)
  {
    if a < b then b else a
  }

  function Min(a: int, b: int): (r: int)
    ensures r <= a && r <= b && (r == a || r == b)
  {
    if a < b then a else b
  }

  /** `np.clip(x, 0, GridSize - 1)`. */
  function Clip(x: int): (r: int)
    ensures 0 <= r < GridSize
    ensures 0 <= x < GridSize ==> r == x
    ensures x < 0 ==> r == 0
    ensures GridSize <= x ==> r == GridSize - 1
  {
    if x < 0 then 0 else if GridSize - 1 < x then GridSize - 1 else x
  }

  /** Row-major position of a cell in the flattened grid. */
  function Index(p: Pos): (k: int)
    requires InBounds(p)
    ensures 0 <= k < GridSize * GridSize
    ensures k / GridSize == p.row && k % GridSize == p.col
  {
    p.row * GridSize + p.col
  }

  /** Distinct cells occupy distinct slots of the flattened grid. */
  lemma IndexInjective(p: Pos, q: Pos)
    requires InBounds(p) && InBounds(q)
    ensures Index(p) == Index(q) <==> p == q
  {
    if Index(p) == Index(q) {
      assert p.row == Index(p) / GridSize == q.row;
    }
  }
}
