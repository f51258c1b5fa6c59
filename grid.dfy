/** The Game 1 grid world: an N x N lattice of cells stored row by row,
    its random cell classification, its reward lookup and its moves. */
module GridWorld {

  /** The kind of a cell, as given by its CSS classes. */
  datatype Cell = Start | Goal | Good | Bad | Neutral

  /** The cell kind `createGrid` gives index `i` of an n x n grid when the
      random draw for that index is `draw`. Index 0 is the start and the
      last index the goal, whatever the draw. */
  function Classify(i: int, n: int, draw: real): Cell {
    if i == 0 then Start
    else if i == n * n - 1 then Goal
    else if draw < 0.3 then Good
    else if draw < 0.45 then Bad
    else Neutral
  }

  /** The reward for entering a cell: 20 for the goal, the cell's stored
      reward otherwise, and 0 for the start cell, which stores none. */
  function RewardOf(c: Cell): int {
    match c
    case Goal => 20
    case Good => 10
    case Bad => -5
    case Neutral => -1
    case Start => 0
  }

  /** A grid as `createGrid` leaves it: one start cell at index 0 and one
      goal cell at the last index. */
  ghost predicate WellFormed(g: seq<Cell>, n: int) {
    2 <= n && |g| == n * n &&
    (forall i :: 0 <= i < |g| ==> (g[i] == Start <==> i == 0)) &&
    (forall i :: 0 <= i < |g| ==> (g[i] == Goal <==> i == n * n - 1))
  }

  /** `createGrid`'s loop: one cell per index, classified by that index's draw. */
  method CreateGrid(n: int, draws: seq<real>) returns (cells: array<Cell>)
    requires 1 <= n
    requires |draws| == n * n
    ensures fresh(cells)
    ensures cells.Length == n * n
    ensures forall i :: 0 <= i < n * n ==> cells[i] == Classify(i, n, draws[i])
  {
    cells := new Cell[n * n];
    var i := 0;
    while i < n * n
      invariant 0 <= i <= n * n
      invariant forall k :: 0 <= k < i ==> cells[k] == Classify(k, n, draws[k])
    {
      cells[i] := Classify(i, n, draws[i]);
      i := i + 1;
    }
  }

  /** A grid generated for a side of at least 2 is well formed, and the
      reward of each inner cell follows its draw: +10 below 0.3, -5 from
      0.3 below 0.45, -1 from 0.45 on. */
  lemma GeneratedGrid(n: int, draws: seq<real>, g: seq<Cell>)
    requires 2 <= n
    requires |draws| == n * n
    requires |g| == n * n
    requires forall i :: 0 <= i < n * n ==> g[i] == Classify(i, n, draws[i])
    ensures WellFormed(g, n)
    ensures RewardOf(g[0]) == 0 && RewardOf(g[n * n - 1]) == 20
    ensures forall i :: 0 < i < n * n - 1 ==>
      (RewardOf(g[i]) == 10 <==> draws[i] < 0.3) &&
      (RewardOf(g[i]) == -5 <==> 0.3 <= draws[i] < 0.45) &&
      (RewardOf(g[i]) == -1 <==> 0.45 <= draws[i])
  {
    assert n * n >= 2 * n >= 4;
  }

  /** Multiplying by a non-negative side keeps the order of rows. */
  lemma MulMonotone(a: int, b: int, n: int)
    requires a <= b && 0 <= n
    ensures a * n <= b * n
  {
    assert b * n - a * n == (b - a) * n;
  }

  /** Row `row`, column `col` is the index row * n + col, and that index
      gives back the row and the column. */
  lemma IndexRowColumn(row: int, col: int, n: int)
    requires 1 <= n && 0 <= col < n
    ensures (row * n + col) / n == row && (row * n + col) % n == col
  {
    var x := row * n + col;
    var q, m := x / n, x % n;
    assert (q - row) * n == col - m by {
      assert q * n + m == row * n + col;
      assert (q - row) * n == q * n - row * n;
    }
    if q - row >= 1 {
      MulMonotone(1, q - row, n);
    } else if q - row <= -1 {
      MulMonotone(q - row, -1, n);
    }
  }

  /** The row-major facts about `pos / n` and `pos % n` that the moves use. */
  lemma RowColumn(pos: int, n: int)
    requires 1 <= n && 0 <= pos < n * n
    ensures pos == (pos / n) * n + pos % n
    ensures 0 <= pos / n < n && 0 <= pos % n < n
    ensures pos / n > 0 <==> pos >= n
    ensures pos / n < n - 1 <==> pos < n * n - n
  {
    var row, col := pos / n, pos % n;
    assert pos == row * n + col;
    assert (n - 1) * n == n * n - n;
    if row >= n {
      MulMonotone(n, row, n);
    }
    if row >= n - 1 {
      MulMonotone(n - 1, row, n);
    } else {
      MulMonotone(row, n - 2, n);
      assert (n - 2) * n == n * n - n - n;
    }
    if row >= 1 {
      MulMonotone(1, row, n);
    }
  }

  /** The distance between two numbers. */
  function Dist(a: int, b: int): nat {
    if a <= b then b - a else a - b
  }

  /** `q` is a cell of the grid one lattice step from `p`: one row up or
      down in the same column, or one column left or right in the same row. */
  ghost predicate Adjacent(p: int, q: int, n: int)
    requires 1 <= n
  {
    0 <= q < n * n && Dist(p / n, q / n) + Dist(p % n, q % n) == 1
  }

  /** `getNewPosition`: action 0 = up, 1 = right, 2 = down, 3 = left. */
  function NewPosition(pos: int, action: int, n: int): int
    requires 1 <= n
  {
    var row, col := pos / n, pos % n;
    var newRow := if action == 0 && row > 0 then row - 1
                  else if action == 2 && row < n - 1 then row + 1
                  else row;
    var newCol := if action == 1 && col < n - 1 then col + 1
                  else if action == 3 && col > 0 then col - 1
                  else col;
    newRow * n + newCol
  }

  /** A move stays on the grid: it is either rejected (the position is kept)
      or lands on a lattice neighbour. Up, right, down and left are -n, +1,
      +n and -1 on the index; a move across an edge, or an action outside
      0..3, keeps the position. */
  lemma NewPositionSpec(pos: int, action: int, n: int)
    requires 1 <= n && 0 <= pos < n * n
    ensures var r := NewPosition(pos, action, n);
      && 0 <= r < n * n
      && (r == pos || Adjacent(pos, r, n))
      && (action == 0 ==> r == (if pos >= n then pos - n else pos))
      && (action == 1 ==> r == (if pos % n < n - 1 then pos + 1 else pos))
      && (action == 2 ==> r == (if pos < n * n - n then pos + n else pos))
      && (action == 3 ==> r == (if pos % n > 0 then pos - 1 else pos))
      && (!(0 <= action < 4) ==> r == pos)
  {
    RowColumn(pos, n);
    var row, col := pos / n, pos % n;
    if action == 0 && row > 0 {
      MoveUp(pos, n);
    } else if action == 2 && row < n - 1 {
      MoveDown(pos, n);
    } else if action == 1 && col < n - 1 {
      MoveSideways(pos, n, 1);
    } else if action == 3 && col > 0 {
      MoveSideways(pos, n, -1);
    } else {
      assert NewPosition(pos, action, n) == row * n + col;
    }
  }

  /** An accepted move up lands one row higher, n indices back. */
  lemma MoveUp(pos: int, n: int)
    requires 1 <= n && n <= pos < n * n
    ensures NewPosition(pos, 0, n) == pos - n && Adjacent(pos, pos - n, n)
  {
    RowColumn(pos, n);
    var row, col := pos / n, pos % n;
    NextRow(row - 1, n);
    IndexRowColumn(row - 1, col, n);
  }

  /** An accepted move down lands one row lower, n indices on. */
  lemma MoveDown(pos: int, n: int)
    requires 1 <= n && 0 <= pos < n * n - n
    ensures NewPosition(pos, 2, n) == pos + n && Adjacent(pos, pos + n, n)
  {
    RowColumn(pos, n);
    var row, col := pos / n, pos % n;
    NextRow(row, n);
    IndexRowColumn(row + 1, col, n);
  }

  /** An accepted move right (d = 1) or left (d = -1) stays in the row. */
  lemma MoveSideways(pos: int, n: int, d: int)
    requires 1 <= n && 0 <= pos < n * n
    requires d == 1 || d == -1
    requires 0 <= pos % n + d < n
    ensures NewPosition(pos, if d == 1 then 1 else 3, n) == pos + d
    ensures Adjacent(pos, pos + d, n)
  {
    RowColumn(pos, n);
    var row, col := pos / n, pos % n;
    IndexRowColumn(row, col + d, n);
    assert row * n + (col + d) == pos + d;
  }

  /** The next row starts n indices further on. */
  lemma NextRow(row: int, n: int)
    ensures (row + 1) * n == row * n + n
  {
  }
}
