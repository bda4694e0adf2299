/** The candidate-move generator (src/gomoku/ai/rules.py). */
module Rules {
  import opened Wrappers
  import opened Grids
  import opened Players
  import opened Boards

  /** Bounds min_row, max_row, min_col, max_col, all inclusive. */
  datatype Box = Box(minRow: int, maxRow: int, minCol: int, maxCol: int)

  /** One step of the bounds scan: the first stone sets the box, later ones widen it. */
  function Include(b: Option<Box>, i: int, j: int): Box {
    match b
    case None => Box(i, i, j, j)
    case Some(x) => Box(Min(x.minRow, i), Max(x.maxRow, i), Min(x.minCol, j), Max(x.maxCol, j))
  }

  function Min(a: int, b: int): int { if a <= b then a else b }
  function Max(a: int, b: int): int { if a >= b then a else b }

  /** A scan position: row i, column j, or the end (N, 0). */
  predicate ScanPos(i: int, j: int) {
    (0 <= i < N && 0 <= j <= N) || (i == N && j == 0)
  }

  /** Cell (a, b) precedes position (i, j) in row-major order. */
  predicate Before(a: int, b: int, i: int, j: int) {
    a < i || (a == i && b < j)
  }

  /** A stone at (a, b) that the scan has passed by position (i, j). */
  predicate StoneBefore(g: Grid, a: int, b: int, i: int, j: int) {
    InBounds(a, b) && Before(a, b, i, j) && g[a][b] != 0
  }

  predicate BoxInBounds(x: Box) {
    0 <= x.minRow <= x.maxRow < N && 0 <= x.minCol <= x.maxCol < N
  }

  /** The bounds after the nested loops have visited every cell before (i, j). */
  function ScanBox(g: Grid, i: int, j: int): (r: Option<Box>)
    requires ScanPos(i, j)
    ensures r.Some? ==> BoxInBounds(r.value)
    decreases i, j
  {
    if j == 0 then (if i == 0 then None else ScanBox(g, i - 1, N))
    else
      var a := ScanBox(g, i, j - 1);
      if g[i][j - 1] != 0 then Some(Include(a, i, j - 1)) else a
  }

  /** The bounds of all stones, or None on an empty board. */
  function BoundingBox(g: Grid): (r: Option<Box>)
    ensures r.Some? ==> BoxInBounds(r.value)
  {
    ScanBox(g, |g|, 0)
  }

  /** The box holds every stone passed so far. */
  ghost predicate Encloses(g: Grid, x: Box, i: int, j: int) {
    forall a, b :: StoneBefore(g, a, b, i, j) ==> x.minRow <= a <= x.maxRow && x.minCol <= b <= x.maxCol
  }

  /** Each side of the box is attained by a stone passed so far. */
  ghost predicate Touches(g: Grid, x: Box, i: int, j: int) {
    && (exists a, b :: StoneBefore(g, a, b, i, j) && a == x.minRow)
    && (exists a, b :: StoneBefore(g, a, b, i, j) && a == x.maxRow)
    && (exists a, b :: StoneBefore(g, a, b, i, j) && b == x.minCol)
    && (exists a, b :: StoneBefore(g, a, b, i, j) && b == x.maxCol)
  }

  /** The scan up to (i, j) has found exactly the bounding box of the stones passed, or None when there are none. */
  ghost predicate Tight(g: Grid, i: int, j: int)
    requires ScanPos(i, j)
  {
    && (ScanBox(g, i, j).None? <==> forall a, b :: !StoneBefore(g, a, b, i, j))
    && (ScanBox(g, i, j).Some? ==> Encloses(g, ScanBox(g, i, j).value, i, j) && Touches(g, ScanBox(g, i, j).value, i, j))
  }

  /** The scanned bounds are exactly the bounding box of the stones passed. */
  lemma {:induction false} ScanBoxTight(g: Grid, i: int, j: int)
    requires ScanPos(i, j)
    ensures ScanBox(g, i, j).None? <==> forall a, b :: !StoneBefore(g, a, b, i, j)
    ensures ScanBox(g, i, j).Some? ==> Encloses(g, ScanBox(g, i, j).value, i, j) && Touches(g, ScanBox(g, i, j).value, i, j)
    decreases i, j
  {
    if j == 0 {
      if i > 0 {
        ScanBoxTight(g, i - 1, N);
        TightNextRow(g, i);
      }
    } else {
      ScanBoxTight(g, i, j - 1);
      TightNextCell(g, i, j);
    }
  }

  /** Moving from the end of row i - 1 to the start of row i passes no new cell. */
  lemma TightNextRow(g: Grid, i: int)
    requires 0 < i <= N && Tight(g, i - 1, N)
    ensures Tight(g, i, 0)
  {
    assert forall a, b :: StoneBefore(g, a, b, i, 0) <==> StoneBefore(g, a, b, i - 1, N);
    if ScanBox(g, i, 0).Some? {
      TouchesMoves(g, ScanBox(g, i, 0).value, i - 1, N, i, 0);
    }
  }

  /** Passing cell (i, j - 1) widens the bounds by it exactly when it holds a stone. */
  lemma TightNextCell(g: Grid, i: int, j: int)
    requires 0 <= i < N && 0 < j <= N && Tight(g, i, j - 1)
    ensures Tight(g, i, j)
  {
    if g[i][j - 1] != 0 {
      TightNextStone(g, i, j);
    } else {
      TightNextEmpty(g, i, j);
    }
  }

  /** Passing an empty cell changes neither the stones passed nor the bounds. */
  lemma TightNextEmpty(g: Grid, i: int, j: int)
    requires 0 <= i < N && 0 < j <= N && Tight(g, i, j - 1) && g[i][j - 1] == 0
    ensures Tight(g, i, j)
  {
    var prev := ScanBox(g, i, j - 1);
    assert ScanBox(g, i, j) == prev;
    assert forall a, b :: StoneBefore(g, a, b, i, j) <==> StoneBefore(g, a, b, i, j - 1);
    if prev.Some? {
      TouchesMoves(g, prev.value, i, j - 1, i, j);
    }
  }

  /** Passing a stone widens the bounds by it, or starts them at it. */
  lemma TightNextStone(g: Grid, i: int, j: int)
    requires 0 <= i < N && 0 < j <= N && Tight(g, i, j - 1) && g[i][j - 1] != 0
    ensures Tight(g, i, j)
  {
    var prev := ScanBox(g, i, j - 1);
    assert ScanBox(g, i, j) == Some(Include(prev, i, j - 1));
    assert StoneBefore(g, i, j - 1, i, j);
    assert forall a, b :: StoneBefore(g, a, b, i, j) <==> StoneBefore(g, a, b, i, j - 1) || (a == i && b == j - 1);
    if prev.Some? {
      TouchesMoves(g, prev.value, i, j - 1, i, j);
      TouchesInclude(g, prev.value, i, j);
    }
  }

  /** Stones passed earlier are still passed later. */
  lemma TouchesMoves(g: Grid, x: Box, i: int, j: int, i': int, j': int)
    requires Touches(g, x, i, j)
    requires forall a, b :: StoneBefore(g, a, b, i, j) ==> StoneBefore(g, a, b, i', j')
    ensures Touches(g, x, i', j')
  {
    var a1, b1 :| StoneBefore(g, a1, b1, i, j) && a1 == x.minRow;
    var a2, b2 :| StoneBefore(g, a2, b2, i, j) && a2 == x.maxRow;
    var a3, b3 :| StoneBefore(g, a3, b3, i, j) && b3 == x.minCol;
    var a4, b4 :| StoneBefore(g, a4, b4, i, j) && b4 == x.maxCol;
    assert StoneBefore(g, a1, b1, i', j') && StoneBefore(g, a2, b2, i', j');
    assert StoneBefore(g, a3, b3, i', j') && StoneBefore(g, a4, b4, i', j');
  }

  /** Widening by the stone at (i, j - 1) keeps every side attained. */
  lemma TouchesInclude(g: Grid, p: Box, i: int, j: int)
    requires 0 <= i < N && 0 < j <= N && g[i][j - 1] != 0
    requires Touches(g, p, i, j)
    ensures Touches(g, Include(Some(p), i, j - 1), i, j)
  {
    var x := Include(Some(p), i, j - 1);
    assert StoneBefore(g, i, j - 1, i, j);
  }

  /** The bounds grown by 2 on each side and clipped to the board. */
  function Grow(x: Box): Box {
    Box(Max(0, x.minRow - 2), Min(N - 1, x.maxRow + 2), Max(0, x.minCol - 2), Min(N - 1, x.maxCol + 2))
  }

  /** `_get_constrained_moves`, as a value. */
  function ConstrainedMoves(g: Grid): seq<Move> {
    match BoundingBox(g)
    case None => EmptyCellsIn(g, 0, |g|, 0, |g|)
    case Some(x) =>
      var e := Grow(x);
      EmptyCellsIn(g, e.minRow, e.maxRow + 1, e.minCol, e.maxCol + 1)
  }

  ghost predicate HasStones(g: Grid) {
    exists a, b :: InBounds(a, b) && g[a][b] != 0
  }

  /**
   * Within two rows and two columns of the stones: some stone's row is at most
   * two below and some at most two above, and likewise for columns.
   */
  ghost predicate NearStones(g: Grid, m: Move) {
    && (exists a, b :: InBounds(a, b) && g[a][b] != 0 && a <= m.0 + 2)
    && (exists a, b :: InBounds(a, b) && g[a][b] != 0 && a >= m.0 - 2)
    && (exists a, b :: InBounds(a, b) && g[a][b] != 0 && b <= m.1 + 2)
    && (exists a, b :: InBounds(a, b) && g[a][b] != 0 && b >= m.1 - 2)
  }

  /** Being near the stones is being inside their grown bounding box. */
  lemma NearIffInGrown(g: Grid, x: Box, m: Move)
    requires Encloses(g, x, N, 0) && Touches(g, x, N, 0)
    requires InBounds(m.0, m.1)
    ensures NearStones(g, m) <==>
      Grow(x).minRow <= m.0 <= Grow(x).maxRow && Grow(x).minCol <= m.1 <= Grow(x).maxCol
  {
    var a1, b1 :| StoneBefore(g, a1, b1, N, 0) && a1 == x.minRow;
    var a2, b2 :| StoneBefore(g, a2, b2, N, 0) && a2 == x.maxRow;
    var a3, b3 :| StoneBefore(g, a3, b3, N, 0) && b3 == x.minCol;
    var a4, b4 :| StoneBefore(g, a4, b4, N, 0) && b4 == x.maxCol;
    if NearStones(g, m) {
      var c1, d1 :| InBounds(c1, d1) && g[c1][d1] != 0 && c1 <= m.0 + 2;
      var c2, d2 :| InBounds(c2, d2) && g[c2][d2] != 0 && c2 >= m.0 - 2;
      var c3, d3 :| InBounds(c3, d3) && g[c3][d3] != 0 && d3 <= m.1 + 2;
      var c4, d4 :| InBounds(c4, d4) && g[c4][d4] != 0 && d4 >= m.1 - 2;
      assert StoneBefore(g, c1, d1, N, 0) && StoneBefore(g, c2, d2, N, 0);
      assert StoneBefore(g, c3, d3, N, 0) && StoneBefore(g, c4, d4, N, 0);
    }
  }

  /**
   * The generator returns exactly the empty cells of the board when it holds
   * no stone, and otherwise exactly the empty cells within two rows and two
   * columns of the stones (their bounding box grown by two and clipped);
   * each once, in row-major order.
   */
  lemma ConstrainedMovesExact(g: Grid)
    ensures forall m :: m in ConstrainedMoves(g) <==>
      InBounds(m.0, m.1) && g[m.0][m.1] == 0 && (!HasStones(g) || NearStones(g, m))
    ensures RowMajorSorted(ConstrainedMoves(g))
    ensures !HasStones(g) ==> |ConstrainedMoves(g)| == N * N
  {
    if HasStones(g) {
      MovesNearStones(g);
    } else {
      MovesWithoutStones(g);
      NoStonesNoBox(g);
      EmptyBoardAllCells(g);
    }
  }

  /** On a board with stones the generator lists the empty cells near them. */
  lemma MovesNearStones(g: Grid)
    requires HasStones(g)
    ensures forall m :: m in ConstrainedMoves(g) <==> InBounds(m.0, m.1) && g[m.0][m.1] == 0 && NearStones(g, m)
    ensures RowMajorSorted(ConstrainedMoves(g))
  {
    var x := StonesBox(g);
    var e := Grow(x);
    assert ConstrainedMoves(g) == EmptyCellsIn(g, e.minRow, e.maxRow + 1, e.minCol, e.maxCol + 1);
    GrownCellsExact(g, x);
  }

  /** With stones on the board the scan finds their bounding box. */
  lemma StonesBox(g: Grid) returns (x: Box)
    requires HasStones(g)
    ensures BoundingBox(g) == Some(x)
    ensures BoxInBounds(x) && Encloses(g, x, N, 0) && Touches(g, x, N, 0)
  {
    ScanBoxTight(g, |g|, 0);
    var a, b :| InBounds(a, b) && g[a][b] != 0;
    assert StoneBefore(g, a, b, N, 0);
    x := BoundingBox(g).value;
  }

  /** The comprehension over a box lists exactly its empty cells, in row-major order. */
  lemma BoxCellsExact(g: Grid, e: Box)
    requires BoxInBounds(e)
    ensures forall m :: m in EmptyCellsIn(g, e.minRow, e.maxRow + 1, e.minCol, e.maxCol + 1) <==>
      e.minRow <= m.0 <= e.maxRow && e.minCol <= m.1 <= e.maxCol && g[m.0][m.1] == 0
    ensures RowMajorSorted(EmptyCellsIn(g, e.minRow, e.maxRow + 1, e.minCol, e.maxCol + 1))
  {
    EmptyCellsInExact(g, e.minRow, e.maxRow + 1, e.minCol, e.maxCol + 1);
  }

  /** The empty cells of the grown box are the empty cells near the stones, in row-major order. */
  lemma GrownCellsExact(g: Grid, x: Box)
    requires BoxInBounds(x) && Encloses(g, x, N, 0) && Touches(g, x, N, 0)
    ensures var e := Grow(x);
      forall m :: m in EmptyCellsIn(g, e.minRow, e.maxRow + 1, e.minCol, e.maxCol + 1) <==>
        InBounds(m.0, m.1) && g[m.0][m.1] == 0 && NearStones(g, m)
    ensures var e := Grow(x); RowMajorSorted(EmptyCellsIn(g, e.minRow, e.maxRow + 1, e.minCol, e.maxCol + 1))
  {
    var e := Grow(x);
    BoxCellsExact(g, e);
    forall m: Move | InBounds(m.0, m.1)
      ensures NearStones(g, m) <==> e.minRow <= m.0 <= e.maxRow && e.minCol <= m.1 <= e.maxCol
    {
      NearIffInGrown(g, x, m);
    }
  }

  /** On a board without stones the generator lists every cell. */
  lemma MovesWithoutStones(g: Grid)
    requires !HasStones(g)
    ensures forall m :: m in ConstrainedMoves(g) <==> InBounds(m.0, m.1) && g[m.0][m.1] == 0
    ensures RowMajorSorted(ConstrainedMoves(g))
  {
    NoStonesNoBox(g);
    AllCellsExact(g);
  }

  /** Without stones the scan finds no bounds, and the generator falls back to the whole board. */
  lemma NoStonesNoBox(g: Grid)
    requires !HasStones(g)
    ensures BoundingBox(g).None?
    ensures ConstrainedMoves(g) == EmptyCellsIn(g, 0, |g|, 0, |g|)
  {
    ScanBoxTight(g, |g|, 0);
  }

  /** With no stone the grid is the empty grid, whose N * N cells are all listed. */
  lemma EmptyBoardAllCells(g: Grid)
    requires !HasStones(g)
    ensures |EmptyCellsIn(g, 0, |g|, 0, |g|)| == N * N
  {
    var e := EmptyGrid();
    assert forall i :: 0 <= i < N ==> g[i] == e[i];
    assert g == e;
    RowCount(g, N);
  }

  /** On the empty grid the first r rows list r * N cells. */
  lemma {:induction false} RowCount(g: Grid, r: int)
    requires 0 <= r <= N
    requires g == EmptyGrid()
    ensures |EmptyCellsIn(g, 0, r, 0, N)| == r * N
  {
    if r > 0 {
      RowCount(g, r - 1);
      RowCellsCount(g, r - 1, N);
    }
  }

  lemma {:induction false} RowCellsCount(g: Grid, i: int, c: int)
    requires 0 <= i < N && 0 <= c <= N
    requires g == EmptyGrid()
    ensures |EmptyInRow(g, i, 0, c)| == c
  {
    if c > 0 {
      RowCellsCount(g, i, c - 1);
    }
  }

  /** The White opening candidates, (7,8) then (8,8). */
  const WhiteOpenings: seq<Move> := [(7, 8), (8, 8)]

  /** The empty members of the candidate list, in its order. */
  function EmptyAmong(g: Grid, cands: seq<Move>): (r: seq<Move>)
    requires forall m :: m in cands ==> InBounds(m.0, m.1)
    ensures forall m :: m in r <==> m in cands && InBounds(m.0, m.1) && g[m.0][m.1] == 0
    ensures |r| <= |cands|
  {
    if |cands| == 0 then []
    else
      var front := EmptyAmong(g, cands[..|cands| - 1]);
      var m := cands[|cands| - 1];
      assert m in cands;
      assert InBounds(m.0, m.1);
      assert forall c :: c in cands <==> c in cands[..|cands| - 1] || c == m;
      front + (if g[m.0][m.1] == 0 then [m] else [])
  }

  class GameRules {
    /** The shared board the generator reads. */
    const board: Board
    var firstMovePlayed: bool
    var firstWhiteMovePlayed: bool

    /** `GameRules(board)`: both opening flags false. */
    constructor (board: Board)
      ensures this.board == board
      ensures !firstMovePlayed && !firstWhiteMovePlayed
    {
      this.board := board;
      firstMovePlayed := false;
      firstWhiteMovePlayed := false;
    }

    /**
     * `_get_constrained_moves`: the bounds scan over every cell, then the empty
     * cells of the grown box (or of the whole board when there is no stone).
     */
    method GetConstrainedMoves() returns (moves: seq<Move>)
      requires board.Valid()
      ensures moves == ConstrainedMoves(board.Cells())
    {
      ghost var g := board.Cells();
      var bounds: Option<Box> := None;
      var i := 0;
      while i < N
        invariant 0 <= i <= N
        invariant bounds == ScanBox(g, i, 0)
      {
        var j := 0;
        while j < N
          invariant 0 <= j <= N
          invariant bounds == ScanBox(g, i, j)
        {
          if board.grid[i, j] != 0 {
            if bounds.None? {
              bounds := Some(Box(i, i, j, j));
            } else {
              var x := bounds.value;
              bounds := Some(Box(Min(x.minRow, i), Max(x.maxRow, i), Min(x.minCol, j), Max(x.maxCol, j)));
            }
          }
          j := j + 1;
        }
        i := i + 1;
      }
      if bounds.None? {
        var cells := board.Cells();
        return EmptyCellsIn(cells, 0, |cells|, 0, |cells|);
      }
      var x := bounds.value;
      var minRow := Max(0, x.minRow - 2);
      var maxRow := Min(N - 1, x.maxRow + 2);
      var minCol := Max(0, x.minCol - 2);
      var maxCol := Min(N - 1, x.maxCol + 2);
      moves := EmptyCellsIn(board.Cells(), minRow, maxRow + 1, minCol, maxCol + 1);
    }

    /**
     * `get_valid_moves` with `self.board.current_player` standing as the left
     * operand of the two `==` tests: the Black opening when the operand equals 1
     * and the flag is clear, the White opening when it equals 2 and its flag is
     * clear, otherwise the constrained moves.
     */
    method GetValidMovesFor(current: Operand) returns (moves: seq<Move>)
      requires board.Valid()
      modifies this
      ensures !old(firstMovePlayed) && PyEquals(current, IntOperand(1)) ==>
        moves == [(7, 7)] && firstMovePlayed && firstWhiteMovePlayed == old(firstWhiteMovePlayed)
      ensures !(!old(firstMovePlayed) && PyEquals(current, IntOperand(1))) &&
              !old(firstWhiteMovePlayed) && PyEquals(current, IntOperand(2)) ==>
        moves == EmptyAmong(board.Cells(), WhiteOpenings) &&
        firstWhiteMovePlayed && firstMovePlayed == old(firstMovePlayed)
      ensures !(!old(firstMovePlayed) && PyEquals(current, IntOperand(1))) &&
              !(!old(firstWhiteMovePlayed) && PyEquals(current, IntOperand(2))) ==>
        moves == ConstrainedMoves(board.Cells()) &&
        firstMovePlayed == old(firstMovePlayed) && firstWhiteMovePlayed == old(firstWhiteMovePlayed)
    {
      if !firstMovePlayed && PyEquals(current, IntOperand(1)) {
        firstMovePlayed := true;
        return [(7, 7)];
      }
      if !firstWhiteMovePlayed && PyEquals(current, IntOperand(2)) {
        firstWhiteMovePlayed := true;
        moves := [];
        var k := 0;
        while k < |WhiteOpenings|
          invariant 0 <= k <= |WhiteOpenings|
          invariant moves == EmptyAmong(board.Cells(), WhiteOpenings[..k])
        {
          var m := WhiteOpenings[k];
          assert WhiteOpenings[..k + 1][..k] == WhiteOpenings[..k];
          if board.grid[m.0, m.1] == 0 {
            moves := moves + [m];
          }
          k := k + 1;
        }
        assert WhiteOpenings[..k] == WhiteOpenings;
        return;
      }
      moves := GetConstrainedMoves();
    }

    /**
     * `get_valid_moves` as the search calls it: `current_player` is a Player,
     * which never equals an int, so neither opening fires, the flags stay as
     * they were and the result is the constrained move list.
     */
    method GetValidMoves() returns (moves: seq<Move>)
      requires board.Valid()
      modifies this
      ensures moves == ConstrainedMoves(board.Cells())
      ensures firstMovePlayed == old(firstMovePlayed) && firstWhiteMovePlayed == old(firstWhiteMovePlayed)
    {
      PlayerNeverEqualsInt(board.currentPlayer, 1);
      PlayerNeverEqualsInt(board.currentPlayer, 2);
      moves := GetValidMovesFor(PlayerOperand(board.currentPlayer));
    }
  }
}
