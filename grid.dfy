/**
 * The 15x15 grid of cell values shared by the board, the win checker,
 * the move generator and the evaluator, and the row-major enumeration
 * of empty cells that both move lists are built from.
 */
module Grids {

  /** Side length of the board: every board in the program is `Board()`, size 15. */
  const N: nat := 15

  /** A cell holds 0 (empty), 1 (black) or 2 (white). */
  predicate IsCell(x: int) {
    0 <= x <= 2
  }

  predicate IsGrid(g: seq<seq<int>>) {
    |g| == N && forall i :: 0 <= i < |g| ==> |g[i]| == N && forall j :: 0 <= j < N ==> IsCell(g[i][j])
  }

  /** The board as a value: what `board.tolist()` hands to the win checker. */
  type Grid = g: seq<seq<int>> | IsGrid(g) witness seq(N, _ => seq(N, _ => 0))

  /** A move is a (row, column) pair. */
  type Move = (int, int)

  predicate InBounds(r: int, c: int) {
    0 <= r < N && 0 <= c < N
  }

  /** The grid of a new board: every cell 0. */
  function EmptyGrid(): (g: Grid)
    ensures forall i, j :: InBounds(i, j) ==> g[i][j] == 0
  {
    seq(N, _ => seq(N, _ => 0))
  }

  /** The grid with cell (r, c) set to v. */
  function Place(g: Grid, r: int, c: int, v: int): (h: Grid)
    requires InBounds(r, c) && IsCell(v)
    ensures h[r][c] == v
    ensures forall i, j :: InBounds(i, j) && (i != r || j != c) ==> h[i][j] == g[i][j]
  {
    g[r := g[r][c := v]]
  }

  /** Writing back the value a cell already held gives the same grid. */
  lemma PlaceUndo(g: Grid, r: int, c: int, v: int)
    requires InBounds(r, c) && IsCell(v)
    ensures Place(Place(g, r, c, v), r, c, g[r][c]) == g
  {
    var h := Place(Place(g, r, c, v), r, c, g[r][c]);
    assert forall i :: 0 <= i < N ==> h[i] == g[i];
  }

  /** Strict row-major order on cells. */
  predicate RowMajorBefore(a: Move, b: Move) {
    a.0 < b.0 || (a.0 == b.0 && a.1 < b.1)
  }

  /** Listed in strictly increasing row-major order, hence without repetitions. */
  predicate RowMajorSorted(s: seq<Move>) {
    forall p, q :: 0 <= p < q < |s| ==> RowMajorBefore(s[p], s[q])
  }

  /** The empty cells (i, j) with lo <= j < hi, left to right. */
  function EmptyInRow(g: Grid, i: int, lo: int, hi: int): seq<Move>
    requires 0 <= i < N && 0 <= lo && hi <= N
    decreases hi - lo
  {
    if hi <= lo then []
    else EmptyInRow(g, i, lo, hi - 1) + (if g[i][hi - 1] == 0 then [(i, hi - 1)] else [])
  }

  /** A row scan lists exactly the empty cells of its stretch, left to right. */
  lemma {:induction false} EmptyInRowExact(g: Grid, i: int, lo: int, hi: int)
    requires 0 <= i < N && 0 <= lo && hi <= N
    ensures forall m :: m in EmptyInRow(g, i, lo, hi) <==> m.0 == i && lo <= m.1 < hi && g[i][m.1] == 0
    ensures RowMajorSorted(EmptyInRow(g, i, lo, hi))
    decreases hi - lo
  {
    if lo < hi {
      EmptyInRowExact(g, i, lo, hi - 1);
    }
  }

  /** The comprehension `[(i, j) for i in range(r0, r1) for j in range(c0, c1) if cell == 0]`. */
  function EmptyCellsIn(g: Grid, r0: int, r1: int, c0: int, c1: int): seq<Move>
    requires 0 <= r0 && r1 <= N && 0 <= c0 && c1 <= N
    decreases r1 - r0
  {
    if r1 <= r0 then []
    else EmptyCellsIn(g, r0, r1 - 1, c0, c1) + EmptyInRow(g, r1 - 1, c0, c1)
  }

  /** The comprehension lists exactly the empty cells of the rectangle, each once, in row-major order. */
  lemma {:induction false} EmptyCellsInExact(g: Grid, r0: int, r1: int, c0: int, c1: int)
    requires 0 <= r0 && r1 <= N && 0 <= c0 && c1 <= N
    ensures forall m :: m in EmptyCellsIn(g, r0, r1, c0, c1) <==> r0 <= m.0 < r1 && c0 <= m.1 < c1 && g[m.0][m.1] == 0
    ensures RowMajorSorted(EmptyCellsIn(g, r0, r1, c0, c1))
    decreases r1 - r0
  {
    if r0 < r1 {
      var front := EmptyCellsIn(g, r0, r1 - 1, c0, c1);
      var last := EmptyInRow(g, r1 - 1, c0, c1);
      EmptyCellsInExact(g, r0, r1 - 1, c0, c1);
      EmptyInRowExact(g, r1 - 1, c0, c1);
      assert forall p :: 0 <= p < |front| ==> front[p] in front;
      assert forall q :: 0 <= q < |last| ==> last[q] in last;
    }
  }

  /** The whole-board comprehension lists every empty cell, in row-major order. */
  lemma AllCellsExact(g: Grid)
    ensures forall m :: m in EmptyCellsIn(g, 0, |g|, 0, |g|) <==> InBounds(m.0, m.1) && g[m.0][m.1] == 0
    ensures RowMajorSorted(EmptyCellsIn(g, 0, |g|, 0, |g|))
  {
    assert |g| == N;
    EmptyCellsInExact(g, 0, |g|, 0, |g|);
    forall m: Move
      ensures m in EmptyCellsIn(g, 0, |g|, 0, |g|) <==> InBounds(m.0, m.1) && g[m.0][m.1] == 0
    {
    }
  }
}
