/** Five-in-a-row detection through one anchor cell (src/gomoku/board/win_checker.py). */
module WinCheck {
  import opened Grids

  /** The four scan directions: (1,0), (0,1), (1,1), (1,-1). */
  const Directions: seq<(int, int)> := [(1, 0), (0, 1), (1, 1), (1, -1)]

  /** Direction k reversed: the backward scan. */
  function Backward(k: int): (int, int)
    requires 0 <= k < 4
  {
    (-Directions[k].0, -Directions[k].1)
  }

  /** The cell s steps from the anchor along (dr, dc). */
  function Step(row: int, col: int, dr: int, dc: int, s: int): (int, int) {
    (row + dr * s, col + dc * s)
  }

  /** A cell's value, or -1 off the board. */
  function Cell(g: Grid, p: (int, int)): int {
    if InBounds(p.0, p.1) then g[p.0][p.1] else -1
  }

  /** The cell s steps from the anchor along (dr, dc) is on the board and holds v. */
  predicate HoldsAt(g: Grid, row: int, col: int, dr: int, dc: int, v: int, s: int) {
    var p := Step(row, col, dr, dc, s);
    InBounds(p.0, p.1) && g[p.0][p.1] == v
  }

  /**
   * The number of contiguous cells holding v met when stepping from the anchor
   * by (dr, dc), from step i on, stopping after step 4, at the board edge or at
   * the first cell that does not hold v.
   */
  function Run(g: Grid, row: int, col: int, dr: int, dc: int, v: int, i: nat): nat
    decreases 5 - i
  {
    if i > 4 then 0
    else if HoldsAt(g, row, col, dr, dc, v, i) then 1 + Run(g, row, col, dr, dc, v, i + 1)
    else 0
  }

  /** The line through the anchor along direction k reaches five or more. */
  predicate LineWins(g: Grid, row: int, col: int, v: int, k: int)
    requires 0 <= k < 4
  {
    1 + Run(g, row, col, Directions[k].0, Directions[k].1, v, 1) + Run(g, row, col, Backward(k).0, Backward(k).1, v, 1) >= 5
  }

  /** What `check_win` decides. */
  predicate Wins(g: Grid, row: int, col: int, v: int) {
    exists k :: 0 <= k < 4 && LineWins(g, row, col, v, k)
  }

  /**
   * A run is the longest prefix of steps i..4 whose cells hold v: every counted
   * step holds v, and the scan stopped because of the cap or a cell that does not.
   */
  lemma {:induction false} RunIsContiguous(g: Grid, row: int, col: int, dr: int, dc: int, v: int, i: nat)
    requires 1 <= i <= 5
    ensures Run(g, row, col, dr, dc, v, i) <= 5 - i
    ensures forall s :: i <= s < i + Run(g, row, col, dr, dc, v, i) ==> HoldsAt(g, row, col, dr, dc, v, s)
    ensures i + Run(g, row, col, dr, dc, v, i) <= 4 ==>
      !HoldsAt(g, row, col, dr, dc, v, i + Run(g, row, col, dr, dc, v, i))
    decreases 5 - i
  {
    if i <= 4 && HoldsAt(g, row, col, dr, dc, v, i) {
      RunIsContiguous(g, row, col, dr, dc, v, i + 1);
    }
  }

  /** Grids that agree on the cells 1..4 steps from the anchor, both ways, on all four lines. */
  predicate AgreeNear(g: Grid, h: Grid, row: int, col: int) {
    && (forall k, s :: 0 <= k < 4 && 1 <= s <= 4 ==>
         Cell(g, Step(row, col, Directions[k].0, Directions[k].1, s)) ==
           Cell(h, Step(row, col, Directions[k].0, Directions[k].1, s)))
    && (forall k, s :: 0 <= k < 4 && 1 <= s <= 4 ==>
         Cell(g, Step(row, col, Backward(k).0, Backward(k).1, s)) ==
           Cell(h, Step(row, col, Backward(k).0, Backward(k).1, s)))
  }

  lemma {:induction false} RunLocal(g: Grid, h: Grid, row: int, col: int, dr: int, dc: int, v: int, i: nat)
    requires 1 <= i
    requires forall s :: i <= s <= 4 ==> Cell(g, Step(row, col, dr, dc, s)) == Cell(h, Step(row, col, dr, dc, s))
    ensures Run(g, row, col, dr, dc, v, i) == Run(h, row, col, dr, dc, v, i)
    decreases 5 - i
  {
    if i <= 4 {
      assert Cell(g, Step(row, col, dr, dc, i)) == Cell(h, Step(row, col, dr, dc, i));
      RunLocal(g, h, row, col, dr, dc, v, i + 1);
    }
  }

  /** Cells more than four steps from the anchor, or off its four lines, never matter. */
  lemma WinsLocal(g: Grid, h: Grid, row: int, col: int, v: int)
    requires AgreeNear(g, h, row, col)
    ensures Wins(g, row, col, v) == Wins(h, row, col, v)
  {
    forall k | 0 <= k < 4
      ensures LineWins(g, row, col, v, k) == LineWins(h, row, col, v, k)
    {
      RunLocal(g, h, row, col, Directions[k].0, Directions[k].1, v, 1);
      RunLocal(g, h, row, col, Backward(k).0, Backward(k).1, v, 1);
    }
  }

  /** The anchor counts as one stone whatever it holds. */
  lemma AnchorIgnored(g: Grid, row: int, col: int, v: int, x: int)
    requires InBounds(row, col) && IsCell(x)
    ensures Wins(Place(g, row, col, x), row, col, v) == Wins(g, row, col, v)
  {
    var h := Place(g, row, col, x);
    forall k, s | 0 <= k < 4 && 1 <= s <= 4
      ensures Cell(g, Step(row, col, Directions[k].0, Directions[k].1, s)) ==
        Cell(h, Step(row, col, Directions[k].0, Directions[k].1, s))
      ensures Cell(g, Step(row, col, Backward(k).0, Backward(k).1, s)) ==
        Cell(h, Step(row, col, Backward(k).0, Backward(k).1, s))
    {
      var d := Directions[k];
      assert d.0 * s != 0 || d.1 * s != 0;
    }
    WinsLocal(h, g, row, col, v);
  }

  /** The scan of the source, in one direction, counting into `count`. */
  method ScanDirection(g: Grid, row: int, col: int, dr: int, dc: int, v: int) returns (n: nat)
    ensures n == Run(g, row, col, dr, dc, v, 1)
  {
    n := 0;
    var i := 1;
    while i < 5
      invariant 1 <= i <= 5
      invariant n + Run(g, row, col, dr, dc, v, i) == Run(g, row, col, dr, dc, v, 1)
    {
      var r, c := row + dr * i, col + dc * i;
      assert (r, c) == Step(row, col, dr, dc, i);
      if 0 <= r < N && 0 <= c < N {
        if g[r][c] == v {
          n := n + 1;
        } else {
          break;
        }
      } else {
        break;
      }
      i := i + 1;
    }
  }

  /** `check_win`: true iff some direction has 1 + forward run + backward run >= 5. */
  method CheckWin(g: Grid, row: int, col: int, v: int) returns (win: bool)
    ensures win <==> Wins(g, row, col, v)
  {
    var k := 0;
    while k < 4
      invariant 0 <= k <= 4
      invariant forall k' :: 0 <= k' < k ==> !LineWins(g, row, col, v, k')
    {
      var (dr, dc) := Directions[k];
      var (br, bc) := Backward(k);
      var count := 1;
      var forward := ScanDirection(g, row, col, dr, dc, v);
      count := count + forward;
      var backward := ScanDirection(g, row, col, br, bc, v);
      count := count + backward;
      assert count >= 5 <==> LineWins(g, row, col, v, k);
      if count >= 5 {
        return true;
      }
      k := k + 1;
    }
    return false;
  }

  /** Five black stones at (7,0)..(7,4), checked at (7,4), win. */
  lemma FiveInRowWins()
    ensures Wins(Place(Place(Place(Place(Place(EmptyGrid(), 7, 0, 1), 7, 1, 1), 7, 2, 1), 7, 3, 1), 7, 4, 1), 7, 4, 1)
  {
    var g := Place(Place(Place(Place(Place(EmptyGrid(), 7, 0, 1), 7, 1, 1), 7, 2, 1), 7, 3, 1), 7, 4, 1);
    assert Run(g, 7, 4, 0, -1, 1, 5) == 0;
    assert Run(g, 7, 4, 0, -1, 1, 1) == 4;
    assert LineWins(g, 7, 4, 1, 1);
  }
}
