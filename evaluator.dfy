/**
 * Static position score (src/gomoku/ai/evaluator.py): for every stone and each
 * of the four directions, the length of the run through it and how many of its
 * two ends are closed, turned into a tier; White's tiers count for the AI,
 * Black's against it.
 */
module Evaluator {
  import opened Grids
  import opened WinCheck
  import opened Boards

  /** What one half-scan from a stone found: stones of the player met, and whether it ended on a closed end. */
  datatype Ray = Ray(count: nat, blocked: nat)

  /**
   * The half-scan from (i, j) along (dr, dc) from step k on (the loop
   * `for k in range(1, 5)`): a stone of v extends the run, the board edge or an
   * opponent stone closes it, an empty cell ends it open.
   */
  function Walk(g: Grid, i: int, j: int, dr: int, dc: int, v: int, k: nat): Ray
    requires 1 <= k <= 5
    decreases 5 - k
  {
    if k == 5 then Ray(0, 0)
    else
      var p := Step(i, j, dr, dc, k);
      if !InBounds(p.0, p.1) then Ray(0, 1)
      else if g[p.0][p.1] == v then
        var w := Walk(g, i, j, dr, dc, v, k + 1);
        Ray(w.count + 1, w.blocked)
      else if g[p.0][p.1] != 0 then Ray(0, 1)
      else Ray(0, 0)
  }

  /** The score tier of a run of `count` stones with `blocked` closed ends. */
  function Tier(count: int, blocked: int): (t: int)
    ensures 0 <= t <= 100000
    ensures t == 100000 <==> count >= 5
    ensures count <= 1 ==> t == 0
    ensures count < 5 && blocked >= 2 ==> t == 0
    ensures count == 4 && blocked == 0 ==> t == 10000
  {
    if count >= 5 then 100000
    else if count == 4 then (if blocked == 0 then 10000 else if blocked == 1 then 1000 else 0)
    else if count == 3 then (if blocked == 0 then 1000 else if blocked == 1 then 100 else 0)
    else if count == 2 then (if blocked == 0 then 100 else if blocked == 1 then 10 else 0)
    else 0
  }

  /** The tier of the line through (i, j) along direction d: both half-scans plus the stone itself. */
  function LineScore(g: Grid, i: int, j: int, v: int, d: int): int
    requires 0 <= d < 4
  {
    var f := Walk(g, i, j, Directions[d].0, Directions[d].1, v, 1);
    var b := Walk(g, i, j, Backward(d).0, Backward(d).1, v, 1);
    Tier(1 + f.count + b.count, f.blocked + b.blocked)
  }

  /** The tiers of the first n directions. */
  function DirSum(g: Grid, i: int, j: int, v: int, n: int): (s: int)
    requires 0 <= n <= 4
    ensures 0 <= s
  {
    if n == 0 then 0 else DirSum(g, i, j, v, n - 1) + LineScore(g, i, j, v, n - 1)
  }

  /** What one stone of v at (i, j) contributes over the four directions. */
  function StoneScore(g: Grid, i: int, j: int, v: int): int {
    DirSum(g, i, j, v, 4)
  }

  /** The contributions of the stones of v in columns 0..n-1 of row i. */
  function RowSum(g: Grid, v: int, i: int, n: int): (s: int)
    requires 0 <= i < N && 0 <= n <= N
    ensures 0 <= s
  {
    if n == 0 then 0
    else RowSum(g, v, i, n - 1) + (if g[i][n - 1] == v then StoneScore(g, i, n - 1, v) else 0)
  }

  /** The contributions of the stones of v in rows 0..n-1. */
  function GridSum(g: Grid, v: int, n: int): (s: int)
    requires 0 <= n <= N
    ensures 0 <= s
  {
    if n == 0 then 0 else GridSum(g, v, n - 1) + RowSum(g, v, n - 1, N)
  }

  /** Everything the stones of v contribute, before the sign. */
  function Total(g: Grid, v: int): int {
    GridSum(g, v, N)
  }

  /** `evaluate`: White (2, the AI) counts positively, Black (1) negatively. */
  function Score(g: Grid): int {
    Total(g, 2) - Total(g, 1)
  }

  /** A contribution with the player's sign: positive for White (2), negative otherwise. */
  function Signed(v: int, x: int): int {
    if v == 2 then x else -x
  }

  /** The score after the first p passes of `for player in [1, 2]`. */
  function Partial(g: Grid, p: int): int
    requires 0 <= p <= 2
  {
    if p == 0 then 0 else if p == 1 then -Total(g, 1) else -Total(g, 1) + Total(g, 2)
  }

  // ---------------------------------------------------------------------------
  // The evaluator counts the same runs as the win checker.

  /**
   * For a player's value v (1 or 2), the half-scan's count is the win checker's
   * run, and the scan is closed exactly when it stopped before the cap at a cell
   * that is off the board or holds a stone.
   */
  lemma {:induction false} WalkIsRun(g: Grid, i: int, j: int, dr: int, dc: int, v: int, k: nat)
    requires v == 1 || v == 2
    requires 1 <= k <= 5
    ensures Walk(g, i, j, dr, dc, v, k).count == Run(g, i, j, dr, dc, v, k)
    ensures Walk(g, i, j, dr, dc, v, k).blocked <= 1
    ensures Walk(g, i, j, dr, dc, v, k).blocked == 1 <==>
      k + Run(g, i, j, dr, dc, v, k) <= 4 && Cell(g, Step(i, j, dr, dc, k + Run(g, i, j, dr, dc, v, k))) != 0
    decreases 5 - k
  {
    if k < 5 {
      var p := Step(i, j, dr, dc, k);
      if InBounds(p.0, p.1) && g[p.0][p.1] == v {
        WalkIsRun(g, i, j, dr, dc, v, k + 1);
      }
    }
  }

  /** A half-scan from step k meets at most 5 - k stones and closes at most once. */
  lemma {:induction false} WalkBounds(g: Grid, i: int, j: int, dr: int, dc: int, v: int, k: nat)
    requires 1 <= k <= 5
    ensures Walk(g, i, j, dr, dc, v, k).count <= 5 - k
    ensures Walk(g, i, j, dr, dc, v, k).blocked <= 1
    decreases 5 - k
  {
    if k < 5 {
      WalkBounds(g, i, j, dr, dc, v, k + 1);
    }
  }

  /**
   * The count and the closed-end tally that pick a line's tier: the stone
   * itself plus at most four stones each way, so 1..9, and at most one closed
   * end per half-scan, so 0..2.
   */
  lemma LineCounts(g: Grid, i: int, j: int, v: int, d: int)
    requires 0 <= d < 4
    ensures var f := Walk(g, i, j, Directions[d].0, Directions[d].1, v, 1);
      var b := Walk(g, i, j, Backward(d).0, Backward(d).1, v, 1);
      && 1 <= 1 + f.count + b.count <= 9
      && 0 <= f.blocked + b.blocked <= 2
  {
    WalkBounds(g, i, j, Directions[d].0, Directions[d].1, v, 1);
    WalkBounds(g, i, j, Backward(d).0, Backward(d).1, v, 1);
  }

  /** A line through a stone scores the win tier exactly when the win checker sees five on it. */
  lemma WinTierIffLineWins(g: Grid, i: int, j: int, v: int, d: int)
    requires v == 1 || v == 2
    requires 0 <= d < 4
    ensures LineScore(g, i, j, v, d) == 100000 <==> LineWins(g, i, j, v, d)
  {
    WalkIsRun(g, i, j, Directions[d].0, Directions[d].1, v, 1);
    WalkIsRun(g, i, j, Backward(d).0, Backward(d).1, v, 1);
  }

  /** The four-direction sum is at least each of its lines. */
  lemma {:induction false} DirSumCovers(g: Grid, i: int, j: int, v: int, n: int, d: int)
    requires 0 <= d < n <= 4
    ensures DirSum(g, i, j, v, n) >= LineScore(g, i, j, v, d)
  {
    if d < n - 1 {
      DirSumCovers(g, i, j, v, n - 1, d);
    }
  }

  /** A row's sum is at least the contribution of each stone of v in it. */
  lemma {:induction false} RowSumCovers(g: Grid, v: int, i: int, n: int, j: int)
    requires 0 <= i < N && 0 <= j < n <= N
    requires g[i][j] == v
    ensures RowSum(g, v, i, n) >= StoneScore(g, i, j, v)
  {
    if j < n - 1 {
      RowSumCovers(g, v, i, n - 1, j);
    }
  }

  /** The grid sum is at least each row's sum. */
  lemma {:induction false} GridSumCovers(g: Grid, v: int, n: int, i: int)
    requires 0 <= i < n <= N
    ensures GridSum(g, v, n) >= RowSum(g, v, i, N)
  {
    if i < n - 1 {
      GridSumCovers(g, v, n - 1, i);
    }
  }

  /** A stone of v that completes five in a row makes v's total reach the win tier. */
  lemma WinnerReachesWinTier(g: Grid, i: int, j: int, v: int)
    requires v == 1 || v == 2
    requires InBounds(i, j) && g[i][j] == v
    requires Wins(g, i, j, v)
    ensures Total(g, v) >= 100000
  {
    var d :| 0 <= d < 4 && LineWins(g, i, j, v, d);
    WinTierIffLineWins(g, i, j, v, d);
    DirSumCovers(g, i, j, v, 4, d);
    RowSumCovers(g, v, i, N, j);
    GridSumCovers(g, v, N, i);
  }

  // ---------------------------------------------------------------------------
  // Positions without stones of a player.

  /** No stone of v in the first n columns of row i: nothing contributed. */
  lemma {:induction false} RowSumNone(g: Grid, v: int, i: int, n: int)
    requires 0 <= i < N && 0 <= n <= N
    requires forall j :: 0 <= j < N ==> g[i][j] != v
    ensures RowSum(g, v, i, n) == 0
  {
    if n > 0 {
      RowSumNone(g, v, i, n - 1);
    }
  }

  /** No stone of v in the first n rows: nothing contributed. */
  lemma {:induction false} GridSumNone(g: Grid, v: int, n: int)
    requires 0 <= n <= N
    requires forall i, j :: InBounds(i, j) ==> g[i][j] != v
    ensures GridSum(g, v, n) == 0
  {
    if n > 0 {
      GridSumNone(g, v, n - 1);
      RowSumNone(g, v, n - 1, N);
    }
  }

  /** A fresh board evaluates to 0. */
  lemma EmptyBoardScoresZero()
    ensures Score(EmptyGrid()) == 0
  {
    GridSumNone(EmptyGrid(), 1, N);
    GridSumNone(EmptyGrid(), 2, N);
  }

  /** Without a Black stone the score is never below 0; without a White stone never above 0. */
  lemma OneSidedSign(g: Grid)
    ensures (forall i, j :: InBounds(i, j) ==> g[i][j] != 1) ==> Score(g) >= 0
    ensures (forall i, j :: InBounds(i, j) ==> g[i][j] != 2) ==> Score(g) <= 0
  {
    if forall i, j :: InBounds(i, j) ==> g[i][j] != 1 {
      GridSumNone(g, 1, N);
    }
    if forall i, j :: InBounds(i, j) ==> g[i][j] != 2 {
      GridSumNone(g, 2, N);
    }
  }

  // ---------------------------------------------------------------------------
  // Exchanging the colours negates the score.

  /** A cell with the colours exchanged. */
  function SwapCell(x: int): (y: int)
    ensures IsCell(x) ==> IsCell(y)
  {
    if x == 1 then 2 else if x == 2 then 1 else x
  }

  /** The grid with every Black stone made White and every White stone made Black. */
  function Swap(g: Grid): (h: Grid)
    ensures forall i, j :: InBounds(i, j) ==> h[i][j] == SwapCell(g[i][j])
  {
    var rows := seq(N, i requires 0 <= i < N => seq(N, j requires 0 <= j < N => SwapCell(g[i][j])));
    assert forall i :: 0 <= i < N ==> |rows[i]| == N && forall j :: 0 <= j < N ==> rows[i][j] == SwapCell(g[i][j]);
    rows
  }

  /** h is g with the colours exchanged. */
  ghost predicate Swapped(g: Grid, h: Grid) {
    forall i, j :: InBounds(i, j) ==> h[i][j] == SwapCell(g[i][j])
  }

  /** A half-scan for v on the swapped grid is the half-scan for the other colour on the original. */
  lemma {:induction false} WalkSwap(g: Grid, h: Grid, i: int, j: int, dr: int, dc: int, v: int, k: nat)
    requires Swapped(g, h) && (v == 1 || v == 2)
    requires 1 <= k <= 5
    ensures Walk(h, i, j, dr, dc, v, k) == Walk(g, i, j, dr, dc, 3 - v, k)
    decreases 5 - k
  {
    if k < 5 {
      var p := Step(i, j, dr, dc, k);
      if InBounds(p.0, p.1) && g[p.0][p.1] == 3 - v {
        WalkSwap(g, h, i, j, dr, dc, v, k + 1);
      }
    }
  }

  lemma LineScoreSwap(g: Grid, h: Grid, i: int, j: int, v: int, d: int)
    requires Swapped(g, h) && (v == 1 || v == 2)
    requires 0 <= d < 4
    ensures LineScore(h, i, j, v, d) == LineScore(g, i, j, 3 - v, d)
  {
    WalkSwap(g, h, i, j, Directions[d].0, Directions[d].1, v, 1);
    WalkSwap(g, h, i, j, Backward(d).0, Backward(d).1, v, 1);
  }

  lemma {:induction false} DirSumSwap(g: Grid, h: Grid, i: int, j: int, v: int, n: int)
    requires Swapped(g, h) && (v == 1 || v == 2)
    requires 0 <= n <= 4
    ensures DirSum(h, i, j, v, n) == DirSum(g, i, j, 3 - v, n)
  {
    if n > 0 {
      DirSumSwap(g, h, i, j, v, n - 1);
      LineScoreSwap(g, h, i, j, v, n - 1);
      DirSumSwapStep(g, h, i, j, v, n);
    }
  }

  /** One step of `DirSumSwap`: agreement on n - 1 lines and on line n - 1 gives agreement on n. */
  lemma DirSumSwapStep(g: Grid, h: Grid, i: int, j: int, v: int, n: int)
    requires 0 < n <= 4
    requires DirSum(h, i, j, v, n - 1) == DirSum(g, i, j, 3 - v, n - 1)
    requires LineScore(h, i, j, v, n - 1) == LineScore(g, i, j, 3 - v, n - 1)
    ensures DirSum(h, i, j, v, n) == DirSum(g, i, j, 3 - v, n)
  {
  }

  lemma {:induction false} RowSumSwap(g: Grid, h: Grid, v: int, i: int, n: int)
    requires Swapped(g, h) && (v == 1 || v == 2)
    requires 0 <= i < N && 0 <= n <= N
    ensures RowSum(h, v, i, n) == RowSum(g, 3 - v, i, n)
  {
    if n > 0 {
      RowSumSwap(g, h, v, i, n - 1);
      DirSumSwap(g, h, i, n - 1, v, 4);
      assert h[i][n - 1] == SwapCell(g[i][n - 1]);
      RowSumSwapStep(g, h, v, i, n);
    }
  }

  /** One step of `RowSumSwap`: agreement on n - 1 cells and on cell n - 1 gives agreement on n. */
  lemma RowSumSwapStep(g: Grid, h: Grid, v: int, i: int, n: int)
    requires 0 <= i < N && 0 < n <= N
    requires RowSum(h, v, i, n - 1) == RowSum(g, 3 - v, i, n - 1)
    requires h[i][n - 1] == v <==> g[i][n - 1] == 3 - v
    requires StoneScore(h, i, n - 1, v) == StoneScore(g, i, n - 1, 3 - v)
    ensures RowSum(h, v, i, n) == RowSum(g, 3 - v, i, n)
  {
  }

  lemma {:induction false} GridSumSwap(g: Grid, h: Grid, v: int, n: int)
    requires Swapped(g, h) && (v == 1 || v == 2)
    requires 0 <= n <= N
    ensures GridSum(h, v, n) == GridSum(g, 3 - v, n)
  {
    if n > 0 {
      GridSumSwap(g, h, v, n - 1);
      RowSumSwap(g, h, v, n - 1, N);
      GridSumSwapStep(g, h, v, n);
    }
  }

  /** One step of `GridSumSwap`: agreement on n - 1 rows and on row n - 1 gives agreement on n. */
  lemma GridSumSwapStep(g: Grid, h: Grid, v: int, n: int)
    requires 0 < n <= N
    requires GridSum(h, v, n - 1) == GridSum(g, 3 - v, n - 1)
    requires RowSum(h, v, n - 1, N) == RowSum(g, 3 - v, n - 1, N)
    ensures GridSum(h, v, n) == GridSum(g, 3 - v, n)
  {
  }

  /** The evaluation is antisymmetric: exchanging every stone's colour negates the score. */
  lemma ScoreSwap(g: Grid)
    ensures Score(Swap(g)) == -Score(g)
  {
    GridSumSwap(g, Swap(g), 1, N);
    GridSumSwap(g, Swap(g), 2, N);
  }

  /** Multiplying by the source's `multiplier` applies the player's sign. */
  lemma SignedByMultiplier(v: int, multiplier: int, x: int)
    requires multiplier == (if v == 2 then 1 else -1)
    ensures x * multiplier == Signed(v, x)
  {
  }

  // ---------------------------------------------------------------------------
  // The evaluator object and its loops.

  /** The tier of what the two half-scans of direction d found, counting the stone itself, is that line's score. */
  lemma LineScoreOf(g: Grid, i: int, j: int, v: int, d: int, count: int, blocked: int)
    requires 0 <= d < 4
    requires count == 1 + Walk(g, i, j, Directions[d].0, Directions[d].1, v, 1).count
      + Walk(g, i, j, Backward(d).0, Backward(d).1, v, 1).count
    requires blocked == Walk(g, i, j, Directions[d].0, Directions[d].1, v, 1).blocked
      + Walk(g, i, j, Backward(d).0, Backward(d).1, v, 1).blocked
    ensures Tier(count, blocked) == LineScore(g, i, j, v, d)
  {
  }

  /** Adding direction d to a stone's sum adds that line's tier. */
  lemma DirSumNext(g: Grid, i: int, j: int, v: int, d: int)
    requires 0 <= d < 4
    ensures DirSum(g, i, j, v, d + 1) == DirSum(g, i, j, v, d) + LineScore(g, i, j, v, d)
  {
  }

  /** One pass of the direction loop keeps its invariant: the line's signed tier extends the sum by direction d. */
  lemma AddLine(g: Grid, i: int, j: int, v: int, d: int, multiplier: int, count: int, blocked: int, score0: int, score: int)
    requires 0 <= d < 4
    requires multiplier == (if v == 2 then 1 else -1)
    requires count == 1 + Walk(g, i, j, Directions[d].0, Directions[d].1, v, 1).count
      + Walk(g, i, j, Backward(d).0, Backward(d).1, v, 1).count
    requires blocked == Walk(g, i, j, Directions[d].0, Directions[d].1, v, 1).blocked
      + Walk(g, i, j, Backward(d).0, Backward(d).1, v, 1).blocked
    requires score == score0 + Signed(v, DirSum(g, i, j, v, d))
    ensures score + Tier(count, blocked) * multiplier == score0 + Signed(v, DirSum(g, i, j, v, d + 1))
  {
    LineScoreOf(g, i, j, v, d, count, blocked);
    SignedByMultiplier(v, multiplier, Tier(count, blocked));
    DirSumNext(g, i, j, v, d);
  }

  /** Adding column j to a row's sum adds the contribution of that cell. */
  lemma RowSumNext(g: Grid, v: int, i: int, j: int)
    requires 0 <= i < N && 0 <= j < N
    ensures RowSum(g, v, i, j + 1) == RowSum(g, v, i, j) + (if g[i][j] == v then StoneScore(g, i, j, v) else 0)
  {
  }

  /** Adding row i to the grid's sum adds that row's sum. */
  lemma GridSumNext(g: Grid, v: int, i: int)
    requires 0 <= i < N
    ensures GridSum(g, v, i + 1) == GridSum(g, v, i) + RowSum(g, v, i, N)
  {
  }

  class PositionEvaluator {
    /** The shared board the evaluator reads. */
    const board: Board

    constructor (board: Board)
      ensures this.board == board
    {
      this.board := board;
    }

    /**
     * One `for k in range(1, 5)` half-scan from (i, j): adds to the running
     * count and closed-end tally what the half-scan finds.
     */
    method ScanHalf(i: int, j: int, dr: int, dc: int, player: int, count0: int, blocked0: int)
      returns (count: int, blocked: int)
      requires board.Valid()
      ensures count == count0 + Walk(board.Cells(), i, j, dr, dc, player, 1).count
      ensures blocked == blocked0 + Walk(board.Cells(), i, j, dr, dc, player, 1).blocked
    {
      ghost var g := board.Cells();
      count, blocked := count0, blocked0;
      var k := 1;
      while k < 5
        invariant 1 <= k <= 5
        invariant blocked == blocked0
        invariant count - count0 + Walk(g, i, j, dr, dc, player, k).count == Walk(g, i, j, dr, dc, player, 1).count
        invariant Walk(g, i, j, dr, dc, player, k).blocked == Walk(g, i, j, dr, dc, player, 1).blocked
      {
        var r, c := i + dr * k, j + dc * k;
        if 0 <= r < N && 0 <= c < N {
          if board.grid[r, c] == player {
            count := count + 1;
          } else if board.grid[r, c] != 0 {
            blocked := blocked + 1;
            break;
          } else {
            break;
          }
        } else {
          blocked := blocked + 1;
          break;
        }
        k := k + 1;
      }
    }

    /**
     * The inner `for dr, dc in directions` loop for the stone of `player` at
     * (i, j): each line's tier, signed by the multiplier, is added to the score.
     */
    method AddStone(score0: int, i: int, j: int, player: int, multiplier: int) returns (score: int)
      requires board.Valid()
      requires multiplier == (if player == 2 then 1 else -1)
      ensures score == score0 + Signed(player, StoneScore(board.Cells(), i, j, player))
    {
      ghost var g := board.Cells();
      score := score0;
      var d := 0;
      while d < 4
        invariant 0 <= d <= 4
        invariant score == score0 + Signed(player, DirSum(g, i, j, player, d))
      {
        var (dr, dc) := Directions[d];
        var (br, bc) := Backward(d);
        var count, blocked := ScanHalf(i, j, dr, dc, player, 1, 0);
        count, blocked := ScanHalf(i, j, br, bc, player, count, blocked);
        var tier := Tier(count, blocked);
        AddLine(g, i, j, player, d, multiplier, count, blocked, score0, score);
        score := score + tier * multiplier;
        d := d + 1;
      }
    }

    /**
     * The `for j in range(self.board.size)` loop over row i: every stone of
     * `player` in the row adds its signed contribution.
     */
    method AddRow(score0: int, i: int, player: int, multiplier: int) returns (score: int)
      requires board.Valid() && 0 <= i < N
      requires multiplier == (if player == 2 then 1 else -1)
      ensures score == score0 + Signed(player, RowSum(board.Cells(), player, i, N))
    {
      ghost var g := board.Cells();
      score := score0;
      var j := 0;
      while j < N
        invariant 0 <= j <= N
        invariant score == score0 + Signed(player, RowSum(g, player, i, j))
      {
        RowSumNext(g, player, i, j);
        if board.grid[i, j] == player {
          score := AddStone(score, i, j, player, multiplier);
        }
        j := j + 1;
      }
    }

    /** `evaluate`: the position's score, as `Score` defines it. */
    method Evaluate() returns (score: int)
      requires board.Valid()
      ensures score == Score(board.Cells())
    {
      ghost var g := board.Cells();
      score := 0;
      var players := [1, 2];
      var p := 0;
      while p < 2
        invariant 0 <= p <= 2
        invariant score == Partial(g, p)
      {
        var player := players[p];
        var multiplier := if player == 2 then 1 else -1;
        ghost var base := score;
        var i := 0;
        while i < N
          invariant 0 <= i <= N
          invariant score == base + Signed(player, GridSum(g, player, i))
        {
          score := AddRow(score, i, player, multiplier);
          GridSumNext(g, player, i);
          i := i + 1;
        }
        p := p + 1;
      }
    }
  }
}
