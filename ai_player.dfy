/** The computer opponent (src/gomoku/ai/player.py): one fixed-depth search on the shared board. */
module AIPlayers {
  import opened Wrappers
  import opened Grids
  import opened Players
  import opened ExtInts
  import opened Boards
  import opened Rules
  import opened Evaluator
  import opened Progress
  import opened Search

  /** `best_move or (7, 7)`: a tuple is never falsy, so only a missing move falls back to the centre. */
  function OrCentre(best: Option<Move>): Move {
    if best.Some? then best.value else (7, 7)
  }

  /** The move `make_move` answers in position g with p to move, searching to the given depth. */
  function Choice(g: Grid, p: PlayerType, depth: nat): Move {
    OrCentre(AlphaBeta(GameTree(g, p, depth), NegInf, PosInf, true).best)
  }

  /**
   * The centre is the answer exactly when the search has nothing to choose
   * from: depth 0, or a generator that lists no move. Otherwise the answer is
   * an empty cell on the board, and it is the first candidate, in generator
   * order, whose plain minimax value is the root's value.
   */
  lemma ChoiceIsFirstOptimal(g: Grid, p: PlayerType, depth: nat)
    ensures depth == 0 || |ConstrainedMoves(g)| == 0 ==> Choice(g, p, depth) == (7, 7)
    ensures depth >= 1 && |ConstrainedMoves(g)| > 0 ==>
      var t := GameTree(g, p, depth);
      var m := Choice(g, p, depth);
      && InBounds(m.0, m.1) && g[m.0][m.1] == 0
      && exists jj :: 0 <= jj < |t.branches| && t.branches[jj].move == m
           && ChildValue(t, jj, true) == MinimaxValue(t, true)
           && forall i :: 0 <= i < jj ==> ChildValue(t, i, true) < MinimaxValue(t, true)
  {
    var t := GameTree(g, p, depth);
    if depth >= 1 {
      GameTreeNode(g, p, depth);
      if |t.branches| > 0 {
        var jj := RootBestIsFirstOptimal(t);
        BranchTree(g, p, depth, jj);
      }
    }
  }

  class AIPlayer {
    /** The shared board, searched in place and put back. */
    const board: Board
    const depth: nat
    /** `Player(PlayerType.WHITE)`: the computer always plays White. */
    const player: PlayerType
    /** `PositionEvaluator(board)`, on the same board. */
    const evaluator: PositionEvaluator
    const progress: ProgressTracker

    /** `AIPlayer(board, depth)`. */
    constructor (board: Board, depth: nat)
      ensures this.board == board && this.depth == depth && player == White
      ensures fresh(evaluator) && evaluator.board == board
      ensures fresh(progress) && progress.nodesEvaluated == 0
    {
      this.board := board;
      this.depth := depth;
      player := White;
      evaluator := new PositionEvaluator(board);
      progress := new ProgressTracker();
    }

    /**
     * `make_move`, with the clock reading `now` for the tracker: restart the
     * tracker, run one search at `depth` whose leaves bump the tracker's node
     * counter, and answer the best move or the centre. The grid and the side
     * to move are as before; the move is not played here. The history keeps
     * what the search's own moves appended.
     */
    method MakeMove(now: int) returns (move: Move)
      requires board.Valid() && evaluator.board == board
      modifies board, board.grid, progress
      ensures board.Valid()
      ensures move == Choice(old(board.Cells()), old(board.currentPlayer), depth)
      ensures var o := AlphaBeta(GameTree(old(board.Cells()), old(board.currentPlayer), depth), NegInf, PosInf, true);
        progress.nodesEvaluated == o.leaves && board.moveHistory == old(board.moveHistory) + o.trail
      ensures board.Cells() == old(board.Cells()) && board.currentPlayer == old(board.currentPlayer)
    {
      StartTracker(now);
      var best := SearchOnce();
      move := OrCentre(best);
    }

    /** `self.progress.start(len(valid_moves))`: the tracker restarts, its node counter at 0. */
    method StartTracker(now: int)
      requires board.Valid()
      modifies progress
      ensures progress.nodesEvaluated == 0 && progress.startTime == now
    {
      var validMoves := board.GetValidMoves();
      progress.Start(|validMoves|, now);
    }

    /**
     * A fresh `MinimaxSearch` at `depth` whose evaluator counts leaves on the
     * tracker, run once: its best move, with the board put back and the
     * tracker's counter grown by the leaves.
     */
    method SearchOnce() returns (best: Option<Move>)
      requires board.Valid() && evaluator.board == board
      modifies board, board.grid, progress
      ensures board.Valid()
      ensures var o := AlphaBeta(GameTree(old(board.Cells()), old(board.currentPlayer), depth), NegInf, PosInf, true);
        && best == o.best
        && progress.nodesEvaluated == old(progress.nodesEvaluated) + o.leaves
        && board.moveHistory == old(board.moveHistory) + o.trail
      ensures board.Cells() == old(board.Cells()) && board.currentPlayer == old(board.currentPlayer)
    {
      var search := new MinimaxSearch(board, evaluator, depth);
      search.progress := progress;
      var score;
      score, best := search.Search();
    }
  }
}
