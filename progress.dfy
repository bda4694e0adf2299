/** The search progress record (src/gomoku/ai/progress.py); only its counters and fields. */
module Progress {
  import opened Wrappers
  import opened Grids
  import opened ExtInts

  class ProgressTracker {
    /** `start_time`, as the integer clock reading passed to `Start`. */
    var startTime: int
    var nodesEvaluated: nat
    var currentMove: int
    var totalMoves: int
    var currentDepth: int
    var bestMove: Option<Move>
    var bestScore: ExtInt

    /** `ProgressTracker()`: everything 0, no best move, best score minus infinity. */
    constructor ()
      ensures startTime == 0 && nodesEvaluated == 0 && currentMove == 0 && totalMoves == 0 && currentDepth == 0
      ensures bestMove == None && bestScore == NegInf
    {
      startTime := 0;
      nodesEvaluated := 0;
      currentMove := 0;
      totalMoves := 0;
      currentDepth := 0;
      bestMove := None;
      bestScore := NegInf;
    }

    /** `start(total_moves)`, with the clock reading `now`: every counter reset. */
    method Start(total: int, now: int)
      modifies this
      ensures startTime == now && nodesEvaluated == 0 && currentMove == 0 && totalMoves == total && currentDepth == 0
      ensures bestMove == None && bestScore == NegInf
    {
      startTime := now;
      nodesEvaluated := 0;
      currentMove := 0;
      totalMoves := total;
      currentDepth := 0;
      bestMove := None;
      bestScore := NegInf;
    }

    /** `update`: records the move index, depth, best move and score; nothing else changes. */
    method Update(move: int, depth: int, best: Option<Move>, score: ExtInt)
      modifies this
      ensures currentMove == move && currentDepth == depth && bestMove == best && bestScore == score
      ensures startTime == old(startTime) && nodesEvaluated == old(nodesEvaluated) && totalMoves == old(totalMoves)
    {
      currentMove := move;
      currentDepth := depth;
      bestMove := best;
      bestScore := score;
    }

    /** `increment_nodes`: one more leaf; nothing else changes. */
    method IncrementNodes()
      modifies this
      ensures nodesEvaluated == old(nodesEvaluated) + 1
      ensures startTime == old(startTime) && currentMove == old(currentMove) && totalMoves == old(totalMoves)
      ensures currentDepth == old(currentDepth) && bestMove == old(bestMove) && bestScore == old(bestScore)
    {
      nodesEvaluated := nodesEvaluated + 1;
    }
  }
}
