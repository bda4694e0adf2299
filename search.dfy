/**
 * Fixed-depth minimax with alpha-beta pruning (src/gomoku/ai/search.py).
 *
 * `AlphaBeta`, `MaxLoop` and `MinLoop` say what one call of `minimax`
 * computes, following the Python loop step by step: the returned score and
 * best move, the number of depth-0 leaves it evaluated and the history entries
 * its `make_move` calls appended (the undo never pops them). `MinimaxValue` is
 * the unpruned minimax value over the same move generator and evaluator; the
 * lemmas show that the pruned search agrees with it at the root and that the
 * root's best move is the first optimal one.
 */
module Search {
  import opened Wrappers
  import opened Grids
  import opened Players
  import opened ExtInts
  import opened Boards
  import opened Rules
  import opened Evaluator
  import opened Progress

  /** What a call of `minimax` returns and leaves behind. */
  datatype Outcome = Outcome(value: int, best: Option<Move>, leaves: nat, trail: seq<Entry>)

  /** Every listed move is on the board and empty. */
  predicate Playable(g: Grid, moves: seq<Move>) {
    forall k :: 0 <= k < |moves| ==> InBounds(moves[k].0, moves[k].1) && g[moves[k].0][moves[k].1] == 0
  }

  /** Appending in two steps is appending once. */
  lemma AppendAssoc<T>(a: seq<T>, b: seq<T>, c: seq<T>)
    ensures a + (b + c) == (a + b) + c
  {
  }

  /** The generator's moves are playable. */
  lemma CandidatesPlayable(g: Grid)
    ensures Playable(g, ConstrainedMoves(g))
  {
    ConstrainedMovesExact(g);
    var moves := ConstrainedMoves(g);
    forall k | 0 <= k < |moves|
      ensures InBounds(moves[k].0, moves[k].1) && g[moves[k].0][moves[k].1] == 0
    {
      assert moves[k] in moves;
    }
  }

  /** The grid after `p` plays move k of the list. */
  function Child(g: Grid, p: PlayerType, moves: seq<Move>, k: int): Grid
    requires Playable(g, moves) && 0 <= k < |moves|
  {
    Place(g, moves[k].0, moves[k].1, p.Value())
  }

  /**
   * The tree a search of the given depth explores: a leaf holding the
   * evaluator's score at depth 0, otherwise a node for the side to move with
   * one branch per candidate move, in generator order (none when the generator
   * returns nothing).
   */
  datatype Tree = Leaf(score: int) | Node(player: PlayerType, branches: seq<Branch>)
  datatype Branch = Branch(move: Move, tree: Tree)

  function GameTree(g: Grid, p: PlayerType, depth: nat): (t: Tree)
    ensures depth == 0 <==> t.Leaf?
    decreases depth, 2
  {
    if depth == 0 then Leaf(Score(g)) else Expand(g, p, depth)
  }

  /** The node of a position at depth >= 1, owned by the side to move. */
  function Expand(g: Grid, p: PlayerType, depth: nat): (t: Tree)
    requires depth >= 1
    ensures t.Node?
    decreases depth, 1
  {
    Node(p, Branches(g, p, depth))
  }

  /** One branch per candidate, in generator order, each holding the tree one level down. */
  function Branches(g: Grid, p: PlayerType, depth: nat): seq<Branch>
    requires depth >= 1
    decreases depth, 0
  {
    var moves := ConstrainedMoves(g);
    CandidatesPlayable(g);
    seq(|moves|, i requires 0 <= i < |moves| =>
      Branch(moves[i], GameTree(Child(g, p, moves, i), p.Opponent(), depth - 1)))
  }

  /**
   * A node of the tree belongs to the side to move and has one branch per
   * candidate of the generator; branch k holds move k and the tree of the
   * position after it, one level down, with the other side to move.
   */
  lemma GameTreeBranch(g: Grid, p: PlayerType, depth: nat, k: int)
    requires depth >= 1 && 0 <= k < |ConstrainedMoves(g)|
    ensures Playable(g, ConstrainedMoves(g))
    ensures GameTree(g, p, depth).Node? && |GameTree(g, p, depth).branches| == |ConstrainedMoves(g)|
    ensures GameTree(g, p, depth).branches[k] ==
      Branch(ConstrainedMoves(g)[k], GameTree(Child(g, p, ConstrainedMoves(g), k), p.Opponent(), depth - 1))
  {
    CandidatesPlayable(g);
    assert GameTree(g, p, depth) == Expand(g, p, depth);
    assert Expand(g, p, depth).branches == Branches(g, p, depth);
  }

  /** A node of the tree belongs to the side to move and has one branch per candidate of the generator. */
  lemma GameTreeNode(g: Grid, p: PlayerType, depth: nat)
    requires depth >= 1
    ensures GameTree(g, p, depth).Node? && GameTree(g, p, depth).player == p
    ensures |GameTree(g, p, depth).branches| == |ConstrainedMoves(g)|
  {
    assert GameTree(g, p, depth) == Expand(g, p, depth);
    assert Expand(g, p, depth).branches == Branches(g, p, depth);
  }

  /** The moves listed, in order, are those of the node's branches. */
  predicate MovesOf(t: Tree, moves: seq<Move>) {
    t.Node? && |moves| == |t.branches| && forall i :: 0 <= i < |moves| ==> moves[i] == t.branches[i].move
  }

  /** A node's branches carry the generator's moves, in order. */
  lemma GameTreeMoves(g: Grid, p: PlayerType, depth: nat)
    requires depth >= 1
    ensures MovesOf(GameTree(g, p, depth), ConstrainedMoves(g))
  {
    GameTreeNode(g, p, depth);
    forall i | 0 <= i < |ConstrainedMoves(g)|
      ensures ConstrainedMoves(g)[i] == GameTree(g, p, depth).branches[i].move
    {
      GameTreeBranch(g, p, depth, i);
    }
  }

  /**
   * Branch k of a node, stated without the generator: the side to move owns
   * the node, the move is an empty cell, and the subtree is the tree of the
   * position after it, one level down.
   */
  lemma BranchTree(g: Grid, p: PlayerType, depth: nat, k: int)
    requires depth >= 1 && 0 <= k < |GameTree(g, p, depth).branches|
    ensures GameTree(g, p, depth).player == p
    ensures var m := GameTree(g, p, depth).branches[k].move;
      && InBounds(m.0, m.1) && g[m.0][m.1] == 0
      && GameTree(g, p, depth).branches[k].tree == GameTree(Place(g, m.0, m.1, p.Value()), p.Opponent(), depth - 1)
  {
    GameTreeNode(g, p, depth);
    GameTreeBranch(g, p, depth, k);
  }

  /**
   * `minimax(depth, alpha, beta, maximizing)` on a tree: the leaf's score,
   * (0, None) at a node without branches, otherwise the maximising or
   * minimising loop over the branches.
   */
  function AlphaBeta(t: Tree, alpha: ExtInt, beta: ExtInt, maximizing: bool): Outcome
    decreases t, 1
  {
    match t
    case Leaf(v) => Outcome(v, None, 1, [])
    case Node(_, bs) =>
      if |bs| == 0 then Outcome(0, None, 0, [])
      else if maximizing then MaxLoop(t, 0, alpha, beta, NegInf, None, 0, [])
      else MinLoop(t, 0, alpha, beta, PosInf, None, 0, [])
  }

  /**
   * The maximising loop from branch k on, with the loop's variables: `alpha`,
   * `max_eval` (cur), `best_move`, and the leaves and history so far. A child that
   * beats cur strictly becomes the best; the loop stops right after the first
   * child for which beta <= alpha.
   */
  function MaxLoop(t: Tree, k: nat, alpha: ExtInt, beta: ExtInt, cur: ExtInt, best: Option<Move>,
                   leaves: nat, trail: seq<Entry>): Outcome
    requires t.Node? && 0 < |t.branches| && k <= |t.branches|
    requires cur.Fin? || (k == 0 && cur == NegInf)
    decreases t, 0, |t.branches| - k
  {
    if k == |t.branches| then Outcome(cur.n, best, leaves, trail)
    else
      var m := t.branches[k].move;
      var child := AlphaBeta(t.branches[k].tree, alpha, beta, false);
      var e := child.value;
      var improved := Lt(cur, Fin(e));
      var cur' := if improved then Fin(e) else cur;
      var best' := if improved then Some(m) else best;
      var alpha' := MaxE(alpha, Fin(e));
      var leaves' := leaves + child.leaves;
      var trail' := trail + [Entry(m.0, m.1, t.player)] + child.trail;
      if Le(beta, alpha') then Outcome(cur'.n, best', leaves', trail')
      else MaxLoop(t, k + 1, alpha', beta, cur', best', leaves', trail')
  }

  /** The minimising loop: the mirror image, updating `min_eval` and `beta`. */
  function MinLoop(t: Tree, k: nat, alpha: ExtInt, beta: ExtInt, cur: ExtInt, best: Option<Move>,
                   leaves: nat, trail: seq<Entry>): Outcome
    requires t.Node? && 0 < |t.branches| && k <= |t.branches|
    requires cur.Fin? || (k == 0 && cur == PosInf)
    decreases t, 0, |t.branches| - k
  {
    if k == |t.branches| then Outcome(cur.n, best, leaves, trail)
    else
      var m := t.branches[k].move;
      var child := AlphaBeta(t.branches[k].tree, alpha, beta, true);
      var e := child.value;
      var improved := Lt(Fin(e), cur);
      var cur' := if improved then Fin(e) else cur;
      var best' := if improved then Some(m) else best;
      var beta' := MinE(beta, Fin(e));
      var leaves' := leaves + child.leaves;
      var trail' := trail + [Entry(m.0, m.1, t.player)] + child.trail;
      if Le(beta', alpha) then Outcome(cur'.n, best', leaves', trail')
      else MinLoop(t, k + 1, alpha, beta', cur', best', leaves', trail')
  }

  /**
   * One pass of the maximising loop, for a caller that has computed the
   * updated loop variables itself: the loop from k is either the outcome
   * after branch k (on a cutoff) or the loop from k + 1.
   */
  lemma MaxLoopNext(t: Tree, k: nat, alpha: ExtInt, beta: ExtInt, cur: ExtInt, best: Option<Move>,
                    leaves: nat, trail: seq<Entry>,
                    alpha': ExtInt, cur': ExtInt, best': Option<Move>, leaves': nat, trail': seq<Entry>)
    requires t.Node? && k < |t.branches|
    requires cur.Fin? || (k == 0 && cur == NegInf)
    requires var child := AlphaBeta(t.branches[k].tree, alpha, beta, false);
      var m := t.branches[k].move;
      && cur' == (if Lt(cur, Fin(child.value)) then Fin(child.value) else cur)
      && best' == (if Lt(cur, Fin(child.value)) then Some(m) else best)
      && alpha' == MaxE(alpha, Fin(child.value))
      && leaves' == leaves + child.leaves
      && trail' == trail + [Entry(m.0, m.1, t.player)] + child.trail
    ensures cur'.Fin?
    ensures Le(beta, alpha') ==> MaxLoop(t, k, alpha, beta, cur, best, leaves, trail) == Outcome(cur'.n, best', leaves', trail')
    ensures !Le(beta, alpha') ==>
      MaxLoop(t, k, alpha, beta, cur, best, leaves, trail) == MaxLoop(t, k + 1, alpha', beta, cur', best', leaves', trail')
  {
  }

  /** One pass of the minimising loop, in the same form. */
  lemma MinLoopNext(t: Tree, k: nat, alpha: ExtInt, beta: ExtInt, cur: ExtInt, best: Option<Move>,
                    leaves: nat, trail: seq<Entry>,
                    beta': ExtInt, cur': ExtInt, best': Option<Move>, leaves': nat, trail': seq<Entry>)
    requires t.Node? && k < |t.branches|
    requires cur.Fin? || (k == 0 && cur == PosInf)
    requires var child := AlphaBeta(t.branches[k].tree, alpha, beta, true);
      var m := t.branches[k].move;
      && cur' == (if Lt(Fin(child.value), cur) then Fin(child.value) else cur)
      && best' == (if Lt(Fin(child.value), cur) then Some(m) else best)
      && beta' == MinE(beta, Fin(child.value))
      && leaves' == leaves + child.leaves
      && trail' == trail + [Entry(m.0, m.1, t.player)] + child.trail
    ensures cur'.Fin?
    ensures Le(beta', alpha) ==> MinLoop(t, k, alpha, beta, cur, best, leaves, trail) == Outcome(cur'.n, best', leaves', trail')
    ensures !Le(beta', alpha) ==>
      MinLoop(t, k, alpha, beta, cur, best, leaves, trail) == MinLoop(t, k + 1, alpha, beta', cur', best', leaves', trail')
  {
  }

  // ---------------------------------------------------------------------------
  // The unpruned reference.

  /** Plain minimax over the same tree, without bounds. */
  function MinimaxValue(t: Tree, maximizing: bool): int
    decreases t, 1
  {
    match t
    case Leaf(v) => v
    case Node(_, bs) => if |bs| == 0 then 0 else BestOf(t, |bs|, maximizing)
  }

  /** The unpruned value of branch k's subtree. */
  function ChildValue(t: Tree, k: int, maximizing: bool): int
    requires t.Node? && 0 <= k < |t.branches|
    decreases t, 0, 0
  {
    MinimaxValue(t.branches[k].tree, !maximizing)
  }

  /** The maximum (or minimum) of the first n children's unpruned values. */
  function BestOf(t: Tree, n: int, maximizing: bool): int
    requires t.Node? && 1 <= n <= |t.branches|
    decreases t, 0, n
  {
    var v := ChildValue(t, n - 1, maximizing);
    if n == 1 then v
    else
      var r := BestOf(t, n - 1, maximizing);
      if maximizing then (if v > r then v else r) else (if v < r then v else r)
  }

  /** The maximum bounds every child from above, and any common upper bound bounds it. */
  lemma {:induction false} BestOfMax(t: Tree, n: int, x: int)
    requires t.Node? && 1 <= n <= |t.branches|
    ensures forall i :: 0 <= i < n ==> ChildValue(t, i, true) <= BestOf(t, n, true)
    ensures (forall i :: 0 <= i < n ==> ChildValue(t, i, true) <= x) ==> BestOf(t, n, true) <= x
  {
    if n > 1 {
      BestOfMax(t, n - 1, x);
    }
  }

  /** The minimum bounds every child from below, and any common lower bound bounds it. */
  lemma {:induction false} BestOfMin(t: Tree, n: int, x: int)
    requires t.Node? && 1 <= n <= |t.branches|
    ensures forall i :: 0 <= i < n ==> BestOf(t, n, false) <= ChildValue(t, i, false)
    ensures (forall i :: 0 <= i < n ==> x <= ChildValue(t, i, false)) ==> x <= BestOf(t, n, false)
  {
    if n > 1 {
      BestOfMin(t, n - 1, x);
    }
  }

  // ---------------------------------------------------------------------------
  // Alpha-beta agrees with plain minimax.

  /**
   * The fail-soft guarantee of a search window (alpha, beta): a value strictly
   * inside the window is exact; one at or below alpha is an upper bound of the
   * true value m; one at or above beta is a lower bound.
   */
  predicate FailSoft(v: int, m: int, alpha: ExtInt, beta: ExtInt) {
    && (Lt(alpha, Fin(v)) && Lt(Fin(v), beta) ==> v == m)
    && (Le(Fin(v), alpha) ==> m <= v)
    && (Le(beta, Fin(v)) ==> v <= m)
  }

  /** Every call of `minimax` with a non-empty window is fail-soft with respect to plain minimax. */
  lemma {:induction false} AlphaBetaSound(t: Tree, alpha: ExtInt, beta: ExtInt, maximizing: bool)
    requires Lt(alpha, beta)
    ensures FailSoft(AlphaBeta(t, alpha, beta, maximizing).value, MinimaxValue(t, maximizing), alpha, beta)
    decreases t, 1
  {
    if t.Node? && |t.branches| > 0 {
      if maximizing {
        var _ := MaxLoopSound(t, 0, alpha, alpha, beta, NegInf, None, 0, [], 0);
      } else {
        var _ := MinLoopSound(t, 0, alpha, beta, beta, PosInf, None, 0, [], 0);
      }
    }
  }

  /**
   * One step of the maximising loop on values alone: a child returning e with
   * plain value mc, searched with the window (alpha, beta). Either it cuts off,
   * and then it became the best and e is a lower bound on mc; or the loop goes
   * on with alpha still max(a0, max_eval), the window non-empty and mc at most
   * the new max_eval, exactly e when it became the best above a0.
   */
  lemma MaxStep(e: int, mc: int, a0: ExtInt, alpha: ExtInt, beta: ExtInt, cur: ExtInt)
    requires cur.Fin? || cur == NegInf
    requires alpha == MaxE(a0, cur) && Lt(alpha, beta)
    requires FailSoft(e, mc, alpha, beta)
    ensures Le(beta, MaxE(alpha, Fin(e))) ==> Lt(cur, Fin(e)) && e <= mc
    ensures !Le(beta, MaxE(alpha, Fin(e))) ==>
      var cur' := if Lt(cur, Fin(e)) then Fin(e) else cur;
      && MaxE(alpha, Fin(e)) == MaxE(a0, cur') && Lt(MaxE(alpha, Fin(e)), beta)
      && cur'.Fin? && mc <= cur'.n
      && (Lt(cur, Fin(e)) && Lt(a0, cur') ==> mc == e)
  {
  }

  /** One step of the minimising loop on values alone. */
  lemma MinStep(e: int, mc: int, alpha: ExtInt, b0: ExtInt, beta: ExtInt, cur: ExtInt)
    requires cur.Fin? || cur == PosInf
    requires beta == MinE(b0, cur) && Lt(alpha, beta)
    requires FailSoft(e, mc, alpha, beta)
    ensures Le(MinE(beta, Fin(e)), alpha) ==> Lt(Fin(e), cur) && mc <= e
    ensures !Le(MinE(beta, Fin(e)), alpha) ==>
      var cur' := if Lt(Fin(e), cur) then Fin(e) else cur;
      && MinE(beta, Fin(e)) == MinE(b0, cur') && Lt(alpha, MinE(beta, Fin(e)))
      && cur'.Fin? && cur'.n <= mc
      && (Lt(Fin(e), cur) && Lt(cur', b0) ==> mc == e)
  {
  }

  /**
   * The maximising loop, entered at branch k with the node's own lower bound a0,
   * keeps these facts: alpha is max(a0, max_eval); no cut-off yet; every child
   * so far is worth at most max_eval under plain minimax; the best move so far,
   * branch j's, is the first whose child beat all earlier ones, and is exact
   * when max_eval is above a0. The loop then returns a fail-soft value, and a
   * best move jj preceded only by strictly worse children.
   */
  lemma {:induction false} MaxLoopSound(t: Tree, k: nat, a0: ExtInt, alpha: ExtInt, beta: ExtInt,
                                        cur: ExtInt, best: Option<Move>, leaves: nat, trail: seq<Entry>,
                                        j: int) returns (jj: int)
    requires t.Node? && 0 < |t.branches| && k <= |t.branches|
    requires if k == 0 then cur == NegInf else cur.Fin?
    requires alpha == MaxE(a0, cur) && Lt(alpha, beta)
    requires forall i :: 0 <= i < k ==> ChildValue(t, i, true) <= cur.n
    requires k > 0 ==> 0 <= j < k && best == Some(t.branches[j].move)
    requires k > 0 ==> forall i :: 0 <= i < j ==> ChildValue(t, i, true) < cur.n
    requires k > 0 && Lt(a0, cur) ==> ChildValue(t, j, true) == cur.n
    ensures var o := MaxLoop(t, k, alpha, beta, cur, best, leaves, trail);
      && FailSoft(o.value, BestOf(t, |t.branches|, true), a0, beta)
      && 0 <= jj < |t.branches| && o.best == Some(t.branches[jj].move)
      && (forall i :: 0 <= i < jj ==> ChildValue(t, i, true) < o.value)
      && (Lt(a0, Fin(o.value)) && Lt(Fin(o.value), beta) ==> ChildValue(t, jj, true) == o.value)
      && (Le(beta, Fin(o.value)) ==> o.value <= ChildValue(t, jj, true))
    decreases t, 0, |t.branches| - k
  {
    if k == |t.branches| {
      BestOfMax(t, |t.branches|, cur.n);
      jj := j;
    } else {
      var m := t.branches[k].move;
      var child := AlphaBeta(t.branches[k].tree, alpha, beta, false);
      var e := child.value;
      AlphaBetaSound(t.branches[k].tree, alpha, beta, false);
      MaxStep(e, ChildValue(t, k, true), a0, alpha, beta, cur);
      var improved := Lt(cur, Fin(e));
      var cur' := if improved then Fin(e) else cur;
      var best' := if improved then Some(m) else best;
      var alpha' := MaxE(alpha, Fin(e));
      var leaves' := leaves + child.leaves;
      var trail' := trail + [Entry(m.0, m.1, t.player)] + child.trail;
      MaxLoopNext(t, k, alpha, beta, cur, best, leaves, trail, alpha', cur', best', leaves', trail');
      if Le(beta, alpha') {
        BestOfMax(t, |t.branches|, e);
        jj := k;
      } else {
        jj := MaxLoopSound(t, k + 1, a0, alpha', beta, cur', best', leaves', trail', if improved then k else j);
      }
    }
  }

  /** The mirror image of `MaxLoopSound` for the minimising loop, with the node's own upper bound b0. */
  lemma {:induction false} MinLoopSound(t: Tree, k: nat, alpha: ExtInt, b0: ExtInt, beta: ExtInt,
                                        cur: ExtInt, best: Option<Move>, leaves: nat, trail: seq<Entry>,
                                        j: int) returns (jj: int)
    requires t.Node? && 0 < |t.branches| && k <= |t.branches|
    requires if k == 0 then cur == PosInf else cur.Fin?
    requires beta == MinE(b0, cur) && Lt(alpha, beta)
    requires forall i :: 0 <= i < k ==> cur.n <= ChildValue(t, i, false)
    requires k > 0 ==> 0 <= j < k && best == Some(t.branches[j].move)
    requires k > 0 ==> forall i :: 0 <= i < j ==> cur.n < ChildValue(t, i, false)
    requires k > 0 && Lt(cur, b0) ==> ChildValue(t, j, false) == cur.n
    ensures var o := MinLoop(t, k, alpha, beta, cur, best, leaves, trail);
      && FailSoft(o.value, BestOf(t, |t.branches|, false), alpha, b0)
      && 0 <= jj < |t.branches| && o.best == Some(t.branches[jj].move)
      && (forall i :: 0 <= i < jj ==> o.value < ChildValue(t, i, false))
      && (Lt(alpha, Fin(o.value)) && Lt(Fin(o.value), b0) ==> ChildValue(t, jj, false) == o.value)
      && (Le(Fin(o.value), alpha) ==> ChildValue(t, jj, false) <= o.value)
    decreases t, 0, |t.branches| - k
  {
    if k == |t.branches| {
      BestOfMin(t, |t.branches|, cur.n);
      jj := j;
    } else {
      var m := t.branches[k].move;
      var child := AlphaBeta(t.branches[k].tree, alpha, beta, true);
      var e := child.value;
      AlphaBetaSound(t.branches[k].tree, alpha, beta, true);
      MinStep(e, ChildValue(t, k, false), alpha, b0, beta, cur);
      var improved := Lt(Fin(e), cur);
      var cur' := if improved then Fin(e) else cur;
      var best' := if improved then Some(m) else best;
      var beta' := MinE(beta, Fin(e));
      var leaves' := leaves + child.leaves;
      var trail' := trail + [Entry(m.0, m.1, t.player)] + child.trail;
      MinLoopNext(t, k, alpha, beta, cur, best, leaves, trail, beta', cur', best', leaves', trail');
      if Le(beta', alpha) {
        BestOfMin(t, |t.branches|, e);
        jj := k;
      } else {
        jj := MinLoopSound(t, k + 1, alpha, b0, beta', cur', best', leaves', trail', if improved then k else j);
      }
    }
  }

  /** `search()` starts with the full window, so its value is the plain minimax value. */
  lemma SearchIsMinimax(t: Tree, maximizing: bool)
    ensures AlphaBeta(t, NegInf, PosInf, maximizing).value == MinimaxValue(t, maximizing)
  {
    AlphaBetaSound(t, NegInf, PosInf, maximizing);
  }

  /**
   * At a root with candidates, the best move `search()` returns is the first
   * branch, in generator order, whose plain minimax value is the root's value:
   * it achieves that value and every earlier branch is strictly worse.
   */
  lemma RootBestIsFirstOptimal(t: Tree) returns (jj: int)
    requires t.Node? && 0 < |t.branches|
    ensures var o := AlphaBeta(t, NegInf, PosInf, true);
      && 0 <= jj < |t.branches| && o.best == Some(t.branches[jj].move)
      && ChildValue(t, jj, true) == o.value == MinimaxValue(t, true)
      && forall i :: 0 <= i < jj ==> ChildValue(t, i, true) < o.value
  {
    jj := MaxLoopSound(t, 0, NegInf, NegInf, PosInf, NegInf, None, 0, [], 0);
  }

  /** The maximising loop only appends to the history, starting with branch k's move. */
  lemma {:induction false} MaxLoopTrail(t: Tree, k: nat, alpha: ExtInt, beta: ExtInt, cur: ExtInt,
                                        best: Option<Move>, leaves: nat, trail: seq<Entry>)
    requires t.Node? && 0 < |t.branches| && k <= |t.branches|
    requires cur.Fin? || (k == 0 && cur == NegInf)
    ensures var o := MaxLoop(t, k, alpha, beta, cur, best, leaves, trail);
      |o.trail| >= |trail| && o.trail[..|trail|] == trail && o.leaves >= leaves
    ensures k < |t.branches| ==>
      var o := MaxLoop(t, k, alpha, beta, cur, best, leaves, trail);
      |o.trail| > |trail| && o.trail[|trail|] == Entry(t.branches[k].move.0, t.branches[k].move.1, t.player)
    decreases |t.branches| - k
  {
    if k < |t.branches| {
      var m := t.branches[k].move;
      var child := AlphaBeta(t.branches[k].tree, alpha, beta, false);
      var e := child.value;
      var improved := Lt(cur, Fin(e));
      var trail' := trail + [Entry(m.0, m.1, t.player)] + child.trail;
      assert trail'[..|trail|] == trail && trail'[|trail|] == Entry(m.0, m.1, t.player);
      if !Le(beta, MaxE(alpha, Fin(e))) {
        MaxLoopTrail(t, k + 1, MaxE(alpha, Fin(e)), beta, if improved then Fin(e) else cur,
                     if improved then Some(m) else best, leaves + child.leaves, trail');
        var o := MaxLoop(t, k + 1, MaxE(alpha, Fin(e)), beta, if improved then Fin(e) else cur,
                         if improved then Some(m) else best, leaves + child.leaves, trail');
        assert o.trail[..|trail|] == o.trail[..|trail'|][..|trail|];
      }
    }
  }

  /** The minimising loop only appends to the history, starting with branch k's move. */
  lemma {:induction false} MinLoopTrail(t: Tree, k: nat, alpha: ExtInt, beta: ExtInt, cur: ExtInt,
                                        best: Option<Move>, leaves: nat, trail: seq<Entry>)
    requires t.Node? && 0 < |t.branches| && k <= |t.branches|
    requires cur.Fin? || (k == 0 && cur == PosInf)
    ensures var o := MinLoop(t, k, alpha, beta, cur, best, leaves, trail);
      |o.trail| >= |trail| && o.trail[..|trail|] == trail && o.leaves >= leaves
    ensures k < |t.branches| ==>
      var o := MinLoop(t, k, alpha, beta, cur, best, leaves, trail);
      |o.trail| > |trail| && o.trail[|trail|] == Entry(t.branches[k].move.0, t.branches[k].move.1, t.player)
    decreases |t.branches| - k
  {
    if k < |t.branches| {
      var m := t.branches[k].move;
      var child := AlphaBeta(t.branches[k].tree, alpha, beta, true);
      var e := child.value;
      var improved := Lt(Fin(e), cur);
      var trail' := trail + [Entry(m.0, m.1, t.player)] + child.trail;
      assert trail'[..|trail|] == trail && trail'[|trail|] == Entry(m.0, m.1, t.player);
      if !Le(MinE(beta, Fin(e)), alpha) {
        MinLoopTrail(t, k + 1, alpha, MinE(beta, Fin(e)), if improved then Fin(e) else cur,
                     if improved then Some(m) else best, leaves + child.leaves, trail');
        var o := MinLoop(t, k + 1, alpha, MinE(beta, Fin(e)), if improved then Fin(e) else cur,
                         if improved then Some(m) else best, leaves + child.leaves, trail');
        assert o.trail[..|trail|] == o.trail[..|trail'|][..|trail|];
      }
    }
  }

  /**
   * The undo does not pop the history: a search of a node with candidates
   * leaves at least one entry behind, the first candidate played by the side to
   * move; a leaf or a node without candidates leaves none and is not a best move.
   */
  lemma HistoryNotRestored(t: Tree, alpha: ExtInt, beta: ExtInt, maximizing: bool)
    ensures var o := AlphaBeta(t, alpha, beta, maximizing);
      (t.Leaf? || |t.branches| == 0) ==> o.trail == [] && o.best == None
    ensures var o := AlphaBeta(t, alpha, beta, maximizing);
      t.Node? && |t.branches| > 0 ==>
        |o.trail| >= 1 && o.trail[0] == Entry(t.branches[0].move.0, t.branches[0].move.1, t.player)
  {
    if t.Node? && |t.branches| > 0 {
      if maximizing {
        MaxLoopTrail(t, 0, alpha, beta, NegInf, None, 0, []);
      } else {
        MinLoopTrail(t, 0, alpha, beta, PosInf, None, 0, []);
      }
    }
  }

  /**
   * What a call of `minimax` must put back or account for: the position and
   * the side to move, the history, the search's node counter, the tracker (if
   * any) and its counter, and the generator's opening flags.
   */
  datatype Snapshot = Snapshot(cells: Grid, player: PlayerType, history: seq<Entry>, nodes: int,
                               tracker: ProgressTracker?, tracked: int, firstMove: bool, firstWhiteMove: bool)

  /**
   * The snapshot after work that appended `trail` to the history and evaluated
   * `leaves` leaves: both counters (the tracker's only when there is one) grow
   * by `leaves`; everything else is as before.
   */
  function Account(s: Snapshot, trail: seq<Entry>, leaves: nat): (r: Snapshot)
    ensures r.cells == s.cells && r.player == s.player && r.tracker == s.tracker
    ensures r.firstMove == s.firstMove && r.firstWhiteMove == s.firstWhiteMove
  {
    s.(history := s.history + trail, nodes := s.nodes + leaves,
       tracked := if s.tracker != null then s.tracked + leaves else s.tracked)
  }

  /** Accounting for two pieces of work in turn is accounting for both at once. */
  lemma AccountThen(s: Snapshot, t1: seq<Entry>, l1: nat, t2: seq<Entry>, l2: nat)
    ensures Account(Account(s, t1, l1), t2, l2) == Account(s, t1 + t2, l1 + l2)
  {
    AppendAssoc(s.history, t1, t2);
  }

  // ---------------------------------------------------------------------------
  // The search object: apply, recurse, undo, on the shared board.

  class MinimaxSearch {
    /** The shared board, changed in place during the search and restored after each move. */
    const board: Board
    /** The leaf evaluator, reading the same board. */
    const evaluator: PositionEvaluator
    const depth: nat
    var nodesEvaluated: nat
    /** `self.rules = GameRules(board)`: a generator of its own. */
    const rules: GameRules
    /**
     * `null` while `evaluator` is the plain evaluation; the tracker whose node
     * counter the wrapped evaluator bumps once it has been replaced.
     */
    var progress: ProgressTracker?

    /** `MinimaxSearch(board, evaluator, depth)`. */
    constructor (board: Board, evaluator: PositionEvaluator, depth: nat)
      ensures this.board == board && this.evaluator == evaluator && this.depth == depth
      ensures nodesEvaluated == 0 && progress == null
      ensures fresh(rules) && rules.board == board
      ensures !rules.firstMovePlayed && !rules.firstWhiteMovePlayed
    {
      this.board := board;
      this.evaluator := evaluator;
      this.depth := depth;
      nodesEvaluated := 0;
      rules := new GameRules(board);
      progress := null;
    }

    /** The objects the search reads all see the same board. */
    ghost predicate Wired()
      reads this, board, board.grid
    {
      board.Valid() && rules.board == board && evaluator.board == board
    }

    /** The current snapshot. */
    ghost function Now(): Snapshot
      requires board.Valid()
      reads this, board, board.grid, rules, progress
    {
      Snapshot(board.Cells(), board.currentPlayer, board.moveHistory, nodesEvaluated, progress,
               if progress != null then progress.nodesEvaluated else 0,
               rules.firstMovePlayed, rules.firstWhiteMovePlayed)
    }

    /**
     * `minimax(depth, alpha, beta, maximizing)`: returns what `AlphaBeta` of the
     * tree of the current position says; puts back every cell and the side to
     * move; appends the outcome's entries to the history; counts its leaves;
     * leaves the opening flags alone.
     */
    method Minimax(depth: nat, alpha: ExtInt, beta: ExtInt, maximizing: bool) returns (value: int, best: Option<Move>)
      requires Wired()
      modifies this, board, board.grid, rules, progress
      ensures Wired()
      ensures var o := AlphaBeta(GameTree(old(board.Cells()), old(board.currentPlayer), depth), alpha, beta, maximizing);
        value == o.value && best == o.best && Now() == Account(old(Now()), o.trail, o.leaves)
      decreases depth, 4
    {
      if depth == 0 {
        nodesEvaluated := nodesEvaluated + 1;
        if progress != null {
          progress.IncrementNodes();
        }
        value := evaluator.Evaluate();
        return value, None;
      }
      ghost var t := GameTree(board.Cells(), board.currentPlayer, depth);
      var validMoves := Candidates(depth, t);
      if |validMoves| == 0 {
        return 0, None;
      }
      if maximizing {
        value, best := MaximizeOver(depth, validMoves, alpha, beta, t);
      } else {
        value, best := MinimizeOver(depth, validMoves, alpha, beta, t);
      }
    }

    /**
     * `valid_moves = self.rules.get_valid_moves()`: the generator's list, which
     * is the list of moves on the branches of the position's tree.
     */
    method Candidates(depth: nat, ghost t: Tree) returns (moves: seq<Move>)
      requires Wired() && depth >= 1
      requires t == GameTree(board.Cells(), board.currentPlayer, depth)
      modifies rules
      ensures MovesOf(t, moves)
      ensures rules.firstMovePlayed == old(rules.firstMovePlayed) && rules.firstWhiteMovePlayed == old(rules.firstWhiteMovePlayed)
    {
      moves := rules.GetValidMoves();
      GameTreeMoves(board.Cells(), board.currentPlayer, depth);
    }

    /**
     * One pass of either loop body: save `current_player`, play the move, search
     * the child in the given role, write 0 back into the cell and restore the
     * side to move. The history keeps the move's entry and the child's.
     */
    method Explore(depth: nat, move: Move, alpha: ExtInt, beta: ExtInt, maximizing: bool, ghost sub: Tree)
      returns (eval: int)
      requires Wired() && depth >= 1
      requires InBounds(move.0, move.1) && board.Cells()[move.0][move.1] == 0
      requires sub == GameTree(Place(board.Cells(), move.0, move.1, board.currentPlayer.Value()),
                               board.currentPlayer.Opponent(), depth - 1)
      modifies this, board, board.grid, rules, progress
      ensures Wired()
      ensures var o := AlphaBeta(sub, alpha, beta, maximizing);
        eval == o.value && Now() == Account(old(Now()), [Entry(move.0, move.1, old(board.currentPlayer))] + o.trail, o.leaves)
      decreases depth, 1
    {
      ghost var g := board.Cells();
      var currentPlayer := board.currentPlayer;
      eval := Descend(depth, move, alpha, beta, maximizing, sub);
      Undo(move, currentPlayer);
      PlaceUndo(g, move.0, move.1, currentPlayer.Value());
    }

    /**
     * `make_move` and the recursive call: the move is played, the subtree
     * searched, and the board is left with the move on it.
     */
    method Descend(depth: nat, move: Move, alpha: ExtInt, beta: ExtInt, maximizing: bool, ghost sub: Tree)
      returns (eval: int)
      requires Wired() && depth >= 1
      requires InBounds(move.0, move.1) && board.Cells()[move.0][move.1] == 0
      requires sub == GameTree(Place(board.Cells(), move.0, move.1, board.currentPlayer.Value()),
                               board.currentPlayer.Opponent(), depth - 1)
      modifies this, board, board.grid, rules, progress
      ensures Wired()
      ensures var o := AlphaBeta(sub, alpha, beta, maximizing);
        var after := old(Now()).(cells := Place(old(board.Cells()), move.0, move.1, old(board.currentPlayer).Value()),
                                 player := old(board.currentPlayer).Opponent());
        eval == o.value && Now() == Account(after, [Entry(move.0, move.1, old(board.currentPlayer))] + o.trail, o.leaves)
      decreases depth, 0
    {
      ghost var after := Now().(cells := Place(board.Cells(), move.0, move.1, board.currentPlayer.Value()),
                                player := board.currentPlayer.Opponent());
      var played := board.MakeMove(move.0, move.1);
      assert played;
      assert sub == GameTree(board.Cells(), board.currentPlayer, depth - 1);
      var childBest;
      eval, childBest := Minimax(depth - 1, alpha, beta, maximizing);
      AccountThen(after, [Entry(move.0, move.1, old(board.currentPlayer))], 0, AlphaBeta(sub, alpha, beta, maximizing).trail,
                  AlphaBeta(sub, alpha, beta, maximizing).leaves);
    }

    /** The undo lines: write 0 back into the cell and restore the saved side to move; the history stays. */
    method Undo(move: Move, saved: PlayerType)
      requires board.Valid() && InBounds(move.0, move.1)
      modifies board, board.grid
      ensures board.Valid()
      ensures board.Cells() == Place(old(board.Cells()), move.0, move.1, 0)
      ensures board.currentPlayer == saved && board.moveHistory == old(board.moveHistory)
    {
      ghost var before := board.Cells();
      board.grid[move.0, move.1] := 0;
      board.currentPlayer := saved;
      board.CellsAre(Place(before, move.0, move.1, 0));
    }

    /**
     * One pass of the maximising loop over candidate k of tree `t`: explore it
     * as the minimiser, then `if eval > max_eval` and `alpha = max(alpha, eval)`.
     * What remains of the loop afterwards is what `MaxLoop` says remains.
     */
    method MaxPass(depth: nat, move: Move, alpha: ExtInt, beta: ExtInt, maxEval: ExtInt, best: Option<Move>,
                   ghost t: Tree, ghost k: nat, ghost leaves: nat, ghost trail: seq<Entry>, ghost s0: Snapshot)
      returns (alpha': ExtInt, maxEval': ExtInt, best': Option<Move>, ghost leaves': nat, ghost trail': seq<Entry>)
      requires Wired() && depth >= 1
      requires t == GameTree(board.Cells(), board.currentPlayer, depth)
      requires k < |t.branches| && move == t.branches[k].move
      requires maxEval.Fin? || (k == 0 && maxEval == NegInf)
      requires Now() == Account(s0, trail, leaves)
      modifies this, board, board.grid, rules, progress
      ensures Wired() && board.Cells() == old(board.Cells()) && board.currentPlayer == old(board.currentPlayer)
      ensures Now() == Account(s0, trail', leaves') && maxEval'.Fin?
      ensures Le(beta, alpha') ==>
        MaxLoop(t, k, alpha, beta, maxEval, best, leaves, trail) == Outcome(maxEval'.n, best', leaves', trail')
      ensures !Le(beta, alpha') ==>
        MaxLoop(t, k, alpha, beta, maxEval, best, leaves, trail) == MaxLoop(t, k + 1, alpha', beta, maxEval', best', leaves', trail')
      decreases depth, 2
    {
      ghost var p := board.currentPlayer;
      BranchTree(board.Cells(), p, depth, k);
      var eval := Explore(depth, move, alpha, beta, false, t.branches[k].tree);
      ghost var child := AlphaBeta(t.branches[k].tree, alpha, beta, false);
      AccountThen(s0, trail, leaves, [Entry(move.0, move.1, p)] + child.trail, child.leaves);
      AppendAssoc(trail, [Entry(move.0, move.1, p)], child.trail);
      leaves' := leaves + child.leaves;
      trail' := trail + [Entry(move.0, move.1, p)] + child.trail;
      maxEval', best' := maxEval, best;
      if Lt(maxEval, Fin(eval)) {
        maxEval' := Fin(eval);
        best' := Some(move);
      }
      alpha' := MaxE(alpha, Fin(eval));
      MaxLoopNext(t, k, alpha, beta, maxEval, best, leaves, trail, alpha', maxEval', best', leaves', trail');
    }

    /** One pass of the minimising loop: explore as the maximiser, then `if eval < min_eval` and `beta = min(beta, eval)`. */
    method MinPass(depth: nat, move: Move, alpha: ExtInt, beta: ExtInt, minEval: ExtInt, best: Option<Move>,
                   ghost t: Tree, ghost k: nat, ghost leaves: nat, ghost trail: seq<Entry>, ghost s0: Snapshot)
      returns (beta': ExtInt, minEval': ExtInt, best': Option<Move>, ghost leaves': nat, ghost trail': seq<Entry>)
      requires Wired() && depth >= 1
      requires t == GameTree(board.Cells(), board.currentPlayer, depth)
      requires k < |t.branches| && move == t.branches[k].move
      requires minEval.Fin? || (k == 0 && minEval == PosInf)
      requires Now() == Account(s0, trail, leaves)
      modifies this, board, board.grid, rules, progress
      ensures Wired() && board.Cells() == old(board.Cells()) && board.currentPlayer == old(board.currentPlayer)
      ensures Now() == Account(s0, trail', leaves') && minEval'.Fin?
      ensures Le(beta', alpha) ==>
        MinLoop(t, k, alpha, beta, minEval, best, leaves, trail) == Outcome(minEval'.n, best', leaves', trail')
      ensures !Le(beta', alpha) ==>
        MinLoop(t, k, alpha, beta, minEval, best, leaves, trail) == MinLoop(t, k + 1, alpha, beta', minEval', best', leaves', trail')
      decreases depth, 2
    {
      ghost var p := board.currentPlayer;
      BranchTree(board.Cells(), p, depth, k);
      var eval := Explore(depth, move, alpha, beta, true, t.branches[k].tree);
      ghost var child := AlphaBeta(t.branches[k].tree, alpha, beta, true);
      AccountThen(s0, trail, leaves, [Entry(move.0, move.1, p)] + child.trail, child.leaves);
      AppendAssoc(trail, [Entry(move.0, move.1, p)], child.trail);
      leaves' := leaves + child.leaves;
      trail' := trail + [Entry(move.0, move.1, p)] + child.trail;
      minEval', best' := minEval, best;
      if Lt(Fin(eval), minEval) {
        minEval' := Fin(eval);
        best' := Some(move);
      }
      beta' := MinE(beta, Fin(eval));
      MinLoopNext(t, k, alpha, beta, minEval, best, leaves, trail, beta', minEval', best', leaves', trail');
    }

    /** The `if maximizing` loop over the candidates of the current position. */
    method MaximizeOver(depth: nat, validMoves: seq<Move>, alpha: ExtInt, beta: ExtInt, ghost t: Tree)
      returns (value: int, best: Option<Move>)
      requires Wired() && depth >= 1
      requires t == GameTree(board.Cells(), board.currentPlayer, depth)
      requires MovesOf(t, validMoves) && |validMoves| > 0
      modifies this, board, board.grid, rules, progress
      ensures Wired()
      ensures var o := AlphaBeta(t, alpha, beta, true);
        value == o.value && best == o.best && Now() == Account(old(Now()), o.trail, o.leaves)
      decreases depth, 3
    {
      ghost var g := board.Cells();
      ghost var p := board.currentPlayer;
      ghost var s0 := Now();
      ghost var leaves: nat := 0;
      ghost var trail: seq<Entry> := [];
      best := None;
      var maxEval := NegInf;
      var a := alpha;
      var k := 0;
      while k < |validMoves|
        invariant 0 <= k <= |validMoves|
        invariant if k == 0 then maxEval == NegInf else maxEval.Fin?
        invariant Wired() && board.Cells() == g && board.currentPlayer == p
        invariant Now() == Account(s0, trail, leaves)
        invariant MaxLoop(t, k, a, beta, maxEval, best, leaves, trail) == AlphaBeta(t, alpha, beta, true)
      {
        a, maxEval, best, leaves, trail := MaxPass(depth, validMoves[k], a, beta, maxEval, best, t, k, leaves, trail, s0);
        if Le(beta, a) {
          break;
        }
        k := k + 1;
      }
      value := maxEval.n;
    }

    /** The minimising loop over the candidates of the current position. */
    method MinimizeOver(depth: nat, validMoves: seq<Move>, alpha: ExtInt, beta: ExtInt, ghost t: Tree)
      returns (value: int, best: Option<Move>)
      requires Wired() && depth >= 1
      requires t == GameTree(board.Cells(), board.currentPlayer, depth)
      requires MovesOf(t, validMoves) && |validMoves| > 0
      modifies this, board, board.grid, rules, progress
      ensures Wired()
      ensures var o := AlphaBeta(t, alpha, beta, false);
        value == o.value && best == o.best && Now() == Account(old(Now()), o.trail, o.leaves)
      decreases depth, 3
    {
      ghost var g := board.Cells();
      ghost var p := board.currentPlayer;
      ghost var s0 := Now();
      ghost var leaves: nat := 0;
      ghost var trail: seq<Entry> := [];
      best := None;
      var minEval := PosInf;
      var b := beta;
      var k := 0;
      while k < |validMoves|
        invariant 0 <= k <= |validMoves|
        invariant if k == 0 then minEval == PosInf else minEval.Fin?
        invariant Wired() && board.Cells() == g && board.currentPlayer == p
        invariant Now() == Account(s0, trail, leaves)
        invariant MinLoop(t, k, alpha, b, minEval, best, leaves, trail) == AlphaBeta(t, alpha, beta, false)
      {
        b, minEval, best, leaves, trail := MinPass(depth, validMoves[k], alpha, b, minEval, best, t, k, leaves, trail, s0);
        if Le(b, alpha) {
          break;
        }
        k := k + 1;
      }
      value := minEval.n;
    }

    /**
     * `search()`: `minimax` at the search depth with the full window, maximising;
     * its value is the plain minimax value of the position's tree.
     */
    method Search() returns (score: int, best: Option<Move>)
      requires Wired()
      modifies this, board, board.grid, rules, progress
      ensures Wired() && progress == old(progress)
      ensures var t := GameTree(old(board.Cells()), old(board.currentPlayer), depth);
        var o := AlphaBeta(t, NegInf, PosInf, true);
        && score == MinimaxValue(t, true) && score == o.value && best == o.best
        && board.moveHistory == old(board.moveHistory) + o.trail
        && nodesEvaluated == old(nodesEvaluated) + o.leaves
        && (progress != null ==> progress.nodesEvaluated == old(progress.nodesEvaluated) + o.leaves)
      ensures board.Cells() == old(board.Cells()) && board.currentPlayer == old(board.currentPlayer)
      ensures rules.firstMovePlayed == old(rules.firstMovePlayed) && rules.firstWhiteMovePlayed == old(rules.firstWhiteMovePlayed)
    {
      SearchIsMinimax(GameTree(board.Cells(), board.currentPlayer, depth), true);
      score, best := Minimax(depth, NegInf, PosInf, true);
    }
  }
}
