/** The game-tree search as functions on grid values: the depth-limited minimax
    with alpha-beta pruning that `minimax` performs, and the same search without
    pruning as a reference. */
module Search {
  import opened Board
  import opened WinCheck
  import opened MoveGen
  import opened Patterns

  /** Scores and bounds with the two infinities the program uses as sentinels. */
  datatype ExtInt = NegInf | Fin(n: int) | PosInf

  predicate Le(a: ExtInt, b: ExtInt) {
    a.NegInf? || b.PosInf? || (a.Fin? && b.Fin? && a.n <= b.n)
  }

  predicate Lt(a: ExtInt, b: ExtInt) {
    !Le(b, a)
  }

  function Max(a: ExtInt, b: ExtInt): ExtInt {
    if Le(a, b) then b else a
  }

  function Min(a: ExtInt, b: ExtInt): ExtInt {
    if Le(a, b) then a else b
  }

  /** `x` forced into the window [lo, hi]. */
  function Clamp(x: ExtInt, lo: ExtInt, hi: ExtInt): ExtInt {
    Min(Max(x, lo), hi)
  }

  /** The score of a decided game, for the winner. */
  const WIN_SCORE: int := 1000

  /** What `minimax` returns: the score and the best move, or None at a leaf. */
  datatype SearchResult = SearchResult(score: int, move: Option<Move>)

  /** The running best (max_eval or min_eval) and best_move of a move loop. */
  datatype Running = Running(best: ExtInt, move: Option<Move>)

  /** Who moves at a level: the root player when maximizing, the opponent otherwise. */
  function Mover(isMax: bool, player: Player): Player {
    if isMax then player else Opponent(player)
  }

  /** The copy of the board with the move made on it. */
  function Child(g: Grid, m: Move, mover: Player): Grid {
    ApplyMove(g, m.row, m.col, mover).1
  }

  /** The node is not a leaf: nobody has won, the ply limit is not reached and
      there is a move. */
  predicate Branches(g: Grid, depth: int, player: Player, plyLimit: int) {
    Winner(g) != Some(player) && Winner(g) != Some(Opponent(player)) &&
    depth != plyLimit && AvailableMoves(g) != []
  }

  /** minimax(depth, is_maximizing, alpha, beta, player, ply_limit) on grid `g`. */
  function AlphaBeta(g: Grid, depth: int, isMax: bool, alpha: ExtInt, beta: ExtInt,
                     player: Player, plyLimit: int): SearchResult
    requires depth <= plyLimit
    decreases plyLimit - depth, 1
  {
    if Winner(g) == Some(player) then SearchResult(WIN_SCORE, None)
    else if Winner(g) == Some(Opponent(player)) then SearchResult(-WIN_SCORE, None)
    else if depth == plyLimit || AvailableMoves(g) == [] then SearchResult(Evaluate(g, player), None)
    else
      var r := if isMax then MaxLoop(g, AvailableMoves(g), depth, alpha, beta, player, plyLimit, NegInf, None)
               else MinLoop(g, AvailableMoves(g), depth, alpha, beta, player, plyLimit, PosInf, None);
      SearchResult(r.best.n, r.move)
  }

  /** The maximizing loop over the remaining `moves`, with the current alpha and
      the running max_eval and best_move. */
  function MaxLoop(g: Grid, moves: seq<Move>, depth: int, alpha: ExtInt, beta: ExtInt,
                   player: Player, plyLimit: int, best: ExtInt, bestMove: Option<Move>): (r: Running)
    requires depth < plyLimit
    requires best != PosInf
    ensures r.best != PosInf
    ensures best.Fin? || moves != [] ==> r.best.Fin?
    decreases plyLimit - depth, 0, |moves|
  {
    if moves == [] then Running(best, bestMove)
    else
      var m := moves[0];
      var eval := Fin(AlphaBeta(Child(g, m, player), depth + 1, false, alpha, beta, player, plyLimit).score);
      var improved := Lt(best, eval);
      var best' := if improved then eval else best;
      var move' := if improved then Some(m) else bestMove;
      var alpha' := Max(alpha, eval);
      if Le(beta, alpha') then Running(best', move')
      else MaxLoop(g, moves[1..], depth, alpha', beta, player, plyLimit, best', move')
  }

  /** The minimizing loop, symmetric: the opponent moves, beta shrinks. */
  function MinLoop(g: Grid, moves: seq<Move>, depth: int, alpha: ExtInt, beta: ExtInt,
                   player: Player, plyLimit: int, best: ExtInt, bestMove: Option<Move>): (r: Running)
    requires depth < plyLimit
    requires best != NegInf
    ensures r.best != NegInf
    ensures best.Fin? || moves != [] ==> r.best.Fin?
    decreases plyLimit - depth, 0, |moves|
  {
    if moves == [] then Running(best, bestMove)
    else
      var m := moves[0];
      var eval := Fin(AlphaBeta(Child(g, m, Opponent(player)), depth + 1, true, alpha, beta, player, plyLimit).score);
      var improved := Lt(eval, best);
      var best' := if improved then eval else best;
      var move' := if improved then Some(m) else bestMove;
      var beta' := Min(beta, eval);
      if Le(beta', alpha) then Running(best', move')
      else MinLoop(g, moves[1..], depth, alpha, beta', player, plyLimit, best', move')
  }

  /** The reference: the same search with no alpha, no beta and no pruning. */
  function PlainMinimax(g: Grid, depth: int, isMax: bool, player: Player, plyLimit: int): SearchResult
    requires depth <= plyLimit
    decreases plyLimit - depth, 1
  {
    if Winner(g) == Some(player) then SearchResult(WIN_SCORE, None)
    else if Winner(g) == Some(Opponent(player)) then SearchResult(-WIN_SCORE, None)
    else if depth == plyLimit || AvailableMoves(g) == [] then SearchResult(Evaluate(g, player), None)
    else
      var r := if isMax then PlainMax(g, AvailableMoves(g), depth, player, plyLimit, NegInf, None)
               else PlainMin(g, AvailableMoves(g), depth, player, plyLimit, PosInf, None);
      SearchResult(r.best.n, r.move)
  }

  function PlainMax(g: Grid, moves: seq<Move>, depth: int, player: Player, plyLimit: int,
                    best: ExtInt, bestMove: Option<Move>): (r: Running)
    requires depth < plyLimit
    requires best != PosInf
    ensures r.best != PosInf
    ensures best.Fin? || moves != [] ==> r.best.Fin?
    decreases plyLimit - depth, 0, |moves|
  {
    if moves == [] then Running(best, bestMove)
    else
      var m := moves[0];
      var eval := Fin(PlainMinimax(Child(g, m, player), depth + 1, false, player, plyLimit).score);
      var improved := Lt(best, eval);
      PlainMax(g, moves[1..], depth, player, plyLimit,
               if improved then eval else best, if improved then Some(m) else bestMove)
  }

  function PlainMin(g: Grid, moves: seq<Move>, depth: int, player: Player, plyLimit: int,
                    best: ExtInt, bestMove: Option<Move>): (r: Running)
    requires depth < plyLimit
    requires best != NegInf
    ensures r.best != NegInf
    ensures best.Fin? || moves != [] ==> r.best.Fin?
    decreases plyLimit - depth, 0, |moves|
  {
    if moves == [] then Running(best, bestMove)
    else
      var m := moves[0];
      var eval := Fin(PlainMinimax(Child(g, m, Opponent(player)), depth + 1, true, player, plyLimit).score);
      var improved := Lt(eval, best);
      PlainMin(g, moves[1..], depth, player, plyLimit,
               if improved then eval else best, if improved then Some(m) else bestMove)
  }

  /** The unpruned value of the child reached by move `m` at a node of this level. */
  function ChildValue(g: Grid, m: Move, depth: int, isMax: bool, player: Player, plyLimit: int): int
    requires depth < plyLimit
  {
    PlainMinimax(Child(g, m, Mover(isMax, player)), depth + 1, !isMax, player, plyLimit).score
  }
}
