/** What the search promises: terminal scores, the reported move, agreement of
    the pruned search with plain minimax, and the tie-break on the first best move. */
module SearchProofs {
  import opened Board
  import opened WinCheck
  import opened MoveGen
  import opened Patterns
  import opened Search

  // ---- the order on scores with infinities ----

  lemma LeTotal(a: ExtInt, b: ExtInt)
    ensures Le(a, b) || Le(b, a)
    ensures Le(a, b) && Le(b, a) ==> a == b
  {
  }

  lemma LeTrans(a: ExtInt, b: ExtInt, c: ExtInt)
    requires Le(a, b) && Le(b, c)
    ensures Le(a, c)
  {
  }

  /** One step of the maximizing loop keeps alpha equal to the larger of the
      initial alpha and the running best, and keeps the clamped running bests of
      the pruned and the plain loop equal. */
  lemma MaxStep(alpha0: ExtInt, beta: ExtInt, best: ExtInt, tbest: ExtInt, r: ExtInt, v: ExtInt)
    requires Lt(Max(alpha0, best), beta)
    requires Clamp(best, alpha0, beta) == Clamp(tbest, alpha0, beta)
    requires Clamp(r, Max(alpha0, best), beta) == Clamp(v, Max(alpha0, best), beta)
    ensures Max(Max(alpha0, best), r) == Max(alpha0, if Lt(best, r) then r else best)
    ensures Clamp(if Lt(best, r) then r else best, alpha0, beta) ==
            Clamp(if Lt(tbest, v) then v else tbest, alpha0, beta)
  {
  }

  /** A cut-off in the maximizing loop: the pruned result is at least beta, and so
      is every value the plain loop can still reach. */
  lemma MaxPruned(alpha0: ExtInt, beta: ExtInt, best: ExtInt, tbest: ExtInt, t: ExtInt)
    requires Lt(alpha0, beta) && Le(beta, Max(alpha0, best))
    requires Clamp(best, alpha0, beta) == Clamp(tbest, alpha0, beta)
    requires Le(tbest, t)
    ensures Clamp(t, alpha0, beta) == Clamp(best, alpha0, beta)
  {
  }

  lemma MinStep(alpha: ExtInt, beta0: ExtInt, best: ExtInt, tbest: ExtInt, r: ExtInt, v: ExtInt)
    requires Lt(alpha, Min(beta0, best))
    requires Clamp(best, alpha, beta0) == Clamp(tbest, alpha, beta0)
    requires Clamp(r, alpha, Min(beta0, best)) == Clamp(v, alpha, Min(beta0, best))
    ensures Min(Min(beta0, best), r) == Min(beta0, if Lt(r, best) then r else best)
    ensures Clamp(if Lt(r, best) then r else best, alpha, beta0) ==
            Clamp(if Lt(v, tbest) then v else tbest, alpha, beta0)
  {
  }

  lemma MinPruned(alpha: ExtInt, beta0: ExtInt, best: ExtInt, tbest: ExtInt, t: ExtInt)
    requires Lt(alpha, beta0) && Le(Min(beta0, best), alpha)
    requires Clamp(best, alpha, beta0) == Clamp(tbest, alpha, beta0)
    requires Le(t, tbest)
    ensures Clamp(t, alpha, beta0) == Clamp(best, alpha, beta0)
  {
  }

  // ---- running bests only move one way ----

  lemma {:induction false} PlainMaxGe(g: Grid, moves: seq<Move>, depth: int, player: Player, plyLimit: int,
                                      best: ExtInt, bestMove: Option<Move>)
    requires depth < plyLimit && best != PosInf
    ensures Le(best, PlainMax(g, moves, depth, player, plyLimit, best, bestMove).best)
    decreases |moves|
  {
    if moves != [] {
      var eval := Fin(PlainMinimax(Child(g, moves[0], player), depth + 1, false, player, plyLimit).score);
      var best' := if Lt(best, eval) then eval else best;
      var move' := if Lt(best, eval) then Some(moves[0]) else bestMove;
      PlainMaxGe(g, moves[1..], depth, player, plyLimit, best', move');
      LeTrans(best, best', PlainMax(g, moves[1..], depth, player, plyLimit, best', move').best);
    }
  }

  lemma {:induction false} PlainMinLe(g: Grid, moves: seq<Move>, depth: int, player: Player, plyLimit: int,
                                      best: ExtInt, bestMove: Option<Move>)
    requires depth < plyLimit && best != NegInf
    ensures Le(PlainMin(g, moves, depth, player, plyLimit, best, bestMove).best, best)
    decreases |moves|
  {
    if moves != [] {
      var eval := Fin(PlainMinimax(Child(g, moves[0], Opponent(player)), depth + 1, true, player, plyLimit).score);
      var best' := if Lt(eval, best) then eval else best;
      var move' := if Lt(eval, best) then Some(moves[0]) else bestMove;
      PlainMinLe(g, moves[1..], depth, player, plyLimit, best', move');
      LeTrans(PlainMin(g, moves[1..], depth, player, plyLimit, best', move').best, best', best);
    }
  }

  // ---- pruning never changes the value inside the window ----

  /** Alpha-beta correctness: for any window alpha < beta the pruned score and the
      unpruned minimax score agree once forced into [alpha, beta]; so they are
      equal when the minimax score lies strictly inside the window, and on the
      same side of it otherwise. */
  lemma {:induction false} AlphaBetaClamp(g: Grid, depth: int, isMax: bool, alpha: ExtInt, beta: ExtInt,
                                          player: Player, plyLimit: int)
    requires depth <= plyLimit && Lt(alpha, beta)
    ensures Clamp(Fin(AlphaBeta(g, depth, isMax, alpha, beta, player, plyLimit).score), alpha, beta) ==
            Clamp(Fin(PlainMinimax(g, depth, isMax, player, plyLimit).score), alpha, beta)
    decreases plyLimit - depth, 1
  {
    if Branches(g, depth, player, plyLimit) {
      var moves := AvailableMoves(g);
      if isMax {
        MaxLoopClamp(g, moves, depth, alpha, alpha, beta, player, plyLimit, NegInf, None, NegInf, None);
      } else {
        MinLoopClamp(g, moves, depth, alpha, beta, beta, player, plyLimit, PosInf, None, PosInf, None);
      }
    }
  }

  lemma {:induction false} MaxLoopClamp(g: Grid, moves: seq<Move>, depth: int, alpha0: ExtInt, alpha: ExtInt,
                                        beta: ExtInt, player: Player, plyLimit: int,
                                        best: ExtInt, bestMove: Option<Move>, tbest: ExtInt, tmove: Option<Move>)
    requires depth < plyLimit && best != PosInf && tbest != PosInf
    requires alpha == Max(alpha0, best) && Lt(alpha, beta) && Lt(alpha0, beta)
    requires Clamp(best, alpha0, beta) == Clamp(tbest, alpha0, beta)
    ensures Clamp(MaxLoop(g, moves, depth, alpha, beta, player, plyLimit, best, bestMove).best, alpha0, beta) ==
            Clamp(PlainMax(g, moves, depth, player, plyLimit, tbest, tmove).best, alpha0, beta)
    decreases plyLimit - depth, 0, |moves|
  {
    if moves != [] {
      var m := moves[0];
      var child := Child(g, m, player);
      AlphaBetaClamp(child, depth + 1, false, alpha, beta, player, plyLimit);
      var r := Fin(AlphaBeta(child, depth + 1, false, alpha, beta, player, plyLimit).score);
      var v := Fin(PlainMinimax(child, depth + 1, false, player, plyLimit).score);
      MaxStep(alpha0, beta, best, tbest, r, v);
      var best' := if Lt(best, r) then r else best;
      var move' := if Lt(best, r) then Some(m) else bestMove;
      var tbest' := if Lt(tbest, v) then v else tbest;
      var tmove' := if Lt(tbest, v) then Some(m) else tmove;
      var alpha' := Max(alpha, r);
      if Le(beta, alpha') {
        PlainMaxGe(g, moves[1..], depth, player, plyLimit, tbest', tmove');
        MaxPruned(alpha0, beta, best', tbest', PlainMax(g, moves[1..], depth, player, plyLimit, tbest', tmove').best);
      } else {
        MaxLoopClamp(g, moves[1..], depth, alpha0, alpha', beta, player, plyLimit, best', move', tbest', tmove');
      }
    }
  }

  lemma {:induction false} MinLoopClamp(g: Grid, moves: seq<Move>, depth: int, alpha: ExtInt, beta0: ExtInt,
                                        beta: ExtInt, player: Player, plyLimit: int,
                                        best: ExtInt, bestMove: Option<Move>, tbest: ExtInt, tmove: Option<Move>)
    requires depth < plyLimit && best != NegInf && tbest != NegInf
    requires beta == Min(beta0, best) && Lt(alpha, beta) && Lt(alpha, beta0)
    requires Clamp(best, alpha, beta0) == Clamp(tbest, alpha, beta0)
    ensures Clamp(MinLoop(g, moves, depth, alpha, beta, player, plyLimit, best, bestMove).best, alpha, beta0) ==
            Clamp(PlainMin(g, moves, depth, player, plyLimit, tbest, tmove).best, alpha, beta0)
    decreases plyLimit - depth, 0, |moves|
  {
    if moves != [] {
      var m := moves[0];
      var child := Child(g, m, Opponent(player));
      AlphaBetaClamp(child, depth + 1, true, alpha, beta, player, plyLimit);
      var r := Fin(AlphaBeta(child, depth + 1, true, alpha, beta, player, plyLimit).score);
      var v := Fin(PlainMinimax(child, depth + 1, true, player, plyLimit).score);
      MinStep(alpha, beta0, best, tbest, r, v);
      var best' := if Lt(r, best) then r else best;
      var move' := if Lt(r, best) then Some(m) else bestMove;
      var tbest' := if Lt(v, tbest) then v else tbest;
      var tmove' := if Lt(v, tbest) then Some(m) else tmove;
      var beta' := Min(beta, r);
      if Le(beta', alpha) {
        PlainMinLe(g, moves[1..], depth, player, plyLimit, tbest', tmove');
        MinPruned(alpha, beta0, best', tbest', PlainMin(g, moves[1..], depth, player, plyLimit, tbest', tmove').best);
      } else {
        MinLoopClamp(g, moves[1..], depth, alpha, beta0, beta', player, plyLimit, best', move', tbest', tmove');
      }
    }
  }

  // ---- with the full window the pruned search is plain minimax ----

  lemma {:induction false} MaxLoopFullWindow(g: Grid, moves: seq<Move>, depth: int, player: Player, plyLimit: int,
                                             best: ExtInt, bestMove: Option<Move>)
    requires depth < plyLimit && best != PosInf
    ensures MaxLoop(g, moves, depth, best, PosInf, player, plyLimit, best, bestMove) ==
            PlainMax(g, moves, depth, player, plyLimit, best, bestMove)
    decreases |moves|
  {
    if moves != [] {
      var m := moves[0];
      var child := Child(g, m, player);
      AlphaBetaClamp(child, depth + 1, false, best, PosInf, player, plyLimit);
      var r := Fin(AlphaBeta(child, depth + 1, false, best, PosInf, player, plyLimit).score);
      var v := Fin(PlainMinimax(child, depth + 1, false, player, plyLimit).score);
      assert Lt(best, r) <==> Lt(best, v);
      assert Lt(best, r) ==> r == v;
      var best' := if Lt(best, r) then r else best;
      var move' := if Lt(best, r) then Some(m) else bestMove;
      LeTotal(best, r);
      assert Max(best, r) == best';
      MaxLoopFullWindow(g, moves[1..], depth, player, plyLimit, best', move');
    }
  }

  lemma {:induction false} MinLoopFullWindow(g: Grid, moves: seq<Move>, depth: int, player: Player, plyLimit: int,
                                             best: ExtInt, bestMove: Option<Move>)
    requires depth < plyLimit && best != NegInf
    ensures MinLoop(g, moves, depth, NegInf, best, player, plyLimit, best, bestMove) ==
            PlainMin(g, moves, depth, player, plyLimit, best, bestMove)
    decreases |moves|
  {
    if moves != [] {
      var m := moves[0];
      var child := Child(g, m, Opponent(player));
      AlphaBetaClamp(child, depth + 1, true, NegInf, best, player, plyLimit);
      var r := Fin(AlphaBeta(child, depth + 1, true, NegInf, best, player, plyLimit).score);
      var v := Fin(PlainMinimax(child, depth + 1, true, player, plyLimit).score);
      assert Lt(r, best) <==> Lt(v, best);
      assert Lt(r, best) ==> r == v;
      var best' := if Lt(r, best) then r else best;
      var move' := if Lt(r, best) then Some(m) else bestMove;
      LeTotal(best, r);
      assert Min(best, r) == best';
      MinLoopFullWindow(g, moves[1..], depth, player, plyLimit, best', move');
    }
  }

  /** With alpha = -inf and beta = +inf (the driver's call) the pruned search
      returns exactly what plain minimax returns: the same score and the same move. */
  lemma FullWindowIsMinimax(g: Grid, depth: int, isMax: bool, player: Player, plyLimit: int)
    requires depth <= plyLimit
    ensures AlphaBeta(g, depth, isMax, NegInf, PosInf, player, plyLimit) == PlainMinimax(g, depth, isMax, player, plyLimit)
  {
    if Branches(g, depth, player, plyLimit) {
      if isMax {
        MaxLoopFullWindow(g, AvailableMoves(g), depth, player, plyLimit, NegInf, None);
      } else {
        MinLoopFullWindow(g, AvailableMoves(g), depth, player, plyLimit, PosInf, None);
      }
    }
  }

  // ---- leaves ----

  /** A decided game scores +1000 or -1000 from the root player's side whatever
      the depth, the window or whose level it is; an undecided leaf scores the
      heuristic from the root player's side. Leaves report no move. */
  lemma LeafScores(g: Grid, depth: int, isMax: bool, alpha: ExtInt, beta: ExtInt, player: Player, plyLimit: int)
    requires depth <= plyLimit
    ensures Winner(g) == Some(player) ==>
              AlphaBeta(g, depth, isMax, alpha, beta, player, plyLimit) == SearchResult(1000, None)
    ensures Winner(g) == Some(Opponent(player)) ==>
              AlphaBeta(g, depth, isMax, alpha, beta, player, plyLimit) == SearchResult(-1000, None)
    ensures Winner(g) == None && (depth == plyLimit || AvailableMoves(g) == []) ==>
              AlphaBeta(g, depth, isMax, alpha, beta, player, plyLimit) == SearchResult(Evaluate(g, player), None)
  {
  }

  // ---- the reported move ----

  lemma {:induction false} MaxLoopMove(g: Grid, moves: seq<Move>, depth: int, alpha: ExtInt, beta: ExtInt,
                                       player: Player, plyLimit: int, best: ExtInt, bestMove: Option<Move>)
    requires depth < plyLimit && best != PosInf
    ensures var r := MaxLoop(g, moves, depth, alpha, beta, player, plyLimit, best, bestMove);
            (r.move == bestMove || (r.move.Some? && r.move.value in moves)) &&
            (bestMove.Some? || (moves != [] && best == NegInf) ==> r.move.Some?)
    decreases |moves|
  {
    if moves != [] {
      var m := moves[0];
      var eval := Fin(AlphaBeta(Child(g, m, player), depth + 1, false, alpha, beta, player, plyLimit).score);
      var best' := if Lt(best, eval) then eval else best;
      var move' := if Lt(best, eval) then Some(m) else bestMove;
      MaxLoopMove(g, moves[1..], depth, Max(alpha, eval), beta, player, plyLimit, best', move');
      assert forall x :: x in moves[1..] ==> x in moves;
    }
  }

  lemma {:induction false} MinLoopMove(g: Grid, moves: seq<Move>, depth: int, alpha: ExtInt, beta: ExtInt,
                                       player: Player, plyLimit: int, best: ExtInt, bestMove: Option<Move>)
    requires depth < plyLimit && best != NegInf
    ensures var r := MinLoop(g, moves, depth, alpha, beta, player, plyLimit, best, bestMove);
            (r.move == bestMove || (r.move.Some? && r.move.value in moves)) &&
            (bestMove.Some? || (moves != [] && best == PosInf) ==> r.move.Some?)
    decreases |moves|
  {
    if moves != [] {
      var m := moves[0];
      var eval := Fin(AlphaBeta(Child(g, m, Opponent(player)), depth + 1, true, alpha, beta, player, plyLimit).score);
      var best' := if Lt(eval, best) then eval else best;
      var move' := if Lt(eval, best) then Some(m) else bestMove;
      MinLoopMove(g, moves[1..], depth, alpha, Min(beta, eval), player, plyLimit, best', move');
      assert forall x :: x in moves[1..] ==> x in moves;
    }
  }

  /** Whenever the search branches, whatever the window, it reports a move and
      that move is one of get_available_moves, so playing it succeeds. */
  lemma SearchMoveIsAvailable(g: Grid, depth: int, isMax: bool, alpha: ExtInt, beta: ExtInt,
                              player: Player, plyLimit: int)
    requires depth <= plyLimit && Branches(g, depth, player, plyLimit)
    ensures AlphaBeta(g, depth, isMax, alpha, beta, player, plyLimit).move.Some?
    ensures AlphaBeta(g, depth, isMax, alpha, beta, player, plyLimit).move.value in AvailableMoves(g)
    ensures ApplyMove(g, AlphaBeta(g, depth, isMax, alpha, beta, player, plyLimit).move.value.row,
                      AlphaBeta(g, depth, isMax, alpha, beta, player, plyLimit).move.value.col, player).0
  {
    if isMax {
      MaxLoopMove(g, AvailableMoves(g), depth, alpha, beta, player, plyLimit, NegInf, None);
    } else {
      MinLoopMove(g, AvailableMoves(g), depth, alpha, beta, player, plyLimit, PosInf, None);
    }
    AvailableMoveSucceeds(g, AlphaBeta(g, depth, isMax, alpha, beta, player, plyLimit).move.value, player);
  }

  // ---- tie-break: the first best move in (column, row) order ----

  lemma {:induction false} PlainMaxFirstBest(g: Grid, moves: seq<Move>, depth: int, player: Player, plyLimit: int,
                                             best: ExtInt, bestMove: Option<Move>) returns (k: int)
    requires depth < plyLimit && best != PosInf
    ensures var r := PlainMax(g, moves, depth, player, plyLimit, best, bestMove);
            Le(best, r.best) &&
            forall j :: 0 <= j < |moves| ==> Le(Fin(ChildValue(g, moves[j], depth, true, player, plyLimit)), r.best)
    ensures -1 <= k < |moves|
    ensures k == -1 ==> PlainMax(g, moves, depth, player, plyLimit, best, bestMove) == Running(best, bestMove)
    ensures k >= 0 ==>
              var r := PlainMax(g, moves, depth, player, plyLimit, best, bestMove);
              r.move == Some(moves[k]) && r.best == Fin(ChildValue(g, moves[k], depth, true, player, plyLimit)) &&
              Lt(best, r.best) &&
              forall j :: 0 <= j < k ==> Lt(Fin(ChildValue(g, moves[j], depth, true, player, plyLimit)), r.best)
    decreases |moves|
  {
    if moves == [] {
      k := -1;
    } else {
      var eval := Fin(ChildValue(g, moves[0], depth, true, player, plyLimit));
      assert eval == Fin(PlainMinimax(Child(g, moves[0], player), depth + 1, false, player, plyLimit).score);
      var best' := if Lt(best, eval) then eval else best;
      var move' := if Lt(best, eval) then Some(moves[0]) else bestMove;
      var r := PlainMax(g, moves[1..], depth, player, plyLimit, best', move');
      assert PlainMax(g, moves, depth, player, plyLimit, best, bestMove) == r;
      var k' := PlainMaxFirstBest(g, moves[1..], depth, player, plyLimit, best', move');
      LeTotal(best, eval);
      LeTrans(best, best', r.best);
      LeTrans(eval, best', r.best);
      forall j | 1 <= j < |moves|
        ensures Le(Fin(ChildValue(g, moves[j], depth, true, player, plyLimit)), r.best)
      {
        assert moves[j] == moves[1..][j - 1];
      }
      if k' >= 0 {
        k := k' + 1;
        assert moves[k] == moves[1..][k'];
        forall j | 0 <= j < k
          ensures Lt(Fin(ChildValue(g, moves[j], depth, true, player, plyLimit)), r.best)
        {
          if j > 0 {
            assert moves[j] == moves[1..][j - 1];
          }
        }
      } else if Lt(best, eval) {
        k := 0;
      } else {
        k := -1;
      }
    }
  }

  lemma {:induction false} PlainMinFirstBest(g: Grid, moves: seq<Move>, depth: int, player: Player, plyLimit: int,
                                             best: ExtInt, bestMove: Option<Move>) returns (k: int)
    requires depth < plyLimit && best != NegInf
    ensures var r := PlainMin(g, moves, depth, player, plyLimit, best, bestMove);
            Le(r.best, best) &&
            forall j :: 0 <= j < |moves| ==> Le(r.best, Fin(ChildValue(g, moves[j], depth, false, player, plyLimit)))
    ensures -1 <= k < |moves|
    ensures k == -1 ==> PlainMin(g, moves, depth, player, plyLimit, best, bestMove) == Running(best, bestMove)
    ensures k >= 0 ==>
              var r := PlainMin(g, moves, depth, player, plyLimit, best, bestMove);
              r.move == Some(moves[k]) && r.best == Fin(ChildValue(g, moves[k], depth, false, player, plyLimit)) &&
              Lt(r.best, best) &&
              forall j :: 0 <= j < k ==> Lt(r.best, Fin(ChildValue(g, moves[j], depth, false, player, plyLimit)))
    decreases |moves|
  {
    if moves == [] {
      k := -1;
    } else {
      var eval := Fin(ChildValue(g, moves[0], depth, false, player, plyLimit));
      assert eval == Fin(PlainMinimax(Child(g, moves[0], Opponent(player)), depth + 1, true, player, plyLimit).score);
      var best' := if Lt(eval, best) then eval else best;
      var move' := if Lt(eval, best) then Some(moves[0]) else bestMove;
      var r := PlainMin(g, moves[1..], depth, player, plyLimit, best', move');
      assert PlainMin(g, moves, depth, player, plyLimit, best, bestMove) == r;
      var k' := PlainMinFirstBest(g, moves[1..], depth, player, plyLimit, best', move');
      LeTotal(best, eval);
      LeTrans(r.best, best', best);
      LeTrans(r.best, best', eval);
      forall j | 1 <= j < |moves|
        ensures Le(r.best, Fin(ChildValue(g, moves[j], depth, false, player, plyLimit)))
      {
        assert moves[j] == moves[1..][j - 1];
      }
      if k' >= 0 {
        k := k' + 1;
        assert moves[k] == moves[1..][k'];
        forall j | 0 <= j < k
          ensures Lt(r.best, Fin(ChildValue(g, moves[j], depth, false, player, plyLimit)))
        {
          if j > 0 {
            assert moves[j] == moves[1..][j - 1];
          }
        }
      } else if Lt(eval, best) {
        k := 0;
      } else {
        k := -1;
      }
    }
  }

  /** The tie-break of the reference search: at a branching node the reported
      move is moves[k], the first move in get_available_moves order whose child
      value is the best of all children (largest at a maximizing level, smallest
      at a minimizing one), and the score is that value; earlier moves are
      strictly worse. */
  lemma MinimaxFirstBest(g: Grid, depth: int, isMax: bool, player: Player, plyLimit: int) returns (k: int)
    requires depth <= plyLimit && Branches(g, depth, player, plyLimit)
    ensures 0 <= k < |AvailableMoves(g)|
    ensures var moves := AvailableMoves(g);
            var r := PlainMinimax(g, depth, isMax, player, plyLimit);
            r.move == Some(moves[k]) && r.score == ChildValue(g, moves[k], depth, isMax, player, plyLimit)
    ensures var moves := AvailableMoves(g);
            var r := PlainMinimax(g, depth, isMax, player, plyLimit);
            forall j :: 0 <= j < |moves| ==>
              if isMax then ChildValue(g, moves[j], depth, isMax, player, plyLimit) <= r.score
              else r.score <= ChildValue(g, moves[j], depth, isMax, player, plyLimit)
    ensures var moves := AvailableMoves(g);
            var r := PlainMinimax(g, depth, isMax, player, plyLimit);
            forall j :: 0 <= j < k ==>
              if isMax then ChildValue(g, moves[j], depth, isMax, player, plyLimit) < r.score
              else r.score < ChildValue(g, moves[j], depth, isMax, player, plyLimit)
  {
    var moves := AvailableMoves(g);
    if isMax {
      var r := PlainMax(g, moves, depth, player, plyLimit, NegInf, None);
      assert PlainMinimax(g, depth, isMax, player, plyLimit) == SearchResult(r.best.n, r.move);
      k := PlainMaxFirstBest(g, moves, depth, player, plyLimit, NegInf, None);
    } else {
      var r := PlainMin(g, moves, depth, player, plyLimit, PosInf, None);
      assert PlainMinimax(g, depth, isMax, player, plyLimit) == SearchResult(r.best.n, r.move);
      k := PlainMinFirstBest(g, moves, depth, player, plyLimit, PosInf, None);
    }
  }

  /** The driver's search (full window) therefore keeps the first of several
      equally good moves, as the tie-breaking rule asks. */
  lemma SearchFirstBest(g: Grid, depth: int, isMax: bool, player: Player, plyLimit: int) returns (k: int)
    requires depth <= plyLimit && Branches(g, depth, player, plyLimit)
    ensures 0 <= k < |AvailableMoves(g)|
    ensures var moves := AvailableMoves(g);
            var r := AlphaBeta(g, depth, isMax, NegInf, PosInf, player, plyLimit);
            r.move == Some(moves[k]) && r.score == ChildValue(g, moves[k], depth, isMax, player, plyLimit)
    ensures var moves := AvailableMoves(g);
            var r := AlphaBeta(g, depth, isMax, NegInf, PosInf, player, plyLimit);
            forall j :: 0 <= j < |moves| ==>
              if isMax then ChildValue(g, moves[j], depth, isMax, player, plyLimit) <= r.score
              else r.score <= ChildValue(g, moves[j], depth, isMax, player, plyLimit)
    ensures var moves := AvailableMoves(g);
            var r := AlphaBeta(g, depth, isMax, NegInf, PosInf, player, plyLimit);
            forall j :: 0 <= j < k ==>
              if isMax then ChildValue(g, moves[j], depth, isMax, player, plyLimit) < r.score
              else r.score < ChildValue(g, moves[j], depth, isMax, player, plyLimit)
  {
    FullWindowIsMinimax(g, depth, isMax, player, plyLimit);
    k := MinimaxFirstBest(g, depth, isMax, player, plyLimit);
  }
}
