/** The FourInARow object: the board it mutates in place and the methods that
    scan it, each proved equal to the function on grid values that specifies it. */
module Game {
  import opened Board
  import opened WinCheck
  import opened MoveGen
  import opened Patterns
  import opened Search

  class FourInARow {
    /** board[row, col], ROWS by COLS. */
    var board: array2<Cell>
    /** player_turn: set by the constructor, not read by the methods. */
    var playerTurn: Player
    /** The board as a grid value. */
    ghost var cells: Grid

    ghost predicate Valid()
      reads this, board
    {
      board.Length0 == ROWS && board.Length1 == COLS &&
      forall r, c :: InBounds(r, c) ==> cells[r][c] == board[r, c]
    }

    /** __init__: an all-blank board with X already on row 3, column 4, and O to move. */
    constructor ()
      ensures Valid() && fresh(board)
      ensures cells == InitialGrid() && playerTurn == O
    {
      var a := new Cell[ROWS, COLS]((_, _) => Empty);
      a[3, 4] := X;
      board := a;
      playerTurn := O;
      cells := InitialGrid();
    }

    /** copy.deepcopy(other): a new object with a board of its own and the same cells. */
    constructor Copy(other: FourInARow)
      requires other.Valid()
      ensures Valid() && fresh(board)
      ensures cells == other.cells && playerTurn == other.playerTurn
    {
      var src := other.board;
      var a := new Cell[ROWS, COLS]((r, c) requires 0 <= r < ROWS && 0 <= c < COLS reads src => src[r, c]);
      board := a;
      playerTurn := other.playerTurn;
      cells := other.cells;
    }

    /** is_valid_move */
    predicate IsValidMove(row: int, col: int)
      reads this, board
      requires Valid()
      ensures IsValidMove(row, col) <==> ValidMove(cells, row, col)
    {
      0 <= row < ROWS && 0 <= col < COLS && board[row, col] == Empty
    }

    /** make_move: places the mark when the cell is on the board and blank, and
        reports whether it did; otherwise the board is left as it was. */
    method MakeMove(row: int, col: int, player: Player) returns (success: bool)
      requires Valid()
      modifies this, board
      ensures Valid() && board == old(board) && playerTurn == old(playerTurn)
      ensures (success, cells) == ApplyMove(old(cells), row, col, player)
    {
      if IsValidMove(row, col) {
        board[row, col] := player;
        success := true;
      } else {
        success := false;
      }
      cells := ApplyMove(cells, row, col, player).1;
    }

    /** check_direction */
    method CheckDirection(row: int, col: int, deltaRow: int, deltaCol: int) returns (four: bool)
      requires Valid() && InBounds(row, col)
      ensures four == FourInRow(cells, row, col, deltaRow, deltaCol)
    {
      var consecutive := 0;
      var player := board[row, col];
      for i := 0 to 4
        invariant consecutive == i
        invariant forall k :: 0 <= k < i ==> StepHolds(cells, row, col, deltaRow, deltaCol, k, player)
      {
        var r := row + deltaRow * i;
        var c := col + deltaCol * i;
        if 0 <= r < ROWS && 0 <= c < COLS && board[r, c] == player {
          consecutive := consecutive + 1;
        } else {
          assert !StepHolds(cells, row, col, deltaRow, deltaCol, i, player);
          break;
        }
      }
      four := consecutive == 4;
    }

    /** check_winner: scans the anchors in row-major order and returns the mark of
        the first one that starts four in a row. */
    method CheckWinner() returns (winner: Option<Player>)
      requires Valid()
      ensures winner == Winner(cells)
    {
      for row := 0 to ROWS
        invariant WinnerFrom(cells, row, 0) == Winner(cells)
      {
        for col := 0 to COLS
          invariant WinnerFrom(cells, row, col) == Winner(cells)
        {
          if board[row, col] != Empty {
            var found := CheckDirection(row, col, 1, 0);
            if !found {
              found := CheckDirection(row, col, 0, 1);
            }
            if !found {
              found := CheckDirection(row, col, 1, 1);
            }
            if !found {
              found := CheckDirection(row, col, 1, -1);
            }
            if found {
              var mark: Player := board[row, col];
              return Some(mark);
            }
          }
        }
      }
      return None;
    }

    /** The `any(...)` of get_available_moves: some cell of the 3x3 block around
        (row, col), clipped at the edges, is occupied. */
    method AnyOccupiedAround(row: int, col: int) returns (found: bool)
      requires Valid()
      ensures found == HasOccupiedNeighbour(cells, row, col)
    {
      found := false;
      var r := RangeLo(row);
      while r < RangeHi(row, ROWS) && !found
        invariant RangeLo(row) <= r
        invariant found ==> HasOccupiedNeighbour(cells, row, col)
        invariant !found ==> forall i, j :: RangeLo(row) <= i < r && i < RangeHi(row, ROWS) && RangeLo(col) <= j < RangeHi(col, COLS) ==> cells[i][j] == Empty
        decreases RangeHi(row, ROWS) - r
      {
        var c := RangeLo(col);
        while c < RangeHi(col, COLS) && !found
          invariant RangeLo(col) <= c && r < RangeHi(row, ROWS)
          invariant found ==> HasOccupiedNeighbour(cells, row, col)
          invariant !found ==> forall i, j :: RangeLo(row) <= i < r && RangeLo(col) <= j < RangeHi(col, COLS) ==> cells[i][j] == Empty
          invariant !found ==> forall j :: RangeLo(col) <= j < c && j < RangeHi(col, COLS) ==> cells[r][j] == Empty
          decreases RangeHi(col, COLS) - c
        {
          if board[r, c] != Empty {
            found := true;
          }
          c := c + 1;
        }
        r := r + 1;
      }
    }

    /** get_available_moves: the blank cells next to a mark, column by column and
        row by row, then sorted by (column, row). */
    method GetAvailableMoves() returns (moves: seq<Move>)
      requires Valid()
      ensures moves == AvailableMoves(cells)
    {
      moves := [];
      for col := 0 to COLS
        invariant moves + MovesFrom(cells, col, 0) == AvailableMoves(cells)
      {
        for row := 0 to ROWS
          invariant moves + MovesFrom(cells, col, row) == AvailableMoves(cells)
        {
          ghost var rest := MovesFrom(cells, col, row + 1);
          var adjacent := false;
          if IsValidMove(row, col) {
            adjacent := AnyOccupiedAround(row, col);
          }
          if adjacent {
            assert MovesFrom(cells, col, row) == [Move(row, col)] + rest;
            assert (moves + [Move(row, col)]) + rest == moves + ([Move(row, col)] + rest);
            moves := moves + [Move(row, col)];
          } else {
            assert !IsMove(cells, row, col);
            assert MovesFrom(cells, col, row) == [] + rest;
            assert [] + rest == rest;
          }
        }
        assert MovesFrom(cells, col, ROWS) == MovesFrom(cells, col + 1, 0);
      }
      assert MovesFrom(cells, COLS, 0) == [];
      assert moves + [] == moves;
      AvailableMovesSorted(cells);
      SortKeepsSorted(moves);
      moves := SortByColumnRow(moves);
    }

    /** The inner `for i in range(1, 4)` of count_patterns: the forward length of
        the run of `player` from (row, col) along (deltaRow, deltaCol). */
    method RunCount(row: int, col: int, deltaRow: int, deltaCol: int, player: Player) returns (count: int)
      requires Valid()
      ensures count == RunLength(cells, row, col, deltaRow, deltaCol, player)
    {
      count := 1;
      for i := 1 to 4
        invariant count == i
        invariant count + Extend(cells, row, col, deltaRow, deltaCol, player, i) == RunLength(cells, row, col, deltaRow, deltaCol, player)
      {
        var r := row + deltaRow * i;
        var c := col + deltaCol * i;
        if 0 <= r < ROWS && 0 <= c < COLS && board[r, c] == player {
          count := count + 1;
        } else {
          break;
        }
      }
    }

    /** The test `0 <= r < ROWS and 0 <= c < COLS and board[r][c] == EMPTY`. */
    predicate IsOpen(r: int, c: int)
      reads this, board
      requires Valid()
      ensures IsOpen(r, c) <==> OpenEnd(cells, r, c)
    {
      0 <= r < ROWS && 0 <= c < COLS && board[r, c] == Empty
    }

    /** One pass of count_patterns' direction loop: measures the run from
        (row, col) along (deltaRow, deltaCol) and bumps the counter of its kind. */
    method CountDirection(row: int, col: int, deltaRow: int, deltaCol: int, player: Player,
                          twoOpen3In: int, oneOpen3In: int, twoOpen2In: int, oneOpen2In: int)
      returns (twoOpen3: int, oneOpen3: int, twoOpen2: int, oneOpen2: int)
      requires Valid()
      ensures twoOpen3 == twoOpen3In + Hit(Classify(cells, row, col, deltaRow, deltaCol, player), TwoOpen3)
      ensures oneOpen3 == oneOpen3In + Hit(Classify(cells, row, col, deltaRow, deltaCol, player), OneOpen3)
      ensures twoOpen2 == twoOpen2In + Hit(Classify(cells, row, col, deltaRow, deltaCol, player), TwoOpen2)
      ensures oneOpen2 == oneOpen2In + Hit(Classify(cells, row, col, deltaRow, deltaCol, player), OneOpen2)
    {
      twoOpen3, oneOpen3, twoOpen2, oneOpen2 := twoOpen3In, oneOpen3In, twoOpen2In, oneOpen2In;
      var count := RunCount(row, col, deltaRow, deltaCol, player);
      if count == 3 {
        var preOpen := IsOpen(row - deltaRow, col - deltaCol);
        var postOpen := IsOpen(row + deltaRow * 3, col + deltaCol * 3);
        if preOpen && postOpen {
          twoOpen3 := twoOpen3 + 1;
        } else if preOpen || postOpen {
          oneOpen3 := oneOpen3 + 1;
        }
      }
      if count == 2 {
        var preOpen := IsOpen(row - deltaRow, col - deltaCol);
        var postOpen := IsOpen(row + deltaRow * 2, col + deltaCol * 2);
        if preOpen && postOpen {
          twoOpen2 := twoOpen2 + 1;
        } else if preOpen || postOpen {
          oneOpen2 := oneOpen2 + 1;
        }
      }
    }

    /** The body of count_patterns' cell loop: nothing when (row, col) does not
        hold `player`, else one pass of the direction loop per direction. */
    method CountAnchor(row: int, col: int, player: Player,
                       twoOpen3In: int, oneOpen3In: int, twoOpen2In: int, oneOpen2In: int)
      returns (twoOpen3: int, oneOpen3: int, twoOpen2: int, oneOpen2: int)
      requires Valid() && InBounds(row, col)
      ensures twoOpen3 == twoOpen3In + CellCount(cells, row, col, player, TwoOpen3)
      ensures oneOpen3 == oneOpen3In + CellCount(cells, row, col, player, OneOpen3)
      ensures twoOpen2 == twoOpen2In + CellCount(cells, row, col, player, TwoOpen2)
      ensures oneOpen2 == oneOpen2In + CellCount(cells, row, col, player, OneOpen2)
    {
      twoOpen3, oneOpen3, twoOpen2, oneOpen2 := twoOpen3In, oneOpen3In, twoOpen2In, oneOpen2In;
      if board[row, col] != player {
        return;
      }
      for d := 0 to 4
        invariant twoOpen3 == twoOpen3In + DirsUpTo(cells, row, col, player, TwoOpen3, d)
        invariant oneOpen3 == oneOpen3In + DirsUpTo(cells, row, col, player, OneOpen3, d)
        invariant twoOpen2 == twoOpen2In + DirsUpTo(cells, row, col, player, TwoOpen2, d)
        invariant oneOpen2 == oneOpen2In + DirsUpTo(cells, row, col, player, OneOpen2, d)
      {
        var deltaRow, deltaCol := DirRow(d), DirCol(d);
        twoOpen3, oneOpen3, twoOpen2, oneOpen2 :=
          CountDirection(row, col, deltaRow, deltaCol, player, twoOpen3, oneOpen3, twoOpen2, oneOpen2);
      }
    }

    /** count_patterns: the four counters, in the program's order. */
    method CountPatterns(player: Player) returns (twoOpen3: int, oneOpen3: int, twoOpen2: int, oneOpen2: int)
      requires Valid()
      ensures twoOpen3 == Count(cells, player, TwoOpen3)
      ensures oneOpen3 == Count(cells, player, OneOpen3)
      ensures twoOpen2 == Count(cells, player, TwoOpen2)
      ensures oneOpen2 == Count(cells, player, OneOpen2)
    {
      twoOpen3, oneOpen3, twoOpen2, oneOpen2 := 0, 0, 0, 0;
      for row := 0 to ROWS
        invariant twoOpen3 + CountFrom(cells, player, TwoOpen3, row, 0) == Count(cells, player, TwoOpen3)
        invariant oneOpen3 + CountFrom(cells, player, OneOpen3, row, 0) == Count(cells, player, OneOpen3)
        invariant twoOpen2 + CountFrom(cells, player, TwoOpen2, row, 0) == Count(cells, player, TwoOpen2)
        invariant oneOpen2 + CountFrom(cells, player, OneOpen2, row, 0) == Count(cells, player, OneOpen2)
      {
        for col := 0 to COLS
          invariant twoOpen3 + CountFrom(cells, player, TwoOpen3, row, col) == Count(cells, player, TwoOpen3)
          invariant oneOpen3 + CountFrom(cells, player, OneOpen3, row, col) == Count(cells, player, OneOpen3)
          invariant twoOpen2 + CountFrom(cells, player, TwoOpen2, row, col) == Count(cells, player, TwoOpen2)
          invariant oneOpen2 + CountFrom(cells, player, OneOpen2, row, col) == Count(cells, player, OneOpen2)
        {
          twoOpen3, oneOpen3, twoOpen2, oneOpen2 :=
            CountAnchor(row, col, player, twoOpen3, oneOpen3, twoOpen2, oneOpen2);
        }
      }
    }

    /** evaluate_board */
    method EvaluateBoard(player: Player) returns (h: int)
      requires Valid()
      ensures h == Evaluate(cells, player)
    {
      var opponent := if player == O then X else O;
      var meTwoOpen3, meOneOpen3, meTwoOpen2, meOneOpen2 := CountPatterns(player);
      var oppTwoOpen3, oppOneOpen3, oppTwoOpen2, oppOneOpen2 := CountPatterns(opponent);
      h := (200 * meTwoOpen3) - (80 * oppTwoOpen3)
         + (150 * meOneOpen3) - (40 * oppOneOpen3)
         + (20 * meTwoOpen2) - (15 * oppTwoOpen2)
         + (5 * meOneOpen2) - (2 * oppOneOpen2);
    }

    /** minimax: depth-limited minimax with alpha-beta pruning. Each child is
        searched on a copy of the board, so this object's board is not changed. */
    method Minimax(depth: int, isMaximizing: bool, alpha: ExtInt, beta: ExtInt, player: Player, plyLimit: int)
      returns (score: int, bestMove: Option<Move>)
      requires Valid() && depth <= plyLimit
      ensures SearchResult(score, bestMove) == AlphaBeta(cells, depth, isMaximizing, alpha, beta, player, plyLimit)
      decreases plyLimit - depth, 2
    {
      var opponent := if player == O then X else O;
      var winner := CheckWinner();
      if winner == Some(player) {
        return WIN_SCORE, None;
      } else if winner == Some(opponent) {
        return -WIN_SCORE, None;
      }
      var leaf := depth == plyLimit;
      if !leaf {
        var available := GetAvailableMoves();
        leaf := available == [];
      }
      if leaf {
        var h := EvaluateBoard(player);
        return h, None;
      }
      var moves := GetAvailableMoves();
      if isMaximizing {
        var maxEval;
        maxEval, bestMove := MaxSearch(moves, depth, alpha, beta, player, plyLimit);
        score := maxEval.n;
      } else {
        var minEval;
        minEval, bestMove := MinSearch(moves, depth, alpha, beta, player, plyLimit);
        score := minEval.n;
      }
    }

    /** The maximizing branch of minimax: max_eval and best_move over `moves`,
        raising alpha and stopping once beta <= alpha. */
    method MaxSearch(moves: seq<Move>, depth: int, alpha: ExtInt, beta: ExtInt, player: Player, plyLimit: int)
      returns (maxEval: ExtInt, bestMove: Option<Move>)
      requires Valid() && depth < plyLimit
      ensures Running(maxEval, bestMove) == MaxLoop(cells, moves, depth, alpha, beta, player, plyLimit, NegInf, None)
      decreases plyLimit - depth, 1
    {
      ghost var result := MaxLoop(cells, moves, depth, alpha, beta, player, plyLimit, NegInf, None);
      maxEval, bestMove := NegInf, None;
      var a := alpha;
      for i := 0 to |moves|
        invariant maxEval != PosInf
        invariant MaxLoop(cells, moves[i..], depth, a, beta, player, plyLimit, maxEval, bestMove) == result
      {
        var move := moves[i];
        assert moves[i..][0] == move && moves[i..][1..] == moves[i + 1..];
        var eval := SearchChild(move, player, depth, false, a, beta, player, plyLimit);
        if Lt(maxEval, Fin(eval)) {
          maxEval := Fin(eval);
          bestMove := Some(move);
        }
        a := Max(a, Fin(eval));
        if Le(beta, a) {
          break;
        }
      }
    }

    /** The minimizing branch of minimax: min_eval and best_move over `moves`,
        the opponent moving, lowering beta and stopping once beta <= alpha. */
    method MinSearch(moves: seq<Move>, depth: int, alpha: ExtInt, beta: ExtInt, player: Player, plyLimit: int)
      returns (minEval: ExtInt, bestMove: Option<Move>)
      requires Valid() && depth < plyLimit
      ensures Running(minEval, bestMove) == MinLoop(cells, moves, depth, alpha, beta, player, plyLimit, PosInf, None)
      decreases plyLimit - depth, 1
    {
      ghost var result := MinLoop(cells, moves, depth, alpha, beta, player, plyLimit, PosInf, None);
      minEval, bestMove := PosInf, None;
      var b := beta;
      for i := 0 to |moves|
        invariant minEval != NegInf
        invariant MinLoop(cells, moves[i..], depth, alpha, b, player, plyLimit, minEval, bestMove) == result
      {
        var move := moves[i];
        assert moves[i..][0] == move && moves[i..][1..] == moves[i + 1..];
        var eval := SearchChild(move, Opponent(player), depth, true, alpha, b, player, plyLimit);
        if Lt(Fin(eval), minEval) {
          minEval := Fin(eval);
          bestMove := Some(move);
        }
        b := Min(b, Fin(eval));
        if Le(b, alpha) {
          break;
        }
      }
    }

    /** One iteration's child: copy.deepcopy of the board, the move made on the
        copy by `mover`, and the score of minimax one level deeper on it. */
    method SearchChild(move: Move, mover: Player, depth: int, isMaximizing: bool, alpha: ExtInt, beta: ExtInt,
                       player: Player, plyLimit: int) returns (eval: int)
      requires Valid() && depth < plyLimit
      ensures eval == AlphaBeta(Child(cells, move, mover), depth + 1, isMaximizing, alpha, beta, player, plyLimit).score
      decreases plyLimit - depth, 0
    {
      var boardCopy := new FourInARow.Copy(this);
      var _ := boardCopy.MakeMove(move.row, move.col, mover);
      var childMove;
      eval, childMove := boardCopy.Minimax(depth + 1, isMaximizing, alpha, beta, player, plyLimit);
    }
  }
}
