/** Win detection: check_direction and check_winner on a grid value. */
module WinCheck {
  import opened Board

  /** check_direction: the four cells (r + i*dr, c + i*dc), i = 0..3, are on the
      board and all hold the anchor's mark. */
  predicate FourInRow(g: Grid, r: int, c: int, dr: int, dc: int)
    requires InBounds(r, c)
  {
    forall i :: 0 <= i < 4 ==> StepHolds(g, r, c, dr, dc, i, g[r][c])
  }

  /** The anchor (r, c) is occupied and starts four in a row along one of the
      directions check_winner tries: down, right, down-right, down-left. */
  predicate AnchorWins(g: Grid, r: int, c: int)
    requires InBounds(r, c)
  {
    g[r][c] != Empty &&
    (FourInRow(g, r, c, 1, 0) || FourInRow(g, r, c, 0, 1) ||
     FourInRow(g, r, c, 1, 1) || FourInRow(g, r, c, 1, -1))
  }

  /** The scan of check_winner from cell (r, c) on, in row-major order: the mark
      of the first winning anchor, or None. */
  function WinnerFrom(g: Grid, r: int, c: int): Option<Player>
    requires 0 <= r <= ROWS && 0 <= c <= COLS
    decreases |g| - r, COLS - c
  {
    if r == ROWS then None
    else if c == COLS then WinnerFrom(g, r + 1, 0)
    else if AnchorWins(g, r, c) then var p: Player := g[r][c]; Some(p)
    else WinnerFrom(g, r, c + 1)
  }

  /** check_winner */
  function Winner(g: Grid): Option<Player> {
    WinnerFrom(g, 0, 0)
  }

  lemma {:induction false} WinnerFromNone(g: Grid, r: int, c: int)
    requires 0 <= r <= ROWS && 0 <= c <= COLS
    ensures WinnerFrom(g, r, c) == None <==>
            forall i, j :: InBounds(i, j) && AtOrAfter(i, j, r, c) ==> !AnchorWins(g, i, j)
    decreases ROWS - r, COLS - c
  {
    if r == ROWS {
    } else if c == COLS {
      WinnerFromNone(g, r + 1, 0);
    } else {
      WinnerFromNone(g, r, c + 1);
      assert InBounds(r, c);
    }
  }

  lemma {:induction false} WinnerFromSome(g: Grid, r: int, c: int) returns (wr: int, wc: int)
    requires 0 <= r <= ROWS && 0 <= c <= COLS
    requires WinnerFrom(g, r, c).Some?
    ensures InBounds(wr, wc) && AtOrAfter(wr, wc, r, c) && AnchorWins(g, wr, wc)
    ensures WinnerFrom(g, r, c) == Some(g[wr][wc])
    ensures forall i, j :: InBounds(i, j) && AtOrAfter(i, j, r, c) && !AtOrAfter(i, j, wr, wc) ==>
              !AnchorWins(g, i, j)
    decreases ROWS - r, COLS - c
  {
    if c == COLS {
      wr, wc := WinnerFromSome(g, r + 1, 0);
    } else if AnchorWins(g, r, c) {
      wr, wc := r, c;
    } else {
      wr, wc := WinnerFromSome(g, r, c + 1);
    }
  }

  /** Soundness of check_winner: a reported mark belongs to a winning anchor, and
      that anchor is the first winning one in row-major order. */
  lemma WinnerIsFirstWinningAnchor(g: Grid) returns (r: int, c: int)
    requires Winner(g).Some?
    ensures InBounds(r, c) && AnchorWins(g, r, c) && Winner(g) == Some(g[r][c])
    ensures forall i, j :: InBounds(i, j) && !AtOrAfter(i, j, r, c) ==> !AnchorWins(g, i, j)
  {
    r, c := WinnerFromSome(g, 0, 0);
  }

  /** check_winner returns None exactly when no anchor wins. */
  lemma NoWinnerIff(g: Grid)
    ensures Winner(g) == None <==> forall i, j :: InBounds(i, j) ==> !AnchorWins(g, i, j)
  {
    WinnerFromNone(g, 0, 0);
  }

  /** Four equal marks from (2, 1) to (2, 4) make check_winner report a winner,
      whatever else is on the board; with no O on the board that winner is X. */
  lemma RowTwoWins(g: Grid)
    requires g[2][1] == X && g[2][2] == X && g[2][3] == X && g[2][4] == X
    ensures Winner(g).Some?
    ensures (forall i, j :: InBounds(i, j) ==> g[i][j] != O) ==> Winner(g) == Some(X)
  {
    assert StepHolds(g, 2, 1, 0, 1, 1, X) && StepHolds(g, 2, 1, 0, 1, 2, X) && StepHolds(g, 2, 1, 0, 1, 3, X);
    assert InBounds(2, 1) && AnchorWins(g, 2, 1);
    NoWinnerIff(g);
    var r, c := WinnerIsFirstWinningAnchor(g);
  }
}
