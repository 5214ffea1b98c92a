/** The 5x6 board of four-in-a-row as a value: cells, players, the move rule
    (is_valid_move) and what make_move does to the grid. */
module Board {
  const ROWS: int := 5
  const COLS: int := 6

  /** A cell holds a blank (the program's ' ') or one of the two marks. */
  datatype Cell = Empty | X | O

  /** A player is identified with the mark it places. */
  type Player = c: Cell | c != Empty witness X

  /** Python's `None` or a value. */
  datatype Option<+T> = None | Some(value: T)

  /** `X if player == O else O` */
  function Opponent(p: Player): (q: Player)
    ensures q != p
  {
    if p == O then X else O
  }

  /** A board value: ROWS rows of COLS cells, indexed [row][col] as in the program. */
  type Grid = g: seq<seq<Cell>> | |g| == ROWS && forall r :: 0 <= r < ROWS ==> |g[r]| == COLS
    witness seq(ROWS, _ => seq(COLS, _ => Empty))

  predicate InBounds(r: int, c: int) {
    0 <= r < ROWS && 0 <= c < COLS
  }

  /** The cell `i` steps from (r, c) along (dr, dc) is on the board and holds `m`. */
  predicate StepHolds(g: Grid, r: int, c: int, dr: int, dc: int, i: int, m: Cell) {
    InBounds(r + dr * i, c + dc * i) && g[r + dr * i][c + dc * i] == m
  }

  /** is_valid_move: the cell is on the board and blank. */
  predicate ValidMove(g: Grid, r: int, c: int) {
    InBounds(r, c) && g[r][c] == Empty
  }

  /** The grid with cell (r, c) set to `m`. */
  function Place(g: Grid, r: int, c: int, m: Cell): (h: Grid)
    requires InBounds(r, c)
    ensures forall i, j :: InBounds(i, j) ==> h[i][j] == if i == r && j == c then m else g[i][j]
  {
    g[r := g[r][c := m]]
  }

  /** make_move on a grid value: the success flag and the grid afterwards. */
  function ApplyMove(g: Grid, r: int, c: int, p: Player): (res: (bool, Grid))
    ensures res.0 <==> ValidMove(g, r, c)
    ensures forall i, j :: InBounds(i, j) ==>
              res.1[i][j] == if res.0 && i == r && j == c then p else g[i][j]
  {
    if ValidMove(g, r, c) then (true, Place(g, r, c, p)) else (false, g)
  }

  /** The grid the constructor builds: all blank except X at row 3, column 4. */
  function InitialGrid(): (g: Grid)
    ensures forall i, j :: InBounds(i, j) ==> g[i][j] == if i == 3 && j == 4 then X else Empty
  {
    Place(seq(ROWS, _ => seq(COLS, _ => Empty)), 3, 4, X)
  }

  /** (i, j) is (r, c) or comes after it in row-major order. */
  predicate AtOrAfter(i: int, j: int, r: int, c: int) {
    i > r || (i == r && j >= c)
  }

  /** Number of cells holding `m` from (r, c) on, in row-major order. */
  function OccurrencesFrom(g: Grid, m: Cell, r: int, c: int): nat
    requires 0 <= r <= ROWS && 0 <= c <= COLS
    decreases |g| - r, COLS - c
  {
    if r == ROWS then 0
    else if c == COLS then OccurrencesFrom(g, m, r + 1, 0)
    else (if g[r][c] == m then 1 else 0) + OccurrencesFrom(g, m, r, c + 1)
  }

  /** Number of cells of the grid holding `m`. */
  function Occurrences(g: Grid, m: Cell): nat {
    OccurrencesFrom(g, m, 0, 0)
  }

  lemma {:induction false} NoOccurrencesFrom(g: Grid, m: Cell, r: int, c: int)
    requires 0 <= r <= ROWS && 0 <= c <= COLS
    ensures OccurrencesFrom(g, m, r, c) == 0 <==>
            forall i, j :: InBounds(i, j) && AtOrAfter(i, j, r, c) ==> g[i][j] != m
    decreases ROWS - r, COLS - c
  {
    if r == ROWS {
    } else if c == COLS {
      NoOccurrencesFrom(g, m, r + 1, 0);
    } else {
      NoOccurrencesFrom(g, m, r, c + 1);
    }
  }

  /** A mark is absent from the grid exactly when no cell holds it. */
  lemma NoOccurrences(g: Grid, m: Cell)
    ensures Occurrences(g, m) == 0 <==> forall i, j :: InBounds(i, j) ==> g[i][j] != m
  {
    NoOccurrencesFrom(g, m, 0, 0);
  }

  lemma {:induction false} PlaceOccurrencesFrom(g: Grid, r0: int, c0: int, p: Cell, m: Cell, r: int, c: int)
    requires InBounds(r0, c0)
    requires 0 <= r <= ROWS && 0 <= c <= COLS
    ensures OccurrencesFrom(Place(g, r0, c0, p), m, r, c) ==
            OccurrencesFrom(g, m, r, c)
            + (if AtOrAfter(r0, c0, r, c) && p == m then 1 else 0)
            - (if AtOrAfter(r0, c0, r, c) && g[r0][c0] == m then 1 else 0)
    decreases ROWS - r, COLS - c
  {
    var h := Place(g, r0, c0, p);
    if r == ROWS {
    } else if c == COLS {
      PlaceOccurrencesFrom(g, r0, c0, p, m, r + 1, 0);
    } else {
      PlaceOccurrencesFrom(g, r0, c0, p, m, r, c + 1);
      assert InBounds(r, c);
      assert h[r][c] == if r == r0 && c == c0 then p else g[r][c];
      assert AtOrAfter(r0, c0, r, c) <==> (r == r0 && c == c0) || AtOrAfter(r0, c0, r, c + 1);
    }
  }

  /** A successful move turns exactly one blank into the mover's mark: one blank
      fewer, one more cell for the mover, the other mark's cells unchanged. */
  lemma ApplyMoveOccurrences(g: Grid, r: int, c: int, p: Player)
    requires ApplyMove(g, r, c, p).0
    ensures Occurrences(ApplyMove(g, r, c, p).1, Empty) == Occurrences(g, Empty) - 1
    ensures Occurrences(ApplyMove(g, r, c, p).1, p) == Occurrences(g, p) + 1
    ensures Occurrences(ApplyMove(g, r, c, p).1, Opponent(p)) == Occurrences(g, Opponent(p))
  {
    PlaceOccurrencesFrom(g, r, c, p, Empty, 0, 0);
    PlaceOccurrencesFrom(g, r, c, p, p, 0, 0);
    PlaceOccurrencesFrom(g, r, c, p, Opponent(p), 0, 0);
  }
}
