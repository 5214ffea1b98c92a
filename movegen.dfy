/** Move generation: get_available_moves on a grid value, and the sort by
    (column, row) it applies at the end. */
module MoveGen {
  import opened Board

  /** A move (row, col), the program's tuple. */
  datatype Move = Move(row: int, col: int)

  /** max(0, x - 1): first index of the clipped neighbourhood. */
  function RangeLo(x: int): int {
    if x - 1 > 0 then x - 1 else 0
  }

  /** min(bound, x + 2): one past the last index of the clipped neighbourhood. */
  function RangeHi(x: int, bound: int): int {
    if x + 2 < bound then x + 2 else bound
  }

  /** Some cell of the 3x3 block around (row, col), clipped at the edges of the
      board, is occupied. */
  predicate HasOccupiedNeighbour(g: Grid, row: int, col: int) {
    exists r, c :: RangeLo(row) <= r < RangeHi(row, ROWS) && RangeLo(col) <= c < RangeHi(col, COLS) &&
                   g[r][c] != Empty
  }

  /** A cell the successor function allows: on the board, blank, and next to a mark. */
  predicate IsMove(g: Grid, row: int, col: int) {
    ValidMove(g, row, col) && HasOccupiedNeighbour(g, row, col)
  }

  /** The order the moves are reported in: by column, then by row. */
  predicate KeyLess(a: Move, b: Move) {
    a.col < b.col || (a.col == b.col && a.row < b.row)
  }

  predicate StrictlySorted(s: seq<Move>) {
    forall i, j :: 0 <= i < j < |s| ==> KeyLess(s[i], s[j])
  }

  /** The scan of get_available_moves from (col, row) on: columns outer, rows inner. */
  function MovesFrom(g: Grid, col: int, row: int): seq<Move>
    requires 0 <= col <= COLS && 0 <= row <= ROWS
    decreases COLS - col, |g| - row
  {
    if col == COLS then []
    else if row == ROWS then MovesFrom(g, col + 1, 0)
    else (if IsMove(g, row, col) then [Move(row, col)] else []) + MovesFrom(g, col, row + 1)
  }

  /** get_available_moves */
  function AvailableMoves(g: Grid): seq<Move> {
    MovesFrom(g, 0, 0)
  }

  lemma {:induction false} MovesFromCorrect(g: Grid, col: int, row: int)
    requires 0 <= col <= COLS && 0 <= row <= ROWS
    ensures forall m :: m in MovesFrom(g, col, row) <==> IsMove(g, m.row, m.col) && !KeyLess(m, Move(row, col))
    ensures StrictlySorted(MovesFrom(g, col, row))
    decreases COLS - col, ROWS - row
  {
    if col == COLS {
    } else if row == ROWS {
      MovesFromCorrect(g, col + 1, 0);
    } else {
      MovesFromCorrect(g, col, row + 1);
      var rest := MovesFrom(g, col, row + 1);
      var here := if IsMove(g, row, col) then [Move(row, col)] else [];
      assert MovesFrom(g, col, row) == here + rest;
      forall j | 0 <= j < |rest|
        ensures KeyLess(Move(row, col), rest[j])
      {
        assert rest[j] in rest;
      }
    }
  }

  /** Every reported move is on the board, blank and next to a mark, and every
      such cell is reported. */
  lemma AvailableMovesSoundComplete(g: Grid)
    ensures forall m :: m in AvailableMoves(g) <==> IsMove(g, m.row, m.col)
  {
    MovesFromCorrect(g, 0, 0);
  }

  /** The moves come strictly increasing in (column, row), so without repeats. */
  lemma AvailableMovesSorted(g: Grid)
    ensures StrictlySorted(AvailableMoves(g))
  {
    MovesFromCorrect(g, 0, 0);
  }

  /** A reported move always succeeds when played. */
  lemma AvailableMoveSucceeds(g: Grid, m: Move, p: Player)
    requires m in AvailableMoves(g)
    ensures ApplyMove(g, m.row, m.col, p).0
  {
    AvailableMovesSoundComplete(g);
  }

  /** Inserts `x` before the first element whose key is not smaller (stable). */
  function InsertByKey(x: Move, s: seq<Move>): seq<Move> {
    if s == [] || !KeyLess(s[0], x) then [x] + s else [s[0]] + InsertByKey(x, s[1..])
  }

  /** `moves.sort(key=lambda x: (x[1], x[0]))`, a stable sort by (column, row). */
  function SortByColumnRow(s: seq<Move>): seq<Move> {
    if s == [] then [] else InsertByKey(s[0], SortByColumnRow(s[1..]))
  }

  /** Ordered by (column, row), equal keys allowed: no element is after a smaller one. */
  predicate SortedByKey(s: seq<Move>) {
    forall i, j :: 0 <= i < j < |s| ==> !KeyLess(s[j], s[i])
  }

  /** No element of `s` has a key smaller than `b`'s. */
  predicate AllAtLeast(s: seq<Move>, b: Move) {
    forall i :: 0 <= i < |s| ==> !KeyLess(s[i], b)
  }

  lemma {:induction false} InsertKeepsBound(x: Move, s: seq<Move>, b: Move)
    requires AllAtLeast(s, b) && !KeyLess(x, b)
    ensures AllAtLeast(InsertByKey(x, s), b)
  {
    if s != [] && KeyLess(s[0], x) {
      InsertKeepsBound(x, s[1..], b);
      assert InsertByKey(x, s) == [s[0]] + InsertByKey(x, s[1..]);
    }
  }

  /** A list headed by `m` is ordered when its tail is and holds nothing smaller than `m`. */
  lemma ConsSorted(m: Move, t: seq<Move>)
    requires SortedByKey(t) && AllAtLeast(t, m)
    ensures SortedByKey([m] + t)
  {
  }

  /** Inserting into an ordered list keeps it ordered and adds exactly `x`. */
  lemma {:induction false} InsertByKeyCorrect(x: Move, s: seq<Move>)
    requires SortedByKey(s)
    ensures SortedByKey(InsertByKey(x, s))
    ensures multiset(InsertByKey(x, s)) == multiset{x} + multiset(s)
  {
    if s == [] || !KeyLess(s[0], x) {
      assert AllAtLeast(s, x) by {
        forall i | 0 <= i < |s|
          ensures !KeyLess(s[i], x)
        {
          if i > 0 {
            assert !KeyLess(s[i], s[0]);
          }
        }
      }
      ConsSorted(x, s);
    } else {
      var rest := s[1..];
      assert s == [s[0]] + rest;
      assert SortedByKey(rest) && AllAtLeast(rest, s[0]) by {
        forall i, j | 0 <= i < j < |rest|
          ensures !KeyLess(rest[j], rest[i])
        {
          assert rest[i] == s[i + 1] && rest[j] == s[j + 1];
        }
        forall i | 0 <= i < |rest|
          ensures !KeyLess(rest[i], s[0])
        {
          assert rest[i] == s[i + 1];
        }
      }
      InsertByKeyCorrect(x, rest);
      InsertKeepsBound(x, rest, s[0]);
      ConsSorted(s[0], InsertByKey(x, rest));
    }
  }

  /** `SortByColumnRow` is a sort: its result is ordered by (column, row) and is a
      permutation of its input. */
  lemma {:induction false} SortByColumnRowCorrect(s: seq<Move>)
    ensures SortedByKey(SortByColumnRow(s))
    ensures multiset(SortByColumnRow(s)) == multiset(s)
  {
    if s != [] {
      SortByColumnRowCorrect(s[1..]);
      InsertByKeyCorrect(s[0], SortByColumnRow(s[1..]));
      assert s == [s[0]] + s[1..];
    }
  }

  /** The sort leaves a strictly increasing list as it is. */
  lemma {:induction false} SortKeepsSorted(s: seq<Move>)
    requires StrictlySorted(s)
    ensures SortByColumnRow(s) == s
  {
    if s != [] {
      assert StrictlySorted(s[1..]);
      SortKeepsSorted(s[1..]);
      assert s == [s[0]] + s[1..];
      if |s| > 1 {
        assert KeyLess(s[0], s[1]);
      }
    }
  }
}
