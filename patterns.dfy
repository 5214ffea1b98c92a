/** The heuristic: count_patterns (runs of 2 and 3 classified by open ends) and
    evaluate_board (a weighted difference of both players' counts). */
module Patterns {
  import opened Board

  /** The four kinds of run count_patterns counts: a run of 3 or of 2 that is
      open at both ends or at one end. */
  datatype Kind = TwoOpen3 | OneOpen3 | TwoOpen2 | OneOpen2

  /** The four counters count_patterns returns, in its order. */
  datatype Tally = Tally(twoOpen3: nat, oneOpen3: nat, twoOpen2: nat, oneOpen2: nat)

  /** Number of runs tallied, whatever their kind. */
  function Total(t: Tally): nat {
    t.twoOpen3 + t.oneOpen3 + t.twoOpen2 + t.oneOpen2
  }

  /** Direction d of the four count_patterns tries, in its order:
      (0, 1), (1, 0), (1, 1), (1, -1); DirRow is its row step, DirCol its column step. */
  function DirRow(d: int): int {
    if d == 0 then 0 else 1
  }

  function DirCol(d: int): int {
    if d == 1 then 0 else if d == 3 then -1 else 1
  }

  /** How many of the cells i, i+1, ..., 3 steps along (dr, dc) continue the run
      of `p`, stopping at the first one that does not (the loop with `break`). */
  function Extend(g: Grid, r: int, c: int, dr: int, dc: int, p: Cell, i: int): (e: nat)
    requires 1 <= i <= 4
    ensures e <= 4 - i
    decreases 4 - i, g  // g: unfold on a literal i only when the grid is literal too
  {
    if i == 4 then 0
    else if StepHolds(g, r, c, dr, dc, i, p) then 1 + Extend(g, r, c, dr, dc, p, i + 1)
    else 0
  }

  /** `count`: the forward length of the run that starts at the anchor, capped at 4. */
  function RunLength(g: Grid, r: int, c: int, dr: int, dc: int, p: Cell): (n: int)
    ensures 1 <= n <= 4
  {
    1 + Extend(g, r, c, dr, dc, p, 1)
  }

  lemma {:induction false} ExtendMeaning(g: Grid, r: int, c: int, dr: int, dc: int, p: Cell, i: int)
    requires 1 <= i <= 4
    ensures forall k :: i <= k < i + Extend(g, r, c, dr, dc, p, i) ==> StepHolds(g, r, c, dr, dc, k, p)
    ensures i + Extend(g, r, c, dr, dc, p, i) < 4 ==> !StepHolds(g, r, c, dr, dc, i + Extend(g, r, c, dr, dc, p, i), p)
    decreases 4 - i
  {
    if i < 4 && StepHolds(g, r, c, dr, dc, i, p) {
      ExtendMeaning(g, r, c, dr, dc, p, i + 1);
    }
  }

  /** The run really is a run: cells 1 .. n-1 along the direction hold `p`, and
      cell n, when n < 4, does not (it is off the board or holds something else). */
  lemma RunLengthMeaning(g: Grid, r: int, c: int, dr: int, dc: int, p: Cell)
    ensures forall k :: 1 <= k < RunLength(g, r, c, dr, dc, p) ==> StepHolds(g, r, c, dr, dc, k, p)
    ensures RunLength(g, r, c, dr, dc, p) < 4 ==> !StepHolds(g, r, c, dr, dc, RunLength(g, r, c, dr, dc, p), p)
  {
    ExtendMeaning(g, r, c, dr, dc, p, 1);
  }

  /** Runs overlap: a run of exactly 3 from (r, c) continues into a mark at the
      next cell, and the run from there is exactly 2, so that cell is scanned as
      an anchor of its own and may be tallied again. */
  lemma OverlappingSubRun(g: Grid, r: int, c: int, dr: int, dc: int, p: Cell)
    requires RunLength(g, r, c, dr, dc, p) == 3
    ensures StepHolds(g, r, c, dr, dc, 1, p)
    ensures RunLength(g, r + dr, c + dc, dr, dc, p) == 2
  {
    RunLengthMeaning(g, r, c, dr, dc, p);
    assert StepHolds(g, r, c, dr, dc, 1, p) && StepHolds(g, r, c, dr, dc, 2, p);
    assert !StepHolds(g, r, c, dr, dc, 3, p);
    assert StepHolds(g, r + dr, c + dc, dr, dc, 1, p);
    assert !StepHolds(g, r + dr, c + dc, dr, dc, 2, p);
    assert Extend(g, r + dr, c + dc, dr, dc, p, 2) == 0;
  }

  /** An open end: on the board and blank. */
  predicate OpenEnd(g: Grid, r: int, c: int) {
    InBounds(r, c) && g[r][c] == Empty
  }

  /** Double-open when both ends are open, single-open when one is, else nothing. */
  function Grade(pre: bool, post: bool, twoOpen: Kind, oneOpen: Kind): Option<Kind> {
    if pre && post then Some(twoOpen) else if pre || post then Some(oneOpen) else None
  }

  /** The kind of the run from anchor (r, c) along (dr, dc): a run of exactly 3
      or exactly 2 is double-open when the cells just before and just after it
      are open, single-open when one of them is, and not counted otherwise. */
  function Classify(g: Grid, r: int, c: int, dr: int, dc: int, p: Cell): Option<Kind> {
    var n := RunLength(g, r, c, dr, dc, p);
    var pre := OpenEnd(g, r - dr, c - dc);
    if n == 3 then Grade(pre, OpenEnd(g, r + dr * 3, c + dc * 3), TwoOpen3, OneOpen3)
    else if n == 2 then Grade(pre, OpenEnd(g, r + dr * 2, c + dc * 2), TwoOpen2, OneOpen2)
    else None
  }

  /** 1 when the run has kind `k`, else 0. */
  function Hit(o: Option<Kind>, k: Kind): nat {
    if o == Some(k) then 1 else 0
  }

  /** Runs of kind `k` from anchor (r, c) along the first n directions. */
  function DirsUpTo(g: Grid, r: int, c: int, p: Cell, k: Kind, n: int): nat
    requires 0 <= n <= 4
    decreases n, g  // g: unfold on a literal n only when the grid is literal too
  {
    if n == 0 then 0
    else DirsUpTo(g, r, c, p, k, n - 1) + Hit(Classify(g, r, c, DirRow(n - 1), DirCol(n - 1), p), k)
  }

  /** Only a cell holding `p` anchors runs. */
  function CellCount(g: Grid, r: int, c: int, p: Cell, k: Kind): nat
    requires InBounds(r, c)
  {
    if g[r][c] != p then 0 else DirsUpTo(g, r, c, p, k, 4)
  }

  /** Runs of kind `k` over all anchors from (r, c) on, in row-major order. */
  function CountFrom(g: Grid, p: Cell, k: Kind, r: int, c: int): nat
    requires 0 <= r <= ROWS && 0 <= c <= COLS
    decreases |g| - r, COLS - c
  {
    if r == ROWS then 0
    else if c == COLS then CountFrom(g, p, k, r + 1, 0)
    else CellCount(g, r, c, p, k) + CountFrom(g, p, k, r, c + 1)
  }

  /** One of count_patterns' counters: the runs of kind `k` on the whole board. */
  function Count(g: Grid, p: Cell, k: Kind): nat {
    CountFrom(g, p, k, 0, 0)
  }

  /** count_patterns */
  function CountPatterns(g: Grid, p: Cell): Tally {
    Tally(Count(g, p, TwoOpen3), Count(g, p, OneOpen3), Count(g, p, TwoOpen2), Count(g, p, OneOpen2))
  }

  /** evaluate_board: own double-open and single-open threes and twos weigh
      200, 150, 20, 5; the opponent's weigh -80, -40, -15, -2. */
  function Evaluate(g: Grid, p: Player): int {
    var me := CountPatterns(g, p);
    var opp := CountPatterns(g, Opponent(p));
    200 * me.twoOpen3 - 80 * opp.twoOpen3
    + 150 * me.oneOpen3 - 40 * opp.oneOpen3
    + 20 * me.twoOpen2 - 15 * opp.twoOpen2
    + 5 * me.oneOpen2 - 2 * opp.oneOpen2
  }

  /** The four kinds of run, stated through the run length and the two ends. */
  lemma ClassifyIff(g: Grid, r: int, c: int, dr: int, dc: int, p: Cell)
    ensures Classify(g, r, c, dr, dc, p) == Some(TwoOpen3) <==>
            RunLength(g, r, c, dr, dc, p) == 3 && OpenEnd(g, r - dr, c - dc) && OpenEnd(g, r + dr * 3, c + dc * 3)
    ensures Classify(g, r, c, dr, dc, p) == Some(OneOpen3) <==>
            RunLength(g, r, c, dr, dc, p) == 3 && OpenEnd(g, r - dr, c - dc) != OpenEnd(g, r + dr * 3, c + dc * 3)
    ensures Classify(g, r, c, dr, dc, p) == Some(TwoOpen2) <==>
            RunLength(g, r, c, dr, dc, p) == 2 && OpenEnd(g, r - dr, c - dc) && OpenEnd(g, r + dr * 2, c + dc * 2)
    ensures Classify(g, r, c, dr, dc, p) == Some(OneOpen2) <==>
            RunLength(g, r, c, dr, dc, p) == 2 && OpenEnd(g, r - dr, c - dc) != OpenEnd(g, r + dr * 2, c + dc * 2)
  {
  }

  /** The runs of all four kinds from (r, c) on. */
  function AllKindsFrom(g: Grid, p: Cell, r: int, c: int): nat
    requires 0 <= r <= ROWS && 0 <= c <= COLS
  {
    CountFrom(g, p, TwoOpen3, r, c) + CountFrom(g, p, OneOpen3, r, c) +
    CountFrom(g, p, TwoOpen2, r, c) + CountFrom(g, p, OneOpen2, r, c)
  }

  /** Each direction yields at most one run, of one kind. */
  lemma {:induction false} DirsUpToBound(g: Grid, r: int, c: int, p: Cell, n: int)
    requires 0 <= n <= 4
    ensures DirsUpTo(g, r, c, p, TwoOpen3, n) + DirsUpTo(g, r, c, p, OneOpen3, n) +
            DirsUpTo(g, r, c, p, TwoOpen2, n) + DirsUpTo(g, r, c, p, OneOpen2, n) <= n
    decreases n
  {
    if n > 0 {
      DirsUpToBound(g, r, c, p, n - 1);
    }
  }

  lemma {:induction false} CountFromBound(g: Grid, p: Cell, r: int, c: int)
    requires 0 <= r <= ROWS && 0 <= c <= COLS
    ensures AllKindsFrom(g, p, r, c) <= 4 * OccurrencesFrom(g, p, r, c)
    decreases ROWS - r, COLS - c
  {
    if r == ROWS {
    } else if c == COLS {
      CountFromBound(g, p, r + 1, 0);
    } else {
      CountFromBound(g, p, r, c + 1);
      DirsUpToBound(g, r, c, p, 4);
    }
  }

  /** Each cell holding `p` anchors at most one tallied run per direction. */
  lemma PatternsBound(g: Grid, p: Cell)
    ensures Total(CountPatterns(g, p)) <= 4 * Occurrences(g, p)
  {
    CountFromBound(g, p, 0, 0);
  }

  /** A player with no marks on the board has no patterns. */
  lemma NoMarksNoPatterns(g: Grid, p: Cell)
    requires forall i, j :: InBounds(i, j) ==> g[i][j] != p
    ensures Total(CountPatterns(g, p)) == 0
  {
    NoOccurrences(g, p);
    PatternsBound(g, p);
  }

  /** The heuristic is at most 800 per own mark and at least -320 per opposing
      mark; in particular it is never negative while the opponent has no marks and
      never positive while the player has none. */
  lemma EvaluateBounds(g: Grid, p: Player)
    ensures -320 * Occurrences(g, Opponent(p)) <= Evaluate(g, p) <= 800 * Occurrences(g, p)
    ensures Occurrences(g, Opponent(p)) == 0 ==> Evaluate(g, p) >= 0
    ensures Occurrences(g, p) == 0 ==> Evaluate(g, p) <= 0
  {
    PatternsBound(g, p);
    PatternsBound(g, Opponent(p));
  }

  /** X on (0, 0), (0, 1), (0, 2) with (0, 3) blank: the horizontal run from (0, 0)
      is single-open, because the cell before it is off the board. */
  lemma TopRowThree(g: Grid)
    requires g[0][0] == X && g[0][1] == X && g[0][2] == X && g[0][3] == Empty
    ensures Classify(g, 0, 0, 0, 1, X) == Some(OneOpen3)
  {
    assert StepHolds(g, 0, 0, 0, 1, 1, X) && StepHolds(g, 0, 0, 0, 1, 2, X);
    assert !StepHolds(g, 0, 0, 0, 1, 3, X);
    assert Extend(g, 0, 0, 0, 1, X, 3) == 0;
    assert Extend(g, 0, 0, 0, 1, X, 1) == 2;
  }
}
