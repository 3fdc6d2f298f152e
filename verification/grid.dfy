/**
 * The board as a value: a matrix of cells indexed by (row, column), the
 * counts the game takes over it, and the clipped 3x3 neighbourhood that
 * count_mines_around and open_cell walk (game.cpp:112-128, game.cpp:155-161).
 */
module Grid {
  import opened Cells

  /** A board coordinate (QPoint(row, col) in the change log). */
  datatype Point = Point(row: int, col: int)

  type Matrix = seq<seq<Cell>>

  /** `length` rows of `width` cells each. */
  ghost predicate Shaped(g: Matrix, length: int, width: int) {
    |g| == length && forall i :: 0 <= i < |g| ==> |g[i]| == width
  }

  predicate InGrid(g: Matrix, i: int, j: int) {
    0 <= i < |g| && 0 <= j < |g[i]|
  }

  /** Two boards of the same shape. */
  ghost predicate SameShape(g0: Matrix, g1: Matrix) {
    |g0| == |g1| && forall i :: 0 <= i < |g0| ==> |g0[i]| == |g1[i]|
  }

  /** A board of the same shape as a shaped board has the same dimensions. */
  lemma ShapedKept(g0: Matrix, g1: Matrix, length: int, width: int)
    requires Shaped(g0, length, width) && SameShape(g0, g1)
    ensures Shaped(g1, length, width)
  {
  }

  /** The board with cell (i, j) replaced by `c`. */
  function Put(g: Matrix, i: int, j: int, c: Cell): (r: Matrix)
    requires InGrid(g, i, j)
    ensures SameShape(g, r) && r[i][j] == c
    ensures forall k, l :: InGrid(g, k, l) && (k != i || l != j) ==> r[k][l] == g[k][l]
  {
    g[i := g[i][j := c]]
  }

  function Max(a: int, b: int): int { if a < b then b else a }
  function Min(a: int, b: int): int { if a < b then a else b }

  /** (k, l) lies in the 3x3 block centred on (i, j), the centre included. */
  predicate Near(i: int, j: int, k: int, l: int) {
    i - 1 <= k <= i + 1 && j - 1 <= l <= j + 1
  }

  // ---------------------------------------------------------------------
  // Counting cells with a property
  // ---------------------------------------------------------------------

  /** The per-cell properties the game counts. */
  datatype Tally = Mined | Marked | MarkedMined | Hidden | Resolved

  predicate Has(c: Cell, t: Tally) {
    match t
    case Mined => c.mined
    case Marked => c.marked
    case MarkedMined => c.marked && c.mined
    case Hidden => c.hidden
    case Resolved => !c.hidden || c.marked   // uncovered or flagged: what openedCells counts
  }

  function Bit(b: bool): nat { if b then 1 else 0 }

  /** Number of cells with property `t` among the first `n` cells of a row. */
  function CountCells(r: seq<Cell>, t: Tally, n: int): (k: nat)
    requires 0 <= n <= |r|
    ensures k <= n
  {
    if n == 0 then 0 else CountCells(r, t, n - 1) + Bit(Has(r[n - 1], t))
  }

  /** Number of cells with property `t` among the first `n` rows, row after row. */
  function CountRows(g: Matrix, t: Tally, n: int): nat
    requires 0 <= n <= |g|
  {
    if n == 0 then 0 else CountRows(g, t, n - 1) + CountCells(g[n - 1], t, |g[n - 1]|)
  }

  /** Number of cells of the board with property `t`. */
  function Count(g: Matrix, t: Tally): nat {
    CountRows(g, t, |g|)
  }

  lemma {:induction false} CellsPut(r: seq<Cell>, j: int, c: Cell, t: Tally, n: int)
    requires 0 <= j < |r| && 0 <= n <= |r|
    ensures CountCells(r[j := c], t, n) + (if j < n then Bit(Has(r[j], t)) else 0)
            == CountCells(r, t, n) + (if j < n then Bit(Has(c, t)) else 0)
  {
    if n > 0 {
      CellsPut(r, j, c, t, n - 1);
    }
  }

  lemma {:induction false} RowsPut(g: Matrix, i: int, j: int, c: Cell, t: Tally, n: int)
    requires InGrid(g, i, j) && 0 <= n <= |g|
    ensures CountRows(Put(g, i, j, c), t, n) + (if i < n then Bit(Has(g[i][j], t)) else 0)
            == CountRows(g, t, n) + (if i < n then Bit(Has(c, t)) else 0)
  {
    if n > 0 {
      RowsPut(g, i, j, c, t, n - 1);
      if i == n - 1 {
        CellsPut(g[i], j, c, t, |g[i]|);
      }
    }
  }

  /** Replacing one cell changes a count by at most that cell's contribution. */
  lemma CountPut(g: Matrix, i: int, j: int, c: Cell, t: Tally)
    requires InGrid(g, i, j)
    ensures Count(Put(g, i, j, c), t) == Count(g, t) - Bit(Has(g[i][j], t)) + Bit(Has(c, t))
  {
    RowsPut(g, i, j, c, t, |g|);
  }

  /** Every cell of `r1` with `t1` sits where `r0` has a cell with `t0`. */
  ghost predicate RowCovered(r0: seq<Cell>, t0: Tally, r1: seq<Cell>, t1: Tally) {
    |r0| == |r1| && forall j :: 0 <= j < |r1| && Has(r1[j], t1) ==> Has(r0[j], t0)
  }

  ghost predicate Covered(g0: Matrix, t0: Tally, g1: Matrix, t1: Tally) {
    SameShape(g0, g1) &&
    forall i, j :: InGrid(g1, i, j) && Has(g1[i][j], t1) ==> Has(g0[i][j], t0)
  }

  lemma {:induction false} CellsMono(r0: seq<Cell>, t0: Tally, r1: seq<Cell>, t1: Tally, n: int)
    requires RowCovered(r0, t0, r1, t1) && 0 <= n <= |r0|
    ensures CountCells(r1, t1, n) <= CountCells(r0, t0, n)
    ensures (exists j :: 0 <= j < n && Has(r0[j], t0) && !Has(r1[j], t1)) ==>
              CountCells(r1, t1, n) < CountCells(r0, t0, n)
  {
    if n > 0 {
      CellsMono(r0, t0, r1, t1, n - 1);
    }
  }

  lemma {:induction false} RowsMono(g0: Matrix, t0: Tally, g1: Matrix, t1: Tally, n: int)
    requires Covered(g0, t0, g1, t1) && 0 <= n <= |g0|
    ensures CountRows(g1, t1, n) <= CountRows(g0, t0, n)
    ensures (exists i, j :: 0 <= i < n && InGrid(g0, i, j) && Has(g0[i][j], t0) && !Has(g1[i][j], t1)) ==>
              CountRows(g1, t1, n) < CountRows(g0, t0, n)
  {
    if n > 0 {
      RowsMono(g0, t0, g1, t1, n - 1);
      var r0, r1 := g0[n - 1], g1[n - 1];
      assert RowCovered(r0, t0, r1, t1) by {
        forall j | 0 <= j < |r1| && Has(r1[j], t1) ensures Has(r0[j], t0) {
          assert InGrid(g1, n - 1, j);
        }
      }
      CellsMono(r0, t0, r1, t1, |r0|);
      if exists i, j :: 0 <= i < n && InGrid(g0, i, j) && Has(g0[i][j], t0) && !Has(g1[i][j], t1) {
        var i, j :| 0 <= i < n && InGrid(g0, i, j) && Has(g0[i][j], t0) && !Has(g1[i][j], t1);
        if i == n - 1 {
          assert 0 <= j < |r0| && Has(r0[j], t0) && !Has(r1[j], t1);
        }
      }
    }
  }

  /**
   * Counting is monotone: if every `t1`-cell of `g1` is a `t0`-cell of
   * `g0`, then `g1` has no more of them, and strictly fewer when some
   * `t0`-cell of `g0` is not a `t1`-cell of `g1`.
   */
  lemma CountMono(g0: Matrix, t0: Tally, g1: Matrix, t1: Tally)
    requires Covered(g0, t0, g1, t1)
    ensures Count(g1, t1) <= Count(g0, t0)
    ensures (exists i, j :: InGrid(g0, i, j) && Has(g0[i][j], t0) && !Has(g1[i][j], t1)) ==>
              Count(g1, t1) < Count(g0, t0)
  {
    RowsMono(g0, t0, g1, t1, |g0|);
  }

  /** Two boards that agree on property `t` cell by cell have the same count. */
  lemma CountSame(g0: Matrix, g1: Matrix, t: Tally)
    requires SameShape(g0, g1)
    requires forall i, j :: InGrid(g0, i, j) ==> (Has(g0[i][j], t) <==> Has(g1[i][j], t))
    ensures Count(g0, t) == Count(g1, t)
  {
    CountMono(g0, t, g1, t);
    CountMono(g1, t, g0, t);
  }

  lemma {:induction false} CellsFull(r: seq<Cell>, t: Tally, n: int, j: int)
    requires 0 <= j < n <= |r| && CountCells(r, t, n) == n
    ensures Has(r[j], t)
  {
    if j < n - 1 {
      CellsFull(r, t, n - 1, j);
    }
  }

  lemma {:induction false} RowsBounded(g: Matrix, width: int, t: Tally, n: int)
    requires Shaped(g, |g|, width) && 0 <= n <= |g|
    ensures CountRows(g, t, n) <= n * width
    ensures CountRows(g, t, n) == n * width ==>
              forall i, j :: 0 <= i < n && 0 <= j < width ==> Has(g[i][j], t)
  {
    if n > 0 {
      RowsBounded(g, width, t, n - 1);
      assert (n - 1) * width + width == n * width;
      if CountRows(g, t, n) == n * width {
        forall i, j | 0 <= i < n && 0 <= j < width ensures Has(g[i][j], t) {
          if i == n - 1 {
            CellsFull(g[i], t, width, j);
          }
        }
      }
    }
  }

  /** A count never exceeds the number of cells, and reaches it only when every cell qualifies. */
  lemma CountBounded(g: Matrix, length: int, width: int, t: Tally)
    requires Shaped(g, length, width)
    ensures Count(g, t) <= length * width
    ensures Count(g, t) == length * width ==> forall i, j :: InGrid(g, i, j) ==> Has(g[i][j], t)
  {
    RowsBounded(g, width, t, |g|);
  }

  lemma {:induction false} CellsNone(r: seq<Cell>, t: Tally, n: int)
    requires 0 <= n <= |r| && forall j :: 0 <= j < n ==> !Has(r[j], t)
    ensures CountCells(r, t, n) == 0
  {
    if n > 0 {
      CellsNone(r, t, n - 1);
    }
  }

  lemma {:induction false} RowsNone(g: Matrix, t: Tally, n: int)
    requires 0 <= n <= |g| && forall i, j :: InGrid(g, i, j) ==> !Has(g[i][j], t)
    ensures CountRows(g, t, n) == 0
  {
    if n > 0 {
      RowsNone(g, t, n - 1);
      var r := g[n - 1];
      forall j | 0 <= j < |r| ensures !Has(r[j], t) {
        assert InGrid(g, n - 1, j);
      }
      CellsNone(r, t, |r|);
    }
  }

  /** A board with no cell of property `t` counts zero. */
  lemma CountNone(g: Matrix, t: Tally)
    requires forall i, j :: InGrid(g, i, j) ==> !Has(g[i][j], t)
    ensures Count(g, t) == 0
  {
    RowsNone(g, t, |g|);
  }

  // ---------------------------------------------------------------------
  // Mines in a clipped 3x3 block (game.cpp:114-125)
  // ---------------------------------------------------------------------

  /** Mines among r[lo..hi], counted from the left as the inner loop does. */
  function SpanMines(r: seq<Cell>, lo: int, hi: int): (n: nat)
    requires 0 <= lo <= hi <= |r|
    ensures n <= hi - lo
    decreases hi - lo
  {
    if lo == hi then 0 else SpanMines(r, lo, hi - 1) + Bit(r[hi - 1].mined)
  }

  /** Rows [top, bottom) and columns [left, right) of the board fit in it. */
  ghost predicate Window(g: Matrix, top: int, bottom: int, left: int, right: int) {
    0 <= top <= bottom <= |g| && 0 <= left <= right &&
    forall i :: top <= i < bottom ==> right <= |g[i]|
  }

  /** Mines in rows [top, bottom) and columns [left, right), row after row. */
  function RectMines(g: Matrix, top: int, bottom: int, left: int, right: int): (n: nat)
    requires Window(g, top, bottom, left, right)
    decreases bottom - top
  {
    if top == bottom then 0
    else RectMines(g, top, bottom - 1, left, right) + SpanMines(g[bottom - 1], left, right)
  }

  /**
   * What count_mines_around stores for (i, j): the mines in the 3x3 block
   * centred on it, the cell itself included, clipped at the board's edges.
   */
  function BlockMines(g: Matrix, width: int, i: int, j: int): nat
    requires Shaped(g, |g|, width) && 0 <= i < |g| && 0 <= j < width
  {
    RectMines(g, Max(0, i - 1), Min(|g|, i + 2), Max(0, j - 1), Min(width, j + 2))
  }

  /** Every cell's hint is the mine count of its block. */
  ghost predicate HintsConsistent(g: Matrix, width: int) {
    Shaped(g, |g|, width) &&
    forall i, j :: 0 <= i < |g| && 0 <= j < width ==> g[i][j].minesAround == BlockMines(g, width, i, j)
  }

  lemma {:induction false} SpanHas(r: seq<Cell>, lo: int, hi: int, k: int)
    requires 0 <= lo <= k < hi <= |r|
    ensures r[k].mined ==> SpanMines(r, lo, hi) >= 1
    ensures !r[k].mined ==> SpanMines(r, lo, hi) <= hi - lo - 1
  {
    if k < hi - 1 {
      SpanHas(r, lo, hi - 1, k);
    }
  }

  lemma {:induction false} RectBound(g: Matrix, top: int, bottom: int, left: int, right: int)
    requires Window(g, top, bottom, left, right)
    ensures RectMines(g, top, bottom, left, right) <= (bottom - top) * (right - left)
    decreases bottom - top
  {
    if top < bottom {
      RectBound(g, top, bottom - 1, left, right);
      assert (bottom - 1 - top) * (right - left) + (right - left) == (bottom - top) * (right - left);
    }
  }

  /** One cell's contribution to the mine count of a window containing it. */
  lemma {:induction false} RectHas(g: Matrix, top: int, bottom: int, left: int, right: int, k: int, l: int)
    requires Window(g, top, bottom, left, right) && top <= k < bottom && left <= l < right
    ensures g[k][l].mined ==> RectMines(g, top, bottom, left, right) >= 1
    ensures !g[k][l].mined ==> RectMines(g, top, bottom, left, right) <= (bottom - top) * (right - left) - 1
    decreases bottom - top
  {
    if k < bottom - 1 {
      RectHas(g, top, bottom - 1, left, right, k, l);
      RectBound(g, bottom - 1, bottom, left, right);
      assert SpanMines(g[bottom - 1], left, right) <= right - left;
      assert (bottom - 1 - top) * (right - left) + (right - left) == (bottom - top) * (right - left);
    } else {
      SpanHas(g[k], left, right, l);
      RectBound(g, top, bottom - 1, left, right);
      assert (bottom - 1 - top) * (right - left) + (right - left) == (bottom - top) * (right - left);
    }
  }

  /**
   * The hint range: a block holds at most 9 cells, so an unmined cell sees
   * at most 8 mines and a mined cell, which counts itself, at least 1.
   */
  lemma BlockMinesRange(g: Matrix, width: int, i: int, j: int)
    requires Shaped(g, |g|, width) && 0 <= i < |g| && 0 <= j < width
    ensures BlockMines(g, width, i, j) <= 9
    ensures g[i][j].mined ==> BlockMines(g, width, i, j) >= 1
    ensures !g[i][j].mined ==> BlockMines(g, width, i, j) <= 8
  {
    var top, bottom, left, right := Max(0, i - 1), Min(|g|, i + 2), Max(0, j - 1), Min(width, j + 2);
    RectHas(g, top, bottom, left, right, i, j);
    RectBound(g, top, bottom, left, right);
    var a, b := bottom - top, right - left;
    assert 1 <= a <= 3 && 1 <= b <= 3;
    assert a * b <= 3 * b <= 9;
  }

  /** A block that counts no mine holds no mine: the cells a zero hint lets open_cell recurse into are safe. */
  lemma BlockZeroIsClear(g: Matrix, width: int, i: int, j: int)
    requires Shaped(g, |g|, width) && 0 <= i < |g| && 0 <= j < width
    requires BlockMines(g, width, i, j) == 0
    ensures forall k, l :: InGrid(g, k, l) && Near(i, j, k, l) ==> !g[k][l].mined
  {
    var top, bottom, left, right := Max(0, i - 1), Min(|g|, i + 2), Max(0, j - 1), Min(width, j + 2);
    forall k, l | InGrid(g, k, l) && Near(i, j, k, l) ensures !g[k][l].mined {
      RectHas(g, top, bottom, left, right, k, l);
    }
  }

  /** Boards that agree on every `mined` flag. */
  ghost predicate SameMines(g0: Matrix, g1: Matrix) {
    SameShape(g0, g1) && forall i, j :: InGrid(g0, i, j) ==> g0[i][j].mined == g1[i][j].mined
  }

  lemma {:induction false} SpanSameMines(r0: seq<Cell>, r1: seq<Cell>, lo: int, hi: int)
    requires |r0| == |r1| && 0 <= lo <= hi <= |r0|
    requires forall j :: lo <= j < hi ==> r0[j].mined == r1[j].mined
    ensures SpanMines(r0, lo, hi) == SpanMines(r1, lo, hi)
    decreases hi - lo
  {
    if lo < hi {
      SpanSameMines(r0, r1, lo, hi - 1);
    }
  }

  /** Mine counts read only the `mined` flags. */
  lemma {:induction false} RectSameMines(g0: Matrix, g1: Matrix, top: int, bottom: int, left: int, right: int)
    requires SameMines(g0, g1) && Window(g0, top, bottom, left, right)
    ensures Window(g1, top, bottom, left, right)
    ensures RectMines(g0, top, bottom, left, right) == RectMines(g1, top, bottom, left, right)
    decreases bottom - top
  {
    if top < bottom {
      RectSameMines(g0, g1, top, bottom - 1, left, right);
      var r0, r1 := g0[bottom - 1], g1[bottom - 1];
      forall j | left <= j < right ensures r0[j].mined == r1[j].mined {
        assert InGrid(g0, bottom - 1, j);
      }
      SpanSameMines(g0[bottom - 1], g1[bottom - 1], left, right);
    }
  }

  // ---------------------------------------------------------------------
  // Comparing a board before and after uncovering (open_cell, openAllCells)
  // ---------------------------------------------------------------------

  /** Uncovered before, or by the step from g0 to g1. */
  predicate NewlyOpen(g0: Matrix, g1: Matrix, i: int, j: int)
    requires InGrid(g0, i, j) && InGrid(g1, i, j)
  {
    g0[i][j].hidden && !g1[i][j].hidden
  }

  /**
   * g1 differs from g0 only by cells uncovered and mines set off: shape,
   * hints, flags and mines are kept, and no cell is covered again or
   * defused.
   */
  ghost predicate OnlyUncovers(g0: Matrix, g1: Matrix) {
    SameShape(g0, g1) &&
    forall i, j :: InGrid(g0, i, j) ==>
      && g1[i][j].minesAround == g0[i][j].minesAround
      && g1[i][j].marked == g0[i][j].marked
      && g1[i][j].mined == g0[i][j].mined
      && (!g0[i][j].hidden ==> !g1[i][j].hidden)
      && (g0[i][j].exploded ==> g1[i][j].exploded)
  }

  lemma OnlyUncoversTrans(g0: Matrix, g1: Matrix, g2: Matrix)
    requires OnlyUncovers(g0, g1) && OnlyUncovers(g1, g2)
    ensures OnlyUncovers(g0, g2)
  {
    forall i, j | InGrid(g0, i, j) ensures InGrid(g1, i, j) {
    }
  }

  /** Every neighbour of (i, j) on the board is uncovered or flagged. */
  ghost predicate SettledAround(g: Matrix, i: int, j: int) {
    forall k, l :: InGrid(g, k, l) && Near(i, j, k, l) ==> !g[k][l].hidden || g[k][l].marked
  }

  /** An uncovered, unmined cell with hint 0: the cells open_cell recurses from. */
  predicate Blank(c: Cell) {
    !c.hidden && !c.mined && c.minesAround == 0
  }

  /** Flood-fill exhaustiveness: every blank cell uncovered by the step has all its neighbours uncovered or flagged. */
  ghost predicate FloodClosed(g0: Matrix, g1: Matrix) {
    SameShape(g0, g1) &&
    forall i, j :: InGrid(g0, i, j) && NewlyOpen(g0, g1, i, j) && Blank(g1[i][j]) ==> SettledAround(g1, i, j)
  }

  /** (i, j) is next to a blank cell uncovered by the step. */
  ghost predicate FedByBlank(g0: Matrix, g1: Matrix, i: int, j: int)
    requires SameShape(g0, g1)
  {
    exists k, l :: InGrid(g0, k, l) && Near(k, l, i, j) && NewlyOpen(g0, g1, k, l) && Blank(g1[k][l])
  }

  /**
   * Flood-fill soundness: the step uncovered the start cell and otherwise
   * only neighbours of blank cells it uncovered.
   */
  ghost predicate FloodSound(g0: Matrix, g1: Matrix, row: int, col: int) {
    SameShape(g0, g1) &&
    forall i, j :: InGrid(g0, i, j) && NewlyOpen(g0, g1, i, j) ==>
      (i == row && j == col) || FedByBlank(g0, g1, i, j)
  }

  /** The step uncovered a mined cell. */
  ghost predicate Detonated(g0: Matrix, g1: Matrix) {
    SameShape(g0, g1) &&
    exists i, j :: InGrid(g0, i, j) && NewlyOpen(g0, g1, i, j) && g0[i][j].mined
  }

  ghost predicate AllUncovered(g: Matrix) {
    forall i, j :: InGrid(g, i, j) ==> !g[i][j].hidden
  }

  /** No flag on an uncovered cell. */
  ghost predicate FlagsCovered(g: Matrix) {
    forall i, j :: InGrid(g, i, j) && g[i][j].marked ==> g[i][j].hidden
  }

  function PointsOf(s: seq<Point>): set<Point> {
    set k | 0 <= k < |s| :: s[k]
  }

  predicate Distinct(s: seq<Point>) {
    forall a, b :: 0 <= a < b < |s| ==> s[a] != s[b]
  }

  /** `s` lists each cell uncovered by the step exactly once. */
  ghost predicate LogsUncovered(g0: Matrix, g1: Matrix, s: seq<Point>) {
    SameShape(g0, g1) && Distinct(s) &&
    forall p :: p in s <==> InGrid(g0, p.row, p.col) && NewlyOpen(g0, g1, p.row, p.col)
  }

  /** Two steps' logs concatenate into the log of the combined step. */
  lemma LogsConcat(g0: Matrix, g1: Matrix, g2: Matrix, s1: seq<Point>, s2: seq<Point>)
    requires OnlyUncovers(g0, g1) && OnlyUncovers(g1, g2)
    requires LogsUncovered(g0, g1, s1) && LogsUncovered(g1, g2, s2)
    ensures LogsUncovered(g0, g2, s1 + s2)
  {
    var s := s1 + s2;
    forall a, b | 0 <= a < b < |s| ensures s[a] != s[b] {
      if a < |s1| && b >= |s1| {
        assert s[a] in s1 && s[b] in s2;
      }
    }
    forall p ensures p in s <==> InGrid(g0, p.row, p.col) && NewlyOpen(g0, g2, p.row, p.col) {
      if InGrid(g0, p.row, p.col) {
        assert InGrid(g1, p.row, p.col);
      }
    }
  }
}
