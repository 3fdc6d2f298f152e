/**
 * What a step that uncovers cells guarantees: open_cell with its cascade,
 * and openAllCells on a loss (game.cpp:138-167, game.cpp:271-290). Steps
 * compose, which is how a recursive open_cell frame builds its own
 * guarantee from its children's.
 */
module Uncover {
  import opened Cells
  import opened Grid

  /** open_cell goes on only from a covered, unflagged cell (game.cpp:140). */
  predicate Opens(c: Cell) {
    c.hidden && !c.marked
  }

  /** Every explosion the step adds is on a mined, unflagged cell that it uncovered. */
  ghost predicate ExplodesOnlyOpened(g0: Matrix, g1: Matrix) {
    SameShape(g0, g1) &&
    forall i, j :: InGrid(g0, i, j) && g1[i][j].exploded && !g0[i][j].exploded ==>
      Opens(g0[i][j]) && g1[i][j].mined && !g1[i][j].hidden
  }

  /** The step uncovered no flagged cell. */
  ghost predicate FlagsRespected(g0: Matrix, g1: Matrix) {
    SameShape(g0, g1) &&
    forall i, j :: InGrid(g0, i, j) && NewlyOpen(g0, g1, i, j) ==> !g0[i][j].marked
  }

  /** `log1` is `log0` followed by a list of the cells the step uncovered, each once. */
  ghost predicate Logged(g0: Matrix, g1: Matrix, log0: seq<Point>, log1: seq<Point>) {
    |log0| <= |log1| && log1[..|log0|] == log0 && LogsUncovered(g0, g1, log1[|log0|..])
  }

  /** A log extended by two lists keeps its prefix and ends with both lists. */
  lemma LogSplit(log0: seq<Point>, s1: seq<Point>, s2: seq<Point>)
    ensures (log0 + s1 + s2)[..|log0|] == log0 && (log0 + s1 + s2)[|log0|..] == s1 + s2
  {
  }

  /**
   * An uncovering step: only uncovers and sets off mines, leaves every
   * blank cell it uncovered with no covered unflagged neighbour, logs what
   * it uncovered, uncovers the whole board if it set off a mine, and
   * otherwise leaves flagged cells covered.
   */
  ghost predicate Uncovering(g0: Matrix, g1: Matrix, log0: seq<Point>, log1: seq<Point>) {
    && OnlyUncovers(g0, g1)
    && FloodClosed(g0, g1)
    && ExplodesOnlyOpened(g0, g1)
    && Logged(g0, g1, log0, log1)
    && (Detonated(g0, g1) ==> AllUncovered(g1))
    && (!Detonated(g0, g1) ==> FlagsRespected(g0, g1))
  }

  lemma UncoveringRefl(g: Matrix, log: seq<Point>)
    ensures Uncovering(g, g, log, log)
  {
    assert log[|log|..] == [];
  }

  lemma DetonatedSplit(g0: Matrix, g1: Matrix, g2: Matrix)
    requires OnlyUncovers(g0, g1) && OnlyUncovers(g1, g2)
    ensures Detonated(g0, g2) <==> Detonated(g0, g1) || Detonated(g1, g2)
  {
    if Detonated(g0, g2) {
      var i, j :| InGrid(g0, i, j) && NewlyOpen(g0, g2, i, j) && g0[i][j].mined;
      assert InGrid(g1, i, j);
      if g1[i][j].hidden {
        assert NewlyOpen(g1, g2, i, j) && g1[i][j].mined;
      } else {
        assert NewlyOpen(g0, g1, i, j);
      }
    }
    if Detonated(g0, g1) {
      var i, j :| InGrid(g0, i, j) && NewlyOpen(g0, g1, i, j) && g0[i][j].mined;
      assert InGrid(g1, i, j) && NewlyOpen(g0, g2, i, j);
    }
    if Detonated(g1, g2) {
      var i, j :| InGrid(g1, i, j) && NewlyOpen(g1, g2, i, j) && g1[i][j].mined;
      assert InGrid(g0, i, j) && NewlyOpen(g0, g2, i, j);
    }
  }

  /** Two uncovering steps in a row make one. */
  lemma UncoveringTrans(g0: Matrix, g1: Matrix, g2: Matrix, log0: seq<Point>, log1: seq<Point>, log2: seq<Point>)
    requires Uncovering(g0, g1, log0, log1) && Uncovering(g1, g2, log1, log2)
    ensures Uncovering(g0, g2, log0, log2)
  {
    OnlyUncoversTrans(g0, g1, g2);
    DetonatedSplit(g0, g1, g2);
    assert log2[..|log0|] == log1[..|log0|] == log0;
    assert log2[|log0|..] == log1[|log0|..] + log2[|log1|..];
    LogsConcat(g0, g1, g2, log1[|log0|..], log2[|log1|..]);
    forall i, j | InGrid(g0, i, j) && NewlyOpen(g0, g2, i, j) && Blank(g2[i][j]) ensures SettledAround(g2, i, j) {
      assert InGrid(g1, i, j);
      if NewlyOpen(g0, g1, i, j) {
        assert SettledAround(g1, i, j);
        forall k, l | InGrid(g2, k, l) && Near(i, j, k, l) ensures !g2[k][l].hidden || g2[k][l].marked {
          assert InGrid(g1, k, l);
        }
      }
    }
    forall i, j | InGrid(g0, i, j) && g2[i][j].exploded && !g0[i][j].exploded
      ensures Opens(g0[i][j]) && g2[i][j].mined && !g2[i][j].hidden
    {
      assert InGrid(g1, i, j);
    }
    if Detonated(g0, g1) {
      forall i, j | InGrid(g2, i, j) ensures !g2[i][j].hidden {
        assert InGrid(g1, i, j);
      }
    }
    if !Detonated(g0, g2) {
      forall i, j | InGrid(g0, i, j) && NewlyOpen(g0, g2, i, j) ensures !g0[i][j].marked {
        assert InGrid(g1, i, j);
      }
    }
  }

  /** An uncovering step never covers a cell, so the number of covered cells never grows. */
  lemma HiddenShrinks(g0: Matrix, g1: Matrix)
    requires OnlyUncovers(g0, g1)
    ensures Count(g1, Hidden) <= Count(g0, Hidden)
  {
    forall i, j | InGrid(g1, i, j) && Has(g1[i][j], Hidden) ensures Has(g0[i][j], Hidden) {
      assert InGrid(g0, i, j);
    }
    CountMono(g0, Hidden, g1, Hidden);
  }

  /** Hints stay true when only cells are uncovered: mines and hints are both kept. */
  lemma HintsKept(g0: Matrix, g1: Matrix, width: int)
    requires OnlyUncovers(g0, g1) && HintsConsistent(g0, width)
    ensures HintsConsistent(g1, width)
  {
    assert SameMines(g0, g1);
    forall i, j | 0 <= i < |g1| && 0 <= j < width ensures g1[i][j].minesAround == BlockMines(g1, width, i, j) {
      assert InGrid(g0, i, j);
      RectSameMines(g0, g1, Max(0, i - 1), Min(|g0|, i + 2), Max(0, j - 1), Min(width, j + 2));
    }
  }

  /**
   * A neighbour that a later step uncovers next to a blank cell is also
   * next to a blank cell uncovered by the longer step around it.
   */
  lemma FedByBlankWiden(g0: Matrix, g1: Matrix, g2: Matrix, g3: Matrix, i: int, j: int)
    requires OnlyUncovers(g0, g1) && OnlyUncovers(g1, g2) && OnlyUncovers(g2, g3)
    requires FedByBlank(g1, g2, i, j)
    ensures SameShape(g0, g3) && FedByBlank(g0, g3, i, j)
  {
    OnlyUncoversTrans(g0, g1, g2);
    OnlyUncoversTrans(g0, g2, g3);
    var k, l :| InGrid(g1, k, l) && Near(k, l, i, j) && NewlyOpen(g1, g2, k, l) && Blank(g2[k][l]);
    assert InGrid(g0, k, l) && InGrid(g2, k, l);
    assert NewlyOpen(g0, g3, k, l) && Blank(g3[k][l]);
  }

  /**
   * Every cell the step uncovered is next to (row, col) or to a blank
   * cell the step uncovered: what the recursion from a blank cell promises.
   */
  ghost predicate NearOrFed(g0: Matrix, g1: Matrix, row: int, col: int) {
    SameShape(g0, g1) &&
    forall i, j :: InGrid(g0, i, j) && NewlyOpen(g0, g1, i, j) ==> Near(row, col, i, j) || FedByBlank(g0, g1, i, j)
  }

  /**
   * A flood-sound call on a neighbour (i, j) of (row, col), followed by a
   * step that is near-or-fed around (row, col), is near-or-fed as a whole.
   */
  lemma NearOrFedPrepend(g0: Matrix, g1: Matrix, g2: Matrix, row: int, col: int, i: int, j: int)
    requires OnlyUncovers(g0, g1) && OnlyUncovers(g1, g2)
    requires FloodSound(g0, g1, i, j) && Near(row, col, i, j) && NearOrFed(g1, g2, row, col)
    ensures NearOrFed(g0, g2, row, col)
  {
    OnlyUncoversTrans(g0, g1, g2);
    forall a, b | InGrid(g0, a, b) && NewlyOpen(g0, g2, a, b) ensures Near(row, col, a, b) || FedByBlank(g0, g2, a, b) {
      assert InGrid(g1, a, b);
      if NewlyOpen(g0, g1, a, b) {
        if !(a == i && b == j) {
          FedByBlankWiden(g0, g0, g1, g2, a, b);
        }
      } else if !Near(row, col, a, b) {
        FedByBlankWiden(g0, g1, g2, g2, a, b);
      }
    }
  }

  /** Uncovering the covered, unflagged cell (row, col) and nothing else. */
  function Reveal(g: Matrix, row: int, col: int): (r: Matrix)
    requires InGrid(g, row, col)
    ensures SameShape(g, r) && !r[row][col].hidden
    ensures r[row][col] == g[row][col].SetHidden(false)
    ensures forall i, j :: InGrid(g, i, j) && (i != row || j != col) ==> r[i][j] == g[i][j]
  {
    Put(g, row, col, g[row][col].SetHidden(false))
  }

  /** Uncovering one covered, unflagged cell adds one uncovered-or-flagged cell and keeps the rest. */
  lemma RevealCounts(g: Matrix, row: int, col: int)
    requires InGrid(g, row, col) && Opens(g[row][col])
    ensures OnlyUncovers(g, Reveal(g, row, col))
    ensures Detonated(g, Reveal(g, row, col)) <==> g[row][col].mined
    ensures Count(Reveal(g, row, col), Resolved) == Count(g, Resolved) + 1
    ensures Count(Reveal(g, row, col), Hidden) == Count(g, Hidden) - 1
    ensures FloodSound(g, Reveal(g, row, col), row, col)
  {
    CountPut(g, row, col, g[row][col].SetHidden(false), Resolved);
    CountPut(g, row, col, g[row][col].SetHidden(false), Hidden);
    var r := Reveal(g, row, col);
    if g[row][col].mined {
      assert InGrid(g, row, col) && NewlyOpen(g, r, row, col) && g[row][col].mined;
    }
    if Detonated(g, r) {
      var i, j :| InGrid(g, i, j) && NewlyOpen(g, r, i, j) && g[i][j].mined;
      assert i == row && j == col;
    }
  }

  /**
   * open_cell on an unmined cell: uncovering it, then a step that leaves
   * it settled if it is blank, is an uncovering step; it sets off a mine
   * only if the later step does.
   */
  lemma RevealStep(g0: Matrix, g2: Matrix, log0: seq<Point>, log2: seq<Point>, row: int, col: int)
    requires InGrid(g0, row, col) && Opens(g0[row][col]) && !g0[row][col].mined
    requires Uncovering(Reveal(g0, row, col), g2, log0 + [Point(row, col)], log2)
    requires Blank(Reveal(g0, row, col)[row][col]) ==> SettledAround(g2, row, col)
    ensures Uncovering(g0, g2, log0, log2)
    ensures Detonated(g0, g2) == Detonated(Reveal(g0, row, col), g2)
  {
    var g1: Matrix := Reveal(g0, row, col);
    var log1 := log0 + [Point(row, col)];
    RevealCounts(g0, row, col);
    OnlyUncoversTrans(g0, g1, g2);
    DetonatedSplit(g0, g1, g2);
    assert LogsUncovered(g0, g1, [Point(row, col)]) by {
      forall p ensures p in [Point(row, col)] <==> InGrid(g0, p.row, p.col) && NewlyOpen(g0, g1, p.row, p.col) {
        if InGrid(g0, p.row, p.col) {
          assert InGrid(g1, p.row, p.col);
        }
      }
    }
    assert log2[..|log1|][..|log0|] == log0;
    assert log2[|log0|..] == [Point(row, col)] + log2[|log1|..];
    LogsConcat(g0, g1, g2, [Point(row, col)], log2[|log1|..]);
    forall i, j | InGrid(g0, i, j) && NewlyOpen(g0, g2, i, j) && Blank(g2[i][j]) ensures SettledAround(g2, i, j) {
      assert InGrid(g1, i, j);
    }
    forall i, j | InGrid(g0, i, j) && g2[i][j].exploded && !g0[i][j].exploded
      ensures Opens(g0[i][j]) && g2[i][j].mined && !g2[i][j].hidden
    {
      assert InGrid(g1, i, j);
    }
    if !Detonated(g0, g2) {
      forall i, j | InGrid(g0, i, j) && NewlyOpen(g0, g2, i, j) ensures !g0[i][j].marked {
        assert InGrid(g1, i, j);
      }
    }
  }

  /** A blank start cell followed by a near-or-fed cascade around it is flood-sound. */
  lemma CascadeSound(g0: Matrix, g2: Matrix, row: int, col: int)
    requires InGrid(g0, row, col) && Opens(g0[row][col]) && Blank(Reveal(g0, row, col)[row][col])
    requires OnlyUncovers(Reveal(g0, row, col), g2) && NearOrFed(Reveal(g0, row, col), g2, row, col)
    ensures FloodSound(g0, g2, row, col)
  {
    var g1: Matrix := Reveal(g0, row, col);
    RevealCounts(g0, row, col);
    OnlyUncoversTrans(g0, g1, g2);
    forall i, j | InGrid(g0, i, j) && NewlyOpen(g0, g2, i, j) && !(i == row && j == col)
      ensures FedByBlank(g0, g2, i, j)
    {
      assert InGrid(g1, i, j) && NewlyOpen(g1, g2, i, j);
      if Near(row, col, i, j) {
        assert InGrid(g0, row, col) && Near(row, col, i, j) && NewlyOpen(g0, g2, row, col) && Blank(g2[row][col]);
      } else {
        FedByBlankWiden(g0, g1, g2, g2, i, j);
      }
    }
  }

  /** The board with every cell uncovered: what openAllCells leaves (game.cpp:271-281). */
  function AllOpen(g: Matrix): (r: Matrix)
    ensures SameShape(g, r)
    ensures forall i, j :: InGrid(g, i, j) ==> r[i][j] == g[i][j].SetHidden(false)
  {
    seq(|g|, i requires 0 <= i < |g| => seq(|g[i]|, j requires 0 <= j < |g[i]| => g[i][j].SetHidden(false)))
  }

  /** Nothing is left covered once every cell is uncovered. */
  lemma AllOpenCount(g: Matrix)
    ensures Count(AllOpen(g), Hidden) == 0
  {
    var r := AllOpen(g);
    forall i, j | InGrid(r, i, j) ensures !Has(r[i][j], Hidden) {
      assert InGrid(g, i, j);
    }
    CountNone(r, Hidden);
  }

  /** A board of g's shape whose every cell is g's cell uncovered is AllOpen(g). */
  lemma AllOpenUnique(g: Matrix, r: Matrix)
    requires SameShape(g, r)
    requires forall i, j :: InGrid(g, i, j) ==> r[i][j] == g[i][j].SetHidden(false)
    ensures r == AllOpen(g)
  {
    var a := AllOpen(g);
    forall i | 0 <= i < |r| ensures r[i] == a[i] {
      forall j | 0 <= j < |r[i]| ensures r[i][j] == a[i][j] {
        assert InGrid(g, i, j);
      }
    }
  }

  /** Uncovering and setting off the mine at (row, col) uncovers that cell alone, logs it and sets off that mine. */
  lemma DetonationLogged(g0: Matrix, row: int, col: int)
    requires InGrid(g0, row, col) && Opens(g0[row][col]) && g0[row][col].mined
    ensures var g1 := Reveal(g0, row, col);
            var g2 := Put(g1, row, col, g1[row][col].SetExploded(true));
            && OnlyUncovers(g0, g2) && LogsUncovered(g0, g2, [Point(row, col)])
            && ExplodesOnlyOpened(g0, g2) && Detonated(g0, g2)
  {
    var g1: Matrix := Reveal(g0, row, col);
    var g2 := Put(g1, row, col, g1[row][col].SetExploded(true));
    forall i, j | InGrid(g0, i, j) ensures InGrid(g2, i, j) {
    }
    assert OnlyUncovers(g0, g2);
    forall p ensures p in [Point(row, col)] <==> InGrid(g0, p.row, p.col) && NewlyOpen(g0, g2, p.row, p.col) {
      if InGrid(g0, p.row, p.col) {
        assert InGrid(g2, p.row, p.col);
      }
    }
    assert InGrid(g2, row, col) && NewlyOpen(g0, g2, row, col);
  }

  /**
   * open_cell on a mined cell: uncovering and setting it off, then
   * uncovering the whole board and logging it row by row, is an uncovering
   * step that sets off a mine.
   */
  lemma DetonationStep(g0: Matrix, g3: Matrix, log0: seq<Point>, row: int, col: int)
    requires InGrid(g0, row, col) && Opens(g0[row][col]) && g0[row][col].mined
    requires var g2 := Put(Reveal(g0, row, col), row, col, Reveal(g0, row, col)[row][col].SetExploded(true));
             SameShape(g2, g3) && forall i, j :: InGrid(g2, i, j) ==> g3[i][j] == g2[i][j].SetHidden(false)
    ensures var g2 := Put(Reveal(g0, row, col), row, col, Reveal(g0, row, col)[row][col].SetExploded(true));
            Uncovering(g0, g3, log0, log0 + [Point(row, col)] + HiddenPoints(g2)) && Detonated(g0, g3)
  {
    DetonationLogged(g0, row, col);
    var g1: Matrix := Reveal(g0, row, col);
    LossStep(g0, Put(g1, row, col, g1[row][col].SetExploded(true)), g3, log0, [Point(row, col)]);
  }

  /**
   * A step that set off a mine, followed by uncovering every covered cell
   * and logging them row by row, is an uncovering step that set off a mine.
   */
  lemma LossStep(g0: Matrix, g2: Matrix, g3: Matrix, log0: seq<Point>, s: seq<Point>)
    requires OnlyUncovers(g0, g2) && LogsUncovered(g0, g2, s) && ExplodesOnlyOpened(g0, g2) && Detonated(g0, g2)
    requires SameShape(g2, g3) && forall i, j :: InGrid(g2, i, j) ==> g3[i][j] == g2[i][j].SetHidden(false)
    ensures Uncovering(g0, g3, log0, log0 + s + HiddenPoints(g2)) && Detonated(g0, g3)
  {
    var log3 := log0 + s + HiddenPoints(g2);
    RevealAllLogged(g2, g3);
    assert OnlyUncovers(g2, g3) by {
      forall i, j | InGrid(g2, i, j) ensures InGrid(g3, i, j) {
      }
    }
    LogsConcat(g0, g2, g3, s, HiddenPoints(g2));
    OnlyUncoversTrans(g0, g2, g3);
    LogSplit(log0, s, HiddenPoints(g2));
    var i, j :| InGrid(g0, i, j) && NewlyOpen(g0, g2, i, j) && g0[i][j].mined;
    assert InGrid(g3, i, j) && NewlyOpen(g0, g3, i, j);
    forall i, j | InGrid(g3, i, j) ensures !g3[i][j].hidden {
      assert InGrid(g2, i, j);
    }
    UncoveredClosed(g0, g3);
    forall i, j | InGrid(g0, i, j) && g3[i][j].exploded && !g0[i][j].exploded
      ensures Opens(g0[i][j]) && g3[i][j].mined && !g3[i][j].hidden
    {
      assert InGrid(g2, i, j);
    }
  }

  /** Once every cell is uncovered, no blank cell has a covered neighbour left. */
  lemma UncoveredClosed(g0: Matrix, g1: Matrix)
    requires SameShape(g0, g1) && AllUncovered(g1)
    ensures FloodClosed(g0, g1)
  {
    forall i, j | InGrid(g0, i, j) && NewlyOpen(g0, g1, i, j) && Blank(g1[i][j]) ensures SettledAround(g1, i, j) {
    }
  }

  /**
   * A step that uncovers no flagged cell keeps every flag on a covered
   * cell and keeps the number of flags.
   */
  lemma FlagsKept(g0: Matrix, g1: Matrix)
    requires OnlyUncovers(g0, g1) && FlagsRespected(g0, g1) && FlagsCovered(g0)
    ensures FlagsCovered(g1) && Count(g1, Marked) == Count(g0, Marked)
  {
    forall i, j | InGrid(g1, i, j) && g1[i][j].marked ensures g1[i][j].hidden {
      assert InGrid(g0, i, j);
    }
    forall i, j | InGrid(g0, i, j) ensures Has(g0[i][j], Marked) <==> Has(g1[i][j], Marked) {
    }
    CountSame(g0, g1, Marked);
  }

  /** No cell is both covered and unflagged: open_cell has nothing left to do. */
  ghost predicate AllResolved(g: Matrix) {
    forall i, j :: InGrid(g, i, j) ==> !Opens(g[i][j])
  }

  lemma ResolvedKept(g0: Matrix, g1: Matrix)
    requires OnlyUncovers(g0, g1) && AllResolved(g0)
    ensures AllResolved(g1)
  {
    forall i, j | InGrid(g1, i, j) ensures !Opens(g1[i][j]) {
      assert InGrid(g0, i, j);
    }
  }

  // ---------------------------------------------------------------------
  // The cells openAllCells logs, in its row-major order (game.cpp:273-280)
  // ---------------------------------------------------------------------

  /** The covered cells of row `i`, whose cells are `r`, left to right. */
  function HiddenInRow(r: seq<Cell>, i: int): seq<Point> {
    if r == [] then []
    else HiddenInRow(r[..|r| - 1], i) + (if r[|r| - 1].hidden then [Point(i, |r| - 1)] else [])
  }

  /** The covered cells of the board, row after row. */
  function HiddenPoints(g: Matrix): seq<Point> {
    if g == [] then [] else HiddenPoints(g[..|g| - 1]) + HiddenInRow(g[|g| - 1], |g| - 1)
  }

  lemma {:induction false} HiddenInRowSpec(r: seq<Cell>, i: int)
    ensures forall p :: p in HiddenInRow(r, i) <==> p.row == i && 0 <= p.col < |r| && r[p.col].hidden
    ensures Distinct(HiddenInRow(r, i))
  {
    if r != [] {
      var n := |r|;
      var pre := r[..n - 1];
      HiddenInRowSpec(pre, i);
      var s1, s2 := HiddenInRow(pre, i), if r[n - 1].hidden then [Point(i, n - 1)] else [];
      var s := s1 + s2;
      assert HiddenInRow(r, i) == s;
      forall q: Point ensures q in s <==> q.row == i && 0 <= q.col < n && r[q.col].hidden {
        if 0 <= q.col < n - 1 {
          assert pre[q.col] == r[q.col];
        }
      }
      forall a, b | 0 <= a < b < |s| ensures s[a] != s[b] {
        if a < |s1| && b >= |s1| {
          assert s[a] in s1;
        }
      }
    }
  }

  /** HiddenPoints lists exactly the covered cells, each once. */
  lemma {:induction false} HiddenPointsSpec(g: Matrix)
    ensures forall p :: p in HiddenPoints(g) <==> InGrid(g, p.row, p.col) && g[p.row][p.col].hidden
    ensures Distinct(HiddenPoints(g))
  {
    if g != [] {
      var n := |g|;
      var pre := g[..n - 1];
      HiddenPointsSpec(pre);
      HiddenInRowSpec(g[n - 1], n - 1);
      var s1, s2 := HiddenPoints(pre), HiddenInRow(g[n - 1], n - 1);
      forall q: Point ensures InGrid(pre, q.row, q.col) && pre[q.row][q.col].hidden <==> 0 <= q.row < n - 1 && InGrid(g, q.row, q.col) && g[q.row][q.col].hidden {
      }
      var s := s1 + s2;
      forall a, b | 0 <= a < b < |s| ensures s[a] != s[b] {
        if a < |s1| && b >= |s1| {
          assert s[a] in s1 && s[b] in s2;
        }
      }
    }
  }

  /** Uncovering every covered cell and logging HiddenPoints is a logged step. */
  lemma RevealAllLogged(g0: Matrix, g1: Matrix)
    requires SameShape(g0, g1)
    requires forall i, j :: InGrid(g0, i, j) ==> g1[i][j] == g0[i][j].SetHidden(false)
    ensures LogsUncovered(g0, g1, HiddenPoints(g0))
  {
    HiddenPointsSpec(g0);
    forall p ensures p in HiddenPoints(g0) <==> InGrid(g0, p.row, p.col) && NewlyOpen(g0, g1, p.row, p.col) {
      if InGrid(g0, p.row, p.col) {
        assert InGrid(g1, p.row, p.col);
      }
    }
  }
}
