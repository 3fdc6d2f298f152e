/**
 * Flags: mark_cell toggles the flag of a covered cell and then runs the
 * same coverage check as open_cell; unmark_cell only removes a flag
 * (game.cpp:210-241).
 */
module Marking {
  import opened Cells
  import opened Grid
  import opened Statistics
  import opened Opening

  /** How a toggle moves the flag counter: +1 for a new flag, -1 for a removed one. */
  function FlagDelta(c: Cell): int {
    if c.marked then -1 else 1
  }

  /**
   * mark_cell up to its coverage check, from the snapshot `s`: a covered
   * cell has its flag toggled and logged, and openedCells follows the
   * flag; an uncovered cell is left alone.
   */
  function Flagged(s: Snap, row: int, col: int): Snap
    requires InGrid(s.g, row, col)
  {
    var cell := s.g[row][col];
    if cell.hidden then
      s.(g := Put(s.g, row, col, cell.SetMarked(!cell.marked)),
         log := s.log + [Point(row, col)],
         openedCells := s.openedCells + FlagDelta(cell))
    else s
  }

  /**
   * mark_cell from the snapshot `s`: the toggle, then the coverage check.
   * `once` selects the corrected check, which reports only while the game
   * is in play.
   */
  function Mark(s: Snap, row: int, col: int, c: Config, once: bool): Step
    requires InGrid(s.g, row, col)
  {
    Finish(Flagged(s, row, col), 0, c, once)
  }

  /**
   * Toggling the flag of a covered cell moves the number of flags and the
   * number of uncovered-or-flagged cells by the same step, uncovers
   * nothing and keeps every flag on a covered cell.
   */
  lemma FlagCounts(g: Matrix, row: int, col: int)
    requires InGrid(g, row, col) && g[row][col].hidden
    ensures var g' := Put(g, row, col, g[row][col].SetMarked(!g[row][col].marked));
            && Count(g', Marked) == Count(g, Marked) + FlagDelta(g[row][col])
            && Count(g', Resolved) == Count(g, Resolved) + FlagDelta(g[row][col])
            && Count(g', Hidden) == Count(g, Hidden)
            && (FlagsCovered(g) ==> FlagsCovered(g'))
  {
    var c := g[row][col].SetMarked(!g[row][col].marked);
    var g' := Put(g, row, col, c);
    CountPut(g, row, col, c, Marked);
    CountPut(g, row, col, c, Resolved);
    CountPut(g, row, col, c, Hidden);
    if FlagsCovered(g) {
      forall i, j | InGrid(g', i, j) && g'[i][j].marked ensures g'[i][j].hidden {
        assert InGrid(g, i, j);
      }
    }
  }

  /** Removing the flag of a flagged, covered cell is the toggle that takes one flag away. */
  lemma UnflagCounts(g: Matrix, row: int, col: int)
    requires InGrid(g, row, col) && g[row][col].marked && g[row][col].hidden
    ensures var g' := Put(g, row, col, g[row][col].SetMarked(false));
            && Count(g', Marked) == Count(g, Marked) - 1
            && Count(g', Resolved) == Count(g, Resolved) - 1
            && (FlagsCovered(g) ==> FlagsCovered(g'))
  {
    FlagCounts(g, row, col);
  }

  /**
   * A second toggle of the same cell undoes the first: the board and
   * openedCells are back where they were and the log holds the cell twice
   * more.
   */
  lemma FlaggedTwice(s: Snap, row: int, col: int)
    requires InGrid(s.g, row, col)
    ensures InGrid(Flagged(s, row, col).g, row, col)
    ensures var s2 := Flagged(Flagged(s, row, col), row, col);
            && s2.g == s.g && s2.openedCells == s.openedCells
            && s2.stats == s.stats && s2.won == s.won && s2.inGame == s.inGame
            && s2.log == s.log + (if s.g[row][col].hidden then [Point(row, col), Point(row, col)] else [])
  {
    var s1 := Flagged(s, row, col);
    if s.g[row][col].hidden {
      var s2 := Flagged(s1, row, col);
      assert s1.g[row][col] == s.g[row][col].SetMarked(!s.g[row][col].marked);
      forall i | 0 <= i < |s.g| ensures s2.g[i] == s.g[i] {
        forall j | 0 <= j < |s.g[i]| ensures s2.g[i][j] == s.g[i][j] {
          assert InGrid(s.g, i, j);
        }
      }
    }
  }

  /**
   * As written, the coverage check of mark_cell does not look at inGame:
   * once the board is complete and the game reported, a right click on
   * any uncovered cell changes nothing on the board but reports the game
   * to the store again.
   */
  lemma RightClickReportsAgain(s: Snap, row: int, col: int, c: Config)
    requires InGrid(s.g, row, col) && !s.g[row][col].hidden
    requires s.openedCells == Area(c) && !s.inGame
    ensures var r := Mark(s, row, col, c, false);
            && r.ends == 1 && r.after.g == s.g && r.after.log == s.log
            && Reported(s.stats, r.after.stats, c.key, 1)
  {
    ReportedOnce(s.stats, c.key, c.length, c.width, c.mines, Count(s.g, MarkedMined) == c.mines, c.time);
  }

  /**
   * The corrected check reports exactly when the toggle leaves the board
   * complete during play, so a game is never reported after it is over.
   */
  lemma MarkReportsInPlay(s: Snap, row: int, col: int, c: Config)
    requires InGrid(s.g, row, col)
    ensures var r := Mark(s, row, col, c, true);
            && r.ends == Bit(Flagged(s, row, col).openedCells == Area(c) && s.inGame)
            && (!s.inGame ==> r.after == Flagged(s, row, col))
  {
  }
}
