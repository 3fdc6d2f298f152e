/**
 * One square of the minefield (cell.h, cell.cpp).
 *
 * The C++ class is a passive record of five independent fields with one
 * getter and one setter each; it enforces no relation between them. The
 * board stores cells by value, so a cell is modelled as a datatype: the
 * getters are the datatype's destructors and every setter is a function
 * that returns the updated copy.
 */
module Cells {

  datatype Cell = Cell(
    minesAround: int,  // number of mines in the 3x3 block around the cell
    hidden: bool,      // not yet uncovered
    marked: bool,      // flagged by the player
    mined: bool,       // holds a mine
    exploded: bool     // the mine here was uncovered
  )
  {
    /** Sets the hint count; every other field keeps its value. */
    function SetMinesAround(n: int): (c: Cell)
      ensures c.minesAround == n
      ensures c.hidden == hidden && c.marked == marked && c.mined == mined && c.exploded == exploded
    {
      this.(minesAround := n)
    }

    /** Hides or uncovers the cell; every other field keeps its value. */
    function SetHidden(b: bool): (c: Cell)
      ensures c.hidden == b
      ensures c.minesAround == minesAround && c.marked == marked && c.mined == mined && c.exploded == exploded
    {
      this.(hidden := b)
    }

    /** Sets or clears the flag; every other field keeps its value. */
    function SetMarked(b: bool): (c: Cell)
      ensures c.marked == b
      ensures c.minesAround == minesAround && c.hidden == hidden && c.mined == mined && c.exploded == exploded
    {
      this.(marked := b)
    }

    /** Puts or removes a mine; every other field keeps its value. */
    function SetMined(b: bool): (c: Cell)
      ensures c.mined == b
      ensures c.minesAround == minesAround && c.hidden == hidden && c.marked == marked && c.exploded == exploded
    {
      this.(mined := b)
    }

    /** Sets or clears the explosion; every other field keeps its value. */
    function SetExploded(b: bool): (c: Cell)
      ensures c.exploded == b
      ensures c.minesAround == minesAround && c.hidden == hidden && c.marked == marked && c.mined == mined
    {
      this.(exploded := b)
    }
  }

  /** The default constructor: a covered, unflagged, empty cell with hint 0. */
  function DefaultCell(): (c: Cell)
    ensures c.minesAround == 0 && c.hidden && !c.marked && !c.mined && !c.exploded
  {
    Cell(0, true, false, false, false)
  }

  /**
   * The full constructor stores exactly the five given values, and the
   * record enforces no relation between them: every combination, including
   * ones the game never produces (a revealed flagged cell, an explosion
   * without a mine), is representable and is told apart by its getters.
   */
  lemma FullConstructorStoresArguments(n: int, h: bool, m: bool, mi: bool, e: bool)
    ensures Cell(n, h, m, mi, e).minesAround == n
    ensures Cell(n, h, m, mi, e).hidden == h && Cell(n, h, m, mi, e).marked == m
    ensures Cell(n, h, m, mi, e).mined == mi && Cell(n, h, m, mi, e).exploded == e
    ensures forall c: Cell ::
              (c.minesAround == n && c.hidden == h && c.marked == m && c.mined == mi && c.exploded == e)
              ==> c == Cell(n, h, m, mi, e)
  {
  }

  /**
   * Setters on different fields do not interfere: applying two of them in
   * either order gives the same cell, and a second write to a field
   * overrides the first.
   */
  lemma SettersCommute(c: Cell, n: int, a: bool, b: bool)
    ensures c.SetHidden(a).SetMarked(b) == c.SetMarked(b).SetHidden(a)
    ensures c.SetMined(a).SetMinesAround(n) == c.SetMinesAround(n).SetMined(a)
    ensures c.SetHidden(a).SetExploded(b) == c.SetExploded(b).SetHidden(a)
    ensures c.SetMarked(a).SetMarked(b) == c.SetMarked(b)
    ensures c.SetHidden(a).SetHidden(b) == c.SetHidden(b)
  {
  }
}
