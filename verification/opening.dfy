/**
 * What open_cell does to the game as a whole (game.cpp:138-167): the
 * board, the change log, openedCells, the statistics store, won and
 * inGame, taken together as a snapshot. `Open` and `Sweep` follow
 * open_cell and its two loops over the block step for step on snapshots;
 * the class methods in module Minesweeper are proved to compute them, and
 * the properties of the recursion are proved here about the functions.
 */
module Opening {
  import opened Cells
  import opened Grid
  import opened Uncover
  import opened Statistics

  /** The part of a game's state that open_cell reads and writes. */
  datatype Snap = Snap(g: Matrix, log: seq<Point>, openedCells: int, stats: StatsMap, won: bool, inGame: bool)

  /**
   * What open_cell reads and never changes: the configuration, the key its
   * games are filed under in the statistics store, and the clock reading.
   */
  datatype Config = Config(length: int, width: int, mines: int, key: string, time: int)

  /** A snapshot after a run of calls, and how many times the run called gameEnd. */
  datatype Step = Step(after: Snap, ends: nat)

  /** The number of cells: what openedCells reaches when the board is covered. */
  function Area(c: Config): int {
    c.length * c.width
  }

  // ---------------------------------------------------------------------
  // What a run of open_cell calls guarantees
  // ---------------------------------------------------------------------

  /**
   * The effect of open_cell, or of a run of calls, that called gameEnd
   * `ends` times on a game whose configuration is filed under `key`: an
   * uncovering step whose log grew by one entry per uncovered cell;
   * openedCells and the number of uncovered-or-flagged cells follow the
   * log unless a mine was uncovered; uncovering a mine ends the game; the
   * store saw exactly `ends` reports; won and inGame change only by a
   * report.
   */
  ghost predicate Opened(s0: Snap, s1: Snap, ends: nat, key: string) {
    && Uncovering(s0.g, s1.g, s0.log, s1.log)
    && (!Detonated(s0.g, s1.g) ==>
          && s1.openedCells - s0.openedCells == |s1.log| - |s0.log|
          && Count(s1.g, Resolved) - Count(s0.g, Resolved) == |s1.log| - |s0.log|)
    && (Detonated(s0.g, s1.g) ==> ends >= 1)
    && (ends >= 1 ==> !s1.inGame)
    && (ends == 0 ==> s1.won == s0.won && s1.inGame == s0.inGame)
    && Reported(s0.stats, s1.stats, key, ends)
  }

  /**
   * A run that uncovered something and left openedCells at `cells`
   * reported. In the `once` form only a run that starts in play has to.
   */
  ghost predicate ReportsWhenFull(s0: Snap, s1: Snap, ends: nat, cells: int, once: bool) {
    |s1.log| > |s0.log| && s1.openedCells == cells && (!once || s0.inGame) ==> ends >= 1
  }

  lemma OpenedRefl(s: Snap, key: string, cells: int, once: bool)
    ensures Opened(s, s, 0, key) && ReportsWhenFull(s, s, 0, cells, once)
  {
    UncoveringRefl(s.g, s.log);
    ReportedNone(s.stats, key);
  }

  /** A step that logs nothing uncovered nothing, so it set off no mine. */
  lemma NoLogNoMine(s0: Snap, s1: Snap)
    requires Uncovering(s0.g, s1.g, s0.log, s1.log) && |s1.log| == |s0.log|
    ensures !Detonated(s0.g, s1.g)
  {
    assert s1.log[|s0.log|..] == [];
    forall i, j | InGrid(s0.g, i, j) ensures !NewlyOpen(s0.g, s1.g, i, j) {
      assert Point(i, j) !in s1.log[|s0.log|..];
    }
  }

  /** Two runs in a row make one, and their reports add up. */
  lemma OpenedTrans(s0: Snap, s1: Snap, s2: Snap, a: nat, b: nat, key: string, cells: int, once: bool)
    requires Opened(s0, s1, a, key) && Opened(s1, s2, b, key)
    ensures Opened(s0, s2, a + b, key)
    ensures ReportsWhenFull(s0, s1, a, cells, once) && ReportsWhenFull(s1, s2, b, cells, once) ==>
              ReportsWhenFull(s0, s2, a + b, cells, once)
  {
    UncoveringTrans(s0.g, s1.g, s2.g, s0.log, s1.log, s2.log);
    DetonatedSplit(s0.g, s1.g, s2.g);
    ReportedTrans(s0.stats, s1.stats, s2.stats, key, a, b);
    if |s2.log| == |s1.log| {
      NoLogNoMine(s1, s2);
    }
  }

  // ---------------------------------------------------------------------
  // open_cell on snapshots
  // ---------------------------------------------------------------------

  /** Uncovering (row, col), counting it in openedCells and logging it (game.cpp:145-147). */
  function Revealed(s: Snap, row: int, col: int): Snap
    requires InGrid(s.g, row, col)
  {
    s.(g := Reveal(s.g, row, col), log := s.log + [Point(row, col)], openedCells := s.openedCells + 1)
  }

  /** Setting off the mine at (row, col) (game.cpp:151). */
  function Exploded(s: Snap, row: int, col: int): Snap
    requires InGrid(s.g, row, col)
  {
    s.(g := Put(s.g, row, col, s.g[row][col].SetExploded(true)))
  }

  /**
   * gameLost: won is cleared, every covered cell is uncovered and logged
   * row by row, a loss is reported and the game is left (game.cpp:286-290).
   */
  function Lost(s: Snap, c: Config): Snap {
    s.(g := AllOpen(s.g), log := s.log + HiddenPoints(s.g), won := false, inGame := false,
       stats := RecordUnder(s.stats, c.key, c.length, c.width, c.mines, false, c.time))
  }

  /** won := checkIfWon(), then gameEnd (game.cpp:163-164). */
  function Ended(s: Snap, c: Config): Snap {
    var verdict := Count(s.g, MarkedMined) == c.mines;
    s.(won := verdict, inGame := false, stats := RecordUnder(s.stats, c.key, c.length, c.width, c.mines, verdict, c.time))
  }

  /**
   * The coverage check that closes every open_cell frame that got past
   * its first test (game.cpp:162-165). With `once`, the corrected form:
   * only a game still in play is ended.
   */
  function Finish(s: Snap, e: nat, c: Config, once: bool): Step {
    if s.openedCells == Area(c) && (!once || s.inGame) then Step(Ended(s, c), e + 1) else Step(s, e)
  }

  /**
   * open_cell(row, col) on the snapshot `s` (game.cpp:138-167): nothing
   * for an uncovered or flagged cell, the rest of the frame otherwise.
   * `once` selects the corrected coverage check.
   */
  function Open(s: Snap, row: int, col: int, c: Config, once: bool): (r: Step)
    requires Shaped(s.g, c.length, c.width) && InGrid(s.g, row, col)
    ensures Shaped(r.after.g, c.length, c.width) && Count(r.after.g, Hidden) <= Count(s.g, Hidden)
    decreases Count(s.g, Hidden), 3
  {
    if !Opens(s.g[row][col]) then Step(s, 0) else OpenCovered(s, row, col, c, once)
  }

  /**
   * open_cell past its first test: the cell is uncovered and the rest of
   * the frame runs, closed by the coverage check.
   */
  function OpenCovered(s: Snap, row: int, col: int, c: Config, once: bool): (r: Step)
    requires Shaped(s.g, c.length, c.width) && InGrid(s.g, row, col) && Opens(s.g[row][col])
    ensures Shaped(r.after.g, c.length, c.width) && Count(r.after.g, Hidden) <= Count(s.g, Hidden)
    decreases Count(s.g, Hidden), 2
  {
    var m := Uncovered(s, row, col, c, once);
    Finish(m.after, m.ends, c, once)
  }

  /**
   * The frame of open_cell up to its coverage check: the cell is
   * uncovered, a mine there is set off and loses the game, a blank cell
   * sweeps its block.
   */
  function Uncovered(s: Snap, row: int, col: int, c: Config, once: bool): (r: Step)
    requires Shaped(s.g, c.length, c.width) && InGrid(s.g, row, col) && Opens(s.g[row][col])
    ensures Shaped(r.after.g, c.length, c.width) && Count(r.after.g, Hidden) <= Count(s.g, Hidden)
    decreases Count(s.g, Hidden), 1
  {
    RevealCounts(s.g, row, col);
    var s1 := Revealed(s, row, col);
    ShapedKept(s.g, s1.g, c.length, c.width);
    if s1.g[row][col].mined then
      var s2 := Exploded(s1, row, col);
      ShapedKept(s1.g, s2.g, c.length, c.width);
      ShapedKept(s2.g, AllOpen(s2.g), c.length, c.width);
      AllOpenCount(s2.g);
      Step(Lost(s2, c), 1)
    else if s1.g[row][col].minesAround == 0 then
      Sweep(s1, row, col, Max(0, row - 1), Max(0, col - 1), Count(s.g, Hidden), c, once)
    else
      Step(s1, 0)
  }

  /**
   * The two loops of open_cell over the block of (row, col), clipped to
   * the board, from cell (i, j) on in row-major order: open_cell on each
   * cell, the centre included (game.cpp:155-160). `bound` exceeds the
   * number of covered cells and makes the recursion's termination
   * explicit.
   */
  function Sweep(s: Snap, row: int, col: int, i: int, j: int, bound: nat, c: Config, once: bool): (r: Step)
    requires Shaped(s.g, c.length, c.width) && InGrid(s.g, row, col)
    requires Max(0, row - 1) <= i <= Min(c.length, row + 2) && Max(0, col - 1) <= j <= Min(c.width, col + 2)
    requires Count(s.g, Hidden) < bound
    ensures Shaped(r.after.g, c.length, c.width) && Count(r.after.g, Hidden) <= Count(s.g, Hidden)
    decreases bound, 0, Min(c.length, row + 2) - i, Min(c.width, col + 2) - j
  {
    if i == Min(c.length, row + 2) then Step(s, 0)
    else if j == Min(c.width, col + 2) then Sweep(s, row, col, i + 1, Max(0, col - 1), bound, c, once)
    else
      var t := Open(s, i, j, c, once);
      var u := Sweep(t.after, row, col, i, j + 1, bound, c, once);
      Step(u.after, t.ends + u.ends)
  }

  /**
   * `whole` is what remains of a sweep of the block of (row, col) from
   * (i, j) on, run from `s`, after calls that called gameEnd `ends` times.
   */
  ghost predicate Remains(whole: Step, s: Snap, ends: nat, row: int, col: int, i: int, j: int, bound: nat, c: Config, once: bool) {
    && Shaped(s.g, c.length, c.width) && InGrid(s.g, row, col)
    && Max(0, row - 1) <= i <= Min(c.length, row + 2) && Max(0, col - 1) <= j <= Min(c.width, col + 2)
    && Count(s.g, Hidden) < bound
    && var rest := Sweep(s, row, col, i, j, bound, c, once);
       whole == Step(rest.after, ends + rest.ends)
  }

  /** Before the sweep of the block around (row, col) starts, all of it remains. */
  lemma RemainsStart(s: Snap, row: int, col: int, bound: nat, c: Config, once: bool)
    requires Shaped(s.g, c.length, c.width) && InGrid(s.g, row, col) && Count(s.g, Hidden) < bound
    ensures Remains(Sweep(s, row, col, Max(0, row - 1), Max(0, col - 1), bound, c, once), s, 0, row, col, Max(0, row - 1), Max(0, col - 1), bound, c, once) == true
  {
  }

  /** The sweep at a cell of the block is open_cell there, ending in `t`, followed by the rest of the sweep. */
  lemma RemainsCell(whole: Step, s: Snap, s': Snap, e: nat, ends: nat, row: int, col: int, i: int, j: int, bound: nat, c: Config, once: bool)
    requires Remains(whole, s, ends, row, col, i, j, bound, c, once) == true
    requires i < Min(c.length, row + 2) && j < Min(c.width, col + 2)
    requires Step(s', e) == Open(s, i, j, c, once)
    ensures Remains(whole, s', ends + e, row, col, i, j + 1, bound, c, once) == true
  {
  }

  /** Past the end of a row of the block, the sweep goes on at the start of the next. */
  lemma RemainsRow(whole: Step, s: Snap, ends: nat, row: int, col: int, i: int, bound: nat, c: Config, once: bool)
    requires Remains(whole, s, ends, row, col, i, Min(c.width, col + 2), bound, c, once) == true
    requires i < Min(c.length, row + 2)
    ensures Remains(whole, s, ends, row, col, i + 1, Max(0, col - 1), bound, c, once) == true
  {
  }

  /** Past the last row of the block, nothing remains of the sweep. */
  lemma RemainsDone(whole: Step, s: Snap, ends: nat, row: int, col: int, j: int, bound: nat, c: Config, once: bool)
    requires Remains(whole, s, ends, row, col, Min(c.length, row + 2), j, bound, c, once) == true
    ensures whole == Step(s, ends) && Shaped(s.g, c.length, c.width)
  {
  }

  // ---------------------------------------------------------------------
  // The steps of open_cell, one lemma each
  // ---------------------------------------------------------------------

  /**
   * open_cell on a mined cell: uncovered, logged and counted, set off,
   * then gameLost uncovers and logs the rest of the board and reports a
   * loss.
   */
  lemma MineOpened(s0: Snap, row: int, col: int, c: Config)
    requires InGrid(s0.g, row, col) && Opens(s0.g[row][col]) && s0.g[row][col].mined
    ensures var s3 := Lost(Exploded(Revealed(s0, row, col), row, col), c);
            Opened(s0, s3, 1, c.key) && Detonated(s0.g, s3.g)
  {
    var s2 := Exploded(Revealed(s0, row, col), row, col);
    DetonationStep(s0.g, AllOpen(s2.g), s0.log, row, col);
    ReportedOnce(s0.stats, c.key, c.length, c.width, c.mines, false, c.time);
  }

  /**
   * open_cell on an unmined cell: uncovered, logged and counted, then (for
   * a blank cell) the sweep of its block. The whole is one run,
   * flood-sound from (row, col) unless the sweep uncovered a mine.
   */
  lemma SafeOpened(s0: Snap, s2: Snap, e: nat, row: int, col: int, key: string)
    requires InGrid(s0.g, row, col) && Opens(s0.g[row][col]) && !s0.g[row][col].mined
    requires var s1 := Revealed(s0, row, col);
             && Opened(s1, s2, e, key)
             && (Blank(s1.g[row][col]) ==>
                   SettledAround(s2.g, row, col) && (!Detonated(s1.g, s2.g) ==> NearOrFed(s1.g, s2.g, row, col)))
             && (!Blank(s1.g[row][col]) ==> s2 == s1)
    ensures Opened(s0, s2, e, key)
    ensures Detonated(s0.g, s2.g) == Detonated(Reveal(s0.g, row, col), s2.g)
    ensures !Detonated(s0.g, s2.g) ==> FloodSound(s0.g, s2.g, row, col)
  {
    var g1 := Reveal(s0.g, row, col);
    RevealCounts(s0.g, row, col);
    RevealStep(s0.g, s2.g, s0.log, s2.log, row, col);
    if !Detonated(s0.g, s2.g) && Blank(g1[row][col]) {
      CascadeSound(s0.g, s2.g, row, col);
    }
  }

  /** The coverage check adds one report exactly when it ends the game, and changes nothing else that a run tracks. */
  lemma FullCheck(s0: Snap, s1: Snap, e: nat, c: Config, once: bool)
    requires Opened(s0, s1, e, c.key)
    ensures var r := Finish(s1, e, c, once);
            && Opened(s0, r.after, r.ends, c.key)
            && r.after.g == s1.g && r.after.log == s1.log && r.after.openedCells == s1.openedCells
            && r.ends == e + Bit(s1.openedCells == Area(c) && (!once || s1.inGame))
            && (r.ends > e ==> r.after.won == (Count(s1.g, MarkedMined) == c.mines))
  {
    if s1.openedCells == Area(c) && (!once || s1.inGame) {
      var s2 := Ended(s1, c);
      ReportedOnce(s1.stats, c.key, c.length, c.width, c.mines, s2.won, c.time);
      ReportedTrans(s0.stats, s1.stats, s2.stats, c.key, e, 1);
    }
  }

  // ---------------------------------------------------------------------
  // What open_cell promises, by induction over the recursion
  // ---------------------------------------------------------------------

  /**
   * What open_cell(row, col) promises from the snapshot `s`, when it ends
   * in `r`: an uncovering run whose reports match its gameEnd calls; it
   * does nothing on an uncovered or flagged cell and otherwise uncovers
   * it; unless it set off a mine it uncovered only the start cell and
   * neighbours of blank cells it uncovered; with consistent hints an
   * unmined start cell sets off no mine; and in the `once` form, with
   * consistent hints, it reports at most once, and not at all from a game
   * already over unless the start cell is a mine.
   */
  ghost predicate OpenOk(s: Snap, r: Step, row: int, col: int, c: Config, once: bool) {
    && InGrid(s.g, row, col)
    && Opened(s, r.after, r.ends, c.key)
    && ReportsWhenFull(s, r.after, r.ends, Area(c), once)
    && (!Opens(s.g[row][col]) ==> r == Step(s, 0))
    && (Opens(s.g[row][col]) ==> !r.after.g[row][col].hidden && |r.after.log| > |s.log|)
    && (!Detonated(s.g, r.after.g) ==> FloodSound(s.g, r.after.g, row, col))
    && (HintsConsistent(s.g, c.width) && !s.g[row][col].mined ==> !Detonated(s.g, r.after.g))
    && (once && HintsConsistent(s.g, c.width) ==>
          r.ends <= 1 && (!s.g[row][col].mined ==> r.ends <= Bit(s.inGame)))
  }

  /** Every cell of the block of (row, col) from (i, j) on, in row-major order, is uncovered or flagged. */
  ghost predicate SettledFrom(g: Matrix, row: int, col: int, i: int, j: int) {
    forall k, l :: InGrid(g, k, l) && Near(row, col, k, l) && (i < k || (i == k && j <= l)) ==>
      !g[k][l].hidden || g[k][l].marked
  }

  /**
   * What the sweep of the block of the blank cell (row, col) from (i, j)
   * on promises, when it ends in `r`: an uncovering run whose reports
   * match its gameEnd calls; unless it set off a mine, everything it
   * uncovered is in the block or next to a blank cell it uncovered; it
   * leaves the rest of the block uncovered or flagged; with consistent
   * hints it sets off no mine, and in the `once` form reports at most
   * once, and only from a game in play.
   */
  ghost predicate SweepOk(s: Snap, r: Step, row: int, col: int, i: int, j: int, c: Config, once: bool) {
    && Opened(s, r.after, r.ends, c.key)
    && ReportsWhenFull(s, r.after, r.ends, Area(c), once)
    && (!Detonated(s.g, r.after.g) ==> NearOrFed(s.g, r.after.g, row, col))
    && SettledFrom(r.after.g, row, col, i, j)
    && (HintsConsistent(s.g, c.width) ==> !Detonated(s.g, r.after.g) && (once ==> r.ends <= Bit(s.inGame)))
  }

  /** open_cell on an uncovered or flagged cell does nothing. */
  lemma OpenNoop(s: Snap, row: int, col: int, c: Config, once: bool)
    requires InGrid(s.g, row, col) && !Opens(s.g[row][col])
    ensures OpenOk(s, Step(s, 0), row, col, c, once)
  {
    OpenedRefl(s, c.key, Area(c), once);
    assert forall i, j :: InGrid(s.g, i, j) ==> !NewlyOpen(s.g, s.g, i, j);
  }

  /** open_cell on a mined cell: set off, lost, and closed by the coverage check. */
  lemma OpenMine(s: Snap, row: int, col: int, c: Config, once: bool)
    requires InGrid(s.g, row, col) && Opens(s.g[row][col]) && s.g[row][col].mined
    ensures var m := Lost(Exploded(Revealed(s, row, col), row, col), c);
            OpenOk(s, Finish(m, 1, c, once), row, col, c, once)
  {
    var m := Lost(Exploded(Revealed(s, row, col), row, col), c);
    MineOpened(s, row, col, c);
    FullCheck(s, m, 1, c, once);
    assert InGrid(m.g, row, col);
    assert !Opens(m.g[row][col]) by {
      assert !m.g[row][col].hidden;
    }
  }

  /**
   * open_cell on an unmined cell: uncovered, then for a blank cell the
   * sweep `m` of its block, closed by the coverage check.
   */
  lemma OpenSafe(s: Snap, m: Step, row: int, col: int, c: Config, once: bool)
    requires InGrid(s.g, row, col) && Opens(s.g[row][col]) && !s.g[row][col].mined
    requires var s1 := Revealed(s, row, col);
             && (Blank(s1.g[row][col]) ==> SweepOk(s1, m, row, col, Max(0, row - 1), Max(0, col - 1), c, once))
             && (!Blank(s1.g[row][col]) ==> m == Step(s1, 0))
    ensures OpenOk(s, Finish(m.after, m.ends, c, once), row, col, c, once)
  {
    var s1 := Revealed(s, row, col);
    RevealCounts(s.g, row, col);
    if Blank(s1.g[row][col]) {
      assert SettledAround(m.after.g, row, col);
      if HintsConsistent(s.g, c.width) {
        HintsKept(s.g, s1.g, c.width);
      }
    } else {
      OpenedRefl(s1, c.key, Area(c), once);
    }
    SafeOpened(s, m.after, m.ends, row, col, c.key);
    FullCheck(s, m.after, m.ends, c, once);
    assert InGrid(m.after.g, row, col);
  }

  /** The sweep past the last row of the block does nothing. */
  lemma SweepEnd(s: Snap, row: int, col: int, j: int, c: Config, once: bool)
    requires Shaped(s.g, c.length, c.width) && InGrid(s.g, row, col)
    ensures SweepOk(s, Step(s, 0), row, col, Min(c.length, row + 2), j, c, once)
  {
    OpenedRefl(s, c.key, Area(c), once);
    assert forall a, b :: InGrid(s.g, a, b) ==> !NewlyOpen(s.g, s.g, a, b);
  }

  /** Past the end of a row of the block, the sweep goes on at the start of the next. */
  lemma SweepNextRow(s: Snap, r: Step, row: int, col: int, i: int, c: Config, once: bool)
    requires Shaped(s.g, c.length, c.width) && InGrid(s.g, row, col)
    requires SweepOk(s, r, row, col, i + 1, Max(0, col - 1), c, once)
    ensures SweepOk(s, r, row, col, i, Min(c.width, col + 2), c, once)
  {
  }

  lemma BlankKept(s: Snap, t: Step, row: int, col: int, key: string)
    requires InGrid(s.g, row, col) && Blank(s.g[row][col])
    requires Opened(s, t.after, t.ends, key)
    ensures InGrid(t.after.g, row, col) && Blank(t.after.g[row][col])
  {
  }

  /**
   * One cell of the sweep: open_cell on (i, j), ending in `t`, followed
   * by the rest of the sweep, ending in `u`.
   */
  lemma SweepCell(s: Snap, t: Step, u: Step, row: int, col: int, i: int, j: int, c: Config, once: bool)
    requires Shaped(s.g, c.length, c.width) && InGrid(s.g, row, col) && Blank(s.g[row][col])
    requires InGrid(s.g, i, j) && Near(row, col, i, j)
    requires OpenOk(s, t, i, j, c, once)
    requires SweepOk(t.after, u, row, col, i, j + 1, c, once)
    ensures SweepOk(s, Step(u.after, t.ends + u.ends), row, col, i, j, c, once)
  {
    OpenedTrans(s, t.after, u.after, t.ends, u.ends, c.key, Area(c), once);
    DetonatedSplit(s.g, t.after.g, u.after.g);
    if !Detonated(s.g, u.after.g) {
      NearOrFedPrepend(s.g, t.after.g, u.after.g, row, col, i, j);
    }
    assert InGrid(t.after.g, i, j) && InGrid(u.after.g, i, j);
    if HintsConsistent(s.g, c.width) {
      BlockZeroIsClear(s.g, c.width, row, col);
      assert !s.g[i][j].mined;
      HintsKept(s.g, t.after.g, c.width);
    }
  }

  /**
   * Every call of open_cell satisfies OpenOk: the induction runs down the
   * recursion of Open, OpenCovered and Sweep, on the number of covered cells.
   */
  lemma {:induction false} OpenSound(s: Snap, r: Step, row: int, col: int, c: Config, once: bool)
    requires Shaped(s.g, c.length, c.width) && InGrid(s.g, row, col)
    requires r == Open(s, row, col, c, once)
    decreases Count(s.g, Hidden), 2
    ensures OpenOk(s, r, row, col, c, once)
  {
    if !Opens(s.g[row][col]) {
      OpenNoop(s, row, col, c, once);
    } else {
      OpenCoveredSound(s, r, row, col, c, once);
    }
  }

  /** OpenCovered satisfies OpenOk, given that every shorter recursion does. */
  lemma {:induction false} OpenCoveredSound(s: Snap, r: Step, row: int, col: int, c: Config, once: bool)
    requires Shaped(s.g, c.length, c.width) && InGrid(s.g, row, col) && Opens(s.g[row][col])
    requires r == OpenCovered(s, row, col, c, once)
    decreases Count(s.g, Hidden), 1
    ensures OpenOk(s, r, row, col, c, once)
  {
    if s.g[row][col].mined {
      OpenMine(s, row, col, c, once);
    } else {
      RevealCounts(s.g, row, col);
      var s1 := Revealed(s, row, col);
      if s1.g[row][col].minesAround == 0 {
        var m := Sweep(s1, row, col, Max(0, row - 1), Max(0, col - 1), Count(s.g, Hidden), c, once);
        SweepSound(s1, m, row, col, Max(0, row - 1), Max(0, col - 1), Count(s.g, Hidden), c, once);
        OpenSafe(s, m, row, col, c, once);
      } else {
        OpenSafe(s, Step(s1, 0), row, col, c, once);
      }
    }
  }

  /** Every sweep of a blank cell's block satisfies SweepOk, by induction over the recursion of Open and Sweep. */
  lemma {:induction false} SweepSound(s: Snap, r: Step, row: int, col: int, i: int, j: int, bound: nat, c: Config, once: bool)
    requires Shaped(s.g, c.length, c.width) && InGrid(s.g, row, col) && Blank(s.g[row][col])
    requires Max(0, row - 1) <= i <= Min(c.length, row + 2) && Max(0, col - 1) <= j <= Min(c.width, col + 2)
    requires Count(s.g, Hidden) < bound
    requires r == Sweep(s, row, col, i, j, bound, c, once)
    decreases bound, 0, Min(c.length, row + 2) - i, Min(c.width, col + 2) - j, 1
    ensures SweepOk(s, r, row, col, i, j, c, once)
  {
    if i == Min(c.length, row + 2) {
      SweepEnd(s, row, col, j, c, once);
    } else if j == Min(c.width, col + 2) {
      SweepSound(s, r, row, col, i + 1, Max(0, col - 1), bound, c, once);
      SweepNextRow(s, r, row, col, i, c, once);
    } else {
      var t := Open(s, i, j, c, once);
      OpenSound(s, t, i, j, c, once);
      var u := Sweep(t.after, row, col, i, j + 1, bound, c, once);
      SweepCellSound(s, t, u, r, row, col, i, j, bound, c, once);
    }
  }

  /**
   * The inductive step of SweepSound at a cell of the block: `t` is
   * open_cell on (i, j), already known sound, and `u` the rest of the sweep.
   */
  lemma {:induction false} SweepCellSound(s: Snap, t: Step, u: Step, r: Step, row: int, col: int, i: int, j: int, bound: nat, c: Config, once: bool)
    requires Shaped(s.g, c.length, c.width) && InGrid(s.g, row, col) && Blank(s.g[row][col])
    requires Max(0, row - 1) <= i < Min(c.length, row + 2) && Max(0, col - 1) <= j < Min(c.width, col + 2)
    requires Count(s.g, Hidden) < bound
    requires OpenOk(s, t, i, j, c, once)
    requires Shaped(t.after.g, c.length, c.width) && Count(t.after.g, Hidden) < bound
    requires u == Sweep(t.after, row, col, i, j + 1, bound, c, once)
    requires r == Step(u.after, t.ends + u.ends)
    decreases bound, 0, Min(c.length, row + 2) - i, Min(c.width, col + 2) - j, 0
    ensures SweepOk(s, r, row, col, i, j, c, once)
  {
    BlankKept(s, t, row, col, c.key);
    SweepSound(t.after, u, row, col, i, j + 1, bound, c, once);
    SweepCell(s, t, u, row, col, i, j, c, once);
  }

  /** The coverage check after an unmined cell and the sweep `m` of its block, when the board is complete. */
  lemma SafeReportsPerFrame(s: Snap, m: Step, row: int, col: int, c: Config)
    requires InGrid(s.g, row, col) && Opens(s.g[row][col]) && !s.g[row][col].mined
    requires var s1 := Revealed(s, row, col);
             && (Blank(s1.g[row][col]) ==> SweepOk(s1, m, row, col, Max(0, row - 1), Max(0, col - 1), c, false))
             && (!Blank(s1.g[row][col]) ==> m == Step(s1, 0))
    ensures var r := Finish(m.after, m.ends, c, false);
            r.after.openedCells == Area(c) ==>
              && r.after.won == (Count(r.after.g, MarkedMined) == c.mines)
              && (Detonated(s.g, r.after.g) || |r.after.log| >= |s.log| + 2 ==> r.ends >= 2)
  {
    var s1 := Revealed(s, row, col);
    RevealCounts(s.g, row, col);
    if Blank(s1.g[row][col]) {
      assert SettledAround(m.after.g, row, col);
    } else {
      OpenedRefl(s1, c.key, Area(c), false);
    }
    SafeOpened(s, m.after, m.ends, row, col, c.key);
    FullCheck(s, m.after, m.ends, c, false);
  }

  /**
   * A call that completes the board reports from the frame that completed
   * it and again from every frame below it on the recursion: when the
   * call set off a mine on the last covered cell, or completed the board
   * inside the sweep, gameEnd runs at least twice. When the board is
   * complete, won is the flagged-mines verdict.
   */
  lemma OpenReportsPerFrame(s: Snap, r: Step, row: int, col: int, c: Config)
    requires Shaped(s.g, c.length, c.width) && InGrid(s.g, row, col) && Opens(s.g[row][col])
    requires r == Open(s, row, col, c, false)
    ensures r.after.openedCells == Area(c) ==>
              && r.after.won == (Count(r.after.g, MarkedMined) == c.mines)
              && (Detonated(s.g, r.after.g) || |r.after.log| >= |s.log| + 2 ==> r.ends >= 2)
  {
    assert r == OpenCovered(s, row, col, c, false);
    RevealCounts(s.g, row, col);
    var s1 := Revealed(s, row, col);
    if s1.g[row][col].mined {
      var m := Lost(Exploded(s1, row, col), c);
      MineOpened(s, row, col, c);
      FullCheck(s, m, 1, c, false);
    } else if Blank(s1.g[row][col]) {
      var m := Sweep(s1, row, col, Max(0, row - 1), Max(0, col - 1), Count(s.g, Hidden), c, false);
      SweepSound(s1, m, row, col, Max(0, row - 1), Max(0, col - 1), Count(s.g, Hidden), c, false);
      SafeReportsPerFrame(s, m, row, col, c);
    } else {
      SafeReportsPerFrame(s, Step(s1, 0), row, col, c);
    }
  }

  /**
   * A call that sets off no mine keeps the counters describing the board:
   * flags stay on covered cells and keep their number, and openedCells
   * still counts the uncovered-or-flagged cells.
   */
  lemma OpenKeepsCounters(s: Snap, r: Step, row: int, col: int, c: Config, once: bool)
    requires Shaped(s.g, c.length, c.width) && InGrid(s.g, row, col)
    requires r == Open(s, row, col, c, once)
    requires FlagsCovered(s.g) && s.openedCells == Count(s.g, Resolved)
    requires !Detonated(s.g, r.after.g)
    ensures FlagsCovered(r.after.g) && Count(r.after.g, Marked) == Count(s.g, Marked)
    ensures r.after.openedCells == Count(r.after.g, Resolved)
  {
    OpenSound(s, r, row, col, c, once);
    FlagsKept(s.g, r.after.g);
  }

  /**
   * The corrected coverage check (report only while the game is in play):
   * on a board whose hints are consistent, one call of open_cell reports
   * at most once, and from an unmined cell only if the game was in play.
   */
  lemma OpenReportsOnce(s: Snap, r: Step, row: int, col: int, c: Config)
    requires Shaped(s.g, c.length, c.width) && InGrid(s.g, row, col) && HintsConsistent(s.g, c.width)
    requires r == Open(s, row, col, c, true)
    ensures r.ends <= 1
    ensures !s.g[row][col].mined ==> r.ends <= Bit(s.inGame)
  {
    OpenSound(s, r, row, col, c, true);
  }

  /**
   * A board of one row of two covered cells and no mine: open_cell(0, 0)
   * uncovers (0, 0), sweeps into (0, 1), which completes the board and
   * reports, and the outer frame then reports the same game again.
   */
  lemma CascadeReportsTwice(s: Snap, c: Config)
    requires s.g == [[Cell(0, true, false, false, false), Cell(0, true, false, false, false)]]
    requires s.log == [] && s.openedCells == 0 && c.length == 1 && c.width == 2
    ensures Open(s, 0, 0, c, false).ends >= 2
  {
    var g := s.g;
    assert Shaped(g, 1, 2);
    var r := Open(s, 0, 0, c, false);
    OpenSound(s, r, 0, 0, c, false);
    OpenReportsPerFrame(s, r, 0, 0, c);
    var g1 := r.after.g;
    assert !Detonated(g, g1);
    assert InGrid(g1, 0, 0) && InGrid(g1, 0, 1);
    assert NewlyOpen(g, g1, 0, 0);
    assert Blank(g1[0][0]);
    assert SettledAround(g1, 0, 0);
    assert Near(0, 0, 0, 1);
    assert !g1[0][1].hidden;
    var added := r.after.log[|s.log|..];
    assert added == r.after.log;
    assert Point(0, 0) in added && Point(0, 1) in added;
    forall p | p in added ensures p == Point(0, 0) || p == Point(0, 1) {
    }
    PairLogged(added, Point(0, 0), Point(0, 1));
  }

  /** A list of distinct cells that holds exactly the cells `a` and `b` has two entries. */
  lemma PairLogged(l: seq<Point>, a: Point, b: Point)
    requires Distinct(l) && a != b && a in l && b in l && forall p :: p in l ==> p == a || p == b
    ensures |l| == 2
  {
    DistinctSize(l);
    assert (set p | p in l) == {a, b};
  }

  /** A list of distinct cells has as many entries as it has elements. */
  lemma {:induction false} DistinctSize(l: seq<Point>)
    requires Distinct(l)
    ensures |set p | p in l| == |l|
  {
    if |l| > 0 {
      var t := l[..|l| - 1];
      assert Distinct(t) by {
        forall i, j | 0 <= i < j < |t| ensures t[i] != t[j] {
          assert l[i] == t[i] && l[j] == t[j];
        }
      }
      DistinctSize(t);
      assert l == t + [l[|l| - 1]];
      assert (set p | p in l) == (set p | p in t) + {l[|l| - 1]};
      assert l[|l| - 1] !in (set p | p in t) by {
        forall i | 0 <= i < |t| ensures t[i] != l[|l| - 1] {
          assert l[i] == t[i];
        }
      }
    }
  }
}
