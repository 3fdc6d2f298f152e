/**
 * The game engine (game.h, game.cpp): one object that owns the board, the
 * configuration, the two counters the end-of-game test reads, the log of
 * changed cells the window redraws from, and the statistics store it
 * reports finished games to.
 */
module Minesweeper {
  import opened Cells
  import opened Grid
  import opened Uncover
  import opened Statistics
  import opened Opening
  import opened Marking

  /** Every cell is covered and unflagged, as after createMatrix, place_mines and count_mines_around. */
  ghost predicate Untouched(g: Matrix) {
    forall i, j :: InGrid(g, i, j) ==> Opens(g[i][j])
  }

  /**
   * g1 is g0 with mines added on cells of `s`: every changed cell was
   * unmined and has only gained a mine, and every cell of `s` is mined.
   */
  ghost predicate MinesAdded(g0: Matrix, g1: Matrix, s: seq<Point>) {
    && SameShape(g0, g1)
    && (forall i, j :: InGrid(g0, i, j) ==>
          g1[i][j] == g0[i][j] ||
          (!g0[i][j].mined && g1[i][j] == g0[i][j].SetMined(true) && Point(i, j) in s))
    && (forall k :: 0 <= k < |s| ==> InGrid(g1, s[k].row, s[k].col) && g1[s[k].row][s[k].col].mined)
  }

  /** One draw of place_mines: the drawn cell gets a mine unless it has one, and the mine count follows. */
  lemma MinesAddedStep(g0: Matrix, g1: Matrix, s: seq<Point>, p: Point)
    requires MinesAdded(g0, g1, s) && InGrid(g1, p.row, p.col)
    ensures g1[p.row][p.col].mined ==> MinesAdded(g0, g1, s + [p])
    ensures !g1[p.row][p.col].mined ==>
              var g2 := Put(g1, p.row, p.col, g1[p.row][p.col].SetMined(true));
              MinesAdded(g0, g2, s + [p]) && Count(g2, Mined) == Count(g1, Mined) + 1
  {
    var s' := s + [p];
    assert forall k :: 0 <= k < |s| ==> s'[k] == s[k];
    if !g1[p.row][p.col].mined {
      var g2 := Put(g1, p.row, p.col, g1[p.row][p.col].SetMined(true));
      CountPut(g1, p.row, p.col, g1[p.row][p.col].SetMined(true), Mined);
      forall i, j | InGrid(g0, i, j)
        ensures g2[i][j] == g0[i][j] || (!g0[i][j].mined && g2[i][j] == g0[i][j].SetMined(true) && Point(i, j) in s')
      {
        assert InGrid(g1, i, j);
      }
    }
  }

  /**
   * checkIfWon counts flagged mines only: the count reaches the number of
   * mines on the board exactly when every mine carries a flag, whatever
   * else is flagged.
   */
  lemma FlaggedMinesCount(g: Matrix)
    ensures Count(g, MarkedMined) <= Count(g, Mined)
    ensures Count(g, MarkedMined) == Count(g, Mined) <==>
              forall i, j :: InGrid(g, i, j) && g[i][j].mined ==> g[i][j].marked
  {
    CountMono(g, Mined, g, MarkedMined);
    if forall i, j :: InGrid(g, i, j) && g[i][j].mined ==> g[i][j].marked {
      CountSame(g, g, Mined);
      CountMono(g, MarkedMined, g, Mined);
    }
  }

  class Game {
    var gridLength: int
    var gridWidth: int
    var minesNumber: int
    var won: bool
    var inGame: bool
    var elapsedSeconds: int
    var markedCells: int
    var openedCells: int       // uncovered or flagged cells
    var changedCells: seq<Point>
    var gameMatrix: Matrix
    const gameStatistics: GameStatistics

    /** The board has the configured shape, as the window guarantees before any move. */
    ghost predicate WellFormed()
      reads this`gameMatrix, this`gridLength, this`gridWidth
    {
      Shaped(gameMatrix, gridLength, gridWidth)
    }

    /**
     * The counters describe the board during play: markedCells counts the
     * flags, openedCells the cells uncovered or flagged, and flags sit only
     * on covered cells.
     */
    ghost predicate Consistent()
      reads this
    {
      && WellFormed()
      && FlagsCovered(gameMatrix)
      && markedCells == Count(gameMatrix, Marked)
      && openedCells == Count(gameMatrix, Resolved)
    }

    /**
     * The constructor with its default configuration of 10 rows, 10
     * columns and 10 mines. `statsFile` is what loadFromFile finds in the
     * statistics file (None: it cannot be opened). won and the two counters
     * have no initial value.
     */
    constructor (statsFile: Option<seq<JsonRecord>>, length: int := 10, width: int := 10, mines: int := 10)
      ensures gridLength == length && gridWidth == width && minesNumber == mines
      ensures !inGame && elapsedSeconds == 0 && changedCells == [] && gameMatrix == []
      ensures fresh(gameStatistics)
      ensures statsFile.None? ==> gameStatistics.statsMap == map[]
      ensures statsFile.Some? ==> gameStatistics.statsMap == LoadRecords(map[], statsFile.value)
    {
      gridLength := length;
      gridWidth := width;
      minesNumber := mines;
      inGame := false;
      elapsedSeconds := 0;
      changedCells := [];
      gameMatrix := [];
      var stats := new GameStatistics();
      stats.LoadFromFile(statsFile);
      gameStatistics := stats;
    }

    /** createMatrix: discards the board and builds `length` rows of `width` default cells. */
    method CreateMatrix(length: int, width: int)
      modifies this`gameMatrix
      ensures Shaped(gameMatrix, Max(0, length), Max(0, width))
      ensures forall i, j :: InGrid(gameMatrix, i, j) ==> gameMatrix[i][j] == DefaultCell()
    {
      gameMatrix := [];
      var i := 0;
      while i < length
        invariant 0 <= i <= Max(0, length)
        invariant Shaped(gameMatrix, i, Max(0, width))
        invariant forall a, b :: InGrid(gameMatrix, a, b) ==> gameMatrix[a][b] == DefaultCell()
      {
        gameMatrix := gameMatrix + [[]];
        var j := 0;
        while j < width
          invariant 0 <= j <= Max(0, width)
          invariant |gameMatrix| == i + 1 && |gameMatrix[i]| == j
          invariant forall a :: 0 <= a < i ==> |gameMatrix[a]| == Max(0, width)
          invariant forall a, b :: InGrid(gameMatrix, a, b) ==> gameMatrix[a][b] == DefaultCell()
        {
          gameMatrix := gameMatrix[i := gameMatrix[i] + [DefaultCell()]];
          j := j + 1;
        }
        i := i + 1;
      }
    }

    method ChangeLength(length: int)
      modifies this`gridLength
      ensures gridLength == length
    {
      gridLength := length;
    }

    method ChangeWidth(width: int)
      modifies this`gridWidth
      ensures gridWidth == width
    {
      gridWidth := width;
    }

    method ChangeMinesNumber(mines: int)
      modifies this`minesNumber
      ensures minesNumber == mines
    {
      minesNumber := mines;
    }

    method SetElapsedSeconds(value: int)
      modifies this`elapsedSeconds
      ensures elapsedSeconds == value
    {
      elapsedSeconds := value;
    }

    method SetWon(value: bool)
      modifies this`won
      ensures won == value
    {
      won := value;
    }

    /**
     * resetMarkedCells: zeroes both counters and starts the game. On an
     * untouched board of the configured shape this makes the counters
     * describe the board.
     */
    method ResetMarkedCells()
      modifies this`openedCells, this`markedCells, this`inGame
      ensures openedCells == 0 && markedCells == 0 && inGame
      ensures WellFormed() && Untouched(gameMatrix) ==> Consistent()
    {
      openedCells := 0;
      markedCells := 0;
      inGame := true;
      if WellFormed() && Untouched(gameMatrix) {
        CountNone(gameMatrix, Marked);
        CountNone(gameMatrix, Resolved);
      }
    }

    /**
     * getChangedCells followed by the caller's clear(): the window takes
     * the log and the game's log is empty afterwards.
     */
    method TakeChangedCells() returns (log: seq<Point>)
      modifies this`changedCells
      ensures log == old(changedCells) && changedCells == []
    {
      log := changedCells;
      changedCells := [];
    }

    /**
     * place_mines, with the random coordinates supplied as `draws`. Each
     * draw mines its cell unless the cell already holds a mine; the loop
     * stops once minesNumber mines are placed or the draws run out, and
     * `used` says how many it took.
     */
    method PlaceMines(draws: seq<Point>) returns (placed: int, used: int)
      requires WellFormed()
      requires forall k :: 0 <= k < |draws| ==> 0 <= draws[k].row < gridLength && 0 <= draws[k].col < gridWidth
      modifies this`gameMatrix
      ensures WellFormed() && 0 <= used <= |draws|
      ensures MinesAdded(old(gameMatrix), gameMatrix, draws[..used])
      ensures Count(gameMatrix, Mined) == Count(old(gameMatrix), Mined) + placed
      ensures 0 <= placed <= Max(0, minesNumber)
      ensures placed < minesNumber ==> used == |draws|
      ensures minesNumber > gridLength * gridWidth - Count(old(gameMatrix), Mined) ==> used == |draws|
    {
      ghost var g0 := gameMatrix;
      var counter := 0;
      used := 0;
      while counter < minesNumber && used < |draws|
        invariant 0 <= used <= |draws| && 0 <= counter <= Max(0, minesNumber)
        invariant WellFormed()
        invariant MinesAdded(g0, gameMatrix, draws[..used])
        invariant Count(gameMatrix, Mined) == Count(g0, Mined) + counter
      {
        var p := draws[used];
        assert draws[..used + 1] == draws[..used] + [p];
        MinesAddedStep(g0, gameMatrix, draws[..used], p);
        if !gameMatrix[p.row][p.col].mined {
          gameMatrix := Put(gameMatrix, p.row, p.col, gameMatrix[p.row][p.col].SetMined(true));
          counter := counter + 1;
        }
        used := used + 1;
      }
      placed := counter;
      CountBounded(gameMatrix, gridLength, gridWidth, Mined);
    }

    /**
     * The two inner loops of count_mines_around for one cell: the mines of
     * the 3x3 block centred on (i, j), clipped at the edges.
     */
    method CountBlock(i: int, j: int) returns (count: int)
      requires WellFormed() && 0 <= i < gridLength && 0 <= j < gridWidth
      ensures count == BlockMines(gameMatrix, gridWidth, i, j)
    {
      var top, bottom, left, right := Max(0, i - 1), Min(gridLength, i + 2), Max(0, j - 1), Min(gridWidth, j + 2);
      count := 0;
      var row := top;
      while row < bottom
        invariant top <= row <= bottom
        invariant count == RectMines(gameMatrix, top, row, left, right)
      {
        var col := left;
        while col < right
          invariant left <= col <= right
          invariant count == RectMines(gameMatrix, top, row, left, right) + SpanMines(gameMatrix[row], left, col)
        {
          if gameMatrix[row][col].mined {
            count := count + 1;
          }
          col := col + 1;
        }
        row := row + 1;
      }
    }

    /**
     * count_mines_around: stores in every cell the mine count of its
     * block, the cell itself included, and changes nothing else.
     */
    method CountMinesAround()
      requires WellFormed()
      modifies this`gameMatrix
      ensures WellFormed() && SameMines(old(gameMatrix), gameMatrix)
      ensures forall i, j :: InGrid(old(gameMatrix), i, j) ==>
                gameMatrix[i][j] == old(gameMatrix)[i][j].SetMinesAround(BlockMines(old(gameMatrix), gridWidth, i, j))
      ensures HintsConsistent(gameMatrix, gridWidth)
    {
      ghost var g0 := gameMatrix;
      var i := 0;
      while i < gridLength
        invariant 0 <= i <= Max(0, gridLength)
        invariant WellFormed() && SameMines(g0, gameMatrix)
        invariant forall a, b :: InGrid(g0, a, b) ==>
                    gameMatrix[a][b] == if a < i then g0[a][b].SetMinesAround(BlockMines(g0, gridWidth, a, b)) else g0[a][b]
      {
        HintRow(g0, i);
        i := i + 1;
      }
      forall a, b | 0 <= a < |gameMatrix| && 0 <= b < gridWidth
        ensures gameMatrix[a][b].minesAround == BlockMines(gameMatrix, gridWidth, a, b)
      {
        assert InGrid(g0, a, b);
        RectSameMines(g0, gameMatrix, Max(0, a - 1), Min(gridLength, a + 2), Max(0, b - 1), Min(gridWidth, b + 2));
      }
    }

    /** The inner loop of count_mines_around: sets the hint of every cell of row `i` to its block's mine count on `g0`. */
    method HintRow(ghost g0: Matrix, i: int)
      requires WellFormed() && SameMines(g0, gameMatrix) && 0 <= i < gridLength
      modifies this`gameMatrix
      ensures WellFormed() && SameMines(g0, gameMatrix)
      ensures forall a, b :: InGrid(g0, a, b) ==>
                gameMatrix[a][b] == if a == i then old(gameMatrix)[a][b].SetMinesAround(BlockMines(g0, gridWidth, a, b)) else old(gameMatrix)[a][b]
    {
      ghost var g1: Matrix := gameMatrix;
      var j := 0;
      while j < gridWidth
        invariant 0 <= j <= Max(0, gridWidth)
        invariant WellFormed() && SameMines(g0, gameMatrix)
        invariant forall a, b :: InGrid(g0, a, b) ==>
                    gameMatrix[a][b] == if a == i && b < j then g1[a][b].SetMinesAround(BlockMines(g0, gridWidth, a, b)) else g1[a][b]
      {
        var count := CountBlock(i, j);
        RectSameMines(g0, gameMatrix, Max(0, i - 1), Min(gridLength, i + 2), Max(0, j - 1), Min(gridWidth, j + 2));
        gameMatrix := Put(gameMatrix, i, j, gameMatrix[i][j].SetMinesAround(count));
        j := j + 1;
      }
    }

    /**
     * getCellStatus: the four flags of a cell packed into one number,
     * 1 for uncovered, 2 for flagged, 4 for mined and 8 for exploded.
     */
    function GetCellStatus(row: int, col: int): (status: int)
      reads this
      requires InGrid(gameMatrix, row, col)
      ensures 0 <= status < 16
      ensures status % 2 == 1 <==> !gameMatrix[row][col].hidden
      ensures (status / 2) % 2 == 1 <==> gameMatrix[row][col].marked
      ensures (status / 4) % 2 == 1 <==> gameMatrix[row][col].mined
      ensures status / 8 == 1 <==> gameMatrix[row][col].exploded
    {
      var c := gameMatrix[row][col];
      Bit(!c.hidden) * 0x0001 + Bit(c.marked) * 0x0002 + Bit(c.mined) * 0x0004 + Bit(c.exploded) * 0x0008
    }

    /** getCellMinesNumber: the hint of a cell. */
    function GetCellMinesNumber(row: int, col: int): (n: int)
      reads this
      requires InGrid(gameMatrix, row, col)
      ensures HintsConsistent(gameMatrix, gridWidth) && WellFormed() ==> n == BlockMines(gameMatrix, gridWidth, row, col)
    {
      gameMatrix[row][col].minesAround
    }

    /** checkIfWon: the flagged mines number exactly minesNumber. */
    method CheckIfWon() returns (r: bool)
      requires WellFormed()
      ensures r == (Count(gameMatrix, MarkedMined) == minesNumber)
    {
      var markedRight := 0;
      var row := 0;
      while row < gridLength
        invariant 0 <= row <= Max(0, gridLength)
        invariant markedRight == CountRows(gameMatrix, MarkedMined, row)
      {
        var col := 0;
        while col < gridWidth
          invariant 0 <= col <= Max(0, gridWidth)
          invariant markedRight == CountRows(gameMatrix, MarkedMined, row) + CountCells(gameMatrix[row], MarkedMined, col)
        {
          if gameMatrix[row][col].marked && gameMatrix[row][col].mined {
            markedRight := markedRight + 1;
          }
          col := col + 1;
        }
        row := row + 1;
      }
      r := markedRight == minesNumber;
    }

    /**
     * openAllCells: uncovers every covered cell, row by row, logging each;
     * flags, mines and the counters are kept.
     */
    method OpenAllCells()
      requires WellFormed()
      modifies this`gameMatrix, this`changedCells
      ensures WellFormed()
      ensures gameMatrix == AllOpen(old(gameMatrix))
      ensures changedCells == old(changedCells) + HiddenPoints(old(gameMatrix))
    {
      ghost var g0, log0 := gameMatrix, changedCells;
      var row := 0;
      while row < gridLength
        invariant 0 <= row <= Max(0, gridLength)
        invariant WellFormed() && SameShape(g0, gameMatrix)
        invariant forall i, j :: InGrid(g0, i, j) ==>
                    gameMatrix[i][j] == if i < row then g0[i][j].SetHidden(false) else g0[i][j]
        invariant changedCells == log0 + HiddenPoints(g0[..row])
      {
        assert gameMatrix[row] == g0[row] by {
          forall j | 0 <= j < |g0[row]| ensures gameMatrix[row][j] == g0[row][j] {
            assert InGrid(g0, row, j);
          }
        }
        OpenRowCells(row);
        assert g0[..row + 1][..row] == g0[..row];
        row := row + 1;
      }
      assert g0[..row] == g0;
      AllOpenUnique(g0, gameMatrix);
    }

    /** The inner loop of openAllCells: uncovers and logs the covered cells of one row, left to right. */
    method OpenRowCells(row: int)
      requires WellFormed() && 0 <= row < gridLength
      modifies this`gameMatrix, this`changedCells
      ensures WellFormed() && SameShape(old(gameMatrix), gameMatrix)
      ensures forall i, j :: InGrid(old(gameMatrix), i, j) ==>
                gameMatrix[i][j] == if i == row then old(gameMatrix)[i][j].SetHidden(false) else old(gameMatrix)[i][j]
      ensures changedCells == old(changedCells) + HiddenInRow(old(gameMatrix)[row], row)
    {
      ghost var g0, log0 := gameMatrix, changedCells;
      var col := 0;
      while col < gridWidth
        invariant 0 <= col <= Max(0, gridWidth)
        invariant WellFormed() && SameShape(g0, gameMatrix)
        invariant forall i, j :: InGrid(g0, i, j) ==>
                    gameMatrix[i][j] == if i == row && j < col then g0[i][j].SetHidden(false) else g0[i][j]
        invariant changedCells == log0 + HiddenInRow(g0[row][..col], row)
      {
        assert g0[row][..col + 1][..col] == g0[row][..col];
        if gameMatrix[row][col].hidden {
          gameMatrix := Put(gameMatrix, row, col, gameMatrix[row][col].SetHidden(false));
          changedCells := changedCells + [Point(row, col)];
        }
        col := col + 1;
      }
      assert g0[row][..col] == g0[row];
    }

    /** The state open_cell reads and writes, as one value. */
    ghost function Now(): Snap
      reads this`gameMatrix, this`changedCells, this`openedCells, this`won, this`inGame, gameStatistics`statsMap
    {
      Snap(gameMatrix, changedCells, openedCells, gameStatistics.statsMap, won, inGame)
    }

    /** The configuration, the key its games are filed under, and the clock reading. */
    function Cfg(): Config
      reads this`gridLength, this`gridWidth, this`minesNumber, this`elapsedSeconds
    {
      Config(gridLength, gridWidth, minesNumber, GenerateKey(gridLength, gridWidth, minesNumber), elapsedSeconds)
    }

    /**
     * open_cell, as written: nothing on an uncovered or flagged cell;
     * otherwise the cell is uncovered, counted and logged, a mine there is
     * set off and loses the game, a blank cell opens its block, and the
     * coverage check closes the call. The ghost `ends` counts the calls of
     * gameEnd. What this promises is proved about Open in module Opening;
     * a call that sets off no mine keeps the counters describing the board.
     */
    method OpenCell(row: int, col: int) returns (ghost ends: nat)
      requires WellFormed() && InGrid(gameMatrix, row, col)
      modifies this`gameMatrix, this`openedCells, this`changedCells, this`won, this`inGame, gameStatistics
      ensures WellFormed()
      ensures Step(Now(), ends) == Open(old(Now()), row, col, Cfg(), false)
      ensures old(Consistent()) && !Detonated(old(gameMatrix), gameMatrix) ==> Consistent()
    {
      ghost var s0 := Now();
      ends := OpenCellFrame(row, col);
      if old(Consistent()) && !Detonated(s0.g, gameMatrix) {
        OpenKeepsCounters(s0, Step(Now(), ends), row, col, Cfg(), false);
      }
    }

    /** One frame of the recursive open_cell, as Opening.Open states it; the sweep calls it on each cell of the block. */
    method OpenCellFrame(row: int, col: int) returns (ghost ends: nat)
      requires WellFormed() && InGrid(gameMatrix, row, col)
      modifies this`gameMatrix, this`openedCells, this`changedCells, this`won, this`inGame, gameStatistics
      decreases Count(gameMatrix, Hidden), 4
      ensures WellFormed()
      ensures Step(Now(), ends) == Open(old(Now()), row, col, Cfg(), false)
    {
      if !gameMatrix[row][col].hidden || gameMatrix[row][col].marked {
        return 0;
      }
      ends := OpenCoveredCell(row, col);
    }

    /** open_cell past its first test, as Opening.OpenCovered states it. */
    method OpenCoveredCell(row: int, col: int) returns (ghost ends: nat)
      requires WellFormed() && InGrid(gameMatrix, row, col) && Opens(gameMatrix[row][col])
      modifies this`gameMatrix, this`openedCells, this`changedCells, this`won, this`inGame, gameStatistics
      decreases Count(gameMatrix, Hidden), 3
      ensures WellFormed()
      ensures Step(Now(), ends) == OpenCovered(old(Now()), row, col, Cfg(), false)
    {
      var e := UncoverCell(row, col);
      ends := CheckFull(e, false);
    }

    /** The first steps of open_cell past its test: the cell is uncovered, counted and logged. */
    method RevealCell(row: int, col: int)
      requires WellFormed() && InGrid(gameMatrix, row, col) && Opens(gameMatrix[row][col])
      modifies this`gameMatrix, this`openedCells, this`changedCells
      ensures WellFormed() && Now() == Revealed(old(Now()), row, col)
      ensures Count(gameMatrix, Hidden) == Count(old(gameMatrix), Hidden) - 1
    {
      ghost var s0 := Now();
      RevealCounts(gameMatrix, row, col);
      gameMatrix := Reveal(gameMatrix, row, col);
      openedCells := openedCells + 1;
      changedCells := changedCells + [Point(row, col)];
      ShapedKept(s0.g, gameMatrix, gridLength, gridWidth);
    }

    /** open_cell up to its coverage check, as Opening.Uncovered states it. */
    method UncoverCell(row: int, col: int) returns (ghost e: nat)
      requires WellFormed() && InGrid(gameMatrix, row, col) && Opens(gameMatrix[row][col])
      modifies this`gameMatrix, this`openedCells, this`changedCells, this`won, this`inGame, gameStatistics
      decreases Count(gameMatrix, Hidden), 2
      ensures Step(Now(), e) == Uncovered(old(Now()), row, col, Cfg(), false)
    {
      ghost var s0, c := Now(), Cfg();
      RevealCell(row, col);
      ghost var s1 := Now();
      e := 0;
      if gameMatrix[row][col].mined {
        gameMatrix := Put(gameMatrix, row, col, gameMatrix[row][col].SetExploded(true));
        assert Now() == Exploded(s1, row, col);
        GameLost();
        e := 1;
      } else if gameMatrix[row][col].minesAround == 0 {
        ghost var whole := Sweep(s1, row, col, Max(0, row - 1), Max(0, col - 1), Count(s0.g, Hidden), c, false);
        RemainsStart(s1, row, col, Count(s0.g, Hidden), c, false);
        e := OpenNeighbours(row, col, whole, Count(s0.g, Hidden), c);
      }
    }

    /**
     * The coverage check that closes open_cell and mark_cell: when
     * openedCells reaches the number of cells, won becomes the
     * flagged-mines verdict and gameEnd reports it. `e` and `ends` count
     * the calls of gameEnd before and after. With `once` (the corrected
     * check) it also requires the game to be in play.
     */
    method CheckFull(ghost e: nat, once: bool) returns (ghost ends: nat)
      requires WellFormed()
      modifies this`won, this`inGame, gameStatistics
      ensures Step(Now(), ends) == Finish(old(Now()), e, Cfg(), once)
    {
      ghost var m, c := Now(), Cfg();
      if openedCells == gridLength * gridWidth && (!once || inGame) {
        won := CheckIfWon();
        ghost var m1 := Now();
        assert m1 == m.(won := Count(m.g, MarkedMined) == c.mines);
        GameEnd();
        assert Now() == m1.(inGame := false, stats := RecordUnder(m1.stats, c.key, c.length, c.width, c.mines, m1.won, c.time));
        ends := e + 1;
      } else {
        ends := e;
      }
    }

    /**
     * The two loops of open_cell over the block of (row, col), clipped to
     * the board, calling open_cell on each cell of it, the centre
     * included. `bound` exceeds the number of covered cells and makes the
     * recursion's termination explicit.
     */
    method OpenNeighbours(row: int, col: int, ghost whole: Step, ghost bound: nat, ghost c: Config) returns (ghost ends: nat)
      requires c == Cfg() && Remains(whole, Now(), 0, row, col, Max(0, row - 1), Max(0, col - 1), bound, c, false) == true
      modifies this`gameMatrix, this`openedCells, this`changedCells, this`won, this`inGame, gameStatistics
      decreases bound, 1
      ensures Step(Now(), ends) == whole
    {
      ends := 0;
      var i := Max(0, row - 1);
      while i < Min(gridLength, row + 2)
        invariant Max(0, row - 1) <= i <= Min(gridLength, row + 2)
        invariant Remains(whole, Now(), ends, row, col, i, Max(0, col - 1), bound, c, false) == true
      {
        ends := OpenBlockRow(whole, ends, row, col, i, bound, c);
        i := i + 1;
      }
      RemainsDone(whole, Now(), ends, row, col, Max(0, col - 1), bound, c, false);
    }

    /** The inner loop of open_cell's sweep: open_cell on the cells of row i of the block, left to right. */
    method OpenBlockRow(ghost whole: Step, ghost ends: nat, row: int, col: int, i: int, ghost bound: nat, ghost c: Config) returns (ghost total: nat)
      requires Max(0, row - 1) <= i < Min(gridLength, row + 2)
      requires c == Cfg() && Remains(whole, Now(), ends, row, col, i, Max(0, col - 1), bound, c, false) == true
      modifies this`gameMatrix, this`openedCells, this`changedCells, this`won, this`inGame, gameStatistics
      decreases bound, 0
      ensures Remains(whole, Now(), total, row, col, i + 1, Max(0, col - 1), bound, c, false) == true
    {
      total := ends;
      var j := Max(0, col - 1);
      while j < Min(gridWidth, col + 2)
        invariant Max(0, col - 1) <= j <= Min(gridWidth, col + 2)
        invariant Remains(whole, Now(), total, row, col, i, j, bound, c, false) == true
      {
        ghost var s1 := Now();
        var e := OpenCellFrame(i, j);
        RemainsCell(whole, s1, Now(), e, total, row, col, i, j, bound, c, false);
        total := total + e;
        j := j + 1;
      }
      RemainsRow(whole, Now(), total, row, col, i, bound, c, false);
    }

    /**
     * mark_cell, as written: a covered cell has its flag toggled and
     * logged, and both counters follow the flag; then the coverage check
     * runs whatever the state of the game. With counters that describe
     * the board they still do afterwards; the uncovered cells stay as
     * they were.
     */
    method MarkCell(row: int, col: int) returns (ghost ends: nat)
      requires WellFormed() && InGrid(gameMatrix, row, col)
      modifies this`gameMatrix, this`changedCells, this`markedCells, this`openedCells, this`won, this`inGame, gameStatistics
      ensures WellFormed()
      ensures Step(Now(), ends) == Mark(old(Now()), row, col, Cfg(), false)
      ensures markedCells == old(markedCells) + (if old(gameMatrix)[row][col].hidden then FlagDelta(old(gameMatrix)[row][col]) else 0)
      ensures openedCells - markedCells == old(openedCells - markedCells)
      ensures old(Consistent()) ==> Consistent()
    {
      ToggleFlag(row, col);
      ends := CheckFull(0, false);
    }

    /** mark_cell with the corrected coverage check, which reports only while the game is in play. */
    method MarkCellOnce(row: int, col: int) returns (ghost ends: nat)
      requires WellFormed() && InGrid(gameMatrix, row, col)
      modifies this`gameMatrix, this`changedCells, this`markedCells, this`openedCells, this`won, this`inGame, gameStatistics
      ensures WellFormed()
      ensures Step(Now(), ends) == Mark(old(Now()), row, col, Cfg(), true)
      ensures markedCells == old(markedCells) + (if old(gameMatrix)[row][col].hidden then FlagDelta(old(gameMatrix)[row][col]) else 0)
      ensures old(Consistent()) ==> Consistent()
    {
      ToggleFlag(row, col);
      ends := CheckFull(0, true);
    }

    /** The first part of mark_cell: the toggle of a covered cell's flag, logged and counted. */
    method ToggleFlag(row: int, col: int)
      requires WellFormed() && InGrid(gameMatrix, row, col)
      modifies this`gameMatrix, this`changedCells, this`markedCells, this`openedCells
      ensures WellFormed() && Now() == Flagged(old(Now()), row, col)
      ensures markedCells == old(markedCells) + (if old(gameMatrix)[row][col].hidden then FlagDelta(old(gameMatrix)[row][col]) else 0)
      ensures old(Consistent()) ==> Consistent()
    {
      if gameMatrix[row][col].hidden {
        FlagCounts(gameMatrix, row, col);
        ghost var g0 := gameMatrix;
        gameMatrix := Put(gameMatrix, row, col, gameMatrix[row][col].SetMarked(!gameMatrix[row][col].marked));
        changedCells := changedCells + [Point(row, col)];
        markedCells := markedCells + (if gameMatrix[row][col].marked then 1 else -1);
        openedCells := openedCells + (if gameMatrix[row][col].marked then 1 else -1);
        ShapedKept(g0, gameMatrix, gridLength, gridWidth);
      }
    }

    /**
     * unmark_cell: a flagged cell loses its flag, is logged, and both
     * counters drop by one; no coverage check follows. With counters that
     * describe the board they still do afterwards.
     */
    method UnmarkCell(row: int, col: int)
      requires WellFormed() && InGrid(gameMatrix, row, col)
      modifies this`gameMatrix, this`changedCells, this`markedCells, this`openedCells
      ensures WellFormed()
      ensures var cell := old(gameMatrix)[row][col];
              if cell.marked then
                && gameMatrix == Put(old(gameMatrix), row, col, cell.SetMarked(false))
                && changedCells == old(changedCells) + [Point(row, col)]
                && markedCells == old(markedCells) - 1 && openedCells == old(openedCells) - 1
              else
                gameMatrix == old(gameMatrix) && changedCells == old(changedCells)
                && markedCells == old(markedCells) && openedCells == old(openedCells)
      ensures old(Consistent()) ==> Consistent()
    {
      if gameMatrix[row][col].marked {
        ghost var g0 := gameMatrix;
        if Consistent() {
          UnflagCounts(gameMatrix, row, col);
        }
        gameMatrix := Put(gameMatrix, row, col, gameMatrix[row][col].SetMarked(false));
        changedCells := changedCells + [Point(row, col)];
        markedCells := markedCells - 1;
        openedCells := openedCells - 1;
        ShapedKept(g0, gameMatrix, gridLength, gridWidth);
      }
    }

    /**
     * gameEnd: reports the configuration, the outcome in `won` and the
     * elapsed time to the store, and leaves the game. Writing the store to
     * its file is not part of this model.
     */
    method GameEnd()
      modifies this`inGame, gameStatistics
      ensures Now() == old(Now()).(inGame := false, stats := RecordUnder(old(Now()).stats, Cfg().key, gridLength, gridWidth, minesNumber, won, elapsedSeconds))
    {
      gameStatistics.UpdateStats(gridLength, gridWidth, minesNumber, won, elapsedSeconds);
      inGame := false;
    }

    /** gameLost: a lost game, the whole board shown, then reported. */
    method GameLost()
      requires WellFormed()
      modifies this`won, this`gameMatrix, this`changedCells, this`inGame, gameStatistics
      ensures WellFormed()
      ensures Now() == Lost(old(Now()), Cfg())
    {
      won := false;
      OpenAllCells();
      GameEnd();
    }
  }
}
