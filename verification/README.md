# Minesweeper engine and statistics store, in Dafny

This project models the engine of a Qt Minesweeper game and the store that keeps its per-configuration statistics:

- **Cell** (`cell.h`, `cell.cpp`) is a passive five-field record. Here it is the datatype `Cells.Cell`, whose setters return an updated copy.
- **Game** (`game.h`, `game.cpp`) is the class `Minesweeper.Game`. Its fields are the configuration, `won`, `inGame`, `elapsedSeconds`, the two counters `markedCells` and `openedCells`, and the log of changed cells. The board is a `seq<seq<Cell>>` field that the methods reassign cell by cell. Each loop of the source is a `while` loop with its invariants. The recursive `open_cell` is a recursive method.
- **GameStatistics** (`gamestatistics.h`, `gamestatistics.cpp`) is the class `Statistics.GameStatistics`, which holds a `map<string, GameStats>`. `GameStats` and its persisted form, `JsonRecord`, are datatypes.

What `open_cell` and `mark_cell` do to the game is also stated as pure functions over a snapshot of the state: `Opening.Open`, `Opening.Sweep` and `Marking.Mark`. The snapshot holds the board, the log, `openedCells`, the store, `won` and `inGame`. The class methods are proved to compute exactly these functions. The properties of the recursion are then proved about the functions by induction:
- flood-fill soundness and closure;
- a log with one entry per uncovered cell;
- counters in lockstep;
- no detonation from a safe cell when the hints are consistent;
- how many times the game is reported.

Two details are kept exactly as the code has them:
- The mine count of a cell includes the cell itself (game.cpp:118-119), although the comment on `count_mines_around` (game.cpp:109) speaks of the mines around each cell. A mined cell therefore has a hint of 1 to 9.
- The coverage check runs after every call of `mark_cell`, including one that changes nothing (game.cpp:220-224). It is not limited to calls that toggled a flag.

Randomness is a parameter. `place_mines` takes the sequence of random draws it would have made. The statistics file is a parameter too: loading takes the list of records read, or `None` when the file cannot be opened.

## Model

| member | source | states |
|---|---|---|
| Cells.Cell.SetMinesAround | cell.cpp:51 | the setter stores its argument in `minesAround` and keeps the other four fields |
| Cells.Cell.SetHidden | cell.cpp:57 | the setter stores its argument in `hidden` and keeps the other four fields |
| Cells.Cell.SetMarked | cell.cpp:63 | the setter stores its argument in `marked` and keeps the other four fields |
| Cells.Cell.SetMined | cell.cpp:69 | the setter stores its argument in `mined` and keeps the other four fields |
| Cells.Cell.SetExploded | cell.cpp:75 | the setter stores its argument in `exploded` and keeps the other four fields |
| Cells.DefaultCell | cell.h:36 | the default cell has count 0 and is covered, unflagged, unmined and unexploded |
| Cells.FullConstructorStoresArguments | cell.cpp:14-15 | the full constructor stores exactly its five arguments; any combination is representable, and cells agreeing on all five getters are equal |
| Cells.SettersCommute | cell.cpp:51-75 | setters of different fields commute, and a second write to a field overrides the first |
| Grid.BlockMinesRange | game.cpp:118-125 | the stored count is at most 9; it is at least 1 on a mined cell (which counts itself) and at most 8 on an unmined cell |
| Grid.BlockZeroIsClear | game.cpp:155-158 | a zero count means no mine in the clipped block, so the cells the cascade recurses into are safe |
| Statistics.NewStats | gamestatistics.h:24-38 | a new entry has the given configuration, zero games played, won and lost, and `INT_MAX` as best time; it is balanced |
| Statistics.JsonRoundTrip | gamestatistics.h:46-75 | for `ToJson` and `FromJson`, which model toJson and fromJson: `fromJson(toJson(s)) == s` unless the best time is -1; `toJson(fromJson(r)) == r` unless the record stores `INT_MAX`; the sentinel is written as -1 and read back as `INT_MAX` |
| Statistics.JsonMinusOneCollapses | gamestatistics.h:54-74 | an entry whose best time is literally -1 reads back as "no win" and so differs from what was saved |
| Statistics.DecimalInjective | gamestatistics.h:169 | the decimal rendering of an int (sign included) determines the int |
| Statistics.GenerateKeyInjective | gamestatistics.h:168-170 | for `GenerateKey`, which models generateKey: distinct (length, width, mines) triples never share a key |
| Statistics.LookupConfiguration | gamestatistics.cpp:125-128 | while entries sit under their own keys, a lookup answers with the configuration asked for |
| Statistics.AddOutcome | gamestatistics.cpp:44-53 | one more game; exactly one of won/lost grows by 1; on a win the best time is the smaller of old and `time`; on a loss it is kept; balance is kept |
| Statistics.Record | gamestatistics.cpp:33-54 | updateStats adds the configuration's key if absent and leaves every other entry untouched |
| Statistics.RecordEffect | gamestatistics.cpp:33-54 | the entry grows by exactly one outcome; an absent entry starts from zero counters and `INT_MAX`; balance and key matching are kept for all entries |
| Statistics.RecordAllTotals | gamestatistics.cpp:44-53 | k reports with w wins add k games, w wins, k - w losses; the best time becomes the minimum of the old one and every winning time |
| Statistics.RecordAllFromEmpty | gamestatistics.cpp:37-53 | from an empty store, k reports with w wins give played k, won w, lost k - w, a balanced entry, and `INT_MAX` when w = 0 |
| Statistics.RecordWinThenLoss | gamestatistics.cpp:46-53 | a win in 87 s then a loss in 40 s give played 2, won 1, lost 1, best 87 |
| Statistics.ReportedOnce | gamestatistics.cpp:33-54 | one updateStats is one report under its key: that key gains one game, every other entry is kept, balance is kept |
| Statistics.InsertFacts | gamestatistics.cpp:101-109 | storing the loaded entries adds exactly their keys, keeps the entries under other keys, and keeps every entry under its own key |
| Statistics.InsertLastWins | gamestatistics.cpp:101-109 | when a key repeats, the last entry with that key is the one stored |
| Statistics.LoadRecords | gamestatistics.cpp:96-109 | loading merges by key: the keys become old keys plus file keys; keys not in the file keep their entries |
| Statistics.LoadLastWins | gamestatistics.cpp:101-109 | the entry stored under a key is the one read from the last record with that key |
| Statistics.ParseSaved | gamestatistics.cpp:102-107 | a saved entry reads back as itself, under its own key |
| Statistics.SaveLoadRoundTrip | gamestatistics.cpp:63-109 | saving a store and loading the records into an empty store rebuilds the store exactly, sentinel included (no best time of -1; entries under their own keys) |
| Statistics.GameStatistics.constructor | gamestatistics.cpp:8-10 | a new store is empty |
| Statistics.GameStatistics.UpdateStats | gamestatistics.cpp:33-54 | the in-place update leaves the map equal to `Record` of the old map |
| Statistics.GameStatistics.SaveToFile | gamestatistics.cpp:63-69 | one record per entry, the `toJson` of that entry, listed under distinct keys that cover the map; the records are pairwise distinct while entries sit under their own keys |
| Statistics.GameStatistics.LoadFromFile | gamestatistics.cpp:92-112 | an unreadable file leaves the map unchanged; otherwise the map becomes `LoadRecords` of the old map and the file's records |
| Statistics.GameStatistics.GetStats | gamestatistics.cpp:125-128 | reads without changing the store; answers with the configuration asked for; a present key gives the stored entry, an absent key the fresh default `NewStats` of the triple |
| Uncover.RevealCounts | game.cpp:145-147 | uncovering a covered, unflagged cell uncovers only it, adds one uncovered-or-flagged cell, removes one covered cell, and detonates exactly when the cell is mined |
| Uncover.UncoveringTrans | game.cpp:155-160 | two uncovering steps in a row form one: the logs concatenate, the flood stays closed, and detonation and flag rules compose |
| Uncover.RevealStep | game.cpp:145-160 | uncovering an unmined cell and then sweeping (if it is blank) is an uncovering step |
| Uncover.CascadeSound | game.cpp:155-160 | a blank start cell followed by its cascade uncovers only the start cell and neighbours of blank cells it uncovered |
| Uncover.DetonationStep | game.cpp:150-152 | uncovering and setting off a mine, then uncovering and logging the rest of the board, is an uncovering step that detonated |
| Uncover.AllOpen | game.cpp:271-281 | every cell is its old self uncovered; flags and mines stay, so a flag stays on a revealed cell |
| Uncover.HiddenPointsSpec | game.cpp:273-280 | the row-major list of covered cells holds exactly the covered cells, each once |
| Uncover.FlagsKept | game.cpp:140 | a step that uncovers no flagged cell keeps every flag on a covered cell and keeps the number of flags |
| Uncover.HintsKept | game.cpp:145 | uncovering cells keeps every hint consistent with the mines |
| Opening.Open | game.cpp:138-167 | open_cell keeps the board's shape and never adds a covered cell |
| Opening.OpenNoop | game.cpp:140-142 | open_cell on an uncovered or flagged cell changes nothing and reports nothing |
| Opening.OpenMine | game.cpp:150-153 | through `Lost`, which models gameLost with its openAllCells and gameEnd: open_cell on a mined cell sets it off, uncovers and logs the rest of the board, reports a loss and leaves the game |
| Opening.FullCheck | game.cpp:162-166 | for `Finish`, the coverage check, and `Ended`, which models gameEnd: the coverage check reports exactly when `openedCells` equals the number of cells (and, in the corrected form, the game is in play); it sets `won` to the flagged-mines verdict and changes nothing else |
| Opening.OpenSound | game.cpp:138-167 | every call satisfies `OpenOk` (see the list below the table) |
| Opening.SweepSound | game.cpp:155-160 | for `Sweep`, which models the two block loops: the sweep of a blank cell's block is an uncovering run that settles the rest of the block and uncovers only cells next to the block or to a blank cell; with consistent hints it sets off no mine |
| Opening.OpenKeepsCounters | game.cpp:145-160 | a call that sets off no mine keeps flags on covered cells and their number, and `openedCells` still counts the uncovered-or-flagged cells |
| Opening.OpenReportsPerFrame | game.cpp:162-166 | as written, a call that completes the board reports it at least twice when it detonated or uncovered two or more cells; `won` is the flagged-mines verdict |
| Opening.CascadeReportsTwice | game.cpp:155-166 | on a 1x2 board with no mine, open_cell(0, 0) as written calls gameEnd at least twice |
| Opening.OpenReportsOnce | game.cpp:162-166 | with the corrected check and consistent hints, one call reports at most once, and from an unmined cell only if the game was in play |
| Marking.FlagCounts | game.cpp:213-218 | for `Flagged`, which models the flag toggle: toggling a covered cell's flag moves the flag count and the uncovered-or-flagged count by the same ±1, keeps the covered count, and keeps flags on covered cells |
| Marking.UnflagCounts | game.cpp:234-239 | clearing a flag lowers both counts by 1 and keeps flags on covered cells |
| Marking.FlaggedTwice | game.cpp:213-219 | toggling the same cell twice restores the board and `openedCells`; the log gains the cell twice if it is covered, else nothing |
| Marking.RightClickReportsAgain | game.cpp:220-224 | for `Mark`, which models mark_cell: as written, after the game is over, a right click on an uncovered cell changes no cell and no log entry, but reports the game again |
| Marking.MarkReportsInPlay | game.cpp:220-224 | with the corrected check, mark_cell reports exactly when the toggle completes the board during play, and changes nothing beyond the toggle once the game is over |
| Minesweeper.MinesAddedStep | game.cpp:102-105 | a draw on an unmined cell adds a mine there and one to the mine count; a draw on a mined cell changes nothing |
| Minesweeper.FlaggedMinesCount | game.cpp:256-266 | flagged mines never outnumber mines, and they are equal exactly when every mine is flagged |
| Minesweeper.Game.constructor | game.cpp:25-29 | sets the configuration (10x10, 10 mines by default); not in play, 0 s elapsed, empty log; a fresh store loaded from the file's records |
| Minesweeper.Game.CreateMatrix | game.cpp:45-54 | discards the board and builds exactly `length` rows of `width` default cells |
| Minesweeper.Game.ChangeLength | game.cpp:60-62 | assigns only `gridLength` |
| Minesweeper.Game.ChangeWidth | game.cpp:68-70 | assigns only `gridWidth` |
| Minesweeper.Game.ChangeMinesNumber | game.cpp:76-78 | assigns only `minesNumber` |
| Minesweeper.Game.SetElapsedSeconds | game.h:171 | assigns only `elapsedSeconds` |
| Minesweeper.Game.SetWon | game.h:179 | assigns only `won` |
| Minesweeper.Game.ResetMarkedCells | game.cpp:83-87 | zeroes both counters and starts play; on an untouched board the counters then describe the board |
| Minesweeper.Game.TakeChangedCells | game.h:152 | the caller receives the log, and the game's log is empty afterwards |
| Minesweeper.Game.PlaceMines | game.cpp:94-107 | only `mined` flags change, each on a previously unmined drawn cell; the mine count grows by `placed`; it stops short of `minesNumber` only when the draws run out, which always happens when there are too few unmined cells |
| Minesweeper.Game.CountBlock | game.cpp:116-124 | the two inner loops compute the mine count of the clipped 3x3 block, centre included |
| Minesweeper.Game.HintRow | game.cpp:115-126 | the loop over a row stores each cell's block count and changes nothing else |
| Minesweeper.Game.CountMinesAround | game.cpp:112-128 | every cell's hint becomes its block's mine count; no other field changes; the hints are consistent afterwards |
| Minesweeper.Game.GetCellStatus | game.cpp:189-194 | the status is in 0..15, and bits 1, 2, 4 and 8 hold exactly uncovered, flagged, mined and exploded |
| Minesweeper.Game.GetCellMinesNumber | game.cpp:202-204 | on a board with consistent hints, the hint equals the block's mine count |
| Minesweeper.Game.CheckIfWon | game.cpp:256-266 | true exactly when the number of flagged mined cells equals `minesNumber` |
| Minesweeper.Game.OpenAllCells | game.cpp:271-281 | the board becomes `AllOpen` of the old board; the log gains the covered cells in row-major order; counters untouched |
| Minesweeper.Game.OpenRowCells | game.cpp:274-280 | one row's covered cells are uncovered and logged left to right; other rows unchanged |
| Minesweeper.Game.OpenCell | game.cpp:138-167 | the new state and the number of gameEnd calls are exactly `Open` of the old state (check as written); a call that sets off no mine keeps consistent counters consistent |
| Minesweeper.Game.OpenCellFrame | game.cpp:138-167 | one frame of the recursion: the new state and the number of gameEnd calls are exactly `Open` of the old state (check as written) |
| Minesweeper.Game.OpenCoveredCell | game.cpp:145-166 | past the first test, the new state is `OpenCovered` of the old state |
| Minesweeper.Game.RevealCell | game.cpp:145-147 | uncovers, counts and logs the cell; one covered cell fewer |
| Minesweeper.Game.UncoverCell | game.cpp:145-161 | the frame up to the coverage check is `Uncovered` of the old state |
| Minesweeper.Game.CheckFull | game.cpp:162-166 | the coverage check is `Finish` of the old state |
| Minesweeper.Game.OpenNeighbours | game.cpp:156-160 | the two loops over the block run exactly the `Sweep` of the block |
| Minesweeper.Game.OpenBlockRow | game.cpp:157-159 | one row of the block, cell by cell, advances the `Sweep` by that row |
| Minesweeper.Game.ToggleFlag | game.cpp:213-219 | the state becomes `Flagged` of the old state; `markedCells` moves by the same ±1; consistent counters stay consistent |
| Minesweeper.Game.MarkCell | game.cpp:211-225 | the state is `Mark` of the old state (check as written); `openedCells - markedCells` is kept; consistent counters stay consistent |
| Minesweeper.Game.MarkCellOnce | game.cpp:211-225 | mark_cell with the corrected check; the state is `Mark(..., once)` of the old state; consistent counters stay consistent |
| Minesweeper.Game.UnmarkCell | game.cpp:232-241 | a flagged cell loses its flag, is logged, and both counters drop by 1; an unflagged cell changes nothing; consistent counters stay consistent |
| Minesweeper.Game.GameEnd | game.cpp:246-250 | reports configuration, `won` and elapsed time to the store and leaves the game; nothing else changes |
| Minesweeper.Game.GameLost | game.cpp:286-290 | the state becomes `Lost`: `won` cleared, every covered cell uncovered and logged, a loss reported, the game left |

`OpenOk` (the property `OpenSound` proves for every call) states that each call:
- is an uncovering run: it keeps hints, flags and mines, and covers nothing again;
- logs every cell it uncovers exactly once;
- keeps `openedCells` and the uncovered-or-flagged count in step with the log, unless it set off a mine;
- reports a detonation and leaves the game;
- calls gameEnd exactly as many times as the store receives reports;
- does nothing on an uncovered or flagged cell, and otherwise uncovers the cell;
- leaves every blank cell it uncovered with no covered, unflagged neighbour (flood closure);
- uncovers, unless it detonated, only the start cell and neighbours of blank cells it uncovered;
- sets off no mine from a safe cell when the hints are consistent.

## Findings

| source | as written | input that shows it | evidently intended | confidence | as-written member | corrected member |
|---|---|---|---|---|---|---|
| game.cpp:162-166 | every frame of the recursive open_cell that passed its first test runs the coverage check, so a cascade that completes the board calls gameEnd once per frame still on the stack; the store counts one game several times | 1x2 board with no mine, a fresh game, open_cell(0, 0): the inner call on (0, 1) completes the board and reports; the outer frame then reports again | a game is reported once: end only while the game is in play | not executed | Opening.CascadeReportsTwice | Opening.OpenReportsOnce |
| game.cpp:220-224 | mark_cell runs the coverage check whether or not the game is still in play, so a right click on any uncovered cell of a finished, complete board reports the game again | a board whose last cell was just uncovered (game ended and reported), then mark_cell on any uncovered cell | report only a game in play | not executed | Marking.RightClickReportsAgain | Marking.MarkReportsInPlay |

`Opening.OpenReportsPerFrame` states the first row in general: any completing call that uncovers two or more cells, or sets off a mine, reports at least twice. The corrected check is `Finish` with `once` set. `Open`, `Mark`, `OpenSound` and `Minesweeper.Game.MarkCellOnce` are all stated for both forms. The class's `OpenCell` keeps the check as written.

## Left out

- Minesweeper.Game.OpenCell: the class method runs the coverage check as written only; the corrected check is stated and proved on the snapshot functions (`Opening.Open` with `once`).
- Minesweeper.Game.PlaceMines: the random draws are a parameter. The loop stops when the draws run out, so the source's possible non-termination (more mines than free cells) becomes "all draws used".
- Minesweeper.Game.GameEnd: writing the store to `statistics.json` after each report is not modelled.
- Statistics.GameStatistics.SaveToFile and Statistics.GameStatistics.LoadFromFile: file access and JSON text are not modelled; they work on record lists, and an unreadable file is `None`. The order of the saved records is left open.
- Statistics.Reported: says that existing entries under other keys are kept; it does not say that no new key appears.
- `getLength`, `getWidth`, `getMinesNumber`, `getElapsedSeconds`, `getMarkedCells`, `is_inGame` and `getAllStats` are reads of a field (`getAllStats` reads the live map) and have no members of their own.
- The no-argument `Game()` constructor is left out: it is ambiguous with the all-defaults constructor.
- `resetMatrix` and `updateStatistics` are declared but never defined.
- Debug printing (`debug_checkGridGeneretion`, `debug_statuses`) and all widget code are not part of this model.
- Integers are unbounded: 32-bit overflow of the counters or of `length * width` is not modelled. `INT_MAX` is the constant 2147483647.
- Modelling structure only: the extracted methods HintRow, CountBlock, OpenRowCells, OpenBlockRow, OpenNeighbours, OpenCellFrame, RevealCell, UncoverCell, OpenCoveredCell, ToggleFlag and CheckFull are pieces of single C++ functions. The ghost `ends` results count gameEnd calls and are not in the source.
- Minesweeper.Game.OpenCell: `Consistent` is claimed afterwards only for a call that sets off no mine. After a loss, `openAllCells` uncovers cells without updating `openedCells`, so the counters no longer describe the board.
