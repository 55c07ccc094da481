# Tic-tac-toe engine: board rendering and game orchestration

A Dafny model of two pieces of a terminal N x N tic-tac-toe game:

- **The board** (`game/board.py`, module `Boards` in `board.dfy`). `Board(dim)` builds a
  `dim x dim` grid where every position is free. `str(board)` prints the grid one line per
  row. A free position shows its row-major flat index `row * dim + col`. An occupied
  position shows its player string. Every entry is centred in a field whose width depends
  on the number of positions: no field below 10 positions, width 2 up to 100, width 3
  beyond that. Each line is `"| " + entries joined by " | " + " |\n"`.
- **The game** (`game/tictactoe.py`, module `Game` in `tictactoe.dfy`). The constructor
  turns each player choice into a player: seat 0 plays X, every other seat plays O, and
  type 1 is a human, type 2 a random player and anything else a computer. `play` lets the
  first player move first. After each move it checks the winner for the mover's mark and
  ends with that mark's win if the check holds. Otherwise the turn passes with
  `change_turn`. A full board ends the game in a tie. Outcome values are X_WINS = 1,
  O_WINS = -1 and TIE = 0.
- **The Python string built-ins** the rendering uses (module `Strings` in `strings.dfy`):
  - `str()` of a non-negative integer;
  - `format(s, '^w')`, which centres s and never truncates it;
  - `sep.join(xs)`;
  - the `+=` accumulation of the lines.

How things are represented:

- A board is a value `Board(dim, positions)` with `positions: seq<seq<Cell>>` and
  `Cell = Empty | Occupied(player)`.
- `TicTacToe` is a class. Its `board` field is replaced by each move. Its `players` field is
  filled by the constructor's loop.
- `Board.__str__` is imperative:
  - `CollectLabels` is its nested loop, which builds `positions_repr`;
  - `ToString` is the whole method, including the loop that accumulates the lines;
  - both are proved equal to the specification functions `Labels` and `Text`.
- `play` is the method `TicTacToe.Play`. It is proved equal to the function `Playout`,
  which also records the game's trace: who moved, and the board before and after each
  move.

The model also proves where the alignment stops working. Up to 1000 positions every entry
of a new board prints with the same width (`NewBoardAligned`). On a 32 x 32 board the
width-3 field is too narrow for index 1023, which prints four characters wide
(`MisalignedAt32`).

Two points follow the code where a reader might expect otherwise:

- A non-positive dimension is not rejected by `Board`. `range(dim)` is then empty, so the
  grid has no rows and renders as the empty string.
- Marks are the `PlayerRepr` enumeration. Its members carry no search weight here; only
  the outcomes have the values 1, -1 and 0.

## Model

| member | source | states |
|---|---|---|
| `Boards.NewBoard` | game/board.py:6-15 | the dimension defaults to 3; the new board keeps `dim`, has `dim` rows of `dim` cells (none for a non-positive `dim`), and every cell is free |
| `Boards.NewBoardAllFree` | game/board.py:11-15 | a new board has exactly `Side(dim)²` free positions, where `Side(dim)` is `dim` for a positive dim and 0 otherwise (none for a non-positive dim) |
| `Boards.Label` | game/board.py:26-30 | an occupied position shows its player string; a free one shows `str(row * dim + col)`: a non-empty string of decimal digits with no leading zero whose value is `row * dim + col` |
| `Boards.Labels` | game/board.py:20-30 | `positions_repr` has `Side(dim)²` entries (none for a non-positive dim) |
| `Boards.LabelAt` | game/board.py:23-30 | entry `row * dim + col` of `positions_repr` is the label of the position at (row, col), i.e. the entries are in row-major order |
| `Boards.CollectLabels` | game/board.py:19-30 | the nested loop builds exactly `Labels(b)` |
| `Boards.Alignment` | game/board.py:35-41 | the field width is 0 (no padding) exactly when `dim^2 < 10`, 2 exactly when `10 <= dim^2 <= 100`, 3 exactly when `dim^2 > 100` |
| `Boards.FormatAll` | game/board.py:46 | one formatted entry per label, in order, each the label centred in the field width |
| `Boards.Line` | game/board.py:46 | a line is 5 characters longer than the entries joined with the three-character separator (blank, bar, blank) |
| `Boards.LineShape` | game/board.py:46 | a line is an opening bar and a blank, then the joined entries, then a blank, a closing bar and a line break |
| `Boards.RowText` | game/board.py:44-46 | line i, built from the slice `row_repr` of the labels of row i, each centred in the field width, is at least 5 characters long |
| `Boards.RowTextShape` | game/board.py:44-46 | line i starts with a bar and a blank and ends with a blank, a bar and a line break |
| `Boards.Lines` | game/board.py:33-46 | the rendering has one line per row |
| `Boards.Text` | game/board.py:19-47 | the value `str(board)` returns is empty exactly when the board has no rows |
| `Boards.TextShape` | game/board.py:19-47 | when the board has a row, the text starts with a bar and a blank and ends with a blank, a bar and a line break |
| `Boards.ToString` | game/board.py:18-47 | `str(board)` is the concatenation of the lines in order; line i is an opening bar and blank, the formatted entries i*dim .. (i+1)*dim-1 separated by a blank, bar and blank, then a blank, a closing bar and a line break |
| `Boards.RowTextLine` | game/board.py:46 | each line holds exactly one line break, as its last character, when no player string contains one |
| `Boards.TextLines` | game/board.py:33-47 | the rendering holds exactly `Side(dim)` line breaks (none for a non-positive dim), when no player string contains one |
| `Boards.NewBoardAligned` | game/board.py:35-46 | on a new board with at most 1000 positions every formatted entry has the same width, `max(1, field width)` |
| `Boards.NewBoardLineLength` | game/board.py:33-46 | on a new board with at most 1000 positions every line has the same length: 5 characters of bars, blanks and line break, one entry width per column and 3 characters between neighbouring columns |
| `Boards.MisalignedAt32` | game/board.py:40-41 | on a new 32 x 32 board entry 0 prints 3 wide but entry 1023 prints 4 wide |
| `Boards.NewThreeByThreeLine` | game/board.py:29-46 | line i of a new 3 x 3 board shows the indices 3i, 3i+1, 3i+2 unpadded |
| `Boards.NewThreeByThree` | game/board.py:18-47 | a new 3 x 3 board renders as three lines showing the indices 0 1 2, 3 4 5 and 6 7 8, unpadded, between the bars |
| `Strings.Decimal` | game/board.py:30 | `str(n)` is a non-empty string of decimal digits with no leading zero whose value is n |
| `Strings.DecimalLength` | game/board.py:30 | `str(n)` has at most k digits exactly when `n < 10^k` |
| `Strings.Center` | game/board.py:46 | `format(s, '^w')` has length `max(len(s), w)` |
| `Strings.CenterShape` | game/board.py:46 | the formatted string holds s unchanged at offset `floor(padding / 2)` with blanks before and after, so the right pad takes the odd blank |
| `Strings.CenterKeepsOut` | game/board.py:46 | centring adds no character other than blanks |
| `Strings.Concat` | game/board.py:19-47 | the `+=` accumulation of strings is empty for none, and otherwise at least as long as the first and the last string |
| `Strings.ConcatEnds` | game/board.py:19-47 | the accumulation of one or more strings begins with the first string and ends with the last |
| `Strings.Join` | game/board.py:46 | `sep.join(xs)` is empty for no entries and is the entry itself for one |
| `Strings.JoinEnds` | game/board.py:46 | for two or more entries the join starts with the first entry followed by sep and ends with sep followed by the last entry |
| `Strings.JoinKeepsOut` | game/board.py:46 | `sep.join(xs)` contains no character that neither sep nor any entry contains |
| `Strings.JoinLength` | game/board.py:46 | joining equal-width entries gives entries' width times their number plus one separator between neighbours |
| `Game.Mark.Name` | game/tictactoe.py:44 | `repr.name` is one character, `X` exactly for the mark X and `O` exactly for the mark O |
| `Game.Outcome.Value` | game/tictactoe.py:6-9 | the value is 1 exactly for a win of X, -1 exactly for a win of O, and 0 exactly for a tie |
| `Game.WinFor` | game/tictactoe.py:46 | the outcome of a win is never a tie and has value 1 for X and -1 for O |
| `Game.OutcomeValuesDistinct` | game/tictactoe.py:6-9 | the values 1, -1, 0 of the three outcomes are pairwise distinct |
| `Game.DefinePlayer` | game/tictactoe.py:24-34 | seat 0 gets X and every other seat O; type 1 gives a human, type 2 a random player, any other value a computer (each both ways) |
| `Game.Roster` | game/tictactoe.py:18-21 | one player per choice |
| `Game.RosterSeats` | game/tictactoe.py:18-21 | in the constructed list exactly seat 0 plays X, each seat's strategy is its choice's, and the first two players differ |
| `Game.TicTacToe.constructor` | game/tictactoe.py:15-21 | the board dimension defaults to 3; the board is `Board(board_dim)` and the players are the roster of the choices, in order |
| `Game.ChangeTurn` | game/tictactoe.py:54-55 | the next player is one of the first two; when these differ, it is the first one exactly when the current player is the second one |
| `Game.ChangeTurnTwice` | game/tictactoe.py:54-55 | for either of the two players, changing turns gives the other one, and changing twice gives the player back |
| `Game.Playout` | game/tictactoe.py:36-51 | the trace of a game holds one board more than moves, the first being the board the game starts from |
| `Game.PlayoutSteps` | game/tictactoe.py:38-48 | every move is made on a board that is not full by the recorded mover and produces the next recorded board; no move but the last wins for its mover |
| `Game.PlayoutOutcome` | game/tictactoe.py:39-51 | the result is a tie exactly when the final board is full and the last move (if any) did not win for its mover; otherwise the last mover won and the result is that mark's win, so a winning move that fills the board is not a tie |
| `Game.PlayoutAlternates` | game/tictactoe.py:38-48 | the mover changes after every move: the player who starts makes the even-numbered moves, the other one the odd-numbered ones |
| `Game.GameMarksAlternate` | game/tictactoe.py:27-48 | in a game between constructed players, `players[0]` moves first, the two alternate, and the marks go X, O, X, ... |
| `Game.TicTacToe.Play` | game/tictactoe.py:36-51 | `play` returns the outcome of `Playout` from `players[0]` and the current board, and leaves the board as the last move left it |

## Left out

- Printing: the `print(self.board)` calls in `play` (game/tictactoe.py:40, 45, 50) are console output. `ToString` models the text they print.
- The move itself, `is_fully_occupied` and `check_winner` are not defined in the files modelled. They are the parameters `move`, `isFull` and `isWinner` of `Playout` and `Play`. The player classes' `move` methods are empty stubs.
- Game.TicTacToe.Play: requires that every move on a board that is not full leaves fewer positions free (`MovesFill`). A move that never fills the board would make the loop run forever, and the model does not represent non-terminating games.
- Game.TicTacToe.Play: requires at least two players. With none, the code fails at `players[0]`. With one, it fails in `change_turn` after the first move that does not win. The console always passes two choices.
- Game.ChangeTurn: `curr_player is self.players[1]` is object identity; the model compares player values. Seats 0 and 1 always hold different marks (`RosterSeats`), so within `play` the two comparisons agree.
- `PlayerType` is not defined in any of the files modelled: game/tictactoe.py:15, 29 and 31 use it, but game/player.py defines only `PlayerRepr`. The values 1 (human) and 2 (random) are inferred from the menu numbers of game/game_manager.py:42-44, not read from a definition.
- Cells as dictionaries: a cell marked occupied whose player is `None` cannot be represented. On boards with fewer than 10 positions the field width is the empty format spec, so the code would print `None` there. Only the widths `'^2'` and `'^3'` of larger boards make `format` fail on it.
- The independence of the cells (`position.copy()`) holds by construction, since cells are values. Aliasing between cells is therefore not modelled.
- numpy's `dtype=object` array is a sequence of rows.
- Everything in game/game_manager.py is console input, validation and the play-again loop. This includes the script-level start at lines 99-100.
- Board mutation (`occupy`, `undo`), `available_positions`, win-line detection and the minimax search are not implemented in the files modelled, so they have no counterpart here.
- Random choices by the random and computer players are not modelled.
