# Dots and boxes and noughts and crosses, verified

This project models the game logic of the two-player online board games in
`siv3d-multiplayer`, written in C++ on Siv3D:

- `DotsAndBoxes::Game`, the line game. Players take turns drawing an edge of a
  grid of boxes. The player who draws the fourth edge of a box owns it, scores
  a point and moves again. The game ends once every box is owned, and the
  higher score wins.
- `TicTacToe::Game`, noughts and crosses on an n x n board. `calc_result`
  checks the rows, then the columns, then the main diagonal and then the
  anti-diagonal for a line filled with one symbol. Failing that, it declares a
  draw on a full board.

Each game comes in two layers:

- A rules module of values, functions and lemmas: `DotsAndBoxesRules` and
  `TicTacToeRules`.
- A module whose `Game` class keeps the source's member variables as fields:
  `DotsAndBoxes` and `TicTacToe`. Its methods assign those fields as the
  C++ handlers do and keep the C++ loops. The box scan of `operate_` and the
  line checks of `calc_result` run in helper methods that return the new
  box owners, scores or verdict, which are then assigned to the fields. The
  C++ loops write the members directly (see "Left out"). Each method is
  proved against the rules module: `DotsAndBoxes.Game.Operate` ends in the
  state `DotsAndBoxesRules.Operate(old state, op)`, and
  `TicTacToe.Game.CalcResult` assigns `TicTacToeRules.Verdict(grid)` when
  there is a verdict.

The game rules are proved as lemmas about those functions: the invariant,
single edge writes, box claiming, the turn rule, the end of the game, the
scan order of the line checks. What involves the session or the object
itself is stated in the method contracts instead: a host closing and hiding
the room when a move ends the game, the outbox of sent events, the
noughts-and-crosses turn flag and the value `operate` returns. Delivering
the same line-game operation twice is proved to act once only for
operations that carry a colour (see "Left out").

The module `Siv3D` holds the library types the games use:

- `Grid<T>`, a row-major grid written `at(y, x)`, treated as a value whose
  `assign`, `clear` and `at(...) = v` return a new grid;
- `Point`, `Size`, `Optional` and the 8-bit event code.

What the line game keeps as its invariant, `DotsAndBoxesRules.Inv`, while a
game is running:

- the three grids have the sizes the board calls for;
- each colour's score is the number of boxes it owns;
- a box is owned exactly when its four edges are drawn;
- the game is finished exactly when it has a winner, which can only happen
  once every box is owned.

Every handler keeps `Inv`. Every sequence of operations keeps it too
(`PlayPreservesInv`).

Noughts and crosses is modelled as written, including three behaviours that
look unintended:

- `initialize` (TicTacToe.hpp:71-73) declares locals named `is_turn`,
  `is_finished` and `winner`. These locals shadow the members, so the members
  keep their values. A game built by `Game(grid_size, symbol)` is therefore
  nobody's turn (`TicTacToe.Game.WithBoard`).
- `operate` writes the cell without checking that it is empty.
- `calc_result` never sets `is_finished`. A won or drawn board leaves
  `is_finished` false. On a won board with an empty cell, `get_operation`
  still proposes a move on the local turn; a full board offers no empty cell
  to propose (`TicTacToeRules.FullBoardNoProposal`).

Neither game checks whose turn it is when an operation arrives:
`operate_` (DotsAndBoxes.hpp:145-156) and `operate` (TicTacToe.hpp:76-81)
apply any operation they are given, whoever sent it. `operate_` does
reject an edge that is out of bounds or already drawn, and does nothing
before the game starts or after it ends (DotsAndBoxes.hpp:146-154).

## Model

| member | source | states |
|---|---|---|
| Siv3D.Grid.Updated | siv3d-multiplayer/TicTacToe.hpp:77 | `at(y, x) = v` yields a grid of the same shape whose cell (y, x) is v and whose every other cell is unchanged |
| Siv3D.Filled | siv3d-multiplayer/DotsAndBoxes.hpp:80-82 | `assign(w, h, v)` yields a w x h grid with every cell equal to v |
| Siv3D.Cleared | siv3d-multiplayer/DotsAndBoxes.hpp:95-97 | `clear()` yields the empty 0 x 0 grid |
| DotsAndBoxesRules.Operate | siv3d-multiplayer/DotsAndBoxes.hpp:145-171 | operate_ as a function of the state: a well-formed state stays well formed, with the same board size and started flag |
| DotsAndBoxesRules.Drawn | siv3d-multiplayer/DotsAndBoxes.hpp:148-156 | the edge grid the direction names keeps its shape and takes the mover's colour at the operation's position only; the other grid and every other field are unchanged |
| DotsAndBoxesRules.Scored | siv3d-multiplayer/DotsAndBoxes.hpp:157-169 | only the box owners, the scores and the turn change: the mover gains one point per claimed box, the other colours keep their scores, and the turn stays exactly when a box was claimed |
| DotsAndBoxesRules.Credit | siv3d-multiplayer/DotsAndBoxes.hpp:163 | k runs of `scores_[c]++` raise c's score by k, reading a missing key as 0 as `HashTable::operator[]` does (ScoreOf); other colours keep their scores; c becomes a key once incremented |
| DotsAndBoxesRules.Leader | siv3d-multiplayer/DotsAndBoxes.hpp:175-181 | Red exactly when Red's score is higher, Blue exactly when Blue's is higher, None exactly on a tie |
| DotsAndBoxesRules.CalcResult | siv3d-multiplayer/DotsAndBoxes.hpp:172-181 | finished exactly when already finished or the scores sum to w x h; then the winner is the leader; otherwise the state is unchanged; only the finished flag and the winner ever change |
| DotsAndBoxesRules.IsProposal | siv3d-multiplayer/DotsAndBoxes.hpp:125-144 | the specification of get_operation_: nothing unless started, on turn and unfinished; otherwise the first clicked free edge in scan order with the local colour, or nothing if no clicked edge is free. ProposalIsUnique and ProposalIsAccepted are its properties, and Game.GetOperation meets it |
| DotsAndBoxesRules.Claimed | siv3d-multiplayer/DotsAndBoxes.hpp:157-168 | after the box scan, each box that was unowned with four drawn edges belongs to the mover; every other box keeps its owner |
| DotsAndBoxesRules.ClaimedPrefix | siv3d-multiplayer/DotsAndBoxes.hpp:157-166 | part way through the row-major scan, exactly the claimable boxes already passed are claimed |
| DotsAndBoxesRules.ScanClaim | siv3d-multiplayer/DotsAndBoxes.hpp:159-165 | claiming an unowned box with four drawn edges advances the scanned grid, the claim count and the mover's score by one box |
| DotsAndBoxesRules.ScanSkip | siv3d-multiplayer/DotsAndBoxes.hpp:159-161 | passing an owned box, or one with an undrawn edge, advances the scan without changing the grid or the count |
| DotsAndBoxesRules.CreditStep | siv3d-multiplayer/DotsAndBoxes.hpp:163 | one more `scores_[c]++` after k of them gives the table with c raised by k + 1 |
| DotsAndBoxesRules.ProposalIsUnique | siv3d-multiplayer/DotsAndBoxes.hpp:125-144 | the scan order decides between any two clicked free edges, so get_operation_ has one answer |
| DotsAndBoxesRules.ProposalIsAccepted | siv3d-multiplayer/DotsAndBoxes.hpp:125-154 | operate_ accepts every operation get_operation_ proposes, and the operation carries the local colour |
| DotsAndBoxesRules.CountPartition | siv3d-multiplayer/DotsAndBoxes.hpp:8-12 | every box is None, Red or Blue, so the three counts add up to the number of boxes |
| DotsAndBoxesRules.CountZero | siv3d-multiplayer/DotsAndBoxes.hpp:173 | a colour's count is zero exactly when no cell has that colour |
| DotsAndBoxesRules.ClaimCountZero | siv3d-multiplayer/DotsAndBoxes.hpp:157-168 | with no claimable box the scan claims none |
| DotsAndBoxesRules.ClaimCountUpToZero | siv3d-multiplayer/DotsAndBoxes.hpp:157-168 | the first m rows of the scan claim nothing exactly when none of their boxes is claimable |
| DotsAndBoxesRules.ClaimRowZero | siv3d-multiplayer/DotsAndBoxes.hpp:158-167 | the first n boxes of a row claim nothing exactly when none of them is claimable |
| DotsAndBoxesRules.CountClaimed | siv3d-multiplayer/DotsAndBoxes.hpp:157-168 | the scan moves exactly k boxes from None to the mover's colour, where k is the number claimed; the other colour's count does not change |
| DotsAndBoxesRules.OperateNoOp | siv3d-multiplayer/DotsAndBoxes.hpp:146-154 | nothing changes when the game is not running, the edge is out of bounds or the edge is already drawn |
| DotsAndBoxesRules.OperateDrawsOneEdge | siv3d-multiplayer/DotsAndBoxes.hpp:148-156 | an accepted operation sets exactly its edge, in the horizontal grid for Top and the vertical grid for Left, to the mover's colour; every other edge is unchanged |
| DotsAndBoxesRules.OperateClaimsBoxes | siv3d-multiplayer/DotsAndBoxes.hpp:157-168 | a box becomes the mover's exactly when it was unowned and its four edges are now drawn; an owned box keeps its owner |
| DotsAndBoxesRules.OperateMonotone | siv3d-multiplayer/DotsAndBoxes.hpp:145-171 | drawn edges, box owners and both scores never go back |
| DotsAndBoxesRules.DrawnKeepsEdges | siv3d-multiplayer/DotsAndBoxes.hpp:148-156 | drawing a free edge keeps every edge already drawn |
| DotsAndBoxesRules.DrawnClosed | siv3d-multiplayer/DotsAndBoxes.hpp:148-156 | a closed box stays closed; drawing the colour None closes no box |
| DotsAndBoxesRules.ClaimSettles | siv3d-multiplayer/DotsAndBoxes.hpp:157-168 | if owned and closed boxes agree before the scan, they agree after it; a None-coloured scan claims nothing |
| DotsAndBoxesRules.ScoredInv | siv3d-multiplayer/DotsAndBoxes.hpp:157-187 | the scan followed by calc_result_ restores the invariant |
| DotsAndBoxesRules.ZeroedScores | siv3d-multiplayer/DotsAndBoxes.hpp:83-84 | zeroing Red and Blue in a table with no other key gives exactly {Red: 0, Blue: 0} |
| DotsAndBoxesRules.EmptyBoardInv | siv3d-multiplayer/DotsAndBoxes.hpp:78-89 | a freshly initialized game satisfies the invariant |
| DotsAndBoxesRules.OperatePreservesInv | siv3d-multiplayer/DotsAndBoxes.hpp:145-187 | operate_ keeps the invariant: scores count owned boxes, owned iff closed, finished iff decided |
| DotsAndBoxesRules.InvAfterCalcResult | siv3d-multiplayer/DotsAndBoxes.hpp:172-187 | calc_result_ on a running game whose counts and boxes agree gives a state satisfying the invariant |
| DotsAndBoxesRules.ScoresCountOwnedBoxes | siv3d-multiplayer/DotsAndBoxes.hpp:157-168 | Red's plus Blue's score equals the number of owned boxes, which is at most w x h |
| DotsAndBoxesRules.OperateTurnRule | siv3d-multiplayer/DotsAndBoxes.hpp:147-169 | after an accepted operation the turn stays exactly when some box became owned, and flips exactly when none did |
| DotsAndBoxesRules.OperateEndOfGame | siv3d-multiplayer/DotsAndBoxes.hpp:172-181 | the game is finished exactly when the scores sum to w x h, that is when every box is owned. The winner is then Red if Red leads, Blue if Blue leads, and Some(None) on a tie; otherwise there is no winner |
| DotsAndBoxesRules.OperateTwiceIsOnce | siv3d-multiplayer/DotsAndBoxes.hpp:146-156 | delivering the same coloured operation twice leaves the state one delivery leaves |
| DotsAndBoxesRules.OpenBoxKeepsGameRunning | siv3d-multiplayer/DotsAndBoxes.hpp:173-174 | while some box has an undrawn edge, the game is not finished |
| DotsAndBoxesRules.Play | siv3d-multiplayer/DotsAndBoxes.hpp:145-171 | applying operations one by one keeps the state well formed, with the same size and started flag |
| DotsAndBoxesRules.PlayPreservesInv | siv3d-multiplayer/DotsAndBoxes.hpp:145-187 | every sequence of operations keeps the invariant |
| DotsAndBoxesRules.OneBoxForRed | siv3d-multiplayer/DotsAndBoxes.hpp:145-171 | on an empty 2 x 2 board, Red drawing the four sides of the top-left box owns it with score 1-0, the game goes on, and the turn has flipped three times |
| DotsAndBoxesRules.StepOpen | siv3d-multiplayer/DotsAndBoxes.hpp:148-169 | an edge that closes no box is drawn, nothing is claimed and the turn passes |
| DotsAndBoxesRules.StepClosesTopLeft | siv3d-multiplayer/DotsAndBoxes.hpp:157-169 | the fourth side gives Red the box and one point, and Red keeps the turn |
| DotsAndBoxes.OnlineManager.SetRoomOpen | siv3d-multiplayer/DotsAndBoxes.hpp:183 | the room's open switch is set; the rest of the session is unchanged |
| DotsAndBoxes.OnlineManager.SetRoomVisible | siv3d-multiplayer/DotsAndBoxes.hpp:108 | the room's visible switch is set; the rest of the session is unchanged |
| DotsAndBoxes.OnlineManager.SendGameEvent | siv3d-multiplayer/DotsAndBoxes.hpp:191 | the (code, operation) event is appended to the outbox |
| DotsAndBoxes.Game.constructor | siv3d-multiplayer/DotsAndBoxes.hpp:35-57 | the defaults: empty grids, empty scores, a 6 x 4 size, colour None, every flag false, no winner; the invariant holds |
| DotsAndBoxes.Game.SetNetwork | siv3d-multiplayer/DotsAndBoxes.hpp:58 | only the network pointer changes |
| DotsAndBoxes.Game.Initialize | siv3d-multiplayer/DotsAndBoxes.hpp:78-93 | grids of w x (h+1), (w+1) x h and w x h, all None; both scores 0; started, not finished, no winner; the local turn exactly when the colour is Red; the invariant holds |
| DotsAndBoxes.Game.Reset | siv3d-multiplayer/DotsAndBoxes.hpp:94-104 | every grid and the scores are emptied, the colour becomes None, all three flags are cleared and the winner is none |
| DotsAndBoxes.Game.OnGameStart | siv3d-multiplayer/DotsAndBoxes.hpp:106-109 | with the room full (two players): the host plays Red and moves first and the guest plays Blue, on an empty board; the host hides the room |
| DotsAndBoxes.Game.OnPlayerLeft | siv3d-multiplayer/DotsAndBoxes.hpp:110-113 | a finished game is kept unchanged; any other game is reset |
| DotsAndBoxes.Game.OnLeaveRoom | siv3d-multiplayer/DotsAndBoxes.hpp:114-116 | always resets |
| DotsAndBoxes.Game.OnEventReceived | siv3d-multiplayer/DotsAndBoxes.hpp:117-123 | code 42 applies the operation as the rules' Operate does, and a host closes and hides the room exactly when the move ends the game; any other code changes nothing |
| DotsAndBoxes.Game.GetOperation | siv3d-multiplayer/DotsAndBoxes.hpp:125-144 | nothing unless the game is started, not finished and the local turn. Otherwise the first clicked free edge (horizontal edges before vertical, row-major) in the local colour, or nothing if no clicked edge is free |
| DotsAndBoxes.Game.Operate | siv3d-multiplayer/DotsAndBoxes.hpp:145-171 | the new state is the rules' Operate of the old one and the invariant is kept; a host closes and hides the room exactly when this move ends the game |
| DotsAndBoxes.Game.DrawEdge | siv3d-multiplayer/DotsAndBoxes.hpp:148-156 | the edge is drawn exactly when it is in bounds and undrawn; otherwise nothing changes |
| DotsAndBoxes.Game.ClaimBoxesAndPassTurn | siv3d-multiplayer/DotsAndBoxes.hpp:157-169 | the boxes, scores and turn become the rules' Scored of the old state |
| DotsAndBoxes.Game.ScanBoxes | siv3d-multiplayer/DotsAndBoxes.hpp:157-168 | the nested scan returns the claimed box grid, the scores credited by the number claimed, and box_completed_ exactly when that number is positive |
| DotsAndBoxes.Game.ScanRow | siv3d-multiplayer/DotsAndBoxes.hpp:158-167 | one row of the scan moves the claimed prefix to the next row and adds that row's claims to the count and the score |
| DotsAndBoxes.Game.CalcResult | siv3d-multiplayer/DotsAndBoxes.hpp:172-187 | finished exactly when it was already finished or the scores sum to w x h. The winner is then the leader (None on a tie), and a host closes and hides the room |
| DotsAndBoxes.Game.Update | siv3d-multiplayer/DotsAndBoxes.hpp:189-194 | a proposed operation is first appended to the outbox under code 42, then applied as the rules' Operate; the host flag is kept and a host closes and hides the room exactly when the move ends the game; with no proposal nothing changes |
| TicTacToeRules.Row | siv3d-multiplayer/TicTacToe.hpp:96 | row y has width cells, cell i being `grid_[y][i]` |
| TicTacToeRules.Column | siv3d-multiplayer/TicTacToe.hpp:105 | column x has height cells, cell i being `grid_[i][x]` |
| TicTacToeRules.Diagonal | siv3d-multiplayer/TicTacToe.hpp:113 | the main diagonal has n cells, cell i being `grid_[i][i]` |
| TicTacToeRules.AntiDiagonal | siv3d-multiplayer/TicTacToe.hpp:120 | the anti-diagonal has n cells, cell i being `grid_[n-1-i][i]` |
| TicTacToeRules.Lines | siv3d-multiplayer/TicTacToe.hpp:94-124 | the 2n + 2 lines in checking order: rows 0..n-1, columns 0..n-1, the diagonal, the anti-diagonal |
| TicTacToeRules.LineWinner | siv3d-multiplayer/TicTacToe.hpp:84-92 | check_line gives s exactly when s is not None and every cell of the line is s; it never gives None |
| TicTacToeRules.FirstWin | siv3d-multiplayer/TicTacToe.hpp:94-124 | nothing means no line has a winner; a symbol is the winner of some line with no winning line before it |
| TicTacToeRules.Verdict | siv3d-multiplayer/TicTacToe.hpp:94-129 | what calc_result concludes: the first winning line's symbol, else a draw on a full board, else nothing. VerdictWin, VerdictDraw and VerdictUndecided characterise it |
| TicTacToeRules.FirstWinIsFirst | siv3d-multiplayer/TicTacToe.hpp:94-124 | the scan yields s exactly when some line wins for s and no earlier line wins |
| TicTacToeRules.NoWinExtend | siv3d-multiplayer/TicTacToe.hpp:97-100 | a line without a winner lets the scan move on |
| TicTacToeRules.FirstWinAt | siv3d-multiplayer/TicTacToe.hpp:97-99 | the first winning line met decides the scan |
| TicTacToeRules.FirstWinNone | siv3d-multiplayer/TicTacToe.hpp:94-124 | with no winning line the scan finds nothing |
| TicTacToeRules.VerdictWin | siv3d-multiplayer/TicTacToe.hpp:94-124 | a player wins exactly when some line is all theirs and no earlier line is all one symbol |
| TicTacToeRules.VerdictDraw | siv3d-multiplayer/TicTacToe.hpp:126-129 | the board is a draw (winner None) exactly when it is full and no line wins |
| TicTacToeRules.VerdictUndecided | siv3d-multiplayer/TicTacToe.hpp:126-127 | calc_result leaves winner alone exactly when no line wins and some cell is empty |
| TicTacToeRules.FullLineDecides | siv3d-multiplayer/TicTacToe.hpp:94-124 | any line filled with one symbol makes the verdict a player's win, never a draw or nothing |
| TicTacToeRules.Mixed | siv3d-multiplayer/TicTacToe.hpp:88-89 | a line with two different cells has no winner |
| TicTacToeRules.NoRowOrColumnWins | siv3d-multiplayer/TicTacToe.hpp:94-110 | with no winning row or column, the scan reaches the diagonals |
| TicTacToeRules.NoLineWins | siv3d-multiplayer/TicTacToe.hpp:94-124 | with no winning row, column or diagonal, no line in the scan wins |
| TicTacToeRules.DiagonalWins | siv3d-multiplayer/TicTacToe.hpp:112-117 | a main diagonal filled with s wins for s when no row or column wins |
| TicTacToeRules.FullByRows | siv3d-multiplayer/TicTacToe.hpp:126-128 | a board none of whose rows holds None is full |
| TicTacToeRules.CircleDiagonalWins | siv3d-multiplayer/TicTacToe.hpp:111-117 | Circle on (0,0), (1,1), (2,2) of a 3 x 3 board with no full row or column yields Circle |
| TicTacToeRules.UpperRowFirst | siv3d-multiplayer/TicTacToe.hpp:94-101 | with Circle filling the top row and Cross the bottom row of a 2 x 2 board, the top row is checked first and Circle wins |
| TicTacToeRules.FullBoardDraw | siv3d-multiplayer/TicTacToe.hpp:126-129 | a full 3 x 3 board with no three in a row is a draw |
| TicTacToeRules.IsProposal | siv3d-multiplayer/TicTacToe.hpp:138-149 | the specification of get_operation: nothing unless started, on turn and unfinished; otherwise the first clicked empty cell in row-major order with the local symbol, or nothing if no clicked cell is empty. ProposalIsUnique is its property, and Game.GetOperation meets it |
| TicTacToeRules.ProposalIsUnique | siv3d-multiplayer/TicTacToe.hpp:140-148 | the row-major scan decides between any two clicked empty cells, so get_operation has one answer |
| TicTacToeRules.FullBoardNoProposal | siv3d-multiplayer/TicTacToe.hpp:140-148 | on a full board, a drawn one included, get_operation proposes nothing, since it only offers empty cells |
| TicTacToe.CheckLine | siv3d-multiplayer/TicTacToe.hpp:84-92 | the loop of check_line returns exactly LineWinner of the line |
| TicTacToe.CheckLines | siv3d-multiplayer/TicTacToe.hpp:94-124 | the four line checks return the first winning line's symbol in scan order, or nothing |
| TicTacToe.CheckRows | siv3d-multiplayer/TicTacToe.hpp:94-101 | the first winning row decides the scan; with none, no row wins |
| TicTacToe.CheckColumns | siv3d-multiplayer/TicTacToe.hpp:103-110 | after rows with no winner, the first winning column decides the scan; with none, no row or column wins |
| TicTacToe.CheckFull | siv3d-multiplayer/TicTacToe.hpp:126-128 | the draw loop finds no empty cell exactly when the board is full |
| TicTacToe.Game.constructor | siv3d-multiplayer/TicTacToe.hpp:28-42 | the defaults: an empty grid, symbol None, every flag false, no winner |
| TicTacToe.Game.WithBoard | siv3d-multiplayer/TicTacToe.hpp:62-64 | an n x n board of None, the given symbol, started, not finished, no winner, and not the local turn |
| TicTacToe.Game.Initialize | siv3d-multiplayer/TicTacToe.hpp:66-74 | an n x n board of None, the symbol and started set; is_turn, is_finished and winner unchanged |
| TicTacToe.Game.Operate | siv3d-multiplayer/TicTacToe.hpp:76-81 | the cell at op.pos becomes op.cell_type and no other cell changes. It is the local turn exactly when the symbol is not the local one. The winner becomes the verdict, or stays when there is none, and is returned. is_finished is unchanged |
| TicTacToe.Game.WriteCell | siv3d-multiplayer/TicTacToe.hpp:77-78 | the cell write and the turn flag of operate |
| TicTacToe.Game.CalcResult | siv3d-multiplayer/TicTacToe.hpp:83-130 | winner becomes the verdict of the board (the first winning line, else a draw on a full board); with no verdict it keeps its value |
| TicTacToe.Game.GetOperation | siv3d-multiplayer/TicTacToe.hpp:138-149 | nothing unless started, the local turn and not finished. Otherwise the first clicked empty cell in row-major order with the local symbol, or nothing if no clicked cell is empty |

## Left out

- Drawing is not modelled: `draw`, `get_dot_pos_`, `get_cell_point_`, `get_cell_rect_`, fonts, cell sizes, line thickness, `board_offset_` (DotsAndBoxes.hpp:90-92) and `cell_offset_`. They only place things on screen.
- Mouse input is not modelled. `leftClicked()` becomes the `clicked` parameter of `GetOperation` and `Update`: the set of cells or edges whose rectangle was clicked this frame.
- The `Print` of the local symbol at the start of `get_operation` (TicTacToe.hpp:139) is console output and is not modelled.
- Serialization is not modelled. `SIV3D_SERIALIZE`, `reader(op)` and the wire format are Siv3D library code, and events arrive as decoded `Operation` values.
- The Photon session is modelled only as `OnlineManager`: the host flag, the room's open and visible switches, and an outbox of sent events.
- OnlineManager.hpp is not part of this model. Its rule that a game starts once the room holds `get_max_players()` players is the `playerCount == MaxPlayers` precondition of `DotsAndBoxes.Game.OnGameStart`. Its dereference of the handler before the null check is not modelled.
- MyNetwork.hpp, Main.cpp and IGame.hpp are not part of this model. They hold logging, scene code and an interface with no behaviour.
- The getters `is_started`, `is_finished` and `get_symbol`, the empty `debug` and the empty `TicTacToe::Game::update` are not modelled; they hold no logic. `get_game_id` and `get_max_players` are the constants `GameId` and `MaxPlayers`.
- Integer widths are not modelled. `int32` scores and `size_t` indices are unbounded integers; no reachable score exceeds w x h.
- `HashTable::at` throws on a missing key. `DotsAndBoxes.Game.CalcResult` instead requires both Red and Blue in the score table, which every started game has.
- DotsAndBoxes.Game.Initialize: requires the score table to hold no key other than Red and Blue. Every state satisfying the invariant has such a table. On a table that also held None, the source would keep that entry and the model's `scores == {Red: 0, Blue: 0}` would not hold.
- DotsAndBoxesRules.OperateTwiceIsOnce: requires the operation's colour to differ from None. `operate_` accepts a None-coloured edge without marking it, so a second delivery passes the turn again.
- TicTacToe.Game.Operate: requires the board to be square and non-empty and `op.pos` to lie on it. The source does not check the position, and writing outside the grid has no defined result.
- TicTacToe.Game.CalcResult: requires a square, non-empty board, as `initialize` builds for n >= 1. `check_line` reads cell 0 of the diagonal even on a 0 x 0 board, which has no defined result.
- The check results of `calc_result` are returned by `TicTacToe.CheckLines` and `TicTacToe.CheckFull`, and `CalcResult` assigns the member from them. The `check_line` lambda over `get_cell` is modelled as `CheckLine` over the line's cells.
- Grids are values reassigned to the fields, not containers updated in place. No other object holds a reference to a game's grid, so no aliasing is lost.
- The box scan of `operate_` (DotsAndBoxes.hpp:157-168) writes `box_owners_` and `scores_` cell by cell inside its loop. The model's `ScanBoxes` and `ScanRow` build the same owners and scores as local values in the same row-major order, and `ClaimBoxesAndPassTurn` assigns them to the fields after the loop. The scan reads only the box it is about to write (DotsAndBoxes.hpp:159), and `ScanRow` reads that box from its local grid, which holds the same value, so the intermediate member states are not modelled. The same holds for the line checks of `calc_result`, which the model returns from `CheckLines` and `CheckFull`.
