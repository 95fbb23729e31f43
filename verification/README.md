# Tic-tac-toe boards, search agents and game servers in Dafny

This project models the core of a tic-tac-toe repository that has two
implementations of the same game:

- **Python.** `game_logic.py` holds the `TicTacToe` class. The agents are
  in `agents/`:
  - a random agent;
  - an exhaustive minimax agent;
  - two agents that look moves up in a precomputed table.

  `create_database.py` is the depth-first enumerator that builds that table.
  The Python side also has two text front ends. `ble_server/game_adapter.py`
  speaks the micro:bit's `X/O/.` and `WIN/LOSE/DRAW` protocol.
  `CUI/cui_display.py` draws the board on a console.
- **Rust.** `rust/tic_tac_toe_server_rust` contains:
  - the `Player` type and the `TicTacToe` struct;
  - the Human and Random agents;
  - the JSON board (de)serialiser;
  - the `GameManager` with its agent-move loop.

How the model is built:

- **Boards.** One `Grid.Cell = X | O | Empty` type stands for the Python
  strings `"X"`, `"O"`, `" "` and for the Rust `Player`. `Player::None` is
  `Empty`. A board is a row-major sequence of nine cells. Every textual form
  of a board is an explicit encoder with a proved decoder:
  - the 9-character table key;
  - the adapter's dotted string;
  - the Rust JSON rows;
  - the console grid.
- **Lines.** A winning line is the three cell numbers `3 * row + col`. Lines
  are scanned in two orders:
  - the Python classes scan row i, then column i, then the diagonals;
  - `create_database.py` and the Rust server scan all rows, then all
    columns, then the diagonals.

  `Grid.FirstComplete` is written once over either order. Lemmas show that
  the two orders agree on the winner but not always on the line.
- **State updates.** Place-then-undo searches and `&mut self` methods are
  pure functions from the old state to the new one. So "the board is left as
  it was" holds by construction. Where the source has a loop, a method with
  invariants shows that the loop computes the function.
- **Randomness.** `random.choice` and `thread_rng` are a `pick: nat`
  parameter selecting `candidates[pick % n]`. Lemmas show that every
  candidate can be picked. In the Rust server loop, the picks are a function
  `choose` of the board. No board repeats within one run of the loop, so any
  sequence of picks can be expressed this way.
- **Hidden managers.** The game manager behind the BLE adapter is not part
  of this model. It is a record of two functions, so the adapter's
  contracts hold for any manager.
- **Table agents and the enumerator.** The lookup agents take the table as
  an in-memory map. The enumerator is proved these things about that map:
  - it only grows;
  - every key it adds is reachable from the start board;
  - from an empty map, every board reachable from the start is recorded;
  - every entry it records is legal for its key, and a "continue" entry
    holds the best move for the player whose turn it is.

## Model

| member | source | states |
|---|---|---|
| Grid.OtherMark | create_database.py:44-48 | The opponent is always a mark: "O" for "X" and "X" for anything else, so it differs from any mark it is given |
| Grid.OtherMarkInvolution | game_logic.py:91-92 | Switching the player twice gives back the same mark |
| Grid.PosOf | agents/database_agent.py:53-57 | `index_to_move(i)` inverts `3 * row + col`, always gives a column in 0..2, and is on the board exactly for 0 <= i < 9 |
| Grid.PosOfIndex | agents/perfect_agent.py:59-60 | Every board position is recovered from its cell number |
| Grid.FirstComplete | game_logic.py:63-81 | The line found is complete and no earlier line in the scan order is; nothing is found exactly when no line in the order is complete |
| Grid.ScanOrdersAgreeOnMark | create_database.py:11-21 | The rows-first scan and the interleaved Python scan find a line on the same boards, and their lines carry the same mark |
| Grid.ScanOrdersMayDisagreeOnLine | rust/tic_tac_toe_server_rust/src/game_logic.rs:174-199 | On a board with a complete row 1 and a complete column 0, the Python scan reports the column and the Rust scan the row |
| Grid.CountEmpty | game_logic.py:88-89 | The number of free cells is zero exactly when every cell is taken |
| Grid.FillingDecrements | game_logic.py:51-53 | Marking one free cell leaves one free cell fewer |
| Grid.EmptyCells | rust/tic_tac_toe_server_rust/src/game_logic.rs:205-215 | The free cells, each once, in row-major order; as many as there are empty cells, and none exactly on a full board |
| Grid.PickEmpty | agents/random_agent.py:9-11 | A random pick is nothing exactly on a full board, and otherwise a free cell on the board |
| Grid.EveryEmptyCellCanBePicked | agents/random_agent.py:10-11 | Every free cell is the choice for some pick |
| BaseAgent.CheckWinner | agents/base_agent.py:24-37 | A winner exactly when some line is complete, and then the mark of the first complete line in the interleaved order; "draw" exactly when no line is complete and the board is full; otherwise ongoing |
| BaseAgent.RowBeforeColumn | agents/base_agent.py:26-30 | Row i wins before column i and every later line, once no earlier row or column is complete |
| BaseAgent.DiagonalsLast | agents/base_agent.py:31-34 | A complete row or column is always found before either diagonal is examined |
| BoardKey.PyCellOf | create_database.py:35-42 | A decoded key character is the character of its cell |
| BoardKey.KeyChars | create_database.py:29-33 | The key has nine characters, character i being cell i's string |
| BoardKey.KeyRoundTrip | create_database.py:29-42 | `string_to_board(board_to_string(b))` is `b` |
| BoardKey.StringRoundTrip | create_database.py:29-42 | Every string `string_to_board` accepts is the key of the board it gives |
| BoardKey.StringToBoardDecodes | create_database.py:35-42 | A nine-character string of "X", "O" and " " decodes to the board whose cell i is character i; every other string, which Python would still slice into rows, is `None` here |
| BoardKey.KeyInjective | agents/database_agent.py:47-51 | Distinct boards have distinct keys |
| PyGame.New | game_logic.py:9-36 | An empty board, "X" to move, human "X" exactly when playing first, the agent the other mark, and `ValueError("Invalid agent type provided")` for a name other than "ランダム" or "Minimax" |
| PyGame.MakeMove | game_logic.py:38-54 | False and no change once the game is over; an IndexError for indices outside -3..2; otherwise the move is placed exactly when the (Python-indexed) cell is free, and then only that cell changes, to the player to move |
| PyGame.NegativeIndicesWrap | game_logic.py:51-53 | `make_move(-1, -1)` on a free bottom-right cell marks cell 8 |
| PyGame.CheckWinner | game_logic.py:56-86 | The verdict is the base agent's; a win records the first complete line in the interleaved order and ends the game; a draw ends it without touching the line; an ongoing game changes nothing |
| PyGame.CheckWinnerIdempotent | game_logic.py:56-86 | Checking a second time reports the same and changes nothing more |
| PyGame.SwitchPlayer | game_logic.py:91-92 | The player to move becomes the other mark and nothing else changes |
| PyGame.SwitchPlayerInvolution | game_logic.py:91-92 | Switching twice restores the game |
| PyGame.AgentMove | game_logic.py:94-99 | No proposal is no move; a legal proposal on a running game marks that cell for the player to move |
| MinimaxAgent.MinimaxBounds | agents/minimax_agent.py:32-64 | Scores stay within [-100 + depth, 100 - depth], and the top score 100 - depth means the agent has already won |
| MinimaxAgent.BestChildDefined | agents/minimax_agent.py:41-64 | The best child exists exactly when a free cell remains |
| MinimaxAgent.OpenBoardHasChild | agents/minimax_agent.py:41-50 | A board the base agent calls ongoing always has a move to score |
| MinimaxAgent.BestChildBounds | agents/minimax_agent.py:41-64 | A child's score lies one ply inside its parent's bounds |
| MinimaxAgent.ScoreHundredIffImmediateWin | agents/minimax_agent.py:21-22 | A move scores in [-100, 100], and scores 100 exactly when it completes a line for the agent |
| MinimaxAgent.Top | agents/minimax_agent.py:25-30 | The best moves are exactly the free cells whose score no free cell beats; none exactly on a full board |
| MinimaxAgent.TryCell | agents/minimax_agent.py:20-23 | Placing, scoring and undoing one free cell returns the move's score and leaves the board as it was |
| MinimaxAgent.GetMove | agents/minimax_agent.py:14-30 | None exactly on a full board; otherwise a free cell whose score is maximal, the pick-th of the tied best moves; the board is left as it was |
| MinimaxAgent.TopMoveIsBest | agents/minimax_agent.py:25-30 | Every tied best move is a free cell scoring at least every other free cell, and it wins at once whenever some move does |
| MinimaxAgent.EveryTopMoveCanBeChosen | agents/minimax_agent.py:30 | Any of the tied best moves is the choice for some pick |
| CreateDatabase.DbWinnerAgreesWithCheckWinner | create_database.py:7-21 | The database's winner check finds a winner on the same boards as the agents' check and names the same mark; no winner on a full board is the agents' draw |
| CreateDatabase.DbMinimaxIsMinimax | create_database.py:50-81 | The database's minimax scores every board as the agent's minimax does: winner first, then a full board, with the same plies |
| CreateDatabase.FirstBest | create_database.py:101-113 | -1 exactly when no cell is free; otherwise the smallest free cell with the greatest score |
| CreateDatabase.CreateEntry | create_database.py:83-113 | A key already present changes nothing; a won board is recorded as (-1, winner) and a full one as (-1, draw); an open one as (best move, continue) |
| CreateDatabase.CreateOpenUnfold | create_database.py:113-121 | An open board is recorded before its children are expanded in cell order, with the opponent to move |
| CreateDatabase.CreateExtends | create_database.py:83-121 | The table only grows: entries present before keep their values, and the start board's key is present afterwards |
| CreateDatabase.ExpandExtends | create_database.py:116-121 | Expanding the children never changes an existing entry |
| CreateDatabase.CreateSound | create_database.py:83-121 | Every key in the result was there before or is a board reachable from the start by alternating moves, starting with the given player |
| CreateDatabase.CreateClosedAddsAtMostKey | create_database.py:87-99 | A present, won or full board adds at most its own key |
| CreateDatabase.CreateWellFormed | create_database.py:91-113 | Every recorded entry fits its key: -1 for a won or full board, a free cell of an open board otherwise, with the matching result |
| CreateDatabase.CreateComplete | create_database.py:83-121 | Completeness: when every recorded board with fewer free cells than the current one already has its subtree recorded, the search records every board reachable from its board, and keeps that property; a key already present stops the search only because its subtree is already recorded |
| CreateDatabase.CoveredFromChildren | create_database.py:116-121 | A recorded board has all of its reachable boards recorded once each free cell's child, with the other player to move, has |
| CreateDatabase.ReachedHasFewerFree | create_database.py:116-121 | Every board the search reaches from a board, other than that board, has fewer free cells, so a board never meets itself again during its own expansion |
| CreateDatabase.CreateRecordsChoice | create_database.py:101-120 | Every "continue" entry holds the move chosen for its board with the player to move there, the players alternating from the start so that the parity of the free cells fixes the mover |
| CreateDatabase.FreshTable | create_database.py:123-129 | From an empty table (as `main` calls it on the empty board with "X"), the result is well formed, holds exactly the boards reachable from the start, and each "continue" entry holds `BestMove` of its board for the player whose turn it is there |
| CreateDatabase.BestMoveIsLegal | create_database.py:101-113 | The recorded best move of an open board is one of its free cells |
| LookupAgents.DatabaseMove | agents/database_agent.py:29-45 | A present key with -1 gives no move; a present key with k gives `index_to_move(k)` unchecked; an absent key falls back to a random free cell, none exactly on a full board |
| LookupAgents.DatabaseMoveLegal | agents/database_agent.py:29-45 | With a well-formed table every move is a free cell, and no move means the game is decided |
| LookupAgents.DatabaseMoveFollowsTable | agents/database_agent.py:35-42 | On the table built from a board, the agent plays the enumerator's best move for that board |
| LookupAgents.PerfectMove | agents/perfect_agent.py:34-54 | A move `index_to_move(k)` exactly when the key maps to k != -1; otherwise a `KeyError` naming the key, "game is over" exactly when the key is present |
| LookupAgents.PerfectAgreesWithDatabase | agents/perfect_agent.py:48-54 | On the same table the perfect agent's move is the database agent's, and it fails exactly when the key is absent or the database agent has no move |
| LookupAgents.PerfectMoveLegal | agents/perfect_agent.py:48-52 | With a well-formed table a perfect move is a free cell, and "game is over" only for a decided board |
| PyText.TrimLeft | ble_server/game_adapter.py:32 | Removing leading whitespace keeps a suffix that starts with a non-space, after only spaces |
| PyText.StripPadded | ble_server/game_adapter.py:32 | Whitespace around a command does not change its stripped form |
| PyText.IntStringParses | ble_server/game_adapter.py:50 | `int(str(i))` is `i` for every integer |
| PyText.SplitJoin | ble_server/game_adapter.py:50 | Splitting a join of separator-free parts on the separator gives the parts back |
| GameAdapter.BoardString | ble_server/game_adapter.py:80-99 | "........." with no game; otherwise nine characters, 'X' and 'O' where those marks are and '.' exactly at free cells |
| GameAdapter.WireBoardRoundTrip | ble_server/game_adapter.py:80-99 | The dotted string reads back as the board |
| GameAdapter.WireBoardIsKeyWithDots | ble_server/game_adapter.py:90-99 | The dotted string is the table key with spaces turned into dots |
| GameAdapter.LineSuffixReadsBack | ble_server/game_adapter.py:112-117 | The suffix is ":" and three comma-separated numbers that parse back to the winning line |
| GameAdapter.GameResult | ble_server/game_adapter.py:101-127 | "" with no game or an unfinished one; "DRAW" for a draw; "WIN" or "LOSE" as the winner is or is not the human, followed by the suffix of the line `check_winner` records, the first complete line in the order rows and columns interleaved |
| GameAdapter.MakeMove | ble_server/game_adapter.py:61-78 | No game or a finished one reports the state without asking the manager; otherwise the game the manager holds afterwards is reported, whether `make_player_move` returned or raised, so a move refused without a change leaves the game and its empty result |
| GameAdapter.MoveCommandReply | ble_server/game_adapter.py:48-56 | A "MOVE:" command with no argument or a non-number argument reports the board with an empty result and no change; a number n moves at (n // 3, n % 3) |
| GameAdapter.MakeMoveIgnoresManagerWhenOver | ble_server/game_adapter.py:65-66 | Without a running game, the reply does not depend on the manager |
| GameAdapter.HandleStripped | ble_server/game_adapter.py:36-59 | "RESET" returns ("RESET", ""); "START_P1" starts Human X against the default AI and "START_P2" the default AI against Human O; the state changes only for START and MOVE commands; an unknown command, "MOVE:" without an argument and "MOVE:" with a non-number report the board with an empty result and no change |
| GameAdapter.HandleCommandPadded | ble_server/game_adapter.py:32 | Whitespace around a command never changes the reply |
| GameAdapter.MoveOfArgument | ble_server/game_adapter.py:48-53 | A MOVE argument that parses as N moves at (N // 3, N % 3) |
| GameAdapter.MoveCommand | ble_server/game_adapter.py:48-53 | "MOVE:" followed by any integer moves at (N // 3, N % 3), with no range check |
| CuiDisplay.StatusShowsDraw | CUI/cui_display.py:18-20 | The draw message is printed exactly when the winner is "draw" |
| CuiDisplay.StatusShowsGameOver | CUI/cui_display.py:18-26 | The status begins "Game Over" exactly when the winner is truthy or the game is over |
| CuiDisplay.DisplayOfBoard | CUI/cui_display.py:1-26 | The text is the title line, three 13-character rows with cell i at a fixed offset, the rule with its blank line, then the status line |
| CuiDisplay.RowLineOfRows | CUI/cui_display.py:5-16 | A row prints as "\| a \| b \| c \|", a free cell showing its number 1..9 |
| CuiDisplay.DisplayShowsBoard | CUI/cui_display.py:1-17 | Reading the printed grid back gives the board, whatever the status says |
| RustGame.ParsePlayer | rust/tic_tac_toe_server_rust/src/game_logic.rs:50-61 | "X" and "O" are marks; " ", "." and "" are the empty cell; anything else is "Invalid player string: s" |
| RustGame.ParsePlayerText | rust/tic_tac_toe_server_rust/src/game_logic.rs:40-61 | Parsing what `Display` printed gives the player back |
| RustGame.Opponent | rust/tic_tac_toe_server_rust/src/game_logic.rs:63-71 | X and O swap and `None` stays `None` |
| RustGame.OpponentInvolution | rust/tic_tac_toe_server_rust/src/game_logic.rs:63-71 | `opponent` twice is the identity |
| RustGame.NewGame | rust/tic_tac_toe_server_rust/src/game_logic.rs:121-136 | An empty board, X to move, nothing decided, with the given agents and human |
| RustGame.CheckWinnerLogic | rust/tic_tac_toe_server_rust/src/game_logic.rs:174-199 | A winner exactly when some line is complete; then the first complete line in rows-first order and its mark |
| RustGame.CheckWinnerLogicAgrees | rust/tic_tac_toe_server_rust/src/game_logic.rs:174-199 | The Rust scan and the Python agents' scan agree on whether there is a winner and on its mark |
| RustGame.CheckGameState | rust/tic_tac_toe_server_rust/src/game_logic.rs:161-172 | A win records winner, line and game over; a full board without a win records the draw winner `Some(None)`; otherwise no change; `game_over` is never cleared |
| RustGame.CheckGameStateIdempotent | rust/tic_tac_toe_server_rust/src/game_logic.rs:161-172 | Checking the state twice is checking it once |
| RustGame.SwitchPlayer | rust/tic_tac_toe_server_rust/src/game_logic.rs:157-159 | The player to move becomes the other mark and nothing else changes |
| RustGame.MakeMove | rust/tic_tac_toe_server_rust/src/game_logic.rs:138-155 | Errors in the order: game over, out of bounds, occupied; success exactly otherwise, placing the mark, checking the state and passing the turn unless the game ended |
| RustGame.MakeMoveFillsOneCell | rust/tic_tac_toe_server_rust/src/game_logic.rs:149-154 | An accepted move fills exactly the chosen cell with the mover's mark, leaving one free cell fewer |
| RustGame.GetAvailableMoves | rust/tic_tac_toe_server_rust/src/game_logic.rs:205-215 | Exactly the free cells in row-major order, empty exactly on a full board |
| RustGame.GetCurrentAgent | rust/tic_tac_toe_server_rust/src/game_logic.rs:217-223 | X's agent when X is to move, O's when O is, none otherwise |
| RustAgents.BoxClone | rust/tic_tac_toe_server_rust/src/agents.rs:42-58 | A clone is the same kind of agent for the same player |
| RustAgents.GetMove | rust/tic_tac_toe_server_rust/src/agents.rs:53-99 | Never an error; a human agent proposes nothing; a random agent proposes nothing exactly on a full board, and otherwise a free cell |
| RustAgents.RandomAgentReachesEveryCell | rust/tic_tac_toe_server_rust/src/agents.rs:83-99 | Every free cell is a move the random agent may make |
| RustSchemas.Serialize | rust/tic_tac_toe_server_rust/src/schemas.rs:31-37 | Three rows of three strings, the string at row i, column j parsing back to cell (i, j) |
| RustSchemas.DeserializeSerialize | rust/tic_tac_toe_server_rust/src/schemas.rs:31-57 | Reading back what `serialize` wrote gives the board |
| RustSchemas.DeserializeAccepts | rust/tic_tac_toe_server_rust/src/schemas.rs:39-57 | A board is read exactly from three rows of three strings that `from_str` accepts |
| RustSchemas.DeserializeCells | rust/tic_tac_toe_server_rust/src/schemas.rs:47-56 | Cell (i, j) of the board read is the parsed string at row i, column j |
| RustSchemas.DeserializeRejectsCell | rust/tic_tac_toe_server_rust/src/schemas.rs:43 | A rejected string is reported, whatever the shape, as the first one in reading order |
| RustSchemas.DeserializeRejectsShape | rust/tic_tac_toe_server_rust/src/schemas.rs:44-51 | With valid strings, a wrong row count is reported before a wrong row length |
| RustSchemas.SerializeIsPythonRows | rust/tic_tac_toe_server_rust/src/schemas.rs:31-37 | The Rust JSON board holds the same strings as a Python board list |
| RustServer.NewManager | rust/tic_tac_toe_server_rust/src/server.rs:52-79 | A new manager has no game and lists exactly "Human" then "Random", each of which it can build |
| RustServer.CreateAgentInstance | rust/tic_tac_toe_server_rust/src/server.rs:81-87 | Success exactly for a registered name, building an agent for the requested player; otherwise "Unknown agent type: name" |
| RustServer.CreateAgentOfNew | rust/tic_tac_toe_server_rust/src/server.rs:56-87 | "Human" builds no agent, "Random" a random agent for the player, any other name is an error |
| RustServer.CreateGameInstance | rust/tic_tac_toe_server_rust/src/server.rs:89-96 | X's type is checked first, then O's; success exactly when both are registered, giving a new game with the two built agents |
| RustServer.AgentLoop | rust/tic_tac_toe_server_rust/src/server.rs:109-151 | The loop only adds marks, never adds free cells, never ends a game's `game_over`, and keeps the agents and the human |
| RustServer.AgentLoopStops | rust/tic_tac_toe_server_rust/src/server.rs:115-148 | With the agents the server builds, the loop ends only on a finished game, on the human's turn or with no agent to move |
| RustServer.RandomAgentsFinish | rust/tic_tac_toe_server_rust/src/server.rs:115-131 | Two random agents and no human always play the game to its end, whatever the random picks |
| RustServer.StartNewGame | rust/tic_tac_toe_server_rust/src/server.rs:98-107 | A refused request leaves the manager and reports the creation error; otherwise the new game replaces any old one after the agent loop has run |
| RustServer.RandomGameIsPlayedOut | rust/tic_tac_toe_server_rust/src/server.rs:98-151 | Starting "Random" against "Random" with no human returns a finished game |
| RustServer.MakePlayerMove | rust/tic_tac_toe_server_rust/src/server.rs:153-164 | "Game not started" with no game; the move's own error text when refused; otherwise the game after the move, without the agent loop |
| RustServer.GetCurrentGameState | rust/tic_tac_toe_server_rust/src/server.rs:166-175 | "Game not started" exactly when there is no game; otherwise that game's fields |
| RustServer.StateAfterCalls | rust/tic_tac_toe_server_rust/src/server.rs:98-175 | After a successful start or move the state reported is the game that call returned |
| RustServer.RefusedMoveKeepsState | rust/tic_tac_toe_server_rust/src/server.rs:153-164 | A refused move changes nothing the server reports |
| RustServer.MoveTurn | rust/tic_tac_toe_server_rust/src/server.rs:263-276 | A move request fails exactly when the player's move is refused, leaving the manager; otherwise the agents answer and the state reported is the state stored |
| RustServer.AgentsAnswerMove | rust/tic_tac_toe_server_rust/src/server.rs:263-276 | After an accepted move, the agents keep moving until the game is over, the human is to move again, or no agent can move |
| RustClient.ClientShowsRustBoard | CUI/cui_display.py:1-17 | The console client draws exactly the board the Rust server sends |
| RustClient.RustDrawShownAsWin | rust/tic_tac_toe_server_rust/src/game_logic.rs:168-170 | The Rust draw winner `Some(None)` reaches the client as " ", so the client never prints the draw message for a Rust game and announces "Game Over: Player   wins!" instead |
| RustClient.DrawAwareViewShowsDraw | CUI/cui_display.py:18-22 | With the draw worded "draw", as the client expects, the draw message appears exactly for a drawn game, over the same grid |

## Left out

- Q-learning agent, training and evaluation scripts: the learning step lives in a compiled module that is not part of this model, and they use floating point and file I/O.
- ChatGPT agent: a network call to a language model.
- Python `server/` package and `agent_discovery.py`: web framework glue and reflection. The BLE adapter's `GameManager` is a parameter of two functions; the agent loop is modelled once, on the Rust `GameManager`.
- Loading and saving the tables (`load_database`, `load_perfect_moves`, `create_database.main`): file and JSON I/O. The tables are in-memory maps.
- Actix handlers, the mutex, `lib.rs`, `main.rs` and `async`: HTTP routing and concurrency. `RustServer.MoveTurn` keeps only the manager calls `make_move_handler` makes, and `get_move` is a plain function.
- `MoveRequest`'s `validate(range)` attributes: never invoked by the handler; rows and columns are `nat`, and `usize` overflow is not modelled.
- Probabilities of `random.choice` and `thread_rng`: the pick is a parameter, and only "any candidate can be chosen" is stated.
- GUI, BLE hardware, micro:bit and Java client code: rendering and device I/O.
- `CUI/client.py`: its `display_board` duplicates `CUI/cui_display.py`.
- Python boards holding strings other than "X", "O" and " ": cells are the three-valued `Grid.Cell`. `BoardKey.StringToBoard` rejects other characters. Python would carry them through.
- BoardKey.StringToBoard: `None` for a string whose length is not nine. Python's `string_to_board` never fails: it slices such a string into rows that are short or empty (and drops characters after the ninth), which the lookup agents would then index out of range or misread. Keys written by `create_database` always have nine characters.
- GameAdapter.HandleStripped: an exception raised by `start_new_game` for "START_P1" or "START_P2" (an unknown agent type, say, or a first agent move that fails) propagates out of `handle_command`, which has no `try` there; the model's manager always returns a game.
- PyText.ParseInt: `int()` on Unicode digits other than ASCII 0-9 is not modelled.
- RustSchemas.Deserialize: serde's own errors for non-array or non-string JSON values, and the position text it adds to messages, are not modelled; the JSON is already an array of arrays of strings.
- MinimaxAgent.Minimax: the call at `agents/minimax_agent.py:58` is overwritten by the identical call at line 61 and is modelled as one call. The value of the whole game tree (a draw from the empty board) is not proved: it needs the full tree evaluated.
- RustServer.AgentLoopStops: assumes the agents are random ones or absent, as `GameManager::new` registers; a `HumanAgent` stored as an agent would stop the loop after the state check.
- LookupAgents.PerfectMove: `KeyError`s are `LookupError` values with their key; `tests/test_perfect_agent.py` expects a `ValueError` for an unknown board, and the code raises `KeyError`, which the model follows.

## Findings

| source | as written | input that shows it | evidently intended | confidence | as-written member | corrected member |
|---|---|---|---|---|---|---|
| rust/tic_tac_toe_server_rust/src/game_logic.rs:168-170 | A draw sets `winner` to `Some(Player::None)`, which serialises as `" "`; the console client of `CUI/cui_display.py:18-22` tests only for `"draw"`, and `" "` is a truthy string | any full board without a complete line, for example `XOX/XOO/OXX` | the client prints "Game Over: It's a draw!", as it does for the Python server's `"draw"` | not executed | RustClient.RustDrawShownAsWin | RustClient.DrawAwareViewShowsDraw |
