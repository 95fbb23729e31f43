/** `rust/tic_tac_toe_server_rust/src/game_logic.rs`: the `Player` type and
    the `TicTacToe` struct.  `Player::None` is `Grid.Empty`, the 3x3 array
    the row-major `Grid.Board`, and a winning line the cell numbers
    `r * 3 + c` of its three coordinates.  Each `&mut self` method is a
    function from the old struct to the new one. */
module RustGame {
  import opened Outcomes
  import opened Grid
  import opened RustAgents
  import BaseAgent

  /** `impl Display for Player`. */
  function PlayerText(p: Cell): string
  {
    match p
    case X => "X"
    case O => "O"
    case Empty => " "
  }

  /** `impl FromStr for Player`: "X" and "O", the three spellings of an
      empty cell " ", "." and "", and an error naming anything else. */
  function ParsePlayer(s: string): (r: Result<Cell, string>)
    ensures r.Ok? <==> s == "X" || s == "O" || s == " " || s == "." || s == ""
    ensures r.Ok? ==> (r.value == Empty <==> s == " " || s == "." || s == "")
    ensures r.Ok? && IsMark(r.value) ==> PlayerText(r.value) == s
    ensures r.Err? ==> r.error == "Invalid player string: " + s
  {
    if s == "X" then Ok(X)
    else if s == "O" then Ok(O)
    else if s == " " || s == "." || s == "" then Ok(Empty)
    else Err("Invalid player string: " + s)
  }

  /** Parsing what `Display` printed gives the player back. */
  lemma ParsePlayerText(p: Cell)
    ensures ParsePlayer(PlayerText(p)) == Ok(p)
  {
  }

  /** `Player::opponent`: X and O swap and `None` stays. */
  function Opponent(p: Cell): (r: Cell)
    ensures IsMark(p) <==> IsMark(r)
    ensures IsMark(p) ==> r != p && r == OtherMark(p)
  {
    match p
    case X => O
    case O => X
    case Empty => Empty
  }

  lemma OpponentInvolution(p: Cell)
    ensures Opponent(Opponent(p)) == p
  {
  }

  /** The `TicTacToe` struct.  `winner` is `Some(Empty)` for a draw. */
  datatype Game = Game(
    board: Board,
    current: Cell,
    winner: Option<Cell>,
    winnerLine: Option<Line>,
    gameOver: bool,
    agentX: Option<Agent>,
    agentO: Option<Agent>,
    human: Option<Cell>)

  /** `TicTacToe::new`: an empty board with X to move and nothing decided. */
  function NewGame(agentX: Option<Agent>, agentO: Option<Agent>, human: Option<Cell>): (g: Game)
    ensures g.board == EmptyBoard && g.current == X
    ensures g.winner.None? && g.winnerLine.None? && !g.gameOver
    ensures g.agentX == agentX && g.agentO == agentO && g.human == human
  {
    Game(EmptyBoard, X, None, None, false, agentX, agentO, human)
  }

  /** `check_winner_logic`: the first of rows, columns, main and
      anti-diagonal whose three cells hold one player, with that player. */
  function CheckWinnerLogic(b: Board): (r: (Option<Cell>, Option<Line>))
    ensures r.0.Some? <==> r.1.Some?
    ensures r.0.Some? <==> exists k :: 0 <= k < 8 && Complete(b, RowsFirstOrder[k])
    ensures r.1.Some? ==> Complete(b, r.1.value) && r.0.value == LineMark(b, r.1.value) && IsMark(r.0.value)
    ensures r.1.Some? ==>
      exists k :: (0 <= k < 8 && r.1.value == RowsFirstOrder[k] &&
        forall j :: 0 <= j < k ==> !Complete(b, RowsFirstOrder[j]))
  {
    match FirstComplete(b, RowsFirstOrder, 0)
    case Some(k) => (Some(LineMark(b, RowsFirstOrder[k])), Some(RowsFirstOrder[k]))
    case None => (None, None)
  }

  /** The Rust scan and the Python agents' scan find a winner on the same
      boards and name the same player, although they visit the lines in a
      different order. */
  lemma CheckWinnerLogicAgrees(b: Board)
    ensures CheckWinnerLogic(b).0.Some? <==> BaseAgent.CheckWinner(b).Winner?
    ensures CheckWinnerLogic(b).0.Some? ==> CheckWinnerLogic(b).0.value == BaseAgent.CheckWinner(b).mark
  {
    ScanOrdersAgreeOnMark(b);
  }

  /** `check_game_state`: a win records the player and the line and ends the
      game; a full board without a win is a draw (`winner` is
      `Some(None)`); otherwise nothing changes.  `game_over` is never
      cleared, and a draw leaves `winner_line` as it was. */
  function CheckGameState(g: Game): (r: Game)
    ensures r.board == g.board && r.current == g.current && r.human == g.human
    ensures r.agentX == g.agentX && r.agentO == g.agentO
    ensures g.gameOver ==> r.gameOver
    ensures CheckWinnerLogic(g.board).0.Some? ==>
      r == g.(winner := CheckWinnerLogic(g.board).0, winnerLine := CheckWinnerLogic(g.board).1, gameOver := true)
    ensures CheckWinnerLogic(g.board).0.None? && IsFull(g.board) ==>
      r == g.(winner := Some(Empty), gameOver := true)
    ensures CheckWinnerLogic(g.board).0.None? && !IsFull(g.board) ==> r == g
    ensures IsFull(g.board) ==> r.gameOver
  {
    var (w, line) := CheckWinnerLogic(g.board);
    if w.Some? then g.(winner := w, winnerLine := line, gameOver := true)
    else if IsFull(g.board) then g.(winner := Some(Empty), gameOver := true)
    else g
  }

  /** Checking the state twice is checking it once. */
  lemma CheckGameStateIdempotent(g: Game)
    ensures CheckGameState(CheckGameState(g)) == CheckGameState(g)
  {
  }

  /** `switch_player`. */
  function SwitchPlayer(g: Game): (r: Game)
    ensures r.(current := g.current) == g
    ensures IsMark(g.current) ==> IsMark(r.current) && r.current != g.current
  {
    g.(current := Opponent(g.current))
  }

  /** `make_move(row, col)`: refused with the first applicable reason, in
      this order: the game is over, the coordinates are off the board, the
      cell is taken.  Otherwise the player to move takes the cell, the state
      is checked, and the turn passes unless the game has ended. */
  function MakeMove(g: Game, row: nat, col: nat): (r: Result<Game, string>)
    ensures g.gameOver ==> r == Err("Game is already over.")
    ensures !g.gameOver && (row >= 3 || col >= 3) ==> r == Err("Move is out of board bounds.")
    ensures !g.gameOver && row < 3 && col < 3 && g.board[3 * row + col] != Empty ==>
      r == Err("Cell is already occupied.")
    ensures r.Ok? <==> !g.gameOver && row < 3 && col < 3 && g.board[3 * row + col] == Empty
    ensures r.Ok? ==>
      var placed := CheckGameState(g.(board := g.board[3 * row + col := g.current]));
      r.value == if placed.gameOver then placed else SwitchPlayer(placed)
  {
    if g.gameOver then Err("Game is already over.")
    else if row >= 3 || col >= 3 then Err("Move is out of board bounds.")
    else if g.board[3 * row + col] != Empty then Err("Cell is already occupied.")
    else
      var placed := CheckGameState(g.(board := g.board[3 * row + col := g.current]));
      Ok(if placed.gameOver then placed else SwitchPlayer(placed))
  }

  /** A successful move by a player fills exactly one free cell with that
      player's mark and leaves every other cell alone. */
  lemma MakeMoveFillsOneCell(g: Game, row: nat, col: nat)
    requires MakeMove(g, row, col).Ok? && IsMark(g.current)
    ensures var b := MakeMove(g, row, col).value.board;
      && b[3 * row + col] == g.current
      && (forall i :: 0 <= i < 9 && i != 3 * row + col ==> b[i] == g.board[i])
      && CountEmpty(b) == CountEmpty(g.board) - 1
  {
    FillingDecrements(g.board, 3 * row + col, g.current);
  }

  /** `get_available_moves`: the free cells, row by row. */
  method GetAvailableMoves(g: Game) returns (moves: seq<Pos>)
    ensures moves == EmptyCells(g.board)
    ensures forall p :: p in moves <==> OnBoard(p) && CellAt(g.board, p) == Empty
    ensures |moves| == 0 <==> IsFull(g.board)
  {
    var b := g.board;
    moves := [];
    var r := 0;
    while r < 3
      invariant 0 <= r <= 3
      invariant moves == EmptyCellsBefore(b, 3 * r)
    {
      var c := 0;
      while c < 3
        invariant 0 <= c <= 3
        invariant moves == EmptyCellsBefore(b, 3 * r + c)
      {
        PosOfIndex(Pos(r, c));
        if b[3 * r + c] == Empty {
          moves := moves + [Pos(r, c)];
        } else {
          assert moves + [] == moves;
        }
        c := c + 1;
      }
      r := r + 1;
    }
  }

  /** `get_current_agent`: the agent of the player to move. */
  function GetCurrentAgent(g: Game): (r: Option<Agent>)
    ensures g.current == X ==> r == g.agentX
    ensures g.current == O ==> r == g.agentO
    ensures g.current == Empty ==> r.None?
  {
    match g.current
    case X => g.agentX
    case O => g.agentO
    case Empty => None
  }
}
