/** The Python `TicTacToe` class of `game_logic.py`: a board, the player to
    move, the human's and the agent's marks, the agent, the winning line and
    the game-over flag.  Each mutating method is a function from the old
    object to the new one. */
module PyGame {
  import opened Outcomes
  import opened Grid
  import BaseAgent

  /** The two agents `_create_agent` can build. */
  datatype AgentKind = RandomAgentKind | MinimaxAgentKind

  datatype Game = Game(
    board: Board,
    current: Cell,
    human: Cell,
    agentMark: Cell,
    agent: AgentKind,
    winnerLine: Option<Line>,
    gameOver: bool)

  /** The agent-type names `_create_agent` accepts. */
  const RandomAgentName: string := "ランダム"
  const MinimaxAgentName: string := "Minimax"

  /** `TicTacToe(player_first, agent_type)`: an empty board with "X" to move;
      the human takes "X" when playing first and "O" otherwise, the agent the
      other mark; an unknown agent type raises `ValueError`. */
  function New(playerFirst: bool, agentType: string): (r: Result<Game, string>)
    ensures r.Ok? <==> agentType == RandomAgentName || agentType == MinimaxAgentName
    ensures r.Err? ==> r.error == "Invalid agent type provided"
    ensures r.Ok? ==>
      && r.value.board == EmptyBoard
      && r.value.current == X
      && (r.value.human == X <==> playerFirst)
      && IsMark(r.value.human) && r.value.agentMark == OtherMark(r.value.human)
      && r.value.winnerLine.None? && !r.value.gameOver
      && (r.value.agent == RandomAgentKind <==> agentType == RandomAgentName)
  {
    var human := if playerFirst then X else O;
    var agentMark := if playerFirst then O else X;
    if agentType == RandomAgentName then
      Ok(Game(EmptyBoard, X, human, agentMark, RandomAgentKind, None, false))
    else if agentType == MinimaxAgentName then
      Ok(Game(EmptyBoard, X, human, agentMark, MinimaxAgentKind, None, false))
    else
      Err("Invalid agent type provided")
  }

  /** Python indexing of a 3-element list: -3..-1 count from the end, and
      any other index outside 0..2 raises `IndexError`. */
  function ListIndex(i: int): (r: Option<int>)
    ensures r.Some? <==> -3 <= i < 3
    ensures r.Some? ==> 0 <= r.value < 3 && r.value == i % 3
  {
    if 0 <= i < 3 then Some(i)
    else if -3 <= i < 0 then Some(i + 3)
    else None
  }

  /** What `make_move` returned and the object afterwards. */
  datatype Attempt = Attempt(placed: bool, game: Game)

  /** `make_move(row, col)`: refused when the game is over, before any
      indexing; otherwise `board[row][col]` is indexed the Python way and an
      empty cell receives the mark of the player to move. */
  function MakeMove(g: Game, row: int, col: int): (r: Result<Attempt, string>)
    ensures g.gameOver ==> r == Ok(Attempt(false, g))
    ensures !g.gameOver ==> (r.Ok? <==> -3 <= row < 3 && -3 <= col < 3)
    ensures r.Err? ==> r.error == "list index out of range"
    ensures r.Ok? && !r.value.placed ==> r.value.game == g
    ensures r.Ok? && !g.gameOver ==>
      (r.value.placed <==> CellAt(g.board, Pos(row % 3, col % 3)) == Empty)
    ensures r.Ok? && r.value.placed ==>
      && !g.gameOver
      && r.value.game == g.(board := g.board[Index(Pos(row % 3, col % 3)) := g.current])
  {
    if g.gameOver then Ok(Attempt(false, g))
    else match (ListIndex(row), ListIndex(col))
      case (Some(r), Some(c)) =>
        var i := Index(Pos(r, c));
        if g.board[i] == Empty then Ok(Attempt(true, g.(board := g.board[i := g.current])))
        else Ok(Attempt(false, g))
      case _ => Err("list index out of range")
  }

  /** Python's negative indices reach the board: `make_move(-1, -1)` marks
      the bottom-right cell. */
  lemma NegativeIndicesWrap(g: Game)
    requires !g.gameOver && g.board[8] == Empty
    ensures MakeMove(g, -1, -1) == Ok(Attempt(true, g.(board := g.board[8 := g.current])))
  {}

  /** `check_winner()`: the same classification as `BaseAgent.check_winner`;
      a win records the first complete line in `winner_line` and ends the
      game, a draw ends the game and keeps `winner_line`, and an open board
      changes nothing. */
  function CheckWinner(g: Game): (r: (BaseAgent.Verdict, Game))
    ensures r.0 == BaseAgent.CheckWinner(g.board)
    ensures r.0.Winner? ==>
      && r.1 == g.(winnerLine := Some(InterleavedOrder[FirstComplete(g.board, InterleavedOrder, 0).value]), gameOver := true)
      && Complete(g.board, r.1.winnerLine.value)
      && LineMark(g.board, r.1.winnerLine.value) == r.0.mark
    ensures r.0 == BaseAgent.Draw ==> r.1 == g.(gameOver := true)
    ensures r.0 == BaseAgent.Ongoing ==> r.1 == g
  {
    match FirstComplete(g.board, InterleavedOrder, 0)
    case Some(k) =>
      var line := InterleavedOrder[k];
      (BaseAgent.Winner(LineMark(g.board, line)), g.(winnerLine := Some(line), gameOver := true))
    case None =>
      if IsFull(g.board) then (BaseAgent.Draw, g.(gameOver := true))
      else (BaseAgent.Ongoing, g)
  }

  /** A verdict of "draw" or a win is final: checking again gives the same
      verdict and object. */
  lemma CheckWinnerIdempotent(g: Game)
    ensures CheckWinner(CheckWinner(g).1) == CheckWinner(g)
  {}

  /** `switch_player()`: "O" after "X", and "X" after anything else. */
  function SwitchPlayer(g: Game): (r: Game)
    ensures IsMark(r.current)
    ensures IsMark(g.current) ==> r.current != g.current
    ensures r.(current := g.current) == g
  {
    g.(current := OtherMark(g.current))
  }

  /** Switching twice restores the player to move. */
  lemma SwitchPlayerInvolution(g: Game)
    requires IsMark(g.current)
    ensures SwitchPlayer(SwitchPlayer(g)) == g
  {}

  /** `agent_move()`, the agent's proposal being a parameter: no proposal is
      a refusal, and a proposal goes through `make_move`, so the mark written
      is that of the player to move, not the agent's own. */
  function AgentMove(g: Game, proposal: Option<Pos>): (r: Result<Attempt, string>)
    ensures proposal.None? ==> r == Ok(Attempt(false, g))
    ensures r.Ok? && !r.value.placed ==> r.value.game == g
    ensures proposal.Some? && OnBoard(proposal.value) && CellAt(g.board, proposal.value) == Empty && !g.gameOver ==>
      r == Ok(Attempt(true, g.(board := g.board[Index(proposal.value) := g.current])))
  {
    match proposal
    case None => Ok(Attempt(false, g))
    case Some(p) => MakeMove(g, p.row, p.col)
  }
}
