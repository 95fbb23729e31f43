/** The `GameManager` of `rust/tic_tac_toe_server_rust/src/server.rs`, minus
    the actix handlers and the mutex around it.  Each `&mut self` method
    returns the new manager beside its result.  The random draws of the
    agents are the parameter `choose`: the pick made on each board.  Within
    one run of the agent loop every board has one more mark than the one
    before, so a function of the board can give any sequence of picks. */
module RustServer {
  import opened Outcomes
  import opened Grid
  import opened RustAgents
  import opened RustGame
  import opened RustSchemas

  /** The two closures `new` registers: "Human" builds no agent and
      "Random" a `RandomAgent` for the requested player. */
  datatype AgentFactory = NoAgent | RandomFactory

  function Build(f: AgentFactory, player: Cell): (r: Option<Agent>)
    ensures r.Some? ==> r.value == RandomAgent(player)
  {
    match f
    case NoAgent => None
    case RandomFactory => Some(RandomAgent(player))
  }

  datatype Manager = Manager(
    game: Option<Game>,
    agentNames: seq<string>,
    factories: map<string, AgentFactory>)

  /** The `StartGameRequest` body. */
  datatype StartGameRequest = StartGameRequest(
    humanPlayerSymbol: Option<Cell>,
    playerXType: string,
    playerOType: string)

  /** Every listed agent name can be built, and only those. */
  ghost predicate Registered(m: Manager)
  {
    forall name :: name in m.factories <==> name in m.agentNames
  }

  /** `GameManager::new`. */
  function New(): Manager
  {
    Manager(None, ["Human", "Random"], map["Human" := NoAgent, "Random" := RandomFactory])
  }

  /** `get_available_agents`. */
  function GetAvailableAgents(m: Manager): seq<string>
  {
    m.agentNames
  }

  /** A new manager has no game and offers "Human" then "Random", each of
      which it can build. */
  lemma NewManager()
    ensures New().game.None?
    ensures GetAvailableAgents(New()) == ["Human", "Random"]
    ensures Registered(New())
  {
  }

  /** `create_agent_instance`: the registered factory's agent, or an error
      naming an unknown type. */
  function CreateAgentInstance(m: Manager, agentType: string, player: Cell): (r: Result<Option<Agent>, string>)
    ensures r.Ok? <==> agentType in m.factories
    ensures r.Err? ==> r.error == "Unknown agent type: " + agentType
    ensures r.Ok? && r.value.Some? ==> GetPlayer(r.value.value) == player
  {
    if agentType in m.factories then Ok(Build(m.factories[agentType], player))
    else Err("Unknown agent type: " + agentType)
  }

  /** On the manager `new` builds, "Human" gives no agent, "Random" a random
      agent for the player, and any other name an error. */
  lemma CreateAgentOfNew(agentType: string, player: Cell)
    ensures agentType == "Human" ==> CreateAgentInstance(New(), agentType, player) == Ok(None)
    ensures agentType == "Random" ==> CreateAgentInstance(New(), agentType, player) == Ok(Some(RandomAgent(player)))
    ensures agentType != "Human" && agentType != "Random" ==>
      CreateAgentInstance(New(), agentType, player) == Err("Unknown agent type: " + agentType)
  {
  }

  /** `create_game_instance`: X's agent is built first, so an unknown X
      type is the error reported even when O's is unknown too. */
  function CreateGameInstance(m: Manager, xType: string, oType: string, human: Option<Cell>): (r: Result<Game, string>)
    ensures xType !in m.factories ==> r == Err("Unknown agent type: " + xType)
    ensures xType in m.factories && oType !in m.factories ==> r == Err("Unknown agent type: " + oType)
    ensures r.Ok? <==> xType in m.factories && oType in m.factories
    ensures r.Ok? ==> r.value == NewGame(Build(m.factories[xType], X), Build(m.factories[oType], O), human)
  {
    match CreateAgentInstance(m, xType, X)
    case Err(e) => Err(e)
    case Ok(agentX) =>
      match CreateAgentInstance(m, oType, O)
      case Err(e) => Err(e)
      case Ok(agentO) => Ok(NewGame(agentX, agentO, human))
  }

  /** Every cell already marked in `a` holds the same mark in `b`. */
  predicate Extends(b: Board, a: Board)
  {
    forall i :: 0 <= i < 9 && a[i] != Empty ==> b[i] == a[i]
  }

  /** `_make_agent_move_if_needed`: while the game is on and the player to
      move is not the human, that player's agent is asked for a move.  The
      loop stops when there is no agent, when the agent proposes nothing
      (after the state is checked), when it fails, or when its move is
      refused; a played move passes the turn and the loop goes on. */
  function AgentLoop(g: Game, choose: Board -> nat): (r: Game)
    ensures Extends(r.board, g.board)
    ensures CountEmpty(r.board) <= CountEmpty(g.board)
    ensures r.human == g.human && r.agentX == g.agentX && r.agentO == g.agentO
    ensures g.gameOver ==> r.gameOver
    decreases CountEmpty(g.board)
  {
    if g.gameOver || g.human == Some(g.current) then g
    else match GetCurrentAgent(g)
      case None => g
      case Some(agent) =>
        match GetMove(agent, g.board, choose(g.board))
        case Err(_) => g
        case Ok(None) => CheckGameState(g)
        case Ok(Some(p)) =>
          match MakeMove(g, p.row, p.col)
          case Err(_) => g
          case Ok(next) =>
            MakeMoveFillsOneCell(g, p.row, p.col);
            AgentLoop(next, choose)
  }

  /** The only agents the server builds are random ones. */
  predicate RandomOrAbsent(g: Game)
  {
    && (g.agentX.Some? ==> g.agentX.value.RandomAgent?)
    && (g.agentO.Some? ==> g.agentO.value.RandomAgent?)
  }

  /** With the agents the server builds, the loop only ever stops on a game
      that is over, on the human's turn, or with no agent to move. */
  lemma {:induction false} AgentLoopStops(g: Game, choose: Board -> nat)
    requires IsMark(g.current) && RandomOrAbsent(g)
    ensures var r := AgentLoop(g, choose);
      r.gameOver || r.human == Some(r.current) || GetCurrentAgent(r).None?
    decreases CountEmpty(g.board)
  {
    if !g.gameOver && g.human != Some(g.current) && GetCurrentAgent(g).Some? {
      var agent := GetCurrentAgent(g).value;
      match GetMove(agent, g.board, choose(g.board))
      case Ok(None) =>
      case Ok(Some(p)) =>
        MakeMoveFillsOneCell(g, p.row, p.col);
        var next := MakeMove(g, p.row, p.col).value;
        assert AgentLoop(g, choose) == AgentLoop(next, choose);
        AgentLoopStops(next, choose);
    }
  }

  /** Two random agents and no human always play the game to its end. */
  lemma {:induction false} RandomAgentsFinish(g: Game, choose: Board -> nat)
    requires IsMark(g.current) && g.human.None?
    requires g.agentX == Some(RandomAgent(X)) && g.agentO == Some(RandomAgent(O))
    ensures AgentLoop(g, choose).gameOver
    decreases CountEmpty(g.board)
  {
    if !g.gameOver {
      var agent := GetCurrentAgent(g).value;
      match GetMove(agent, g.board, choose(g.board))
      case Ok(None) =>
      case Ok(Some(p)) =>
        MakeMoveFillsOneCell(g, p.row, p.col);
        var next := MakeMove(g, p.row, p.col).value;
        RandomAgentsFinish(next, choose);
    }
  }

  /** `start_new_game`: a failed request leaves the manager as it was;
      otherwise the new game replaces any previous one and the agents move
      until it is the human's turn or the game is over. */
  function StartNewGame(m: Manager, req: StartGameRequest, choose: Board -> nat): (r: (Manager, Result<Game, string>))
    ensures r.1.Err? ==> r.0 == m && r.1 == CreateGameInstance(m, req.playerXType, req.playerOType, req.humanPlayerSymbol)
    ensures r.1.Ok? <==> req.playerXType in m.factories && req.playerOType in m.factories
    ensures r.1.Ok? ==> r.0 == m.(game := Some(r.1.value))
    ensures r.1.Ok? ==>
      r.1.value == AgentLoop(CreateGameInstance(m, req.playerXType, req.playerOType, req.humanPlayerSymbol).value, choose)
  {
    match CreateGameInstance(m, req.playerXType, req.playerOType, req.humanPlayerSymbol)
    case Err(e) => (m, Err(e))
    case Ok(g) =>
      var played := AgentLoop(g, choose);
      (m.(game := Some(played)), Ok(played))
  }

  /** A game started with two "Random" players and no human is over when
      `start_new_game` returns it. */
  lemma RandomGameIsPlayedOut(choose: Board -> nat)
    ensures var r := StartNewGame(New(), StartGameRequest(None, "Random", "Random"), choose);
      r.1.Ok? && r.1.value.gameOver
  {
    var g := NewGame(Some(RandomAgent(X)), Some(RandomAgent(O)), None);
    RandomAgentsFinish(g, choose);
  }

  /** `make_player_move`: "Game not started" with no game, the move's own
      error text when it is refused, and otherwise the game after the move.
      The agents do not move here. */
  function MakePlayerMove(m: Manager, row: nat, col: nat): (r: (Manager, Result<Game, string>))
    ensures m.game.None? ==> r == (m, Err("Game not started"))
    ensures m.game.Some? && MakeMove(m.game.value, row, col).Err? ==> r == (m, Err(MakeMove(m.game.value, row, col).error))
    ensures r.1.Ok? ==> m.game.Some? && MakeMove(m.game.value, row, col) == r.1
    ensures r.1.Ok? ==> r.0 == m.(game := Some(r.1.value))
  {
    match m.game
    case None => (m, Err("Game not started"))
    case Some(g) =>
      match MakeMove(g, row, col)
      case Err(e) => (m, Err(e))
      case Ok(next) => (m.(game := Some(next)), Ok(next))
  }

  /** The response body for a game. */
  function StateOf(g: Game): BoardState
  {
    BoardState(g.board, g.current, g.winner, g.winnerLine, g.gameOver)
  }

  /** `get_current_game_state`: the fields of the current game, or "Game
      not started". */
  function GetCurrentGameState(m: Manager): (r: Result<BoardState, string>)
    ensures r.Err? <==> m.game.None?
    ensures r.Err? ==> r.error == "Game not started"
    ensures r.Ok? ==> r.value == StateOf(m.game.value)
  {
    match m.game
    case None => Err("Game not started")
    case Some(g) => Ok(StateOf(g))
  }

  /** What `make_move_handler` asks of the manager: the player's move, then,
      if it was accepted, the agents' replies, then the state to report.  A
      refused move is reported with its error and changes nothing. */
  function MoveTurn(m: Manager, row: nat, col: nat, choose: Board -> nat): (r: (Manager, Result<BoardState, string>))
    ensures r.1.Err? <==> MakePlayerMove(m, row, col).1.Err?
    ensures r.1.Err? ==> r.0 == m && r.1.error == MakePlayerMove(m, row, col).1.error
    ensures r.1.Ok? ==> GetCurrentGameState(r.0) == r.1
    ensures r.1.Ok? ==>
      r.0 == m.(game := Some(AgentLoop(MakePlayerMove(m, row, col).1.value, choose)))
  {
    match MakePlayerMove(m, row, col)
    case (_, Err(e)) => (m, Err(e))
    case (m1, Ok(g)) =>
      var played := AgentLoop(g, choose);
      (m1.(game := Some(played)), Ok(StateOf(played)))
  }

  /** With the agents the server builds, an accepted move is answered until
      the game is over, the human is to move again, or no agent can move. */
  lemma AgentsAnswerMove(m: Manager, row: nat, col: nat, choose: Board -> nat)
    requires m.game.Some? && IsMark(m.game.value.current) && RandomOrAbsent(m.game.value)
    ensures var (m1, r) := MoveTurn(m, row, col, choose);
      r.Ok? ==>
        && m1.game.Some?
        && (r.value.gameOver || m.game.value.human == Some(r.value.currentPlayer) || GetCurrentAgent(m1.game.value).None?)
  {
    var g := m.game.value;
    if MakeMove(g, row, col).Ok? {
      var next := MakeMove(g, row, col).value;
      assert IsMark(next.current);
      assert RandomOrAbsent(next);
      AgentLoopStops(next, choose);
    }
  }

  /** The state reported after a successful start or move is the game that
      call returned. */
  lemma StateAfterCalls(m: Manager, req: StartGameRequest, choose: Board -> nat, row: nat, col: nat)
    ensures var (m1, r) := StartNewGame(m, req, choose);
      r.Ok? ==> GetCurrentGameState(m1) == Ok(StateOf(r.value))
    ensures var (m1, r) := MakePlayerMove(m, row, col);
      r.Ok? ==> GetCurrentGameState(m1) == Ok(StateOf(r.value))
  {
  }

  /** A move refused by the game changes nothing the server reports. */
  lemma RefusedMoveKeepsState(m: Manager, row: nat, col: nat)
    ensures MakePlayerMove(m, row, col).1.Err? ==>
      GetCurrentGameState(MakePlayerMove(m, row, col).0) == GetCurrentGameState(m)
  {
  }
}
