/** The agents of `rust/tic_tac_toe_server_rust/src/agents.rs`.  The
    `Agent` trait objects are the two implementations the server can build,
    `HumanAgent` and `RandomAgent`, each holding the player it moves for.
    `get_move` is `async` in the source; here it is a plain function, and
    `thread_rng` is the parameter `pick` of `Grid.PickEmpty`. */
module RustAgents {
  import opened Outcomes
  import opened Grid

  datatype Agent = HumanAgent(player: Cell) | RandomAgent(player: Cell)

  /** `get_player()`. */
  function GetPlayer(a: Agent): Cell
  {
    a.player
  }

  /** `box_clone()`: a copy of the same kind for the same player. */
  function BoxClone(a: Agent): (r: Agent)
    ensures GetPlayer(r) == GetPlayer(a)
    ensures r.HumanAgent? <==> a.HumanAgent?
  {
    match a
    case HumanAgent(p) => HumanAgent(p)
    case RandomAgent(p) => RandomAgent(p)
  }

  /** `get_move(board)`: a human agent never proposes a move; a random agent
      proposes one of the free cells, or nothing on a full board.  Neither
      returns an error. */
  function GetMove(a: Agent, b: Board, pick: nat): (r: Result<Option<Pos>, string>)
    ensures r.Ok?
    ensures a.HumanAgent? ==> r.value.None?
    ensures a.RandomAgent? ==> (r.value.None? <==> IsFull(b))
    ensures r.value.Some? ==> OnBoard(r.value.value) && CellAt(b, r.value.value) == Empty
  {
    match a
    case HumanAgent(_) => Ok(None)
    case RandomAgent(_) => Ok(PickEmpty(b, pick))
  }

  /** Every free cell is a move the random agent may make. */
  lemma RandomAgentReachesEveryCell(player: Cell, b: Board, p: Pos)
    requires OnBoard(p) && CellAt(b, p) == Empty
    ensures exists pick: nat :: GetMove(RandomAgent(player), b, pick) == Ok(Some(p))
  {
    EveryEmptyCellCanBePicked(b, p);
    var pick: nat :| PickEmpty(b, pick) == Some(p);
    assert GetMove(RandomAgent(player), b, pick) == Ok(Some(p));
  }
}
