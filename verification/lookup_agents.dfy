/** The table-driven agents of `agents/database_agent.py` and
    `agents/perfect_agent.py`.  Both key the board with the same
    `board_to_string` as `create_database.py` (`BoardKey.Key`) and turn a
    cell number into `(row, col)` with `index_to_move` (`Grid.PosOf`).  The
    tables are in-memory maps; reading them from JSON files is not part of
    this model.  The random fallback is `Grid.PickEmpty`, the same choice as
    `agents/random_agent.py`. */
module LookupAgents {
  import opened Outcomes
  import opened Grid
  import opened BoardKey
  import opened CreateDatabase

  /** `DatabaseAgent.get_move(board)`: a recorded board answers with its
      `best_move` (-1 meaning no move) without checking that the cell is
      free; an unrecorded board gets a random free cell. */
  function DatabaseMove(b: Board, db: Database, pick: nat): (r: Option<Pos>)
    ensures Key(b) in db && db[Key(b)].bestMove == -1 ==> r.None?
    ensures Key(b) in db && db[Key(b)].bestMove != -1 ==>
      r.Some? && Index(r.value) == db[Key(b)].bestMove && 0 <= r.value.col < 3
    ensures Key(b) !in db ==> (r.None? <==> IsFull(b))
    ensures Key(b) !in db && r.Some? ==> OnBoard(r.value) && CellAt(b, r.value) == Empty
  {
    var key := Key(b);
    if key in db then
      var m := db[key].bestMove;
      if m == -1 then None else Some(PosOf(m))
    else PickEmpty(b, pick)
  }

  /** The entry a well-formed table holds for `b` fits `b` itself. */
  lemma EntryFitsBoard(b: Board, db: Database)
    requires WellFormed(db) && Key(b) in db
    ensures EntryFits(b, db[Key(b)])
  {
    KeyRoundTrip(b);
  }

  /** With a well-formed table the agent only ever plays a free cell, and it
      declines to move only on a board that is won or full. */
  lemma DatabaseMoveLegal(b: Board, db: Database, pick: nat)
    requires WellFormed(db)
    ensures DatabaseMove(b, db, pick).Some? ==>
      OnBoard(DatabaseMove(b, db, pick).value) && CellAt(b, DatabaseMove(b, db, pick).value) == Empty
    ensures DatabaseMove(b, db, pick).None? ==> DbWinner(b).Some? || IsFull(b)
  {
    if Key(b) in db {
      EntryFitsBoard(b, db);
    }
  }

  /** On an open board, the table `create_database` builds from that board
      makes the agent play the table's `best_move`: the first free cell of
      the highest minimax score. */
  lemma DatabaseMoveFollowsTable(b: Board, player: Cell, db: Database, pick: nat)
    requires IsMark(player) && Key(b) !in db && DbWinner(b).None? && !IsFull(b)
    ensures DatabaseMove(b, Create(b, player, db), pick) == Some(PosOf(BestMove(b, player)))
  {
    CreateEntry(b, player, db);
  }

  /** The contents of `perfect_moves.json`: key to `best_move`. */
  type PerfectMoves = map<string, int>

  /** The two `KeyError`s `get_move` raises, told apart by their messages. */
  datatype LookupError = GameOver(key: string) | NotFound(key: string)

  /** The message each `KeyError` carries. */
  function Message(e: LookupError): string
  {
    match e
    case GameOver(key) => "The game is over for the board: " + key
    case NotFound(key) =>
      "No perfect move found in perfect_moves for board: " + key
      + ". This pattern is not registered in the dictionary."
  }

  /** `PerfectAgent.get_move(board)`: a recorded move is returned as
      `(row, col)`; a recorded -1 is the "game over" error and an unrecorded
      board the "not found" error, both naming the key.  No board yields
      `None`. */
  function PerfectMove(b: Board, table: PerfectMoves): (r: Result<Pos, LookupError>)
    ensures r.Ok? <==> Key(b) in table && table[Key(b)] != -1
    ensures r.Ok? ==> Index(r.value) == table[Key(b)] && 0 <= r.value.col < 3
    ensures r.Err? ==> r.error.key == Key(b)
    ensures r.Err? ==> (r.error.GameOver? <==> Key(b) in table)
  {
    var key := Key(b);
    if key in table then
      var m := table[key];
      if m == -1 then Err(GameOver(key)) else Ok(PosOf(m))
    else Err(NotFound(key))
  }

  /** The perfect-move table of a database: each key's `best_move`. */
  function MovesOf(db: Database): (t: PerfectMoves)
    ensures forall key :: key in t <==> key in db
    ensures forall key :: key in t ==> t[key] == db[key].bestMove
  {
    map key | key in db :: db[key].bestMove
  }

  /** Given the moves of a database, the perfect agent plays what the
      database agent plays on every recorded board, and raises exactly where
      the database agent would fall back to a random move or decline. */
  lemma PerfectAgreesWithDatabase(b: Board, db: Database, pick: nat)
    ensures PerfectMove(b, MovesOf(db)).Ok? ==> DatabaseMove(b, db, pick) == Some(PerfectMove(b, MovesOf(db)).value)
    ensures PerfectMove(b, MovesOf(db)).Err? <==> Key(b) !in db || DatabaseMove(b, db, pick).None?
  {
  }

  /** Played from the moves of a well-formed database, every perfect move is
      a free cell, and "game over" is raised only on a board that is won or
      full. */
  lemma PerfectMoveLegal(b: Board, db: Database)
    requires WellFormed(db)
    ensures PerfectMove(b, MovesOf(db)).Ok? ==>
      OnBoard(PerfectMove(b, MovesOf(db)).value) && CellAt(b, PerfectMove(b, MovesOf(db)).value) == Empty
    ensures PerfectMove(b, MovesOf(db)).Err? && PerfectMove(b, MovesOf(db)).error.GameOver? ==>
      DbWinner(b).Some? || IsFull(b)
  {
    if Key(b) in db {
      EntryFitsBoard(b, db);
    }
  }
}
